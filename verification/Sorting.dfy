/**
 * Stable sorting, as sort.SliceStable promises it. An insertion sort stands for it: under a weak order the result
 * is an ordered arrangement of the input, and where the order is strict on the input there is only one of these,
 * so which stable algorithm sorts does not matter. Mapping keeps rearrangements rearrangements.
 */
module Sorting {

  /** Puts x behind every element it is not less than, starting from the back. */
  function Insert<T>(s: seq<T>, x: T, less: (T, T) -> bool): (r: seq<T>)
    ensures multiset(r) == multiset(s) + multiset{x}
  {
    if s == [] || !less(x, s[|s| - 1]) then
      s + [x]
    else
      assert s == s[..|s| - 1] + [s[|s| - 1]];
      Insert(s[..|s| - 1], x, less) + [s[|s| - 1]]
  }

  function StableSort<T>(s: seq<T>, less: (T, T) -> bool): (r: seq<T>)
    ensures multiset(r) == multiset(s)
  {
    if s == [] then []
    else
      assert s == s[..|s| - 1] + [s[|s| - 1]];
      Insert(StableSort(s[..|s| - 1], less), s[|s| - 1], less)
  }

  /** less is the strict part of a total preorder. */
  ghost predicate WeakOrder<T(!new)>(less: (T, T) -> bool) {
    && (forall x, y :: less(x, y) ==> !less(y, x))
    && (forall x, y, z :: !less(y, x) && !less(z, y) ==> !less(z, x))
  }

  ghost predicate Ordered<T(!new)>(s: seq<T>, less: (T, T) -> bool) {
    forall i, j | 0 <= i < j < |s| :: !less(s[j], s[i])
  }

  lemma {:induction false} InsertOrders<T(!new)>(s: seq<T>, x: T, less: (T, T) -> bool)
    requires WeakOrder(less) && Ordered(s, less)
    ensures Ordered(Insert(s, x, less), less)
    decreases |s|
  {
    if s != [] && less(x, s[|s| - 1]) {
      var t, z := s[..|s| - 1], s[|s| - 1];
      InsertOrders(t, x, less);
      var r := Insert(t, x, less);
      forall i | 0 <= i < |r| ensures !less(z, r[i]) {
        assert r[i] in multiset(r);
        assert r[i] in t || r[i] == x;
      }
    } else if s != [] {
      forall i | 0 <= i < |s| ensures !less(x, s[i]) {
        assert i < |s| - 1 ==> !less(s[|s| - 1], s[i]);
      }
    }
  }

  lemma {:induction false} StableSortOrders<T(!new)>(s: seq<T>, less: (T, T) -> bool)
    requires WeakOrder(less)
    ensures Ordered(StableSort(s, less), less)
    decreases |s|
  {
    if s != [] {
      StableSortOrders(s[..|s| - 1], less);
      InsertOrders(StableSort(s[..|s| - 1], less), s[|s| - 1], less);
    }
  }

  ghost predicate StrictlyOrdered<T(!new)>(s: seq<T>, less: (T, T) -> bool) {
    forall i, j | 0 <= i < j < |s| :: less(s[i], s[j])
  }

  lemma IndexIn<T>(s: seq<T>, x: T) returns (i: nat)
    requires x in multiset(s)
    ensures i < |s| && s[i] == x
  {
    assert x in s;
    i :| i < |s| && s[i] == x;
  }

  lemma LastAgrees<T(!new)>(a: seq<T>, b: seq<T>, less: (T, T) -> bool)
    requires WeakOrder(less) && StrictlyOrdered(a, less) && Ordered(b, less) && multiset(a) == multiset(b)
    requires a != [] && b != []
    ensures a[|a| - 1] == b[|b| - 1]
  {
    var x, y := a[|a| - 1], b[|b| - 1];
    assert x in multiset(a) && y in multiset(b);
    var i := IndexIn(b, x);
    var j := IndexIn(a, y);
    assert i < |b| - 1 ==> !less(y, x);
    assert j < |a| - 1 ==> less(y, x);
  }

  lemma DropLast<T>(a: seq<T>, b: seq<T>)
    requires a != [] && b != [] && multiset(a) == multiset(b) && a[|a| - 1] == b[|b| - 1]
    ensures multiset(a[..|a| - 1]) == multiset(b[..|b| - 1])
  {
    assert a == a[..|a| - 1] + [a[|a| - 1]];
    assert b == b[..|b| - 1] + [b[|b| - 1]];
    assert multiset(a[..|a| - 1]) == multiset(a) - multiset{a[|a| - 1]};
  }

  lemma PrefixOrdered<T(!new)>(a: seq<T>, b: seq<T>, n: nat, less: (T, T) -> bool)
    requires StrictlyOrdered(a, less) && Ordered(b, less) && n <= |a| && n <= |b|
    ensures StrictlyOrdered(a[..n], less) && Ordered(b[..n], less)
  {
  }

  /** A strictly ordered arrangement is the only ordered one. */
  lemma {:induction false} OnlyOrdered<T(!new)>(a: seq<T>, b: seq<T>, less: (T, T) -> bool)
    requires WeakOrder(less) && StrictlyOrdered(a, less) && Ordered(b, less) && multiset(a) == multiset(b)
    ensures a == b
    decreases |a|
  {
    assert |multiset(a)| == |a| && |multiset(b)| == |b|;
    if a != [] {
      var n := |a| - 1;
      LastAgrees(a, b, less);
      DropLast(a, b);
      PrefixOrdered(a, b, n, less);
      OnlyOrdered(a[..n], b[..n], less);
      assert a == a[..n] + [a[n]] && b == b[..n] + [b[n]];
    }
  }

  function Map<T, U>(s: seq<T>, f: T -> U): (r: seq<U>)
    ensures |r| == |s| && forall i | 0 <= i < |s| :: r[i] == f(s[i])
  {
    seq(|s|, i requires 0 <= i < |s| => f(s[i]))
  }

  lemma MapTakesOut<T, U>(s: seq<T>, i: nat, f: T -> U)
    requires i < |s|
    ensures multiset(s) == multiset(s[..i] + s[i + 1..]) + multiset{s[i]}
    ensures multiset(Map(s, f)) == multiset(Map(s[..i] + s[i + 1..], f)) + multiset{f(s[i])}
  {
    assert s == s[..i] + [s[i]] + s[i + 1..];
    var r := Map(s, f);
    assert r == r[..i] + [r[i]] + r[i + 1..];
    assert Map(s[..i] + s[i + 1..], f) == r[..i] + r[i + 1..];
  }

  /** Mapping rearranged sequences gives rearranged sequences. */
  lemma {:induction false} MapPermutes<T, U>(a: seq<T>, b: seq<T>, f: T -> U)
    requires multiset(a) == multiset(b)
    ensures multiset(Map(a, f)) == multiset(Map(b, f))
    decreases |a|
  {
    assert |multiset(a)| == |a| && |multiset(b)| == |b|;
    if a != [] {
      var n := |a| - 1;
      assert a[n] in multiset(b);
      var i := IndexIn(b, a[n]);
      MapTakesOut(a, n, f);
      MapTakesOut(b, i, f);
      assert a[..n] + a[n + 1..] == a[..n];
      var rest := b[..i] + b[i + 1..];
      assert multiset(a[..n]) == multiset(a) - multiset{a[n]};
      assert multiset(rest) == multiset(b) - multiset{a[n]};
      MapPermutes(a[..n], rest, f);
    }
  }
}
