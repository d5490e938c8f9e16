/** The fast path itself, proved to leave exactly the graph the plain meaning of the query leaves. */
module TwoHopFast {
  import opened Text
  import opened TwoHop

  type Adjacency = map<Bytes, set<Bytes>>

  function Neighbors(adj: Adjacency, v: Bytes): set<Bytes> {
    if v in adj then adj[v] else {}
  }

  /** Every recorded neighbour is joined by an edge of the type, and every such edge is recorded. */
  ghost predicate OutOf(g: Graph, edgeType: Bytes, adj: Adjacency) {
    forall s, d :: d in Neighbors(adj, s) <==> Joined(g, edgeType, s, d)
  }

  ghost predicate Around(g: Graph, edgeType: Bytes, adj: Adjacency) {
    forall s, d :: d in Neighbors(adj, s) <==> Joined(g, edgeType, s, d) || Joined(g, edgeType, d, s)
  }

  function Link(adj: Adjacency, s: Bytes, d: Bytes): Adjacency {
    adj[s := Neighbors(adj, s) + {d}]
  }

  lemma LinkNeighbors(adj: Adjacency, s: Bytes, d: Bytes)
    ensures forall x, y :: y in Neighbors(Link(adj, s, d), x) <==> y in Neighbors(adj, x) || (x == s && y == d)
  {
  }

  /** An edge of the type among those scanned so far. */
  ghost predicate Scanned(g: Graph, seen: set<Bytes>, edgeType: Bytes, s: Bytes, d: Bytes) {
    exists e :: e in seen && Joins(g, e, edgeType, s, d)
  }

  lemma ScannedMore(g: Graph, seen: set<Bytes>, edgeType: Bytes, e: Bytes)
    requires e in g.edges
    ensures forall s, d :: Scanned(g, seen + {e}, edgeType, s, d) <==>
                           Scanned(g, seen, edgeType, s, d) || g.edges[e] == Edge(edgeType, s, d)
  {
    forall s, d ensures Scanned(g, seen + {e}, edgeType, s, d) <==>
                        Scanned(g, seen, edgeType, s, d) || g.edges[e] == Edge(edgeType, s, d)
    {
      if Scanned(g, seen, edgeType, s, d) {
        var o :| o in seen && Joins(g, o, edgeType, s, d);
        assert o in seen + {e};
      }
      if g.edges[e] == Edge(edgeType, s, d) {
        assert e in seen + {e} && Joins(g, e, edgeType, s, d);
      }
    }
  }

  lemma OutSources(g: Graph, edgeType: Bytes, adj: Adjacency)
    requires OutOf(g, edgeType, adj) && forall s | s in adj :: adj[s] != {}
    ensures adj.Keys == Sources(g, edgeType)
  {
    forall s ensures s in adj <==> s in Sources(g, edgeType) {
      if s in adj {
        var d :| d in adj[s];
        assert d in Neighbors(adj, s);
        var e :| Joins(g, e, edgeType, s, d);
      }
      if s in Sources(g, edgeType) {
        var e :| e in g.edges && g.edges[e].edgeType == edgeType && g.edges[e].src == s;
        assert Joins(g, e, edgeType, s, g.edges[e].dst);
        assert g.edges[e].dst in Neighbors(adj, s);
      }
    }
  }

  method BuildOutAdjacency(g: Graph, edgeType: Bytes) returns (adj: Adjacency)
    requires GoodEnds(g)
    ensures OutOf(g, edgeType, adj)
    ensures adj.Keys == Sources(g, edgeType)
  {
    adj := map[];
    var todo := g.edges.Keys;
    ghost var seen: set<Bytes> := {};
    while todo != {}
      invariant seen + todo == g.edges.Keys
      invariant forall s, d :: d in Neighbors(adj, s) <==> Scanned(g, seen, edgeType, s, d)
      invariant forall s | s in adj :: adj[s] != {}
      decreases todo
    {
      var e :| e in todo;
      todo := todo - {e};
      ScannedMore(g, seen, edgeType, e);
      seen := seen + {e};
      if g.edges[e].edgeType == edgeType {
        var srcId, dstId := Trim(g.edges[e].src), Trim(g.edges[e].dst);
        TrimFixesTrimmed(g.edges[e].src);
        TrimFixesTrimmed(g.edges[e].dst);
        if srcId != [] && dstId != [] {
          LinkNeighbors(adj, srcId, dstId);
          adj := Link(adj, srcId, dstId);
        }
      }
    }
    assert seen == g.edges.Keys;
    OutSources(g, edgeType, adj);
  }

  /** adj holds both directions of the edges scanned so far. */
  ghost predicate ScannedAround(g: Graph, seen: set<Bytes>, edgeType: Bytes, adj: Adjacency) {
    forall s, d :: d in Neighbors(adj, s) <==> Scanned(g, seen, edgeType, s, d) || Scanned(g, seen, edgeType, d, s)
  }

  lemma ScannedAroundStep(g: Graph, seen: set<Bytes>, edgeType: Bytes, adj: Adjacency, e: Bytes)
    requires e in g.edges && ScannedAround(g, seen, edgeType, adj)
    ensures var s, d := g.edges[e].src, g.edges[e].dst;
            ScannedAround(g, seen + {e}, edgeType,
                          if g.edges[e].edgeType == edgeType then Link(Link(adj, s, d), d, s) else adj)
  {
    ScannedMore(g, seen, edgeType, e);
    var s, d := g.edges[e].src, g.edges[e].dst;
    if g.edges[e].edgeType == edgeType {
      LinkNeighbors(adj, s, d);
      LinkNeighbors(Link(adj, s, d), d, s);
      assert g.edges[e] == Edge(edgeType, s, d);
    }
  }

  method BuildUndirectedAdjacency(g: Graph, edgeType: Bytes) returns (adj: Adjacency)
    requires GoodEnds(g)
    ensures Around(g, edgeType, adj)
  {
    adj := map[];
    var todo := g.edges.Keys;
    ghost var seen: set<Bytes> := {};
    while todo != {}
      invariant seen + todo == g.edges.Keys
      invariant ScannedAround(g, seen, edgeType, adj)
      decreases todo
    {
      var e :| e in todo;
      todo := todo - {e};
      ScannedAroundStep(g, seen, edgeType, adj, e);
      seen := seen + {e};
      if g.edges[e].edgeType == edgeType {
        var srcId, dstId := Trim(g.edges[e].src), Trim(g.edges[e].dst);
        TrimFixesTrimmed(g.edges[e].src);
        TrimFixesTrimmed(g.edges[e].dst);
        if srcId != [] && dstId != [] {
          adj := Link(adj, srcId, dstId);
          adj := Link(adj, dstId, srcId);
        }
      }
    }
    assert seen == g.edges.Keys;
  }

  /** Remembered label checks agree with the graph. */
  ghost predicate CacheOk(g: Graph, wanted: seq<Bytes>, cache: map<Bytes, bool>) {
    forall v | v in cache :: cache[v] == Labelled(g, v, wanted)
  }

  method MatchesLabels(g: Graph, v: Bytes, wanted: seq<Bytes>, cache: map<Bytes, bool>)
    returns (matched: bool, cache': map<Bytes, bool>)
    requires GoodId(v) && CacheOk(g, wanted, cache)
    ensures matched == Labelled(g, v, wanted) && CacheOk(g, wanted, cache')
  {
    TrimFixesTrimmed(v);
    var vertexId := Trim(v);
    cache' := cache;
    if vertexId == [] {
      return false, cache;
    }
    if vertexId in cache {
      return cache[vertexId], cache;
    }
    matched := true;
    var i := 0;
    while i < |wanted|
      invariant 0 <= i <= |wanted| && matched
      invariant forall j | 0 <= j < i :: Blank(wanted[j]) || Trim(wanted[j]) in LabelsOf(g, v)
    {
      var name := Trim(wanted[i]);
      if name != [] && name !in LabelsOf(g, vertexId) {
        matched := false;
        break;
      }
      i := i + 1;
    }
    cache' := cache[vertexId := matched];
  }

  // ---------------------------------------------------------------- the nested loops

  /** Everything about a pair that does not depend on the path between its ends. */
  ghost predicate Eligible(g: Graph, q: Query, p: Pair) {
    && Labelled(g, p.right, q.right) && p.left != p.right
    && !Joined(g, q.direct, p.left, p.right) && !Joined(g, q.direct, p.right, p.left)
  }

  /** What the loops have come across so far: the pairs, who took which key, and the order of the left ends. */
  datatype Seen = Seen(offered: set<Pair>, firsts: map<Bytes, Pair>, lefts: seq<Bytes>)

  /**
   * Each key belongs to the first pair that came with it, and no left end after that pair's was needed to
   * find it. The eligible ones among these pairs, and only those, are kept.
   */
  ghost predicate Kept(g: Graph, q: Query, s: Seen, seenKeys: set<Bytes>, pairs: map<Bytes, Pair>) {
    && Ordered(s)
    && seenKeys == s.firsts.Keys
    && (forall k | k in s.firsts :: s.firsts[k] in s.offered && PairKey(s.firsts[k]) == k)
    && (forall k :: k in pairs <==> k in s.firsts && Eligible(g, q, s.firsts[k]))
    && (forall k | k in pairs :: pairs[k] == s.firsts[k])
  }

  ghost predicate Ordered(s: Seen) {
    && NoRepeats(s.lefts)
    && (forall p | p in s.offered :: p.left in s.lefts)
    && (forall p | p in s.offered :: PairKey(p) in s.firsts && !Before(s.lefts, p.left, s.firsts[PairKey(p)].left))
  }

  lemma BeforeMore(lefts: seq<Bytes>, l: Bytes, a: Bytes, b: Bytes)
    requires l !in lefts && b in lefts
    ensures Before(lefts + [l], a, b) ==> Before(lefts, a, b)
  {
    if i, j :| 0 <= i < j < |lefts + [l]| && (lefts + [l])[i] == a && (lefts + [l])[j] == b {
      assert lefts[i] == a && lefts[j] == b;
    }
  }

  /** The outer loop goes on to a new left end. */
  lemma NextLeft(g: Graph, q: Query, s: Seen, seenKeys: set<Bytes>, pairs: map<Bytes, Pair>, l: Bytes)
    requires Kept(g, q, s, seenKeys, pairs) && l !in s.lefts
    ensures Kept(g, q, s.(lefts := s.lefts + [l]), seenKeys, pairs)
  {
    forall p | p in s.offered ensures !Before(s.lefts + [l], p.left, s.firsts[PairKey(p)].left) {
      BeforeMore(s.lefts, l, p.left, s.firsts[PairKey(p)].left);
    }
  }

  /** The outer loop is at l. */
  predicate IsAt(s: Seen, l: Bytes) {
    s.lefts != [] && s.lefts[|s.lefts| - 1] == l
  }

  function Taken(s: Seen, p: Pair): Seen {
    Seen(s.offered + {p}, if PairKey(p) in s.firsts then s.firsts else s.firsts[PairKey(p) := p], s.lefts)
  }

  lemma TakenOrdered(s: Seen, p: Pair)
    requires Ordered(s) && IsAt(s, p.left)
    ensures Ordered(Taken(s, p))
  {
    var s' := Taken(s, p);
    forall o | o in s'.offered
      ensures PairKey(o) in s'.firsts && !Before(s'.lefts, o.left, s'.firsts[PairKey(o)].left)
    {
    }
  }

  /** One more pair: it is kept if it is eligible and the first with its key. */
  lemma TakenKept(g: Graph, q: Query, s: Seen, seenKeys: set<Bytes>, pairs: map<Bytes, Pair>, p: Pair)
    requires Kept(g, q, s, seenKeys, pairs) && IsAt(s, p.left)
    ensures Kept(g, q, Taken(s, p), seenKeys + {PairKey(p)},
                 if PairKey(p) !in seenKeys && Eligible(g, q, p) then pairs[PairKey(p) := p] else pairs)
  {
    hide Ordered, Eligible, IsAt, PairKey;
    TakenOrdered(s, p);
  }

  class Collector {
    const g: Graph
    const q: Query
    var pairs: map<Bytes, Pair>
    var seenPairKeys: set<Bytes>
    var leftCache: map<Bytes, bool>
    var midCache: map<Bytes, bool>
    var rightCache: map<Bytes, bool>
    ghost var seen: Seen

    ghost predicate Valid()
      reads this
    {
      GoodEnds(g) && Kept(g, q, seen, seenPairKeys, pairs) && CachesOk()
    }

    ghost predicate At(l: Bytes)
      reads this
    {
      Valid() && GoodId(l) && IsAt(seen, l)
    }

    ghost predicate CachesOk()
      reads this
    {
      CacheOk(g, q.left, leftCache) && CacheOk(g, q.mid, midCache) && CacheOk(g, q.right, rightCache)
    }

    constructor (g: Graph, q: Query)
      requires GoodEnds(g)
      ensures Valid() && seen == Seen({}, map[], []) && this.g == g && this.q == q
    {
      this.g, this.q := g, q;
      pairs, seenPairKeys, leftCache, midCache, rightCache := map[], {}, map[], map[], map[];
      seen := Seen({}, map[], []);
    }

    method Offer(l: Bytes, r: Bytes, antiJoin: set<Bytes>)
      requires At(l) && GoodId(r)
      requires forall d :: d in antiJoin <==> Joined(g, q.direct, l, d) || Joined(g, q.direct, d, l)
      modifies this
      ensures Valid() && seen.lefts == old(seen.lefts)
      ensures seen.offered == if l == r then old(seen.offered) else old(seen.offered) + {Pair(l, r)}
    {
      TrimFixesTrimmed(r);
      var rightId := Trim(r);
      if rightId == [] || rightId == l {
        return;
      }
      var p := Pair(l, rightId);
      var pairKey := PairKey(p);
      hide Kept;
      TakenKept(g, q, seen, seenPairKeys, pairs, p);
      seen := Taken(seen, p);
      if pairKey in seenPairKeys {
        assert seenPairKeys + {pairKey} == seenPairKeys;
        return;
      }
      seenPairKeys := seenPairKeys + {pairKey};
      if rightId in antiJoin {
        return;
      }
      var matched;
      matched, rightCache := MatchesLabels(g, rightId, q.right, rightCache);
      if matched {
        pairs := pairs[pairKey := p];
      }
    }

    /** All right ends behind one middle vertex. */
    method VisitMid(l: Bytes, rights: set<Bytes>, antiJoin: set<Bytes>)
      requires At(l) && forall r | r in rights :: GoodId(r)
      requires forall d :: d in antiJoin <==> Joined(g, q.direct, l, d) || Joined(g, q.direct, d, l)
      modifies this
      ensures Valid() && seen.lefts == old(seen.lefts)
      ensures forall p :: p in seen.offered <==>
                p in old(seen.offered) || (p.left == l && p.right in rights && p.left != p.right)
    {
      hide Kept, CacheOk;
      var todo := rights;
      while todo != {}
        invariant At(l) && seen.lefts == old(seen.lefts) && todo <= rights
        invariant forall p :: p in seen.offered <==>
                    p in old(seen.offered) || (p.left == l && p.right in rights - todo && p.left != p.right)
        decreases todo
      {
        var r :| r in todo;
        todo := todo - {r};
        Offer(l, r, antiJoin);
      }
    }

    /** The pair's ends are joined over one of the given middle vertices. */
    ghost predicate Via(secondOut: Adjacency, mids: set<Bytes>, l: Bytes, p: Pair) {
      p.left == l && p.left != p.right
      && exists m :: m in mids && Labelled(g, m, q.mid) && p.right in Neighbors(secondOut, m)
    }

    lemma ViaMore(secondOut: Adjacency, mids: set<Bytes>, m: Bytes, l: Bytes)
      ensures forall p :: Via(secondOut, mids + {m}, l, p) <==>
                Via(secondOut, mids, l, p)
                || (Labelled(g, m, q.mid) && p.left == l && p.right in Neighbors(secondOut, m) && p.left != p.right)
    {
      forall p ensures Via(secondOut, mids + {m}, l, p) <==>
                         Via(secondOut, mids, l, p)
                         || (Labelled(g, m, q.mid) && p.left == l && p.right in Neighbors(secondOut, m)
                             && p.left != p.right)
      {
        if Via(secondOut, mids, l, p) {
          var n :| n in mids && Labelled(g, n, q.mid) && p.right in Neighbors(secondOut, n);
          assert n in mids + {m};
        }
        if Labelled(g, m, q.mid) && p.left == l && p.right in Neighbors(secondOut, m) && p.left != p.right {
          assert m in mids + {m};
        }
      }
    }

    /** All middle vertices behind one left vertex. */
    method VisitLeft(l: Bytes, mids: set<Bytes>, secondOut: Adjacency, antiJoin: set<Bytes>)
      requires At(l) && forall m | m in mids :: GoodId(m)
      requires forall m, r | r in Neighbors(secondOut, m) :: GoodId(r)
      requires forall d :: d in antiJoin <==> Joined(g, q.direct, l, d) || Joined(g, q.direct, d, l)
      modifies this
      ensures Valid() && seen.lefts == old(seen.lefts)
      ensures forall p :: p in seen.offered <==> p in old(seen.offered) || Via(secondOut, mids, l, p)
    {
      hide Kept, CacheOk, Labelled;
      var todo := mids;
      ghost var done: set<Bytes> := {};
      while todo != {}
        invariant At(l) && seen.lefts == old(seen.lefts) && todo + done == mids
        invariant forall p :: p in seen.offered <==> p in old(seen.offered) || Via(secondOut, done, l, p)
        decreases todo
      {
        var m :| m in todo;
        todo := todo - {m};
        ViaMore(secondOut, done, m, l);
        done := done + {m};
        var matched;
        matched, midCache := MatchesLabels(g, m, q.mid, midCache);
        if matched {
          VisitMid(l, Neighbors(secondOut, m), antiJoin);
        }
      }
      assert done == mids;
    }

    /** The pair starts at one of the given left vertices. */
    ghost predicate From(firstOut: Adjacency, secondOut: Adjacency, lefts: set<Bytes>, p: Pair) {
      p.left in lefts && Labelled(g, p.left, q.left) && Via(secondOut, Neighbors(firstOut, p.left), p.left, p)
    }

    lemma FromMore(firstOut: Adjacency, secondOut: Adjacency, lefts: set<Bytes>, l: Bytes)
      ensures forall p :: From(firstOut, secondOut, lefts + {l}, p) <==>
                From(firstOut, secondOut, lefts, p)
                || (Labelled(g, l, q.left) && Via(secondOut, Neighbors(firstOut, l), l, p))
    {
    }

    /** The end points that the loops come across. */
    ghost predicate GoodMaps(firstOut: Adjacency, secondOut: Adjacency, direct: Adjacency)
      reads this
    {
      && Around(g, q.direct, direct)
      && (forall l, m | m in Neighbors(firstOut, l) :: GoodId(m))
      && (forall m, r | r in Neighbors(secondOut, m) :: GoodId(r))
    }

    /** The outer loop goes on to l. */
    method VisitNext(l: Bytes, firstOut: Adjacency, secondOut: Adjacency, direct: Adjacency)
      requires Valid() && l !in seen.lefts && l in firstOut && GoodId(l) && GoodMaps(firstOut, secondOut, direct)
      modifies this
      ensures Valid() && seen.lefts == old(seen.lefts) + [l]
      ensures forall p :: p in seen.offered <==>
                p in old(seen.offered)
                || (Labelled(g, l, q.left) && Via(secondOut, Neighbors(firstOut, l), l, p))
    {
      hide Kept, CacheOk, Labelled, Via;
      NextLeft(g, q, seen, seenPairKeys, pairs, l);
      seen := seen.(lefts := seen.lefts + [l]);
      var matched;
      matched, leftCache := MatchesLabels(g, l, q.left, leftCache);
      if matched {
        assert firstOut[l] == Neighbors(firstOut, l);
        VisitLeft(l, firstOut[l], secondOut, Neighbors(direct, l));
      }
    }

    /** All left vertices, in any order. */
    method VisitAll(firstOut: Adjacency, secondOut: Adjacency, direct: Adjacency)
      requires Valid() && seen == Seen({}, map[], [])
      requires OutOf(g, q.first, firstOut) && OutOf(g, q.second, secondOut) && Around(g, q.direct, direct)
      requires forall l | l in firstOut :: GoodId(l)
      modifies this
      ensures Valid() && forall v :: v in seen.lefts <==> v in firstOut
      ensures forall p :: p in seen.offered <==> From(firstOut, secondOut, firstOut.Keys, p)
    {
      NeighborsGood(g, q.first, firstOut);
      NeighborsGood(g, q.second, secondOut);
      assert GoodMaps(firstOut, secondOut, direct);
      hide Valid, GoodMaps, Via, Labelled, GoodId;
      var todo := firstOut.Keys;
      ghost var done: set<Bytes> := {};
      while todo != {}
        invariant Valid() && todo + done == firstOut.Keys && todo !! done
        invariant GoodMaps(firstOut, secondOut, direct)
        invariant forall v :: v in seen.lefts <==> v in done
        invariant forall p :: p in seen.offered <==> From(firstOut, secondOut, done, p)
        decreases todo
      {
        var l :| l in todo;
        todo := todo - {l};
        FromMore(firstOut, secondOut, done, l);
        done := done + {l};
        VisitNext(l, firstOut, secondOut, direct);
      }
      assert done == firstOut.Keys;
    }
  }

  lemma NeighborsGood(g: Graph, edgeType: Bytes, adj: Adjacency)
    requires GoodEnds(g) && OutOf(g, edgeType, adj)
    ensures forall s, d | d in Neighbors(adj, s) :: GoodId(s) && GoodId(d)
  {
    forall s, d | d in Neighbors(adj, s) ensures GoodId(s) && GoodId(d) {
      var e :| Joins(g, e, edgeType, s, d);
    }
  }

  // ---------------------------------------------------------------- what the loops have found

  /** Over distinct ends, a path in the adjacency maps is a path over two edges. */
  lemma FoundArePaths(g: Graph, q: Query, firstOut: Adjacency, secondOut: Adjacency, c: Collector, p: Pair)
    requires c.g == g && c.q == q && OutOf(g, q.first, firstOut) && OutOf(g, q.second, secondOut)
    ensures c.From(firstOut, secondOut, firstOut.Keys, p) <==> p in Paths(g, q)
  {
    if c.From(firstOut, secondOut, firstOut.Keys, p) {
      var m :| m in Neighbors(firstOut, p.left) && Labelled(g, m, q.mid) && p.right in Neighbors(secondOut, m);
      var e1 :| Joins(g, e1, q.first, p.left, m);
      var e2 :| Joins(g, e2, q.second, m, p.right);
      assert Path(g, q, e1, e2) && Pair(g.edges[e1].src, g.edges[e2].dst) == p;
    }
    if p in Paths(g, q) {
      var e1, e2 :| e1 in g.edges && e2 in g.edges && Path(g, q, e1, e2)
                    && p == Pair(g.edges[e1].src, g.edges[e2].dst);
      var m := g.edges[e1].dst;
      assert Joins(g, e1, q.first, p.left, m) && Joins(g, e2, q.second, m, p.right);
      assert m in Neighbors(firstOut, p.left) && p.right in Neighbors(secondOut, m);
    }
  }

  /** What the fast path checks of such a pair makes it a match: with distinct ends the two edges differ. */
  lemma EligibleAreSuggested(g: Graph, q: Query, p: Pair)
    ensures p in Paths(g, q) && Eligible(g, q, p) <==> p in Suggestions(g, q)
  {
    if p in Paths(g, q) && Eligible(g, q, p) {
      var e1, e2 :| e1 in g.edges && e2 in g.edges && Path(g, q, e1, e2)
                    && p == Pair(g.edges[e1].src, g.edges[e2].dst);
      assert e1 != e2 && Match(g, q, e1, e2);
    }
    if p in Suggestions(g, q) {
      var e1, e2 :| e1 in g.edges && e2 in g.edges && Match(g, q, e1, e2)
                    && p == Pair(g.edges[e1].src, g.edges[e2].dst);
      assert Path(g, q, e1, e2);
    }
  }

  /** The pairs kept are those whose key no earlier left end has taken. */
  lemma KeptAreKeptIn(g: Graph, q: Query, s: Seen, seenKeys: set<Bytes>, pairs: map<Bytes, Pair>, p: Pair)
    requires Kept(g, q, s, seenKeys, pairs) && s.offered == Paths(g, q)
    ensures KeptIn(g, q, s.lefts, p) <==> PairKey(p) in pairs && pairs[PairKey(p)] == p
  {
    EligibleAreSuggested(g, q, p);
    if KeptIn(g, q, s.lefts, p) {
      var f := s.firsts[PairKey(p)];
      SameOrBefore(s.lefts, p.left, f.left);
      PairKeyFromLeft(p, f);
    }
  }

  method CollectPairs(g: Graph, q: Query) returns (pairs: map<Bytes, Pair>, ghost lefts: seq<Bytes>)
    requires GoodEnds(g)
    ensures IsOrder(g, q, lefts)
    ensures forall p :: KeptIn(g, q, lefts, p) <==> PairKey(p) in pairs && pairs[PairKey(p)] == p
    ensures forall k | k in pairs :: PairKey(pairs[k]) == k
  {
    var firstOut := BuildOutAdjacency(g, q.first);
    var secondOut := BuildOutAdjacency(g, q.second);
    var direct := BuildUndirectedAdjacency(g, q.direct);
    var c := new Collector(g, q);
    c.VisitAll(firstOut, secondOut, direct);
    pairs, lefts := c.pairs, c.seen.lefts;
    hide OutOf, Around, GoodEnds, KeptIn;
    forall p ensures p in c.seen.offered <==> p in Paths(g, q) {
      FoundArePaths(g, q, firstOut, secondOut, c, p);
    }
    assert c.seen.offered == Paths(g, q);
    forall p ensures KeptIn(g, q, lefts, p) <==> PairKey(p) in pairs && pairs[PairKey(p)] == p {
      KeptAreKeptIn(g, q, c.seen, c.seenPairKeys, pairs, p);
    }
  }

  // ---------------------------------------------------------------- writing the edges

  predicate HasDirectedEdge(g: Graph, edgeType: Bytes, src: Bytes, dst: Bytes) {
    exists e | e in g.edges :: g.edges[e] == Edge(edgeType, src, dst)
  }

  lemma HasIsJoined(g: Graph, edgeType: Bytes, src: Bytes, dst: Bytes)
    ensures HasDirectedEdge(g, edgeType, src, dst) <==> Joined(g, edgeType, src, dst)
  {
    if e :| e in g.edges && g.edges[e] == Edge(edgeType, src, dst) {
      assert Joins(g, e, edgeType, src, dst);
    }
  }

  /** Asks for all pairs at once or, when the store cannot answer that, pair by pair. */
  method ProbeExisting(g: Graph, q: Query, probes: seq<Pair>, batch: bool) returns (existing: seq<bool>)
    ensures |existing| == |probes|
    ensures forall i | 0 <= i < |probes| :: existing[i] == Joined(g, q.merge, probes[i].left, probes[i].right)
  {
    forall p: Pair ensures HasDirectedEdge(g, q.merge, p.left, p.right) <==> Joined(g, q.merge, p.left, p.right) {
      HasIsJoined(g, q.merge, p.left, p.right);
    }
    if batch {
      existing :=
        seq(|probes|, i requires 0 <= i < |probes| => HasDirectedEdge(g, q.merge, probes[i].left, probes[i].right));
      return;
    }
    existing := [];
    while |existing| < |probes|
      invariant |existing| <= |probes|
      invariant forall i | 0 <= i < |existing| :: existing[i] == Joined(g, q.merge, probes[i].left, probes[i].right)
    {
      var p := probes[|existing|];
      existing := existing + [HasDirectedEdge(g, q.merge, p.left, p.right)];
    }
  }

  method ValuesOf(pairs: map<Bytes, Pair>) returns (probes: seq<Pair>)
    ensures forall p :: p in probes <==> exists k :: k in pairs && pairs[k] == p
  {
    probes := [];
    var todo := pairs.Keys;
    while todo != {}
      invariant todo <= pairs.Keys
      invariant forall p :: p in probes <==> exists k :: k in pairs && k !in todo && pairs[k] == p
      decreases todo
    {
      var k :| k in todo;
      todo := todo - {k};
      probes := probes + [pairs[k]];
    }
  }

  /** One edge per probe that found none; PutEdgeBatch then writes them all. */
  method CreateMissing(g: Graph, q: Query, probes: seq<Pair>, existing: seq<bool>) returns (g': Graph)
    requires Good(g, q) && |existing| == |probes|
    requires forall i | 0 <= i < |probes| :: existing[i] == Joined(g, q.merge, probes[i].left, probes[i].right)
    requires DistinctIds(q, PairsOf(probes))
    ensures Adds(g, q, PairsOf(probes), g')
  {
    g' := g;
    var i := 0;
    while i < |probes|
      invariant 0 <= i <= |probes|
      invariant Adds(g, q, PairsOf(probes[..i]), g')
    {
      assert probes[..i + 1] == probes[..i] + [probes[i]];
      assert PairsOf(probes[..i + 1]) == PairsOf(probes[..i]) + {probes[i]};
      PutAdds(g, q, PairsOf(probes[..i]), g', probes[i]);
      if !existing[i] {
        g' := g'.(edges := g'.edges[EdgeId(q, probes[i]) := NewEdge(q, probes[i])]);
      }
      i := i + 1;
    }
    assert probes[..i] == probes;
  }

  /** Putting a pair's edge twice is putting it once. */
  lemma PutAdds(g: Graph, q: Query, wanted: set<Pair>, g': Graph, p: Pair)
    requires Good(g, q) && Adds(g, q, wanted, g') && DistinctIds(q, wanted + {p})
    ensures Adds(g, q, wanted + {p},
                 if Joined(g, q.merge, p.left, p.right) then g'
                 else g'.(edges := g'.edges[EdgeId(q, p) := NewEdge(q, p)]))
  {
    JoinedAfter(g, q, wanted, g', p);
    MergeRowAdds(g, q, wanted, g', p);
    if !Joined(g, q.merge, p.left, p.right) && p in wanted {
      assert IsNew(g, q, wanted, p);
      assert g'.edges[EdgeId(q, p) := NewEdge(q, p)] == g'.edges;
    }
  }

  /**
   * The whole fast path adds exactly the merge edges of the pairs kept, which are all the query's distinct rows
   * if no keys clash. By MergeRowsAdd and AddsUnique that is the graph MERGE leaves when run over those rows in
   * any order.
   */
  method Execute(g: Graph, q: Query, batch: bool) returns (g': Graph, ghost lefts: seq<Bytes>)
    requires Good(g, q) && DistinctIds(q, Suggestions(g, q))
    ensures IsOrder(g, q, lefts) && Adds(g, q, KeptPairs(g, q, lefts), g')
    ensures NoClash(g, q) ==> forall rows: seq<Pair> | PairsOf(rows) == Suggestions(g, q) :: g' == MergeRows(g, q, rows)
  {
    var pairs;
    pairs, lefts := CollectPairs(g, q);
    var probes := ValuesOf(pairs);
    ProbesAreKept(g, q, lefts, pairs, probes);
    if |probes| == 0 {
      g' := g;
    } else {
      var existing := ProbeExisting(g, q, probes, batch);
      g' := CreateMissing(g, q, probes, existing);
    }
    if NoClash(g, q) {
      AllKept(g, q, lefts);
      forall rows: seq<Pair> | PairsOf(rows) == Suggestions(g, q) ensures g' == MergeRows(g, q, rows) {
        MergeRowsAdd(g, q, rows);
        AddsUnique(g, q, Suggestions(g, q), g', MergeRows(g, q, rows));
      }
    }
  }

  lemma ProbesAreKept(g: Graph, q: Query, lefts: seq<Bytes>, pairs: map<Bytes, Pair>, probes: seq<Pair>)
    requires DistinctIds(q, Suggestions(g, q))
    requires forall p :: KeptIn(g, q, lefts, p) <==> PairKey(p) in pairs && pairs[PairKey(p)] == p
    requires forall k | k in pairs :: PairKey(pairs[k]) == k
    requires forall p :: p in probes <==> exists k :: k in pairs && pairs[k] == p
    ensures PairsOf(probes) == KeptPairs(g, q, lefts) && DistinctIds(q, PairsOf(probes))
  {
    forall p ensures p in probes <==> p in KeptPairs(g, q, lefts) {
      if p in probes {
        var k :| k in pairs && pairs[k] == p;
        assert KeptIn(g, q, lefts, p);
      }
    }
  }

  lemma AllKept(g: Graph, q: Query, lefts: seq<Bytes>)
    requires NoClash(g, q) && IsOrder(g, q, lefts)
    ensures KeptPairs(g, q, lefts) == Suggestions(g, q)
  {
    AllKeptExactly(g, q);
  }
}
