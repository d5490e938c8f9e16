/**
 * The fast path for MATCH (l)-[:type]->(r) RETURN l.p, collect(DISTINCT r.q) ORDER BY l.p, where p and q agree up to
 * case: targets are grouped by source vertex first and by the source's value then.
 */
module CollectDistinct {
  import opened Wrappers
  import opened Text
  import opened TwoHop
  import opened TwoHopFast
  import Sorting

  /** A property value that is not null, with the tag its key begins with: s for strings. */
  datatype Value = Value(tag: byte, text: Bytes)

  const STRING: byte := 115
  const COLON: byte := 58

  function KeyOf(v: Value): Bytes {
    [v.tag, COLON] + v.text
  }

  lemma KeyInjective(v: Value, w: Value)
    requires KeyOf(v) == KeyOf(w)
    ensures v == w
  {
    assert KeyOf(v)[0] == KeyOf(w)[0];
    assert KeyOf(v)[2..] == v.text && KeyOf(w)[2..] == w.text;
  }

  datatype Pattern = Pattern(edgeType: Bytes, left: seq<Bytes>, right: seq<Bytes>)

  /** source is None in the group of the sources without a value. */
  datatype Row = Row(source: Option<Value>, collected: seq<Value>)

  /** The values of one property, by vertex. */
  type Property = Bytes -> Option<Value>

  /** The value that a vertex has under a property name. Names that differ in case are different names here. */
  type Lookup = (Bytes, Bytes) -> Option<Value>

  function Named(lookup: Lookup, name: Bytes): Property {
    (v: Bytes) => lookup(v, name)
  }

  /** The order of ORDER BY on values that are not null. */
  type Order = (Value, Value) -> bool

  // ---------------------------------------------------------------- the plain meaning

  ghost predicate Matched(g: Graph, p: Pattern, s: Bytes, t: Bytes) {
    Joined(g, p.edgeType, s, t) && Labelled(g, s, p.left) && Labelled(g, t, p.right)
  }

  /** Ascending order, with null behind all values. */
  predicate Ascending(below: Order, a: Option<Value>, b: Option<Value>) {
    a.Some? && (b.None? || below(a.value, b.value))
  }

  ghost predicate InGroup(g: Graph, p: Pattern, prop: Property, source: Option<Value>) {
    exists s, t :: Matched(g, p, s, t) && prop(s) == source
  }

  ghost predicate InList(g: Graph, p: Pattern, prop: Property, collected: Property, source: Option<Value>, w: Value) {
    exists s, t :: Matched(g, p, s, t) && prop(s) == source && collected(t) == Some(w)
  }

  /** The list holds exactly the group's values that are not null, each once. */
  ghost predicate Collects(g: Graph, p: Pattern, prop: Property, collected: Property, row: Row) {
    && (forall w :: w in row.collected <==> InList(g, p, prop, collected, row.source, w))
    && forall i, j | 0 <= i < j < |row.collected| :: row.collected[i] != row.collected[j]
  }

  /** One row for each source value, in ascending order, with the distinct values of its targets. */
  ghost predicate Answers(g: Graph, p: Pattern, prop: Property, collected: Property, below: Order, rows: seq<Row>) {
    && (forall source :: (exists i :: 0 <= i < |rows| && rows[i].source == source) <==> InGroup(g, p, prop, source))
    && (forall i, j | 0 <= i < j < |rows| :: Ascending(below, rows[i].source, rows[j].source))
    && (forall i | 0 <= i < |rows| :: Collects(g, p, prop, collected, rows[i]))
  }

  // ---------------------------------------------------------------- grouping by source vertex

  /** The edges scanned so far, restricted to matching labels. */
  ghost predicate ScannedMatch(g: Graph, p: Pattern, seen: set<Bytes>, s: Bytes, t: Bytes) {
    Scanned(g, seen, p.edgeType, s, t) && Labelled(g, s, p.left) && Labelled(g, t, p.right)
  }

  ghost predicate GroupsOf(g: Graph, p: Pattern, seen: set<Bytes>, groups: Adjacency) {
    && (forall s, t :: t in Neighbors(groups, s) <==> ScannedMatch(g, p, seen, s, t))
    && (forall s | s in groups :: groups[s] != {})
  }

  lemma GroupsStep(g: Graph, p: Pattern, seen: set<Bytes>, groups: Adjacency, e: Bytes)
    requires e in g.edges && GroupsOf(g, p, seen, groups)
    ensures var s, t := g.edges[e].src, g.edges[e].dst;
            GroupsOf(g, p, seen + {e},
                     if g.edges[e].edgeType == p.edgeType && Labelled(g, s, p.left) && Labelled(g, t, p.right)
                     then Link(groups, s, t) else groups)
  {
    ScannedMore(g, seen, p.edgeType, e);
    LinkNeighbors(groups, g.edges[e].src, g.edges[e].dst);
  }

  /** adj holds the matched pairs. */
  ghost predicate HoldsMatches(g: Graph, p: Pattern, adj: Adjacency) {
    && (forall s, t :: t in Neighbors(adj, s) <==> Matched(g, p, s, t))
    && (forall s | s in adj :: adj[s] != {})
  }

  method GroupBySource(g: Graph, p: Pattern) returns (groups: Adjacency)
    requires GoodEnds(g)
    ensures HoldsMatches(g, p, groups)
  {
    groups := map[];
    var leftCache, rightCache := map[], map[];
    var todo := g.edges.Keys;
    ghost var seen: set<Bytes> := {};
    while todo != {}
      invariant seen + todo == g.edges.Keys
      invariant GroupsOf(g, p, seen, groups)
      invariant CacheOk(g, p.left, leftCache) && CacheOk(g, p.right, rightCache)
      decreases todo
    {
      hide GroupsOf, Labelled, CacheOk;
      var e :| e in todo;
      todo := todo - {e};
      GroupsStep(g, p, seen, groups, e);
      seen := seen + {e};
      if g.edges[e].edgeType != p.edgeType {
        continue;
      }
      var srcId, dstId := Trim(g.edges[e].src), Trim(g.edges[e].dst);
      TrimFixesTrimmed(g.edges[e].src);
      TrimFixesTrimmed(g.edges[e].dst);
      if srcId == [] || dstId == [] {
        continue;
      }
      var leftMatched, rightMatched;
      leftMatched, leftCache := MatchesLabels(g, srcId, p.left, leftCache);
      if !leftMatched {
        continue;
      }
      rightMatched, rightCache := MatchesLabels(g, dstId, p.right, rightCache);
      if !rightMatched {
        continue;
      }
      groups := Link(groups, srcId, dstId);
    }
    assert seen == g.edges.Keys;
  }

  // ---------------------------------------------------------------- grouping by value

  predicate HasKey(prop: Property, v: Bytes, k: Bytes) {
    prop(v).Some? && KeyOf(prop(v).value) == k
  }

  method Resolve(prop: Property, v: Bytes, cache: map<Bytes, Option<Value>>)
    returns (value: Option<Value>, cache': map<Bytes, Option<Value>>)
    requires forall x | x in cache :: cache[x] == prop(x)
    ensures value == prop(v) && forall x | x in cache' :: cache'[x] == prop(x)
  {
    if v in cache {
      return cache[v], cache;
    }
    value := prop(v);
    cache' := cache[v := value];
  }

  type Names = map<Bytes, Value>

  function NamesOf(groups: map<Bytes, Names>, k: Bytes): Names {
    if k in groups then groups[k] else map[]
  }

  /** A source among those done has key k. */
  ghost predicate Source(prop: Property, done: set<Bytes>, k: Bytes) {
    exists s :: s in done && HasKey(prop, s, k)
  }

  /** A target among the given ones has key w. */
  ghost predicate Target(prop: Property, targets: set<Bytes>, w: Bytes) {
    exists t :: t in targets && HasKey(prop, t, w)
  }

  ghost predicate Reached(prop: Property, adj: Adjacency, done: set<Bytes>, k: Bytes, w: Bytes) {
    exists s :: s in done && HasKey(prop, s, k) && Target(prop, Neighbors(adj, s), w)
  }

  ghost predicate KeysFit(names: Names) {
    forall w | w in names :: KeyOf(names[w]) == w
  }

  /** All values of the given targets, by key. */
  ghost predicate NamesOfTargets(prop: Property, before: Names, targets: set<Bytes>, names: Names) {
    && KeysFit(names)
    && forall w :: w in names <==> w in before || Target(prop, targets, w)
  }

  method AddTargets(prop: Property, before: Names, targets: set<Bytes>, cache: map<Bytes, Option<Value>>)
    returns (names: Names, cache': map<Bytes, Option<Value>>)
    requires KeysFit(before) && forall x | x in cache :: cache[x] == prop(x)
    ensures NamesOfTargets(prop, before, targets, names) && forall x | x in cache' :: cache'[x] == prop(x)
  {
    names, cache' := before, cache;
    var todo := targets;
    ghost var done: set<Bytes> := {};
    while todo != {}
      invariant done + todo == targets
      invariant NamesOfTargets(prop, before, done, names) && forall x | x in cache' :: cache'[x] == prop(x)
      decreases todo
    {
      var t :| t in todo;
      todo := todo - {t};
      done := done + {t};
      var value;
      value, cache' := Resolve(prop, t, cache');
      if value.Some? {
        names := names[KeyOf(value.value) := value.value];
      }
    }
    assert done == targets;
  }

  /** Groups, first values and order of keys after the sources done. */
  ghost predicate Grouped(prop: Property, adj: Adjacency, done: set<Bytes>, groups: map<Bytes, Names>,
                          values: map<Bytes, Value>, order: seq<Bytes>)
  {
    && values.Keys == groups.Keys
    && (forall k :: k in groups <==> Source(prop, done, k))
    && (forall k | k in values :: KeyOf(values[k]) == k)
    && (forall k, w :: w in NamesOf(groups, k) <==> Reached(prop, adj, done, k, w))
    && (forall k | k in groups :: KeysFit(groups[k]))
    && (forall k :: k in order <==> k in groups)
    && (forall i, j | 0 <= i < j < |order| :: order[i] != order[j])
  }

  lemma SourceMore(prop: Property, adj: Adjacency, done: set<Bytes>, s: Bytes)
    ensures forall k :: Source(prop, done + {s}, k) <==> Source(prop, done, k) || HasKey(prop, s, k)
    ensures forall k, w :: Reached(prop, adj, done + {s}, k, w) <==>
                           Reached(prop, adj, done, k, w) || (HasKey(prop, s, k) && Target(prop, Neighbors(adj, s), w))
  {
    assert s in done + {s};
    forall k ensures Source(prop, done + {s}, k) <==> Source(prop, done, k) || HasKey(prop, s, k) {
      if Source(prop, done, k) {
        var x :| x in done && HasKey(prop, x, k);
        assert x in done + {s};
      }
    }
    forall k, w ensures Reached(prop, adj, done + {s}, k, w) <==>
                        Reached(prop, adj, done, k, w) || (HasKey(prop, s, k) && Target(prop, Neighbors(adj, s), w))
    {
      if Reached(prop, adj, done, k, w) {
        var x :| x in done && HasKey(prop, x, k) && Target(prop, Neighbors(adj, x), w);
        assert x in done + {s};
      }
    }
  }

  /** A source without a value adds nothing. */
  lemma GroupedSkip(prop: Property, adj: Adjacency, done: set<Bytes>, groups: map<Bytes, Names>,
                    values: map<Bytes, Value>, order: seq<Bytes>, s: Bytes)
    requires Grouped(prop, adj, done, groups, values, order) && prop(s).None?
    ensures Grouped(prop, adj, done + {s}, groups, values, order)
  {
    SourceMore(prop, adj, done, s);
  }

  lemma GroupedStep(prop: Property, adj: Adjacency, done: set<Bytes>, groups: map<Bytes, Names>,
                    values: map<Bytes, Value>, order: seq<Bytes>, s: Bytes, names: Names)
    requires Grouped(prop, adj, done, groups, values, order) && prop(s).Some?
    requires NamesOfTargets(prop, NamesOf(groups, KeyOf(prop(s).value)), Neighbors(adj, s), names)
    ensures var k := KeyOf(prop(s).value);
            Grouped(prop, adj, done + {s}, groups[k := names],
                    if k in groups then values else values[k := prop(s).value],
                    if k in groups then order else order + [k])
  {
    hide Reached, Target, Source, KeyOf;
    SourceMore(prop, adj, done, s);
    var k := KeyOf(prop(s).value);
    var groups' := groups[k := names];
    forall x, w ensures w in NamesOf(groups', x) <==> Reached(prop, adj, done + {s}, x, w) {
      if x == k {
        assert NamesOf(groups', x) == names;
      } else {
        assert NamesOf(groups', x) == NamesOf(groups, x) && !HasKey(prop, s, x);
      }
    }
  }

  method GroupByValue(prop: Property, adj: Adjacency)
    returns (groups: map<Bytes, Names>, values: map<Bytes, Value>, order: seq<Bytes>)
    ensures Grouped(prop, adj, adj.Keys, groups, values, order)
  {
    groups, values, order := map[], map[], [];
    var cache: map<Bytes, Option<Value>> := map[];
    var todo := adj.Keys;
    ghost var done: set<Bytes> := {};
    while todo != {}
      invariant done + todo == adj.Keys && forall x | x in cache :: cache[x] == prop(x)
      invariant Grouped(prop, adj, done, groups, values, order)
      decreases todo
    {
      hide Reached, Target, Source, HasKey;
      var s :| s in todo;
      todo := todo - {s};
      var value;
      value, cache := Resolve(prop, s, cache);
      if value.None? {
        GroupedSkip(prop, adj, done, groups, values, order, s);
        done := done + {s};
        continue;
      }
      var k := KeyOf(value.value);
      var names;
      names, cache := AddTargets(prop, NamesOf(groups, k), adj[s], cache);
      GroupedStep(prop, adj, done, groups, values, order, s, names);
      done := done + {s};
      if k !in groups {
        values := values[k := value.value];
        order := order + [k];
      }
      groups := groups[k := names];
    }
    assert done == adj.Keys;
  }

  // ---------------------------------------------------------------- the rows

  /**
   * What the fast path returns: targets are read with the property of the source, groups without a value are left
   * out, and the order is that of the keys.
   */
  ghost predicate FastAnswers(g: Graph, p: Pattern, prop: Property, rows: seq<Row>) {
    && (forall i | 0 <= i < |rows| :: rows[i].source.Some?)
    && (forall v :: (exists i :: 0 <= i < |rows| && rows[i].source == Some(v)) <==> InGroup(g, p, prop, Some(v)))
    && (forall i, j | 0 <= i < j < |rows| :: Less(KeyOf(rows[i].source.value), KeyOf(rows[j].source.value)))
    && (forall i | 0 <= i < |rows| :: Collects(g, p, prop, prop, rows[i]))
  }

  /** Less is the strict part of a total preorder, at any three keys. */
  lemma LessIsWeakAt(x: Bytes, y: Bytes, z: Bytes)
    ensures Less(x, y) ==> !Less(y, x)
    ensures !Less(y, x) && !Less(z, y) ==> !Less(z, x)
  {
    if Less(x, y) {
      LessAsymmetric(x, y);
    }
    if !Less(y, x) && !Less(z, y) {
      LessTotal(x, y);
      LessTotal(y, z);
      AtMostTransitive(x, y, z);
      if Less(x, z) {
        LessAsymmetric(x, z);
      } else {
        LessIrreflexive(x);
      }
    }
  }

  method SortKeys(order: seq<Bytes>) returns (sorted: seq<Bytes>)
    requires forall i, j | 0 <= i < j < |order| :: order[i] != order[j]
    ensures forall k :: k in sorted <==> k in order
    ensures forall i, j | 0 <= i < j < |sorted| :: Less(sorted[i], sorted[j])
  {
    sorted := Sorting.StableSort(order, Less);
    forall x, y, z
      ensures (Less(x, y) ==> !Less(y, x)) && (!Less(y, x) && !Less(z, y) ==> !Less(z, x))
    {
      LessIsWeakAt(x, y, z);
    }
    Sorting.StableSortOrders(order, Less);
    forall k ensures k in sorted <==> k in order {
      assert k in multiset(sorted) <==> k in multiset(order);
    }
    DistinctStays(order, sorted);
    forall i, j | 0 <= i < j < |sorted| ensures Less(sorted[i], sorted[j]) {
      LessTotal(sorted[i], sorted[j]);
    }
  }

  lemma DistinctStays(a: seq<Bytes>, b: seq<Bytes>)
    requires multiset(a) == multiset(b) && forall i, j | 0 <= i < j < |a| :: a[i] != a[j]
    ensures forall i, j | 0 <= i < j < |b| :: b[i] != b[j]
  {
    forall i, j | 0 <= i < j < |b| ensures b[i] != b[j] {
      if b[i] == b[j] {
        TwiceIn(b, i, j);
        OnceIn(a, b[i]);
      }
    }
  }

  lemma TwiceIn(b: seq<Bytes>, i: nat, j: nat)
    requires i < j < |b| && b[i] == b[j]
    ensures multiset(b)[b[i]] >= 2
  {
    assert b == b[..i] + [b[i]] + b[i + 1..j] + [b[j]] + b[j + 1..];
  }

  lemma {:induction false} OnceIn(a: seq<Bytes>, x: Bytes)
    requires forall i, j | 0 <= i < j < |a| :: a[i] != a[j]
    ensures multiset(a)[x] <= 1
    decreases |a|
  {
    if a != [] {
      var n := |a| - 1;
      assert a == a[..n] + [a[n]];
      OnceIn(a[..n], x);
      if x == a[n] {
        assert x !in a[..n];
        assert x !in multiset(a[..n]);
      }
    }
  }

  /** The values of a group, in no particular order. */
  method ListValues(names: Names) returns (list: seq<Value>)
    requires KeysFit(names)
    ensures forall v :: v in list <==> KeyOf(v) in names
    ensures forall i, j | 0 <= i < j < |list| :: list[i] != list[j]
  {
    list := [];
    var todo := names.Keys;
    while todo != {}
      invariant todo <= names.Keys
      invariant forall v :: v in list <==> KeyOf(v) in names && KeyOf(v) !in todo
      invariant forall i, j | 0 <= i < j < |list| :: list[i] != list[j]
      decreases todo
    {
      var k :| k in todo;
      forall v | KeyOf(v) == k ensures v == names[k] {
        KeyInjective(v, names[k]);
      }
      todo := todo - {k};
      list := list + [names[k]];
    }
  }

  lemma SourcesAreGroups(g: Graph, p: Pattern, prop: Property, adj: Adjacency, v: Value)
    requires HoldsMatches(g, p, adj)
    ensures Source(prop, adj.Keys, KeyOf(v)) <==> InGroup(g, p, prop, Some(v))
  {
    if Source(prop, adj.Keys, KeyOf(v)) {
      var s :| s in adj.Keys && HasKey(prop, s, KeyOf(v));
      KeyInjective(prop(s).value, v);
      var t :| t in adj[s];
      assert t in Neighbors(adj, s);
    }
    if InGroup(g, p, prop, Some(v)) {
      var s, t :| Matched(g, p, s, t) && prop(s) == Some(v);
      assert t in Neighbors(adj, s);
      assert s in adj.Keys && HasKey(prop, s, KeyOf(v));
    }
  }

  lemma ReachedAreListed(g: Graph, p: Pattern, prop: Property, adj: Adjacency, v: Value, w: Value)
    requires HoldsMatches(g, p, adj)
    ensures Reached(prop, adj, adj.Keys, KeyOf(v), KeyOf(w)) <==> InList(g, p, prop, prop, Some(v), w)
  {
    if Reached(prop, adj, adj.Keys, KeyOf(v), KeyOf(w)) {
      var s :| s in adj.Keys && HasKey(prop, s, KeyOf(v)) && Target(prop, Neighbors(adj, s), KeyOf(w));
      var t :| t in Neighbors(adj, s) && HasKey(prop, t, KeyOf(w));
      KeyInjective(prop(s).value, v);
      KeyInjective(prop(t).value, w);
      assert Matched(g, p, s, t);
    }
    if InList(g, p, prop, prop, Some(v), w) {
      var s, t :| Matched(g, p, s, t) && prop(s) == Some(v) && prop(t) == Some(w);
      assert t in Neighbors(adj, s) && HasKey(prop, t, KeyOf(w));
      assert s in adj.Keys && HasKey(prop, s, KeyOf(v));
    }
  }

  ghost predicate RowFor(g: Graph, p: Pattern, prop: Property, row: Row, k: Bytes) {
    row.source.Some? && KeyOf(row.source.value) == k && Collects(g, p, prop, prop, row)
  }

  method MakeRow(g: Graph, p: Pattern, prop: Property, value: Value, names: Names, ghost adj: Adjacency,
                 ghost groups: map<Bytes, Names>, ghost values: map<Bytes, Value>, ghost order: seq<Bytes>)
    returns (row: Row)
    requires HoldsMatches(g, p, adj) && Grouped(prop, adj, adj.Keys, groups, values, order)
    requires KeyOf(value) in groups && names == groups[KeyOf(value)]
    ensures row.source == Some(value) && RowFor(g, p, prop, row, KeyOf(value))
  {
    hide HoldsMatches, Reached, InList;
    var list := ListValues(names);
    row := Row(Some(value), list);
    forall w ensures w in list <==> InList(g, p, prop, prop, Some(value), w) {
      ReachedAreListed(g, p, prop, adj, value, w);
      assert KeyOf(w) in NamesOf(groups, KeyOf(value)) <==> Reached(prop, adj, adj.Keys, KeyOf(value), KeyOf(w));
    }
  }

  method Execute(g: Graph, p: Pattern, lookup: Lookup, source: Bytes) returns (rows: seq<Row>)
    requires GoodEnds(g)
    ensures FastAnswers(g, p, Named(lookup, source), rows)
  {
    var prop := Named(lookup, source);
    hide Grouped, HoldsMatches, Collects, FastAnswers;
    var adj := GroupBySource(g, p);
    var groups, values, order := GroupByValue(prop, adj);
    GroupedKeys(prop, adj, groups, values, order);
    var sorted := SortKeys(order);
    rows := [];
    for i := 0 to |sorted|
      invariant |rows| == i
      invariant forall j | 0 <= j < i :: RowFor(g, p, prop, rows[j], sorted[j])
    {
      var k := sorted[i];
      assert k in order;
      var row := MakeRow(g, p, prop, values[k], groups[k], adj, groups, values, order);
      rows := rows + [row];
    }
    RowsAnswer(g, p, prop, rows, sorted, adj, groups, values, order);
  }

  lemma GroupedKeys(prop: Property, adj: Adjacency, groups: map<Bytes, Names>, values: map<Bytes, Value>,
                    order: seq<Bytes>)
    requires Grouped(prop, adj, adj.Keys, groups, values, order)
    ensures forall i, j | 0 <= i < j < |order| :: order[i] != order[j]
    ensures forall k | k in order :: k in groups && k in values && KeyOf(values[k]) == k
    ensures forall k :: k in order <==> Source(prop, adj.Keys, k)
  {
    assert forall k | k in order :: k in groups.Keys;
  }

  lemma RowsAnswer(g: Graph, p: Pattern, prop: Property, rows: seq<Row>, sorted: seq<Bytes>, adj: Adjacency,
                   groups: map<Bytes, Names>, values: map<Bytes, Value>, order: seq<Bytes>)
    requires HoldsMatches(g, p, adj) && Grouped(prop, adj, adj.Keys, groups, values, order)
    requires |rows| == |sorted| && forall i | 0 <= i < |rows| :: RowFor(g, p, prop, rows[i], sorted[i])
    requires forall k :: k in sorted <==> k in order
    requires forall i, j | 0 <= i < j < |sorted| :: Less(sorted[i], sorted[j])
    ensures FastAnswers(g, p, prop, rows)
  {
    hide HoldsMatches, Collects, Grouped, InGroup, Source;
    GroupedKeys(prop, adj, groups, values, order);
    forall v ensures (exists i :: 0 <= i < |rows| && rows[i].source == Some(v)) <==> InGroup(g, p, prop, Some(v)) {
      SourcesAreGroups(g, p, prop, adj, v);
      if i :| 0 <= i < |rows| && rows[i].source == Some(v) {
        assert RowFor(g, p, prop, rows[i], sorted[i]) && sorted[i] in sorted;
      }
      if KeyOf(v) in sorted {
        var i :| 0 <= i < |sorted| && sorted[i] == KeyOf(v);
        assert RowFor(g, p, prop, rows[i], sorted[i]);
        KeyInjective(rows[i].source.value, v);
      }
    }
    forall i, j | 0 <= i < j < |rows| ensures Less(KeyOf(rows[i].source.value), KeyOf(rows[j].source.value)) {
      assert RowFor(g, p, prop, rows[i], sorted[i]) && RowFor(g, p, prop, rows[j], sorted[j]);
    }
  }

  // ---------------------------------------------------------------- the two meanings

  /** Every group reaches the same values under both properties. */
  ghost predicate SameLists(g: Graph, p: Pattern, prop: Property, collected: Property) {
    forall v, w :: InList(g, p, prop, prop, Some(v), w) <==> InList(g, p, prop, collected, Some(v), w)
  }

  /** The keys of the groups are ordered as their values are. */
  ghost predicate KeysAgree(g: Graph, p: Pattern, prop: Property, below: Order) {
    forall v, w | InGroup(g, p, prop, Some(v)) && InGroup(g, p, prop, Some(w)) && Less(KeyOf(v), KeyOf(w)) ::
      below(v, w)
  }

  /** The fast path's row for a value that some matched source has. */
  lemma RowOf(g: Graph, p: Pattern, prop: Property, rows: seq<Row>, v: Value) returns (i: nat)
    requires FastAnswers(g, p, prop, rows) && InGroup(g, p, prop, Some(v))
    ensures i < |rows| && rows[i].source == Some(v)
  {
    i :| 0 <= i < |rows| && rows[i].source == Some(v);
  }

  lemma ListsAgree(g: Graph, p: Pattern, prop: Property, collected: Property, rows: seq<Row>)
    requires FastAnswers(g, p, prop, rows)
    ensures (forall i | 0 <= i < |rows| :: Collects(g, p, prop, collected, rows[i]))
            <==> SameLists(g, p, prop, collected)
  {
    if forall i | 0 <= i < |rows| :: Collects(g, p, prop, collected, rows[i]) {
      forall v, w ensures InList(g, p, prop, prop, Some(v), w) <==> InList(g, p, prop, collected, Some(v), w) {
        if InGroup(g, p, prop, Some(v)) {
          var i := RowOf(g, p, prop, rows, v);
          assert Collects(g, p, prop, prop, rows[i]) && Collects(g, p, prop, collected, rows[i]);
        }
      }
    }
    if SameLists(g, p, prop, collected) {
      forall i | 0 <= i < |rows| ensures Collects(g, p, prop, collected, rows[i]) {
        assert rows[i].source == Some(rows[i].source.value);
        assert Collects(g, p, prop, prop, rows[i]);
      }
    }
  }

  lemma OrdersAgree(g: Graph, p: Pattern, prop: Property, below: Order, rows: seq<Row>)
    requires FastAnswers(g, p, prop, rows)
    ensures (forall i, j | 0 <= i < j < |rows| :: Ascending(below, rows[i].source, rows[j].source))
            <==> KeysAgree(g, p, prop, below)
  {
    hide Collects, InGroup, Less;
    if forall i, j | 0 <= i < j < |rows| :: Ascending(below, rows[i].source, rows[j].source) {
      forall v, w | InGroup(g, p, prop, Some(v)) && InGroup(g, p, prop, Some(w)) && Less(KeyOf(v), KeyOf(w))
        ensures below(v, w)
      {
        var i := RowOf(g, p, prop, rows, v);
        var j := RowOf(g, p, prop, rows, w);
        LessAsymmetric(KeyOf(v), KeyOf(w));
        assert i < j;
      }
    }
    if KeysAgree(g, p, prop, below) {
      forall i, j | 0 <= i < j < |rows| ensures Ascending(below, rows[i].source, rows[j].source) {
        var v, w := rows[i].source.value, rows[j].source.value;
        assert rows[i].source == Some(v) && rows[j].source == Some(w);
      }
    }
  }

  /**
   * The fast path answers the query exactly if no matched source lacks the value -- the query has a group for those,
   * which the fast path leaves out --, every group reaches the same values under both property names, and the keys
   * are in the order of the values.
   */
  lemma FastIsPlainExactly(g: Graph, p: Pattern, prop: Property, collected: Property, below: Order, rows: seq<Row>)
    requires FastAnswers(g, p, prop, rows)
    ensures Answers(g, p, prop, collected, below, rows)
            <==> !InGroup(g, p, prop, None) && SameLists(g, p, prop, collected) && KeysAgree(g, p, prop, below)
  {
    ListsAgree(g, p, prop, collected, rows);
    OrdersAgree(g, p, prop, below, rows);
    hide Collects, SameLists, KeysAgree, Ascending;
    if !InGroup(g, p, prop, None) {
      forall source ensures (exists i :: 0 <= i < |rows| && rows[i].source == source) <==> InGroup(g, p, prop, source) {
        if source.Some? {
          assert InGroup(g, p, prop, Some(source.value)) <==> InGroup(g, p, prop, source);
        }
      }
    }
  }

  /** Strings are compared as texts. */
  predicate TextBelow(v: Value, w: Value) {
    Less(v.text, w.text)
  }

  /** With one property name and string sources only the sources without a value are left to look at. */
  lemma StringsAgree(g: Graph, p: Pattern, prop: Property)
    requires forall s, t | Matched(g, p, s, t) && prop(s).Some? :: prop(s).value.tag == STRING
    ensures SameLists(g, p, prop, prop) && KeysAgree(g, p, prop, TextBelow)
  {
    forall v, w | InGroup(g, p, prop, Some(v)) && InGroup(g, p, prop, Some(w)) && Less(KeyOf(v), KeyOf(w))
      ensures TextBelow(v, w)
    {
      var s, t :| Matched(g, p, s, t) && prop(s) == Some(v);
      var s', t' :| Matched(g, p, s', t') && prop(s') == Some(w);
      StringKeysOrder(v, w);
    }
  }

  lemma StringKeysOrder(v: Value, w: Value)
    requires v.tag == w.tag
    ensures Less(KeyOf(v), KeyOf(w)) <==> Less(v.text, w.text)
  {
    assert KeyOf(v)[1..] == [COLON] + v.text && KeyOf(w)[1..] == [COLON] + w.text;
    assert ([COLON] + v.text)[1..] == v.text && ([COLON] + w.text)[1..] == w.text;
  }

  // ---------------------------------------------------------------- inputs on which it does not

  /** a -> c <- b */
  function SmallGraph(): Graph {
    Graph(map[], map[[1] := Edge([84], [97], [99]), [2] := Edge([84], [98], [99])])
  }

  const SMALL_PATTERN: Pattern := Pattern([84], [], [])

  lemma SmallMatches(s: Bytes, t: Bytes)
    ensures Matched(SmallGraph(), SMALL_PATTERN, s, t) <==> (s == [97] || s == [98]) && t == [99]
  {
    var g := SmallGraph();
    assert Joins(g, [1], [84], [97], [99]) && Joins(g, [2], [84], [98], [99]);
  }

  const LOWER_NAME: Bytes := [110, 97, 109, 101]
  const UPPER_NAME: Bytes := [78, 97, 109, 101]

  /** a and b have names; c has one under Name only. */
  function MixedCase(v: Bytes, name: Bytes): Option<Value> {
    if v == [99] && name == UPPER_NAME then Some(Value(STRING, [121]))
    else if v != [99] && name == LOWER_NAME then Some(Value(STRING, v))
    else None
  }

  /** a has a name, b has none. */
  function OneName(v: Bytes, name: Bytes): Option<Value> {
    if v == [97] then Some(Value(STRING, v)) else None
  }

  const INTEGER: byte := 105
  const TEN: Value := Value(INTEGER, [49, 48])
  const TWO: Value := Value(INTEGER, [50])

  /** a has the number 10, b the number 2. */
  function Numbers(v: Bytes, name: Bytes): Option<Value> {
    if v == [97] then Some(TEN) else if v == [98] then Some(TWO) else None
  }

  lemma MixedCaseValues()
    ensures MixedCase([97], LOWER_NAME) == Some(Value(STRING, [97])) && MixedCase([99], LOWER_NAME) == None
    ensures MixedCase([99], UPPER_NAME) == Some(Value(STRING, [121]))
  {
    assert [97][0] != [99][0] && LOWER_NAME[0] != UPPER_NAME[0];
  }

  /** RETURN l.name, collect(DISTINCT r.Name): c's Name is not collected. */
  lemma CaseMixedUp(rows: seq<Row>, below: Order)
    requires FastAnswers(SmallGraph(), SMALL_PATTERN, Named(MixedCase, LOWER_NAME), rows)
    ensures !Answers(SmallGraph(), SMALL_PATTERN, Named(MixedCase, LOWER_NAME), Named(MixedCase, UPPER_NAME),
                     below, rows)
  {
    var g, prop, collected := SmallGraph(), Named(MixedCase, LOWER_NAME), Named(MixedCase, UPPER_NAME);
    var v, w := Value(STRING, [97]), Value(STRING, [121]);
    SmallMatches([97], [99]);
    MixedCaseValues();
    FastIsPlainExactly(g, SMALL_PATTERN, prop, collected, below, rows);
    hide Matched, MixedCase, SmallGraph, FastAnswers, Answers;
    assert InList(g, SMALL_PATTERN, prop, collected, Some(v), w) by {
      assert Matched(g, SMALL_PATTERN, [97], [99]) && prop([97]) == Some(v) && collected([99]) == Some(w);
    }
    forall s, t | Matched(g, SMALL_PATTERN, s, t) ensures prop(t) == None {
      SmallMatches(s, t);
    }
    assert !InList(g, SMALL_PATTERN, prop, prop, Some(v), w);
  }

  lemma OneNameValue()
    ensures OneName([98], LOWER_NAME) == None
  {
    assert [97][0] != [98][0];
  }

  /** The group of b, which has no name, is missing. */
  lemma NullGroupMissing(rows: seq<Row>, below: Order)
    requires FastAnswers(SmallGraph(), SMALL_PATTERN, Named(OneName, LOWER_NAME), rows)
    ensures !Answers(SmallGraph(), SMALL_PATTERN, Named(OneName, LOWER_NAME), Named(OneName, LOWER_NAME), below, rows)
  {
    var g, prop := SmallGraph(), Named(OneName, LOWER_NAME);
    SmallMatches([98], [99]);
    OneNameValue();
    hide Matched, OneName, SmallGraph;
    assert Matched(g, SMALL_PATTERN, [98], [99]) && prop([98]) == None;
    FastIsPlainExactly(g, SMALL_PATTERN, prop, prop, below, rows);
  }

  lemma NumbersValues()
    ensures Numbers([97], LOWER_NAME) == Some(TEN) && Numbers([98], LOWER_NAME) == Some(TWO)
    ensures Less(KeyOf(TEN), KeyOf(TWO))
  {
    assert [97][0] != [98][0];
    StringKeysOrder(TEN, TWO);
  }

  /** 10 comes before 2. */
  lemma NumbersOutOfOrder(rows: seq<Row>, below: Order)
    requires FastAnswers(SmallGraph(), SMALL_PATTERN, Named(Numbers, LOWER_NAME), rows) && !below(TEN, TWO)
    ensures !Answers(SmallGraph(), SMALL_PATTERN, Named(Numbers, LOWER_NAME), Named(Numbers, LOWER_NAME), below, rows)
  {
    var g, prop := SmallGraph(), Named(Numbers, LOWER_NAME);
    SmallMatches([97], [99]);
    SmallMatches([98], [99]);
    NumbersValues();
    hide Matched, Numbers, SmallGraph, KeyOf, Less;
    assert Matched(g, SMALL_PATTERN, [97], [99]) && prop([97]) == Some(TEN);
    assert Matched(g, SMALL_PATTERN, [98], [99]) && prop([98]) == Some(TWO);
    FastIsPlainExactly(g, SMALL_PATTERN, prop, prop, below, rows);
  }
}
