/**
 * The fast path for "suggest r to l if l -> m -> r and nothing joins l and r": adjacency maps and nested
 * loops instead of matching, and one batch of edge writes instead of MERGE row by row.
 */
module TwoHop {
  import opened Text

  datatype Edge = Edge(edgeType: Bytes, src: Bytes, dst: Bytes)

  /** Edges are stored under their identifier; writing an identifier again replaces the edge. */
  datatype Graph = Graph(labels: map<Bytes, set<Bytes>>, edges: map<Bytes, Edge>)

  /**
   * MATCH (l:left)-[:first]->(m:mid)-[:second]->(r:right) WHERE NOT (l)-[:direct]-(r) AND l <> r
   * WITH DISTINCT l, r MERGE (l)-[:merge]->(r)
   */
  datatype Query = Query(tenant: Bytes, left: seq<Bytes>, mid: seq<Bytes>, right: seq<Bytes>,
                         first: Bytes, second: Bytes, direct: Bytes, merge: Bytes)

  datatype Pair = Pair(left: Bytes, right: Bytes)

  const BAR: byte := 124

  // ---------------------------------------------------------------- the plain meaning

  ghost predicate Joins(g: Graph, e: Bytes, edgeType: Bytes, src: Bytes, dst: Bytes) {
    e in g.edges && g.edges[e] == Edge(edgeType, src, dst)
  }

  ghost predicate Joined(g: Graph, edgeType: Bytes, src: Bytes, dst: Bytes) {
    exists e :: Joins(g, e, edgeType, src, dst)
  }

  function LabelsOf(g: Graph, v: Bytes): set<Bytes> {
    if v in g.labels then g.labels[v] else {}
  }

  /** All the labels a pattern asks for; blank label names ask for nothing. */
  predicate Labelled(g: Graph, v: Bytes, wanted: seq<Bytes>) {
    forall i | 0 <= i < |wanted| :: Blank(wanted[i]) || Trim(wanted[i]) in LabelsOf(g, v)
  }

  /** A match: two different edges in a row, the labels, and the WHERE condition. */
  ghost predicate Match(g: Graph, q: Query, e1: Bytes, e2: Bytes) {
    && e1 in g.edges && e2 in g.edges && e1 != e2
    && var a, b := g.edges[e1], g.edges[e2];
    && a.edgeType == q.first && b.edgeType == q.second && a.dst == b.src
    && Labelled(g, a.src, q.left) && Labelled(g, a.dst, q.mid) && Labelled(g, b.dst, q.right)
    && a.src != b.dst && !Joined(g, q.direct, a.src, b.dst) && !Joined(g, q.direct, b.dst, a.src)
  }

  /** The distinct (l, r) rows of the query before its MERGE. */
  ghost function Suggestions(g: Graph, q: Query): set<Pair> {
    set e1, e2 | e1 in g.edges && e2 in g.edges && Match(g, q, e1, e2)
      :: Pair(g.edges[e1].src, g.edges[e2].dst)
  }

  /** Two edges in a row that the loops of the fast path follow, before they look at the right end. */
  ghost predicate Path(g: Graph, q: Query, e1: Bytes, e2: Bytes) {
    && e1 in g.edges && e2 in g.edges
    && var a, b := g.edges[e1], g.edges[e2];
    && a.edgeType == q.first && b.edgeType == q.second && a.dst == b.src
    && Labelled(g, a.src, q.left) && Labelled(g, a.dst, q.mid) && a.src != b.dst
  }

  /** The pairs with distinct ends that a labelled path joins. */
  ghost function Paths(g: Graph, q: Query): set<Pair> {
    set e1, e2 | e1 in g.edges && e2 in g.edges && Path(g, q, e1, e2) :: Pair(g.edges[e1].src, g.edges[e2].dst)
  }

  /** Where the outer loop of the fast path starts. */
  ghost function Sources(g: Graph, edgeType: Bytes): set<Bytes> {
    set e | e in g.edges && g.edges[e].edgeType == edgeType :: g.edges[e].src
  }

  function EdgeId(q: Query, p: Pair): Bytes {
    q.tenant + [BAR] + p.left + [BAR] + q.merge + [BAR] + p.right
  }

  function NewEdge(q: Query, p: Pair): Edge {
    Edge(q.merge, p.left, p.right)
  }

  /** MERGE for one row: write the edge unless there is one. */
  ghost function MergeRow(g: Graph, q: Query, p: Pair): Graph {
    if Joined(g, q.merge, p.left, p.right) then g
    else g.(edges := g.edges[EdgeId(q, p) := NewEdge(q, p)])
  }

  function PairsOf(rows: seq<Pair>): set<Pair> {
    set p | p in rows
  }

  ghost function MergeRows(g: Graph, q: Query, rows: seq<Pair>): Graph
    decreases |rows|
  {
    if rows == [] then g else MergeRow(MergeRows(g, q, rows[..|rows| - 1]), q, rows[|rows| - 1])
  }

  ghost predicate IsNew(g: Graph, q: Query, wanted: set<Pair>, p: Pair) {
    p in wanted && !Joined(g, q.merge, p.left, p.right)
  }

  /** g' is g plus one merge edge for each wanted pair that had none. */
  ghost predicate Adds(g: Graph, q: Query, wanted: set<Pair>, g': Graph) {
    && g'.labels == g.labels
    && (forall e :: e in g'.edges <==> e in g.edges || exists p :: IsNew(g, q, wanted, p) && e == EdgeId(q, p))
    && (forall e | e in g.edges :: e in g'.edges && g'.edges[e] == g.edges[e])
    && (forall p | IsNew(g, q, wanted, p) :: EdgeId(q, p) in g'.edges && g'.edges[EdgeId(q, p)] == NewEdge(q, p))
  }

  /** That pins g' down. */
  lemma AddsUnique(g: Graph, q: Query, wanted: set<Pair>, a: Graph, b: Graph)
    requires Adds(g, q, wanted, a) && Adds(g, q, wanted, b)
    ensures a == b
  {
    forall e | e in a.edges ensures a.edges[e] == b.edges[e] {
      if e !in g.edges {
        var p :| IsNew(g, q, wanted, p) && e == EdgeId(q, p);
      }
    }
    assert a.edges.Keys == b.edges.Keys;
  }

  // ---------------------------------------------------------------- premises

  predicate GoodId(id: Bytes) {
    id != [] && Trimmed(id)
  }

  /** End points are trimmed and not blank. */
  ghost predicate GoodEnds(g: Graph) {
    forall e | e in g.edges :: GoodId(g.edges[e].src) && GoodId(g.edges[e].dst)
  }

  /** No stored edge has taken the identifier of a different pair. */
  ghost predicate Good(g: Graph, q: Query) {
    GoodEnds(g) && forall e, p | e in g.edges && e == EdgeId(q, p) :: g.edges[e] == NewEdge(q, p)
  }

  /** Different pairs get different edge identifiers. */
  ghost predicate DistinctIds(q: Query, wanted: set<Pair>) {
    forall p, o | p in wanted && o in wanted && EdgeId(q, p) == EdgeId(q, o) :: p == o
  }

  /** No suggestion shares its key with another pair that the loops come across. */
  ghost predicate NoClash(g: Graph, q: Query) {
    forall p, o | p in Suggestions(g, q) && o in Paths(g, q) && PairKey(p) == PairKey(o) :: p == o
  }

  // ---------------------------------------------------------------- keys

  function PairKey(p: Pair): Bytes {
    p.left + [BAR] + p.right
  }

  lemma {:induction false} BarSplits(a: Bytes, b: Bytes, c: Bytes, d: Bytes)
    requires BAR !in a && BAR !in c && a + [BAR] + b == c + [BAR] + d
    ensures a == c && b == d
  {
    var s, t := a + [BAR] + b, c + [BAR] + d;
    assert a != [] ==> s[0] == a[0] && a[0] in a;
    assert c != [] ==> t[0] == c[0] && c[0] in c;
    if a == [] {
      assert s[1..] == b && t[1..] == d;
    } else {
      assert s[0] == a[0] && t[0] == c[0];
      assert s[1..] == a[1..] + [BAR] + b && t[1..] == c[1..] + [BAR] + d;
      BarSplits(a[1..], b, c[1..], d);
      assert a == [a[0]] + a[1..] && c == [c[0]] + c[1..];
    }
  }

  /** Pairs have distinct keys as long as left IDs hold no bar. */
  lemma PairKeyInjective(p: Pair, o: Pair)
    requires BAR !in p.left && BAR !in o.left && PairKey(p) == PairKey(o)
    ensures p == o
  {
    BarSplits(p.left, p.right, o.left, o.right);
  }

  /** Pairs that share a key and a left end are the same. */
  lemma PairKeyFromLeft(p: Pair, o: Pair)
    requires p.left == o.left && PairKey(p) == PairKey(o)
    ensures p == o
  {
    assert PairKey(p)[|p.left| + 1..] == p.right && PairKey(o)[|o.left| + 1..] == o.right;
  }

  lemma EdgeIdInjective(q: Query, p: Pair, o: Pair)
    requires BAR !in p.left && BAR !in o.left && EdgeId(q, p) == EdgeId(q, o)
    ensures p == o
  {
    var t := q.tenant + [BAR];
    var a, b := q.merge + [BAR] + p.right, q.merge + [BAR] + o.right;
    assert EdgeId(q, p) == t + (p.left + [BAR] + a);
    assert EdgeId(q, o) == t + (o.left + [BAR] + b);
    assert EdgeId(q, p)[|t|..] == p.left + [BAR] + a && EdgeId(q, o)[|t|..] == o.left + [BAR] + b;
    BarSplits(p.left, a, o.left, b);
    var c := q.merge + [BAR];
    assert a[|c|..] == p.right && b[|c|..] == o.right;
  }

  /** Without bars in the IDs of sources nothing collides. */
  lemma BarFreeIsSafe(g: Graph, q: Query)
    requires forall e | e in g.edges :: BAR !in g.edges[e].src
    ensures NoClash(g, q) && DistinctIds(q, Suggestions(g, q))
  {
    forall p, o | p in Suggestions(g, q) && o in Paths(g, q) && PairKey(p) == PairKey(o) ensures p == o {
      PairKeyInjective(p, o);
    }
    forall p, o | p in Suggestions(g, q) && o in Suggestions(g, q) && EdgeId(q, p) == EdgeId(q, o) ensures p == o {
      EdgeIdInjective(q, p, o);
    }
  }

  // ---------------------------------------------------------------- which suggestions are kept

  ghost predicate NoRepeats(s: seq<Bytes>) {
    forall i, j | 0 <= i < j < |s| :: s[i] != s[j]
  }

  /** An order in which the outer loop may visit its vertices. */
  ghost predicate IsOrder(g: Graph, q: Query, lefts: seq<Bytes>) {
    NoRepeats(lefts) && forall v :: v in lefts <==> v in Sources(g, q.first)
  }

  ghost predicate Before(lefts: seq<Bytes>, a: Bytes, b: Bytes) {
    exists i, j :: 0 <= i < j < |lefts| && lefts[i] == a && lefts[j] == b
  }

  /** In this order of the outer loop, no other pair takes the key of p before p does. */
  ghost predicate KeptIn(g: Graph, q: Query, lefts: seq<Bytes>, p: Pair) {
    p in Suggestions(g, q)
    && forall o | o in Paths(g, q) && PairKey(o) == PairKey(p) :: !Before(lefts, o.left, p.left)
  }

  /** The suggestions that this order of the outer loop finds. */
  ghost function KeptPairs(g: Graph, q: Query, lefts: seq<Bytes>): set<Pair> {
    set p | p in Suggestions(g, q) && KeptIn(g, q, lefts, p)
  }

  lemma SameOrBefore(lefts: seq<Bytes>, a: Bytes, b: Bytes)
    requires a in lefts && b in lefts && !Before(lefts, a, b) && !Before(lefts, b, a)
    ensures a == b
  {
    var i :| 0 <= i < |lefts| && lefts[i] == a;
    var j :| 0 <= j < |lefts| && lefts[j] == b;
    assert i < j ==> Before(lefts, a, b);
    assert j < i ==> Before(lefts, b, a);
  }

  lemma {:induction false} SomeOrder(vs: set<Bytes>) returns (s: seq<Bytes>)
    ensures NoRepeats(s) && forall v :: v in s <==> v in vs
    decreases vs
  {
    if vs == {} {
      s := [];
    } else {
      var v :| v in vs;
      var t := SomeOrder(vs - {v});
      s := t + [v];
    }
  }

  /** A pair of another left end that shares the key of p takes it if its left end comes first. */
  lemma ClashLosesPair(g: Graph, q: Query, p: Pair, o: Pair) returns (lefts: seq<Bytes>)
    requires p in Suggestions(g, q) && o in Paths(g, q) && PairKey(p) == PairKey(o) && p != o
    ensures IsOrder(g, q, lefts) && !KeptIn(g, q, lefts, p)
  {
    if p.left == o.left {
      PairKeyFromLeft(p, o);
    }
    var vs := Sources(g, q.first);
    var rest := SomeOrder(vs - {o.left});
    lefts := [o.left] + rest;
    assert p.left in rest;
    var j :| 0 <= j < |rest| && rest[j] == p.left;
    assert lefts[0] == o.left && lefts[j + 1] == p.left;
    assert Before(lefts, o.left, p.left);
  }

  /** In every order of the loops all suggestions are kept exactly if none shares its key with another pair. */
  lemma AllKeptExactly(g: Graph, q: Query)
    ensures (forall lefts, p | IsOrder(g, q, lefts) && p in Suggestions(g, q) :: KeptIn(g, q, lefts, p))
            <==> NoClash(g, q)
  {
    if NoClash(g, q) {
      forall lefts, p | IsOrder(g, q, lefts) && p in Suggestions(g, q) ensures KeptIn(g, q, lefts, p) {
        forall o | o in Paths(g, q) && PairKey(o) == PairKey(p) ensures !Before(lefts, o.left, p.left) {
          assert o == p;
        }
      }
    } else {
      var p, o :| p in Suggestions(g, q) && o in Paths(g, q) && PairKey(p) == PairKey(o) && p != o;
      var lefts := ClashLosesPair(g, q, p, o);
    }
  }

  /** Two left vertices, a|b and a, with their own way to c and to b|c. */
  function BarredGraph(): Graph {
    var a, b, c := 97, 98, 99;
    Graph(map[], map[[1] := Edge([1], [a, BAR, b], [109]), [2] := Edge([2], [109], [c]),
                     [3] := Edge([1], [a], [110]), [4] := Edge([2], [110], [b, BAR, c])])
  }

  function BarredQuery(): Query {
    Query([1], [], [], [], [1], [2], [3], [4])
  }

  const BARRED_LEFT: Pair := Pair([97, BAR, 98], [99])
  const BARRED_RIGHT: Pair := Pair([97], [98, BAR, 99])

  lemma BarredSuggestions()
    ensures BARRED_LEFT in Suggestions(BarredGraph(), BarredQuery())
    ensures BARRED_RIGHT in Suggestions(BarredGraph(), BarredQuery())
  {
    assert Match(BarredGraph(), BarredQuery(), [1], [2]);
    assert Match(BarredGraph(), BarredQuery(), [3], [4]);
  }

  lemma SuggestionsArePaths(g: Graph, q: Query, p: Pair)
    requires p in Suggestions(g, q)
    ensures p in Paths(g, q) && p.left in Sources(g, q.first)
  {
    var e1, e2 :| e1 in g.edges && e2 in g.edges && Match(g, q, e1, e2)
                  && p == Pair(g.edges[e1].src, g.edges[e2].dst);
    assert Path(g, q, e1, e2);
  }

  /** With bars in IDs two suggestions share one key, and whatever the order one of them is lost. */
  lemma BarsLosePair(lefts: seq<Bytes>)
    requires IsOrder(BarredGraph(), BarredQuery(), lefts)
    ensures exists p :: p in Suggestions(BarredGraph(), BarredQuery())
                        && !KeptIn(BarredGraph(), BarredQuery(), lefts, p)
  {
    var g, q := BarredGraph(), BarredQuery();
    var p, o := BARRED_LEFT, BARRED_RIGHT;
    BarredSuggestions();
    SuggestionsArePaths(g, q, p);
    SuggestionsArePaths(g, q, o);
    assert PairKey(p) == PairKey(o) == [97, BAR, 98, BAR, 99];
    hide Suggestions, Paths, Sources, PairKey;
    if !Before(lefts, p.left, o.left) && !Before(lefts, o.left, p.left) {
      SameOrBefore(lefts, p.left, o.left);
      assert false;
    }
    assert !KeptIn(g, q, lefts, o) || !KeptIn(g, q, lefts, p);
  }

  // ---------------------------------------------------------------- MERGE row by row

  lemma JoinedAfter(g: Graph, q: Query, wanted: set<Pair>, g': Graph, p: Pair)
    requires Good(g, q) && Adds(g, q, wanted, g')
    ensures Joined(g', q.merge, p.left, p.right) <==> p in wanted || Joined(g, q.merge, p.left, p.right)
  {
    if e :| Joins(g, e, q.merge, p.left, p.right) {
      assert Joins(g', e, q.merge, p.left, p.right);
    } else if p in wanted {
      assert IsNew(g, q, wanted, p);
      assert Joins(g', EdgeId(q, p), q.merge, p.left, p.right);
    }
    if e :| Joins(g', e, q.merge, p.left, p.right) {
      if e !in g.edges {
        var o :| IsNew(g, q, wanted, o) && e == EdgeId(q, o);
      } else {
        assert Joins(g, e, q.merge, p.left, p.right);
      }
    }
  }

  /** The edge of a pair that nothing joins yet goes under an identifier of its own. */
  lemma FreshId(g: Graph, q: Query, wanted: set<Pair>, p: Pair)
    requires Good(g, q) && DistinctIds(q, wanted + {p}) && !Joined(g, q.merge, p.left, p.right)
    ensures EdgeId(q, p) !in g.edges
    ensures forall o | IsNew(g, q, wanted, o) && EdgeId(q, o) == EdgeId(q, p) :: o == p
  {
    if EdgeId(q, p) in g.edges {
      assert Joins(g, EdgeId(q, p), q.merge, p.left, p.right);
    }
    assert p in wanted + {p};
    forall o | IsNew(g, q, wanted, o) && EdgeId(q, o) == EdgeId(q, p) ensures o == p {
      assert o in wanted + {p};
    }
  }

  lemma MergeRowAdds(g: Graph, q: Query, wanted: set<Pair>, g': Graph, p: Pair)
    requires Good(g, q) && Adds(g, q, wanted, g') && DistinctIds(q, wanted + {p})
    ensures Adds(g, q, wanted + {p}, MergeRow(g', q, p))
  {
    JoinedAfter(g, q, wanted, g', p);
    hide Joined, Good, DistinctIds, EdgeId;
    if !Joined(g', q.merge, p.left, p.right) {
      FreshId(g, q, wanted, p);
      assert forall o :: IsNew(g, q, wanted + {p}, o) <==> IsNew(g, q, wanted, o) || o == p;
    } else {
      assert forall o :: IsNew(g, q, wanted + {p}, o) <==> IsNew(g, q, wanted, o);
    }
  }

  /** Running MERGE over the rows one by one, in any order and with any repetitions, adds the same edges. */
  lemma {:induction false} MergeRowsAdd(g: Graph, q: Query, rows: seq<Pair>)
    requires Good(g, q) && DistinctIds(q, PairsOf(rows))
    ensures Adds(g, q, PairsOf(rows), MergeRows(g, q, rows))
    decreases |rows|
  {
    if rows != [] {
      var n := |rows| - 1;
      assert rows == rows[..n] + [rows[n]];
      assert PairsOf(rows) == PairsOf(rows[..n]) + {rows[n]};
      MergeRowsAdd(g, q, rows[..n]);
      MergeRowAdds(g, q, PairsOf(rows[..n]), MergeRows(g, q, rows[..n]), rows[n]);
    }
  }

  // ---------------------------------------------------------------- an edge that is lost

  lemma BarredMatches(e1: Bytes, e2: Bytes)
    requires Match(BarredGraph(), BarredQuery(), e1, e2)
    ensures (e1 == [1] && e2 == [2]) || (e1 == [3] && e2 == [4])
  {
    var g := BarredGraph();
    assert g.edges.Keys == {[1], [2], [3], [4]};
    assert [1][0] != [2][0] && [109][0] != [110][0];
    assert [97, BAR, 98][0] != [109][0] && [99][0] != [109][0] && [97][0] != [109][0];
  }

  predicate VisibleId(id: Bytes) {
    id != [] && Visible(id)
  }

  lemma BarredGood()
    ensures Good(BarredGraph(), BarredQuery())
  {
    var g, q := BarredGraph(), BarredQuery();
    assert forall e | e in g.edges :: |e| == 1;
    assert forall p :: |EdgeId(q, p)| >= 3;
    assert forall e | e in g.edges :: VisibleId(g.edges[e].src) && VisibleId(g.edges[e].dst);
    forall id | VisibleId(id) ensures GoodId(id) {
      VisibleIsTrimmed(id);
      TrimIsTrimmed(id);
    }
    hide VisibleId, GoodId, BarredGraph, EdgeId;
  }

  lemma BarredIdsDiffer()
    ensures DistinctIds(BarredQuery(), Suggestions(BarredGraph(), BarredQuery()))
  {
    var g, q := BarredGraph(), BarredQuery();
    forall p | p in Suggestions(g, q) ensures p == BARRED_LEFT || p == BARRED_RIGHT {
      var e1, e2 :| e1 in g.edges && e2 in g.edges && Match(g, q, e1, e2)
                    && p == Pair(g.edges[e1].src, g.edges[e2].dst);
      BarredMatches(e1, e2);
    }
    assert EdgeId(q, BARRED_LEFT)[4] == 98 && EdgeId(q, BARRED_RIGHT)[4] == 4;
  }

  /**
   * The fast path accepts the graph, since its IDs are trimmed and no identifiers clash. Whatever the order of its
   * loops, what it leaves lacks the edge of a suggestion.
   */
  lemma BarsLoseEdge(lefts: seq<Bytes>, g': Graph) returns (p: Pair)
    requires IsOrder(BarredGraph(), BarredQuery(), lefts)
    requires Adds(BarredGraph(), BarredQuery(), KeptPairs(BarredGraph(), BarredQuery(), lefts), g')
    ensures Good(BarredGraph(), BarredQuery())
    ensures DistinctIds(BarredQuery(), Suggestions(BarredGraph(), BarredQuery()))
    ensures p in Suggestions(BarredGraph(), BarredQuery()) && !Joined(g', BarredQuery().merge, p.left, p.right)
  {
    var g, q := BarredGraph(), BarredQuery();
    BarredGood();
    BarredIdsDiffer();
    hide Good, DistinctIds;
    BarsLosePair(lefts);
    p :| p in Suggestions(g, q) && !KeptIn(g, q, lefts, p);
    JoinedAfter(g, q, KeptPairs(g, q, lefts), g', p);
    NoBarredMerge(p);
  }

  lemma NoBarredMerge(p: Pair)
    ensures !Joined(BarredGraph(), BarredQuery().merge, p.left, p.right)
  {
    assert [4][0] != [1][0] && [4][0] != [2][0];
  }
}
