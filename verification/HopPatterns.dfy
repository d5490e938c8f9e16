/** What a relationship pattern with hop bounds and type alternatives finds, and when its first type decides that. */
module HopPatterns {
  import opened Wrappers
  import opened Text
  import opened TwoHop
  import opened Physical
  import opened Rewrites
  import Sorting

  datatype Way = Out | In | Either

  /** -[:named|others*min..max]-, or one of its directed forms; one hop is 1..1. */
  datatype Hops = Hops(named: Bytes, others: set<Bytes>, min: nat, max: Option<nat>, way: Way)

  predicate Leads(e: Edge, way: Way, a: Bytes, b: Bytes) {
    match way
    case Out => e.src == a && e.dst == b
    case In => e.src == b && e.dst == a
    case Either => (e.src == a && e.dst == b) || (e.src == b && e.dst == a)
  }

  /** A walk over the edges at the given places, none used twice. */
  ghost predicate IsWalk(edges: seq<Edge>, p: Hops, places: seq<nat>, vertices: seq<Bytes>) {
    && |vertices| == |places| + 1
    && (forall i, j | 0 <= i < j < |places| :: places[i] != places[j])
    && forall i | 0 <= i < |places| ::
         && places[i] < |edges|
         && (edges[places[i]].edgeType == p.named || edges[places[i]].edgeType in p.others)
         && Leads(edges[places[i]], p.way, vertices[i], vertices[i + 1])
  }

  ghost predicate Finds(edges: seq<Edge>, p: Hops) {
    exists places, vertices ::
      IsWalk(edges, p, places, vertices) && p.min <= |places| && (p.max.Some? ==> |places| <= p.max.value)
  }

  function TypesOf(edges: seq<Edge>): seq<Bytes> {
    Sorting.Map(edges, (e: Edge) => e.edgeType)
  }

  /** At least one hop and no alternative to the type the planner reads, or bounds that no walk meets. */
  predicate OneTypeDecides(p: Hops) {
    (p.min >= 1 && p.others <= {p.named}) || (p.max.Some? && p.max.value < p.min)
  }

  lemma NothingWithoutTheType(edges: seq<Edge>, p: Hops)
    requires OneTypeDecides(p) && p.named !in TypesOf(edges)
    ensures !Finds(edges, p)
  {
    forall places, vertices | IsWalk(edges, p, places, vertices) && p.min <= |places|
      ensures p.max.Some? && p.max.value < |places|
    {
      if |places| > 0 {
        assert TypesOf(edges)[places[0]] == edges[places[0]].edgeType;
      }
    }
  }

  /** As many loops of another type as the pattern needs hops. */
  function Loops(edgeType: Bytes, n: nat): (edges: seq<Edge>)
    ensures |edges| == n && forall i | 0 <= i < n :: edges[i] == Edge(edgeType, [], [])
  {
    seq(n, i => Edge(edgeType, [], []))
  }

  lemma SomethingWithoutTheType(p: Hops) returns (edges: seq<Edge>)
    requires !OneTypeDecides(p)
    ensures p.named !in TypesOf(edges) && Finds(edges, p)
  {
    var other: Bytes := [];
    if p.min > 0 {
      other :| other in p.others && other != p.named;
    }
    edges := Loops(other, p.min);
    var places, vertices: seq<Bytes> := seq(p.min, i => i), seq(p.min + 1, i => []);
    assert IsWalk(edges, p, places, vertices);
  }

  /**
   * Pruning by the one type that the planner reads in a pattern is right on every graph without edges of the type,
   * exactly if the pattern asks for at least one hop and has no other types.
   */
  lemma PruningByTypeExactly(p: Hops)
    ensures (forall edges | p.named !in TypesOf(edges) :: !Finds(edges, p)) <==> OneTypeDecides(p)
  {
    if OneTypeDecides(p) {
      forall edges | p.named !in TypesOf(edges) ensures !Finds(edges, p) {
        NothingWithoutTheType(edges, p);
      }
    } else {
      var edges := SomethingWithoutTheType(p);
    }
  }

  /** Patterns of this kind meet the premise of the rewrite. */
  lemma OneTypeNeedsEdges<Row(!new), E>(m: Meaning<Row, E>, r: Reader, edges: seq<Edge>, pattern: Bytes, p: Hops)
    requires OneTypeDecides(p) && r.edgeType(pattern) == p.named
    requires forall row | m.expand(pattern, row) != [] :: Finds(edges, p)
    ensures NeedsEdges(m, r, TypesOf(edges), pattern)
  {
    if p.named !in TypesOf(edges) {
      NothingWithoutTheType(edges, p);
    }
  }
}
