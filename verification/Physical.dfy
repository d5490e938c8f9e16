/**
 * From the logical plan to the physical one: one node per logical node, and anti-probes behind an expansion. A sort
 * may be cut off at SKIP + LIMIT of the pagination behind it, an expansion pruned if it cannot find anything, and
 * anti-probes come with higher hit rates first. Which of them a plan gets depends on the stored counts.
 */
module Physical {
  import opened Wrappers
  import opened Text
  import opened Semantic
  import opened Logical
  import Sorting

  // ---------------------------------------------------------------- integer literals

  predicate IsDigit(b: byte) {
    48 <= b <= 57
  }

  function DigitsValue(s: Bytes): nat
    requires forall b | b in s :: IsDigit(b)
  {
    if s == [] then 0
    else
      assert IsDigit(s[|s| - 1]);
      10 * DigitsValue(s[..|s| - 1]) + (s[|s| - 1] as int - 48)
  }

  const MAX_INT64 := 0x7FFF_FFFF_FFFF_FFFF

  /** strconv.Atoi on a 64-bit machine: an optional sign, digits, and the range of int64. */
  function Atoi(s: Bytes): Option<int> {
    var signed := s != [] && (s[0] == 43 || s[0] == 45);
    var digits := if signed then s[1..] else s;
    if digits == [] || exists b | b in digits :: !IsDigit(b) then None
    else
      var n: int := if signed && s[0] == 45 then -(DigitsValue(digits) as int) else DigitsValue(digits);
      if -MAX_INT64 - 1 <= n <= MAX_INT64 then Some(n) else None
  }

  function StripParens(raw: Bytes): Bytes
    decreases |raw|
  {
    if |raw| >= 2 && raw[0] == 40 && raw[|raw| - 1] == 41 then
      var inner := raw[1..|raw| - 1];
      TrimShorter(inner);
      StripParens(Trim(inner))
    else raw
  }

  function IntLiteral(raw: Bytes, least: int): Option<int> {
    var n := Atoi(StripParens(Trim(raw)));
    if n.Some? && n.value >= least then n else None
  }

  /** 64-bit addition of two values that are not negative. */
  function Add64(a: int, b: int): int {
    if a + b > MAX_INT64 then a + b - 2 * (MAX_INT64 + 1) else a + b
  }

  // ---------------------------------------------------------------- what the planner knows

  /** A relationship found negated in a WHERE text by a regular expression: NOT ((left)-[:edgeType]-(right)). */
  datatype Found = Found(left: Bytes, edgeType: Bytes, right: Bytes)

  datatype Relation = Relation(left: Bytes, right: Bytes, edgeType: Bytes, directed: bool)

  /** What the planner's text scans report: regular expressions over patterns and WHERE texts. */
  datatype Reader = Reader(edgeType: Bytes -> Bytes, hasOr: Bytes -> bool, undirected: Bytes -> seq<Found>,
                           outgoing: Bytes -> seq<Found>, incoming: Bytes -> seq<Found>)

  /** Stored counts, and the two scores derived from them. */
  datatype Hints = Hints(edgeTotal: Option<int>, typeCounts: map<Bytes, int>, outDegree: Bytes -> real,
                         hitRate: Bytes -> real)

  datatype Join = IndexedBind | NestedLoop

  datatype PhysicalOp =
    | Expand(optional: bool, pattern: Bytes, where: Bytes, join: Option<Join>)
    | Empty(pattern: Bytes, where: Bytes)
    | AntiProbe(relation: Relation)
    | SortRows(ordering: seq<SortItem>, topK: Option<int>)
    | Other(op: Op)

  function Upper(s: Bytes): Bytes {
    Sorting.Map(s, UpperByte)
  }

  function Lower(s: Bytes): Bytes {
    Sorting.Map(s, LowerByte)
  }

  // ---------------------------------------------------------------- pruning

  const FALSE: Bytes := [102, 97, 108, 115, 101]
  const ONE_IS_ZERO: Bytes := [49, 61, 48]
  const ZERO_IS_ONE: Bytes := [48, 61, 49]

  predicate AlwaysFalse(where: Bytes) {
    Trim(Lower(where)) in [FALSE, ONE_IS_ZERO, ZERO_IS_ONE]
  }

  predicate EdgeTypeKnownEmpty(pattern: Bytes, r: Reader, h: Hints) {
    var edgeType := r.edgeType(pattern);
    && edgeType != []
    && (|| (h.edgeTotal.Some? && h.edgeTotal.value <= 0)
        || (Upper(edgeType) in h.typeCounts && h.typeCounts[Upper(edgeType)] <= 0))
  }

  predicate Pruned(op: Op, r: Reader, h: Hints) {
    op.MatchOp? && (AlwaysFalse(op.where) || EdgeTypeKnownEmpty(op.pattern, r, h))
  }

  // ---------------------------------------------------------------- top-k

  /** Sort is cut short if the literal LIMIT is at most a quarter of the edge total. */
  function TopK(page: Pagination, h: Hints): Option<int> {
    var limit := IntLiteral(page.limit, 1);
    if limit.None? || h.edgeTotal.None? || h.edgeTotal.value <= 0 || 4 * limit.value > h.edgeTotal.value then None
    else
      var skip := IntLiteral(page.skip, 0);
      Some(Add64(if skip.Some? then skip.value else 0, limit.value))
  }

  // ---------------------------------------------------------------- anti-probes

  predicate HitsMore(h: Hints, a: Relation, b: Relation) {
    if h.hitRate(a.edgeType) != h.hitRate(b.edgeType) then h.hitRate(a.edgeType) > h.hitRate(b.edgeType)
    else if a.edgeType != b.edgeType then Less(a.edgeType, b.edgeType)
    else if a.left != b.left then Less(a.left, b.left)
    else Less(a.right, b.right)
  }

  function Collected(found: seq<Found>, directed: bool, swap: bool): seq<Relation> {
    if found == [] then []
    else
      var last := found[|found| - 1];
      var left, right, edgeType := Trim(last.left), Trim(last.right), Trim(last.edgeType);
      Collected(found[..|found| - 1], directed, swap)
      + if left == [] || right == [] || edgeType == [] then []
        else [if swap then Relation(right, left, edgeType, directed) else Relation(left, right, edgeType, directed)]
  }

  /** All relations the WHERE text negates, directed ones from source to target. */
  function NegatedIn(where: Bytes, r: Reader): seq<Relation> {
    Collected(r.undirected(where), false, false) + Collected(r.outgoing(where), true, false)
    + Collected(r.incoming(where), true, true)
  }

  /** First occurrences only. */
  function Distinct<T(==)>(s: seq<T>): seq<T> {
    if s == [] then []
    else Distinct(s[..|s| - 1]) + if s[|s| - 1] in s[..|s| - 1] then [] else [s[|s| - 1]]
  }

  function Probes(where: Bytes, r: Reader, h: Hints): seq<Relation> {
    if Blank(where) || r.hasOr(Trim(where)) then []
    else Distinct(Sorting.StableSort(NegatedIn(Trim(where), r), (a, b) => HitsMore(h, a, b)))
  }

  method Dedupe(specs: seq<Relation>) returns (out: seq<Relation>)
    ensures out == Distinct(specs)
  {
    out := [];
    var seen: set<Relation> := {};
    for i := 0 to |specs|
      invariant out == Distinct(specs[..i])
      invariant forall x :: x in seen <==> x in specs[..i]
    {
      assert specs[..i + 1][..i] == specs[..i];
      if specs[i] in seen {
        continue;
      }
      seen := seen + {specs[i]};
      out := out + [specs[i]];
    }
    assert specs[..|specs|] == specs;
  }

  method AntiProbesFromWhere(where: Bytes, r: Reader, h: Hints) returns (probes: seq<Relation>)
    ensures probes == Probes(where, r, h)
  {
    var text := Trim(where);
    if text == [] || r.hasOr(text) {
      return [];
    }
    var specs := Collected(r.undirected(text), false, false);
    specs := specs + Collected(r.outgoing(text), true, false);
    specs := specs + Collected(r.incoming(text), true, true);
    specs := Sorting.StableSort(specs, (a, b) => HitsMore(h, a, b));
    probes := Dedupe(specs);
  }

  lemma {:induction false} DistinctKeeps<T>(s: seq<T>)
    ensures forall x :: x in Distinct(s) <==> x in s
    ensures forall i, j | 0 <= i < j < |Distinct(s)| :: Distinct(s)[i] != Distinct(s)[j]
    decreases |s|
  {
    if s != [] {
      var t := s[..|s| - 1];
      DistinctKeeps(t);
      assert s == t + [s[|s| - 1]];
    }
  }

  /** Sorting and deduplicating loses no relation, adds none and repeats none. */
  lemma ProbesExactly(where: Bytes, r: Reader, h: Hints)
    ensures forall x :: x in Probes(where, r, h) <==>
              !Blank(where) && !r.hasOr(Trim(where)) && x in NegatedIn(Trim(where), r)
    ensures forall i, j | 0 <= i < j < |Probes(where, r, h)| :: Probes(where, r, h)[i] != Probes(where, r, h)[j]
  {
    var specs := NegatedIn(Trim(where), r);
    var sorted := Sorting.StableSort(specs, (a, b) => HitsMore(h, a, b));
    DistinctKeeps(sorted);
    forall x ensures x in sorted <==> x in specs {
      assert x in multiset(sorted) <==> x in multiset(specs);
    }
  }

  /** Less is total, and what is between two equal texts is equal to them. */
  lemma TextsCompare(a: Bytes, b: Bytes, c: Bytes)
    ensures Less(a, b) ==> a != b && !Less(b, a)
    ensures a == b || Less(a, b) || Less(b, a)
    ensures !Less(b, a) && !Less(c, b) ==> !Less(c, a) && (a == c ==> a == b)
  {
    LessTotal(a, b);
    LessTotal(b, c);
    if Less(a, b) {
      LessAsymmetric(a, b);
    }
    if !Less(b, a) && !Less(c, b) {
      AtMostTransitive(a, b, c);
      if Less(c, a) {
        AtMostAntisymmetric(a, c);
        LessAsymmetric(c, a);
      }
      if a == c {
        AtMostAntisymmetric(a, b);
      }
    }
  }

  lemma HitsMoreAsymmetric(h: Hints, x: Relation, y: Relation)
    requires HitsMore(h, x, y)
    ensures !HitsMore(h, y, x)
  {
    TextsCompare(x.edgeType, y.edgeType, []);
    TextsCompare(x.left, y.left, []);
    TextsCompare(x.right, y.right, []);
  }

  lemma HitsMoreTransitive(h: Hints, x: Relation, y: Relation, z: Relation)
    requires !HitsMore(h, y, x) && !HitsMore(h, z, y)
    ensures !HitsMore(h, z, x)
  {
    hide Less;
    TextsCompare(x.edgeType, y.edgeType, z.edgeType);
    TextsCompare(y.edgeType, z.edgeType, x.edgeType);
    TextsCompare(x.left, y.left, z.left);
    TextsCompare(y.left, z.left, x.left);
    TextsCompare(x.right, y.right, z.right);
  }

  lemma {:induction false} DistinctOrdered<T(!new)>(s: seq<T>, less: (T, T) -> bool)
    requires Sorting.Ordered(s, less)
    ensures Sorting.Ordered(Distinct(s), less)
    decreases |s|
  {
    if s != [] {
      var t := s[..|s| - 1];
      DistinctOrdered(t, less);
      DistinctKeeps(t);
      forall i | 0 <= i < |Distinct(t)| ensures !less(s[|s| - 1], Distinct(t)[i]) {
        assert Distinct(t)[i] in t;
      }
    }
  }

  /** The probes come in the order of their hit rates, higher ones first, and of their names where these agree. */
  lemma ProbesOrdered(where: Bytes, r: Reader, h: Hints)
    ensures Sorting.Ordered(Probes(where, r, h), (a, b) => HitsMore(h, a, b))
  {
    var less := (a, b) => HitsMore(h, a, b);
    forall x, y | less(x, y) ensures !less(y, x) {
      HitsMoreAsymmetric(h, x, y);
    }
    forall x, y, z | !less(y, x) && !less(z, y) ensures !less(z, x) {
      HitsMoreTransitive(h, x, y, z);
    }
    var specs := NegatedIn(Trim(where), r);
    Sorting.StableSortOrders(specs, less);
    DistinctOrdered(Sorting.StableSort(specs, less), less);
  }

  // ---------------------------------------------------------------- lowering one node

  function JoinStrategy(pattern: Bytes, r: Reader, h: Hints): Join {
    var edgeType := Upper(Trim(r.edgeType(pattern)));
    if edgeType != [] && 0.0 < h.outDegree(edgeType) <= 1.5 then IndexedBind else NestedLoop
  }

  /** Before joins, pruning and probes. */
  function Lowered(op: Op, page: Pagination, h: Hints): PhysicalOp {
    match op
    case MatchOp(pattern, where) => Expand(false, pattern, where, None)
    case OptionalMatchOp(pattern, where) => Expand(true, pattern, where, None)
    case SortOp(ordering) => SortRows(ordering, TopK(page, h))
    case _ => Other(op)
  }

  /** The pagination right behind node k of a chain. */
  function PageBehind(ops: seq<Op>, k: nat): Pagination
    requires k < |ops|
  {
    if ops[k].SortOp? && k + 1 < |ops| && ops[k + 1].PaginationOp? then
      Pagination(Trim(ops[k + 1].page.skip), Trim(ops[k + 1].page.limit))
    else Pagination([], [])
  }

  /** Node k of a chain is an expansion that survives pruning. */
  predicate Expands(ops: seq<Op>, k: int, r: Reader, h: Hints) {
    0 <= k < |ops| && (ops[k].MatchOp? || ops[k].OptionalMatchOp?) && !Pruned(ops[k], r, h)
  }

  /** The operator that node k of a chain becomes. */
  function Main(ops: seq<Op>, k: nat, r: Reader, h: Hints): PhysicalOp
    requires k < |ops|
  {
    var base := Lowered(ops[k], PageBehind(ops, k), h);
    if Pruned(ops[k], r, h) then Empty(ops[k].pattern, ops[k].where)
    else if base.Expand? && Expands(ops, k - 1, r, h) then
      base.(join := Some(JoinStrategy(base.pattern, r, h)))
    else base
  }

  function AsProbes(relations: seq<Relation>): seq<PhysicalOp> {
    Sorting.Map(relations, (x: Relation) => AntiProbe(x))
  }

  function Spliced(op: PhysicalOp, r: Reader, h: Hints): seq<PhysicalOp> {
    [op] + if op.Expand? && !op.optional then AsProbes(Probes(op.where, r, h)) else []
  }

  /** Node k together with the anti-probes spliced in behind it. */
  function LoweredAt(ops: seq<Op>, k: nat, r: Reader, h: Hints): seq<PhysicalOp>
    requires k < |ops|
  {
    Spliced(Main(ops, k, r, h), r, h)
  }

  /** The operators for the first n nodes of a chain. */
  function PhysicalOps(ops: seq<Op>, n: nat, r: Reader, h: Hints): seq<PhysicalOp>
    requires n <= |ops|
  {
    if n == 0 then [] else PhysicalOps(ops, n - 1, r, h) + LoweredAt(ops, n - 1, r, h)
  }

  // ---------------------------------------------------------------- the builder

  method MapChildren(children: seq<Id>, idMap: map<Id, Id>) returns (mapped: seq<Id>)
    ensures children == [] ==> mapped == []
    ensures forall c | children == [c] && c in idMap :: mapped == [idMap[c]]
  {
    mapped := [];
    for i := 0 to |children|
      invariant i == 0 ==> mapped == []
      invariant forall c | i == 1 && children == [c] && c in idMap :: mapped == [idMap[c]]
    {
      if children[i] in idMap {
        mapped := mapped + [idMap[children[i]]];
      }
    }
  }

  /** Looks at the next node, which must be a pagination fed by this one. */
  method PageFromNextNode(nodes: seq<Node<Op>>, idx: nat, id: Id) returns (page: Pagination)
    ensures page == if idx + 1 < |nodes| && nodes[idx + 1].op.PaginationOp? && id in nodes[idx + 1].children
                    then Pagination(Trim(nodes[idx + 1].op.page.skip), Trim(nodes[idx + 1].op.page.limit))
                    else Pagination([], [])
  {
    page := Pagination([], []);
    if idx + 1 < |nodes| {
      var next := nodes[idx + 1];
      if next.op.PaginationOp? && id in next.children {
        page := Pagination(Trim(next.op.page.skip), Trim(next.op.page.limit));
      }
    }
  }

  method LowerNode(node: Node<Op>, page: Pagination, parent: Option<PhysicalOp>, r: Reader, h: Hints)
    returns (op: PhysicalOp)
    ensures op == var base := Lowered(node.op, page, h);
                  if Pruned(node.op, r, h) then Empty(node.op.pattern, node.op.where)
                  else if base.Expand? && parent.Some? && parent.value.Expand? then
                    base.(join := Some(JoinStrategy(base.pattern, r, h)))
                  else base
  {
    op := Lowered(node.op, page, h);
    if op.Expand? && parent.Some? && parent.value.Expand? {
      op := op.(join := Some(JoinStrategy(op.pattern, r, h)));
    }
    if Pruned(node.op, r, h) {
      op := Empty(node.op.pattern, node.op.where);
    }
  }

  method AppendProbes(before: seq<Node<PhysicalOp>>, first: Id, probes: seq<Relation>,
                      ghost ops: seq<PhysicalOp>)
    returns (nodes: seq<Node<PhysicalOp>>, last: Id)
    requires first == |before|
    requires before != []
    ensures IsChain(Plan(|before|, before), ops) ==> IsChain(Plan(last, nodes), ops + AsProbes(probes))
    ensures last == |nodes| > 0
  {
    nodes, last := before, first;
    ghost var done := ops;
    for i := 0 to |probes|
      invariant last == |nodes| > 0
      invariant done == ops + AsProbes(probes)[..i]
      invariant IsChain(Plan(|before|, before), ops) ==> IsChain(Plan(last, nodes), done)
    {
      nodes := nodes + [Node(last + 1, AntiProbe(probes[i]), [last])];
      last := last + 1;
      done := done + [AntiProbe(probes[i])];
    }
  }

  /** The state of the builder after idx nodes of a chain. */
  ghost predicate Built(ops: seq<Op>, idx: nat, nodes: seq<Node<PhysicalOp>>, idMap: map<Id, Id>,
                        opById: map<Id, PhysicalOp>, r: Reader, h: Hints)
    requires idx <= |ops|
  {
    && IsChain(Plan(|nodes|, nodes), PhysicalOps(ops, idx, r, h))
    && (idx == 0 ==> idMap == map[])
    && (idx > 0 ==> idx in idMap && idMap[idx] == |nodes| && |nodes| in opById
                    && opById[|nodes|] == Main(ops, idx - 1, r, h))
  }

  lemma PageIsBehind(plan: Plan<Op>, ops: seq<Op>, idx: nat, page: Pagination)
    requires IsChain(plan, ops) && idx < |ops|
    requires page == if ops[idx].SortOp? && idx + 1 < |ops| && plan.nodes[idx + 1].op.PaginationOp?
                        && plan.nodes[idx].id in plan.nodes[idx + 1].children
                     then Pagination(Trim(plan.nodes[idx + 1].op.page.skip), Trim(plan.nodes[idx + 1].op.page.limit))
                     else Pagination([], [])
    ensures page == PageBehind(ops, idx)
  {
    if idx + 1 < |ops| {
      assert plan.nodes[idx + 1] == Link(ops[idx + 1], idx + 1);
    }
  }

  method LowerOne(plan: Plan<Op>, idx: nat, idMap: map<Id, Id>, opById: map<Id, PhysicalOp>, r: Reader, h: Hints,
                  ghost ops: seq<Op>, ghost last: Id)
    returns (children: seq<Id>, op: PhysicalOp)
    requires idx < |plan.nodes|
    requires IsChain(plan, ops) && idx > 0 ==>
               idx in idMap && idMap[idx] == last && last in opById && opById[last] == Main(ops, idx - 1, r, h)
    ensures IsChain(plan, ops) ==> children == (if idx == 0 then [] else [last]) && op == Main(ops, idx, r, h)
  {
    var node := plan.nodes[idx];
    children := MapChildren(node.children, idMap);
    var page := Pagination([], []);
    if node.op.SortOp? {
      page := PageFromNextNode(plan.nodes, idx, node.id);
    }
    var parent := if |children| > 0 && children[0] in opById then Some(opById[children[0]]) else None;
    op := LowerNode(node, page, parent, r, h);
    if IsChain(plan, ops) {
      assert node == Link(ops[idx], idx);
      PageIsBehind(plan, ops, idx, page);
    }
  }

  /** One logical node: its own operator, and the anti-probes behind an expansion. */
  method AppendLowered(before: seq<Node<PhysicalOp>>, op: PhysicalOp, children: seq<Id>, r: Reader, h: Hints,
                       ghost done: seq<PhysicalOp>)
    returns (nodes: seq<Node<PhysicalOp>>, mapped: Id)
    ensures IsChain(Plan(|before|, before), done) && children == (if before == [] then [] else [|before|]) ==>
              IsChain(Plan(mapped, nodes), done + Spliced(op, r, h))
    ensures mapped == |nodes|
  {
    mapped := |before| + 1;
    nodes := before + [Node(mapped, op, children)];
    ghost var chain := IsChain(Plan(|before|, before), done) && children == if before == [] then [] else [|before|];
    assert chain ==> IsChain(Plan(mapped, nodes), done + [op]) by {
      if chain {
        ChainMore(before, done, op);
      }
    }
    if op.Expand? && !op.optional {
      var probes := AntiProbesFromWhere(op.where, r, h);
      nodes, mapped := AppendProbes(nodes, mapped, probes, done + [op]);
    }
    SplicedBehind(done, op, r, h);
  }

  lemma SplicedBehind(done: seq<PhysicalOp>, op: PhysicalOp, r: Reader, h: Hints)
    ensures done + Spliced(op, r, h) ==
            if op.Expand? && !op.optional then done + [op] + AsProbes(Probes(op.where, r, h)) else done + [op]
  {
  }

  /** The physical plan of a logical chain is again a chain: every node's lowering, in order. */
  method BuildWithStats(plan: Plan<Op>, r: Reader, h: Hints, ghost ops: seq<Op>) returns (out: Plan<PhysicalOp>)
    ensures IsChain(plan, ops) ==> IsChain(out, PhysicalOps(ops, |ops|, r, h))
  {
    var nodes: seq<Node<PhysicalOp>> := [];
    var idMap: map<Id, Id> := map[];
    var opById: map<Id, PhysicalOp> := map[];
    ghost var chain := IsChain(plan, ops);
    for idx := 0 to |plan.nodes|
      invariant chain ==> Built(ops, idx, nodes, idMap, opById, r, h)
    {
      var children, op := LowerOne(plan, idx, idMap, opById, r, h, ops, |nodes|);
      var mapped;
      ghost var done := if chain then PhysicalOps(ops, idx, r, h) else [];
      nodes, mapped := AppendLowered(nodes, op, children, r, h, done);
      idMap := idMap[plan.nodes[idx].id := mapped];
      opById := opById[mapped := op];
    }
    var root := if plan.root in idMap then idMap[plan.root] else 0;
    if root == 0 && |nodes| > 0 {
      root := nodes[|nodes| - 1].id;
    }
    out := Plan(root, nodes);
  }

}
