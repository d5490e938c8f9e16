/** All stages together: what the engine runs for a query is its clauses' lowering, in source order, once each. */
module Pipeline {
  import opened Wrappers
  import opened Text
  import opened Semantic
  import opened Logical
  import opened Physical
  import opened Engine
  import opened Rewrites
  import opened Forcing
  import opened ClauseMeaning

  // ---------------------------------------------------------------- the engine on chains

  lemma {:induction false} ChainNodes<T>(nodes: seq<Node<T>>, ops: seq<T>)
    requires |nodes| == |ops| && forall i | 0 <= i < |ops| :: nodes[i] == Link(ops[i], i)
    ensures forall id :: id in NodesById(nodes) <==> 1 <= id <= |ops|
    ensures forall id | 1 <= id <= |ops| :: NodesById(nodes)[id] == nodes[id - 1]
    decreases |nodes|
  {
    if nodes != [] {
      var n := |nodes| - 1;
      ChainNodes(nodes[..n], ops[..n]);
    }
  }

  lemma ChainAcyclic<T>(plan: Plan<T>, ops: seq<T>)
    requires IsChain(plan, ops)
    ensures Acyclic(NodesById(plan.nodes), (id: Id) => id)
  {
    ChainNodes(plan.nodes, ops);
  }

  /** 1, 2, ..., k */
  function UpTo(k: nat): (ids: seq<Id>)
    ensures |ids| == k && forall i | 0 <= i < k :: ids[i] == i + 1
  {
    seq(k, i => i + 1)
  }

  lemma VisitOnly<T>(m: map<Id, Node<T>>, rank: Id -> nat, c: Id, done: seq<Id>, bound: nat)
    requires Acyclic(m, rank) && (Exists(m, c) ==> rank(c) < bound)
    ensures VisitAll(m, rank, [c], done, bound) == VisitOrder(m, rank, c, done)
  {
    assert [c][..0] == [];
  }

  ghost predicate ChainMap<T>(m: map<Id, Node<T>>, n: nat) {
    forall id | 1 <= id <= n :: id in m && m[id].children == if id == 1 then [] else [id - 1]
  }

  lemma {:induction false} VisitChain<T>(m: map<Id, Node<T>>, n: nat, rank: Id -> nat, k: nat)
    requires ChainMap(m, n) && Acyclic(m, rank) && k <= n
    ensures VisitOrder(m, rank, k, []) == UpTo(k)
    decreases k
  {
    if k > 0 {
      VisitChain(m, n, rank, k - 1);
      if k > 1 {
        assert k - 1 in m[k].children;
        VisitOnly(m, rank, k - 1, [], rank(k));
      }
      assert UpTo(k) == UpTo(k - 1) + [k];
    }
  }

  lemma ChainHasMap<T>(plan: Plan<T>, ops: seq<T>)
    requires IsChain(plan, ops)
    ensures ChainMap(NodesById(plan.nodes), |ops|)
  {
    ChainNodes(plan.nodes, ops);
    forall id | 1 <= id <= |ops|
      ensures NodesById(plan.nodes)[id].children == if id == 1 then [] else [id - 1]
    {
      assert plan.nodes[id - 1] == Link(ops[id - 1], id - 1);
    }
  }

  /** The sweep finds everything done. */
  lemma {:induction false} SweepIdle<T>(m: map<Id, Node<T>>, rank: Id -> nat, ids: seq<Id>, done: seq<Id>, bound: nat)
    requires Acyclic(m, rank) && forall c | c in ids && Exists(m, c) :: rank(c) < bound
    requires forall id | id in ids :: id in done
    ensures VisitAll(m, rank, ids, done, bound) == done
    decreases |ids|
  {
    if ids != [] {
      assert ids[|ids| - 1] in ids;
      SweepIdle(m, rank, ids[..|ids| - 1], done, bound);
    }
  }

  lemma ChainOrder<T>(plan: Plan<T>, ops: seq<T>, rank: Id -> nat)
    requires IsChain(plan, ops) && Acyclic(NodesById(plan.nodes), rank)
    ensures Order(plan, rank) == UpTo(|ops|)
  {
    ChainHasMap(plan, ops);
    VisitChain(NodesById(plan.nodes), |ops|, rank, |ops|);
    var ids := IdsOf(plan.nodes);
    forall id | id in ids ensures id in UpTo(|ops|) {
      var i :| 0 <= i < |ids| && ids[i] == id;
      assert plan.nodes[i] == Link(ops[i], i) && UpTo(|ops|)[i] == id;
    }
    var m := NodesById(plan.nodes);
    SweepIdle(m, rank, ids, UpTo(|ops|), Top(m, rank));
  }

  /** One node after the other, up to the first error. */
  function RunNodes<T, S, E>(nodes: seq<Node<T>>, step: (Node<T>, S) -> Result<S, E>, start: S): Result<S, E> {
    if nodes == [] then Ok(start)
    else
      var r := RunNodes(nodes[..|nodes| - 1], step, start);
      if r.Err? then r else step(nodes[|nodes| - 1], r.value)
  }

  lemma {:induction false} RunChain<T, S, E>(plan: Plan<T>, ops: seq<T>, step: (Node<T>, S) -> Result<S, E>, start: S,
                                             k: nat)
    requires IsChain(plan, ops) && k <= |ops|
    ensures forall id | id in UpTo(k) :: id in NodesById(plan.nodes)
    ensures Run(NodesById(plan.nodes), step, UpTo(k), start) == RunNodes(plan.nodes[..k], step, start)
    decreases k
  {
    ChainNodes(plan.nodes, ops);
    if k > 0 {
      RunChain(plan, ops, step, start, k - 1);
      assert UpTo(k)[..k - 1] == UpTo(k - 1);
      assert plan.nodes[..k][..k - 1] == plan.nodes[..k - 1];
    }
  }

  // ---------------------------------------------------------------- from the clauses to the run

  function Links<T>(ops: seq<T>): (nodes: seq<Node<T>>)
    ensures |nodes| == |ops| && forall i | 0 <= i < |ops| :: nodes[i] == Link(ops[i], i)
  {
    seq(|ops|, i requires 0 <= i < |ops| => Link(ops[i], i))
  }

  /** The physical operators of a query, clause by clause. */
  function Lowering(clauses: seq<Clause>, unwind: Bytes -> Option<ReturnClause>, r: Reader, h: Hints): seq<PhysicalOp> {
    var ops := PlanOps(Intents(clauses, unwind));
    PhysicalOps(ops, |ops|, r, h)
  }

  method Compile(model: Model, r: Reader, h: Hints, ghost clauses: seq<Clause>,
                 ghost unwind: Bytes -> Option<ReturnClause>)
    returns (plan: Plan<PhysicalOp>)
    requires model.Contents() == ModelOf(clauses, unwind)
    ensures IsChain(plan, Lowering(clauses, unwind, r, h))
  {
    ghost var xs := Intents(clauses, unwind);
    ModelGathers(clauses, unwind);
    IntentsIncrease(clauses, unwind);
    var logical := Logical.Build(model, xs);
    plan := BuildWithStats(logical, r, h, PlanOps(xs));
  }

  method RunPlan<S, E>(plan: Plan<PhysicalOp>, step: (Node<PhysicalOp>, S) -> Result<S, E>, start: S,
                       ghost ops: seq<PhysicalOp>)
    returns (result: Result<S, E>)
    requires IsChain(plan, ops)
    ensures result == RunNodes(Links(ops), step, start)
  {
    ghost var rank := (id: Id) => id;
    ChainAcyclic(plan, ops);
    ChainOrder(plan, ops, rank);
    result := Engine.Execute(plan, step, start, rank);
    RunChain(plan, ops, step, start, |ops|);
    assert plan.nodes[..|ops|] == Links(ops);
  }

  /**
   * The plan of a whole statement: the clauses of all its UNION parts, one part behind the other. EXPLAIN shows it;
   * what is executed is the plan of a single part.
   */
  method BuildPlan(parts: seq<seq<Clause>>, unwind: Bytes -> Option<ReturnClause>, r: Reader, h: Hints)
    returns (plan: Plan<PhysicalOp>)
    ensures IsChain(plan, Lowering(Concat(parts), unwind, r, h))
  {
    var model := BuildFromQuery(parts, unwind);
    plan := Compile(model, r, h, Concat(parts), unwind);
  }

  lemma ConcatOne<T>(s: seq<T>)
    ensures Concat([s]) == s
  {
    assert [s][..0] == [];
  }

  /** A query of one part runs its clauses' lowerings in source order, each exactly once, up to the first error. */
  method RunQuery<S, E>(clauses: seq<Clause>, unwind: Bytes -> Option<ReturnClause>, r: Reader, h: Hints,
                        step: (Node<PhysicalOp>, S) -> Result<S, E>, start: S)
    returns (result: Result<S, E>)
    ensures result == RunNodes(Links(Lowering(clauses, unwind, r, h)), step, start)
  {
    ConcatOne(clauses);
    var plan := BuildPlan([clauses], unwind, r, h);
    result := RunPlan(plan, step, start, Lowering(clauses, unwind, r, h));
  }

  /**
   * So would a MATCH ... RETURN query that its own builder plans. The executor does not take this way: it turns
   * the statement into a query of clauses first.
   */
  method RunMatchQuery<S, E>(matches: seq<MatchClause>, ret: ReturnClause, ghost unwind: Bytes -> Option<ReturnClause>,
                             r: Reader, h: Hints, step: (Node<PhysicalOp>, S) -> Result<S, E>, start: S)
    returns (result: Result<S, E>)
    ensures result == RunNodes(Links(Lowering(AsClauses(matches, ret), unwind, r, h)), step, start)
  {
    var model := BuildFromMatchQuery(matches, ret, unwind);
    var plan := Compile(model, r, h, AsClauses(matches, ret), unwind);
    result := RunPlan(plan, step, start, Lowering(AsClauses(matches, ret), unwind, r, h));
  }

  // ---------------------------------------------------------------- the rows of a query

  lemma {:induction false} RunPerforms<Row, E>(m: Meaning<Row, E>, ops: seq<PhysicalOp>, rows: seq<Row>)
    ensures RunNodes(Links(ops), (n: Node<PhysicalOp>, s: seq<Row>) => Perform(m, n.op, s), rows)
            == PerformAll(m, ops, rows)
    decreases |ops|
  {
    if ops != [] {
      var k := |ops| - 1;
      RunPerforms(m, ops[..k], rows);
      assert Links(ops)[..k] == Links(ops[..k]);
    }
  }

  /** The logical operators of a query, clause by clause. */
  function Steps(clauses: seq<Clause>, unwind: Bytes -> Option<ReturnClause>): seq<Op> {
    PlanOps(Intents(clauses, unwind))
  }

  /**
   * Through all stages and with all rewrites, a query of one part gives the rows of its clauses' plain operators in
   * source order. These are the rows that the clauses mean if no expansion starts over.
   */
  method RunRows<Row(!new), E>(clauses: seq<Clause>, unwind: Bytes -> Option<ReturnClause>, r: Reader, h: Hints,
                               m: Meaning<Row, E>, rows: seq<Row>, ghost types: seq<Bytes>,
                               ghost formula: Bytes -> Formula, ghost atom: (Bytes, Row) -> bool)
    returns (result: Result<seq<Row>, E>)
    requires Sane(m, r, h, types, formula, atom, Steps(clauses, unwind)) && SkipsKnown(Steps(clauses, unwind))
    ensures result == PerformAll(m, PlainOps(Steps(clauses, unwind)), rows)
    ensures NoRestart(m, Steps(clauses, unwind), rows) ==> result == Meant(m, Steps(clauses, unwind), rows)
  {
    result := RunQuery(clauses, unwind, r, h, (n: Node<PhysicalOp>, s: seq<Row>) => Perform(m, n.op, s), rows);
    RunPerforms(m, Lowering(clauses, unwind, r, h), rows);
    RewritesPreserveRows(m, Steps(clauses, unwind), r, h, types, formula, atom, rows);
    if NoRestart(m, Steps(clauses, unwind), rows) {
      PlainMeans(m, Steps(clauses, unwind), rows);
    }
  }

  // ---------------------------------------------------------------- a sort sees its own pagination only

  lemma {:induction false} FlatMapAppend<T, U>(xs: seq<T>, ys: seq<T>, f: T -> seq<U>)
    ensures FlatMap(xs + ys, f) == FlatMap(xs, f) + FlatMap(ys, f)
    decreases |ys|
  {
    if ys == [] {
      assert xs + ys == xs;
    } else {
      var n := |ys| - 1;
      FlatMapAppend(xs, ys[..n], f);
      assert (xs + ys)[..|xs + ys| - 1] == xs + ys[..n];
    }
  }

  lemma {:induction false} NoLeadingPagination(xs: seq<Intent>)
    ensures OpsOfAll(xs) != [] ==> !OpsOfAll(xs)[0].PaginationOp?
    decreases |xs|
  {
    if xs != [] {
      NoLeadingPagination(xs[..|xs| - 1]);
      assert !OpsOf(xs[|xs| - 1])[0].PaginationOp?;
    }
  }

  lemma InTheMiddle<T>(before: seq<T>, part: seq<T>, behind: seq<T>, i: nat)
    requires i < |part| + |behind|
    ensures (before + part + behind)[|before| + i] == if i < |part| then part[i] else behind[i - |part|]
  {
  }

  lemma OpsAround(xs: seq<Intent>, x: Intent, ys: seq<Intent>)
    ensures PlanOps(xs + [x] + ys) == OpsOfAll(xs) + OpsOf(x) + OpsOfAll(ys)
  {
    FlatMapAppend(xs + [x], ys, OpsOf);
    FlatMapAppend(xs, [x], OpsOf);
    assert FlatMap([x], OpsOf) == OpsOf(x) by {
      assert [x][..0] == [];
    }
  }

  /** What the planner takes for a sort's SKIP and LIMIT are those of the projection the sort belongs to. */
  lemma SortSeesOwnPage(xs: seq<Intent>, x: Intent, ys: seq<Intent>)
    requires x.ProjectionIntent? && x.orderBy != []
    ensures var ops, k := PlanOps(xs + [x] + ys), |OpsOfAll(xs)| + 1;
            && k < |ops| && ops[k] == SortOp(x.orderBy)
            && PageBehind(ops, k) == Pagination(Trim(x.page.skip), Trim(x.page.limit))
  {
    var before, part, behind := OpsOfAll(xs), OpsOf(x), OpsOfAll(ys);
    OpsAround(xs, x, ys);
    NoLeadingPagination(ys);
    InTheMiddle(before, part, behind, 1);
    if |part| > 2 || behind != [] {
      InTheMiddle(before, part, behind, 2);
    }
  }
}
