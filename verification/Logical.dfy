/**
 * From the semantic model to the logical plan: the buckets are merged by ordinal and lowered to a chain. Each node
 * has the node before it as its only child, and the last one is the root. Since no two intents share an ordinal,
 * sorting the buckets' intents by it can only restore the order of the clauses in the query's text.
 */
module Logical {
  import opened Text
  import opened Semantic
  import Sorting

  /** 0 stands for the empty identifier; n1, n2, ... and p1, p2, ... are 1, 2, ... */
  type Id = nat

  datatype Node<Op> = Node(id: Id, op: Op, children: seq<Id>)

  datatype Plan<Op> = Plan(root: Id, nodes: seq<Node<Op>>)

  datatype Op =
    | MatchOp(pattern: Bytes, where: Bytes)
    | OptionalMatchOp(pattern: Bytes, where: Bytes)
    | WriteOp(kind: ClauseKind, raw: Bytes, pattern: Bytes, mergePattern: Bytes, mergeOnCreate: Bytes,
              mergeOnMatch: Bytes)
    | CallOp(kind: ClauseKind, raw: Bytes)
    | ProjectOp(kind: ClauseKind, distinct: bool, includeAll: bool, items: seq<Bytes>, where: Bytes)
    | SortOp(ordering: seq<SortItem>)
    | PaginationOp(page: Pagination)
    | NoOp

  // ---------------------------------------------------------------- chains

  /** The i-th node of a chain. */
  function Link<T>(op: T, i: nat): Node<T> {
    Node(i + 1, op, if i == 0 then [] else [i])
  }

  /** Each node feeds the next one; the last one is the root. */
  ghost predicate IsChain<T>(plan: Plan<T>, ops: seq<T>) {
    && |plan.nodes| == |ops| && plan.root == |ops|
    && forall i | 0 <= i < |ops| :: plan.nodes[i] == Link(ops[i], i)
  }

  lemma ChainMore<T>(nodes: seq<Node<T>>, ops: seq<T>, op: T)
    requires IsChain(Plan(|nodes|, nodes), ops)
    ensures IsChain(Plan(|nodes| + 1, nodes + [Link(op, |nodes|)]), ops + [op])
  {
  }

  // ---------------------------------------------------------------- what one intent is lowered to

  const AS: Bytes := [32, 65, 83, 32]

  function Render(item: Item): Bytes {
    if item.alias != [] then item.expression + AS + item.alias else item.expression
  }

  function OpsOf(x: Intent): seq<Op> {
    match x
    case PatternIntent(_, kind, optional, pattern, where) =>
      [if optional || kind == OptionalMatch then OptionalMatchOp(pattern, where) else MatchOp(pattern, where)]
    case WriteIntent(_, kind, raw, pattern, mergePattern, mergeOnCreate, mergeOnMatch) =>
      [WriteOp(kind, raw, pattern, mergePattern, mergeOnCreate, mergeOnMatch)]
    case CallIntent(_, kind, raw) => [CallOp(kind, raw)]
    case ProjectionIntent(_, kind, distinct, includeAll, items, orderBy, page, where) =>
      [ProjectOp(kind, distinct, includeAll, Sorting.Map(items, Render), where)]
      + (if orderBy != [] then [SortOp(orderBy)] else [])
      + (if page.skip != [] || page.limit != [] then [PaginationOp(page)] else [])
  }

  /** The operators of the given intents, one intent after the other. */
  function OpsOfAll(xs: seq<Intent>): seq<Op> {
    FlatMap(xs, OpsOf)
  }

  function FlatMap<T, U>(xs: seq<T>, f: T -> seq<U>): seq<U> {
    if xs == [] then [] else FlatMap(xs[..|xs| - 1], f) + f(xs[|xs| - 1])
  }

  /** The plan's operators for intents in source order; an empty query still gets one. */
  function PlanOps(xs: seq<Intent>): seq<Op> {
    if OpsOfAll(xs) == [] then [NoOp] else OpsOfAll(xs)
  }

  // ---------------------------------------------------------------- merging the buckets

  datatype Step = Step(ordinal: nat, index: nat, intent: Intent)

  predicate Before(a: Step, b: Step) {
    if a.ordinal != b.ordinal then a.ordinal < b.ordinal else a.index < b.index
  }

  predicate Earlier(a: Intent, b: Intent) {
    a.ordinal < b.ordinal
  }

  function IntentIn(s: Step): Intent {
    s.intent
  }

  ghost predicate StepsOf(steps: seq<Step>, xs: seq<Intent>) {
    Sorting.Map(steps, IntentIn) == xs && forall s | s in steps :: s.ordinal == s.intent.ordinal
  }

  method AppendSteps(before: seq<Step>, bucket: seq<Intent>, ghost xs: seq<Intent>) returns (steps: seq<Step>)
    requires StepsOf(before, xs)
    ensures StepsOf(steps, xs + bucket)
  {
    steps := before;
    assert bucket[..0] == [];
    for i := 0 to |bucket|
      invariant StepsOf(steps, xs + bucket[..i])
    {
      var one := Step(bucket[i].ordinal, |steps|, bucket[i]);
      assert xs + bucket[..i + 1] == xs + bucket[..i] + [bucket[i]];
      steps := steps + [one];
    }
    assert bucket[..|bucket|] == bucket;
  }

  /** Sorting the steps by ordinal puts the intents back into source order. */
  lemma SortedSteps(steps: seq<Step>, xs: seq<Intent>)
    requires forall s | s in steps :: s.ordinal == s.intent.ordinal
    requires multiset(Sorting.Map(steps, IntentIn)) == multiset(xs)
    requires forall i, j | 0 <= i < j < |xs| :: xs[i].ordinal < xs[j].ordinal
    ensures Sorting.Map(Sorting.StableSort(steps, Before), IntentIn) == xs
  {
    var sorted := Sorting.StableSort(steps, Before);
    Sorting.StableSortOrders(steps, Before);
    Sorting.MapPermutes(steps, sorted, IntentIn);
    var ys := Sorting.Map(sorted, IntentIn);
    forall i, j | 0 <= i < j < |ys| ensures !Earlier(ys[j], ys[i]) {
      assert sorted[i] in multiset(sorted) && sorted[j] in multiset(sorted);
      assert sorted[i] in steps && sorted[j] in steps;
      assert !Before(sorted[j], sorted[i]);
    }
    Sorting.OnlyOrdered(xs, ys, Earlier);
  }

  // ---------------------------------------------------------------- the builder

  class Builder {
    var nodes: seq<Node<Op>>
    var root: Id

    ghost predicate Holds(ops: seq<Op>)
      reads this
    {
      IsChain(Plan(root, nodes), ops)
    }

    constructor ()
      ensures Holds([])
    {
      nodes, root := [], 0;
    }

    method AppendNode(op: Op, ghost ops: seq<Op>)
      requires Holds(ops)
      modifies this
      ensures Holds(ops + [op])
    {
      var id := |nodes| + 1;
      var children := if root != 0 then [root] else [];
      nodes := nodes + [Node(id, op, children)];
      root := id;
    }

    method AppendIntent(x: Intent, ghost ops: seq<Op>)
      requires Holds(ops)
      modifies this
      ensures Holds(ops + OpsOf(x))
    {
      match x {
        case PatternIntent(_, kind, optional, pattern, where) =>
          if optional || kind == OptionalMatch {
            AppendNode(OptionalMatchOp(pattern, where), ops);
          } else {
            AppendNode(MatchOp(pattern, where), ops);
          }
        case WriteIntent(_, kind, raw, pattern, mergePattern, mergeOnCreate, mergeOnMatch) =>
          AppendNode(WriteOp(kind, raw, pattern, mergePattern, mergeOnCreate, mergeOnMatch), ops);
        case CallIntent(_, kind, raw) =>
          AppendNode(CallOp(kind, raw), ops);
        case ProjectionIntent(_, kind, distinct, includeAll, items, orderBy, page, where) =>
          ghost var done := ops;
          var project := ProjectOp(kind, distinct, includeAll, Sorting.Map(items, Render), where);
          AppendNode(project, done);
          done := done + [project];
          if |orderBy| > 0 {
            AppendNode(SortOp(orderBy), done);
            done := done + [SortOp(orderBy)];
          }
          if page.skip != [] || page.limit != [] {
            AppendNode(PaginationOp(page), done);
            done := done + [PaginationOp(page)];
          }
          assert done == ops + OpsOf(x);
      }
    }
  }

  /** For every query, the logical plan is the chain of its clauses' operators in source order. */
  method Build(model: Model, ghost xs: seq<Intent>) returns (plan: Plan<Op>)
    requires model.Contents() == Gather(xs)
    requires forall i, j | 0 <= i < j < |xs| :: xs[i].ordinal < xs[j].ordinal
    ensures IsChain(plan, PlanOps(xs))
  {
    var steps := AppendSteps([], model.patterns, []);
    steps := AppendSteps(steps, model.writes, [] + model.patterns);
    steps := AppendSteps(steps, model.calls, [] + model.patterns + model.writes);
    steps := AppendSteps(steps, model.projections, [] + model.patterns + model.writes + model.calls);
    AllCounts(xs, Sorting.Map(steps, IntentIn));
    SortedSteps(steps, xs);
    steps := Sorting.StableSort(steps, Before);
    var builder := new Builder();
    for i := 0 to |steps|
      invariant fresh(builder) && builder.Holds(OpsOfAll(xs[..i]))
    {
      assert xs[..i + 1][..i] == xs[..i] && steps[i].intent == xs[i];
      builder.AppendIntent(steps[i].intent, OpsOfAll(xs[..i]));
    }
    assert xs[..|steps|] == xs;
    if |builder.nodes| == 0 {
      builder.AppendNode(NoOp, []);
    }
    plan := Plan(builder.root, builder.nodes);
  }

  lemma AllCounts(xs: seq<Intent>, all: seq<Intent>)
    requires all == [] + Gather(xs).patterns + Gather(xs).writes + Gather(xs).calls + Gather(xs).projections
    ensures multiset(all) == multiset(xs)
  {
    BucketsConserve(xs);
  }
}
