/**
 * From parsed clauses to the semantic model: four buckets of intents that share one count of clauses. The buckets
 * are fields that the builder appends to, clause by clause; the model as a value is what they hold. Clauses without
 * an intent still count, so ordinals can have gaps, but within a bucket they strictly increase.
 */
module Semantic {
  import opened Wrappers
  import opened Text

  datatype ClauseKind =
    | Match | OptionalMatch | Unwind | InQueryCall | Create | Merge | Delete | Set | Remove | With | Return
    | StandaloneCall

  datatype Direction = Unspecified | Ascending | Descending

  datatype Item = Item(expression: Bytes, alias: Bytes)

  datatype SortItem = SortItem(expression: Bytes, direction: Direction)

  datatype ReturnClause = ReturnClause(distinct: bool, includeAll: bool, items: seq<Item>, orderBy: seq<SortItem>,
                                       skip: Option<Bytes>, limit: Option<Bytes>)

  datatype Clause = Clause(kind: ClauseKind, raw: Bytes, matchPattern: Bytes, matchOptional: bool, mergePattern: Bytes,
                           mergeOnCreate: Bytes, mergeOnMatch: Bytes, projection: Option<ReturnClause>,
                           where: Option<Bytes>)

  datatype MatchClause = MatchClause(optional: bool, pattern: Bytes, where: Option<Bytes>)

  datatype Pagination = Pagination(skip: Bytes, limit: Bytes)

  /** An intent carries the position of its clause. */
  datatype Intent =
    | PatternIntent(ordinal: nat, kind: ClauseKind, optional: bool, pattern: Bytes, where: Bytes)
    | WriteIntent(ordinal: nat, kind: ClauseKind, raw: Bytes, pattern: Bytes, mergePattern: Bytes,
                  mergeOnCreate: Bytes, mergeOnMatch: Bytes)
    | CallIntent(ordinal: nat, kind: ClauseKind, raw: Bytes)
    | ProjectionIntent(ordinal: nat, kind: ClauseKind, distinct: bool, includeAll: bool, items: seq<Item>,
                       orderBy: seq<SortItem>, page: Pagination, where: Bytes)

  // ---------------------------------------------------------------- what one clause means

  function TextOf(e: Option<Bytes>): Bytes {
    if e.Some? then Trim(e.value) else []
  }

  /** Items without an expression are dropped, the others trimmed. */
  function ItemsOf(items: seq<Item>): seq<Item> {
    if items == [] then []
    else
      var last := items[|items| - 1];
      ItemsOf(items[..|items| - 1])
      + if Blank(last.expression) then [] else [Item(Trim(last.expression), Trim(last.alias))]
  }

  function OrderingOf(items: seq<SortItem>): seq<SortItem> {
    if items == [] then []
    else
      var last := items[|items| - 1];
      OrderingOf(items[..|items| - 1])
      + if Blank(last.expression) then [] else [SortItem(Trim(last.expression), last.direction)]
  }

  const STAR: Bytes := [42]

  function ProjectionOf(ordinal: nat, kind: ClauseKind, p: ReturnClause, where: Option<Bytes>): Intent {
    ProjectionIntent(ordinal, kind, p.distinct, p.includeAll,
                     (if p.includeAll then [Item(STAR, [])] else []) + ItemsOf(p.items),
                     OrderingOf(p.orderBy), Pagination(TextOf(p.skip), TextOf(p.limit)), TextOf(where))
  }

  /** Some clauses leave no intent: a WITH without projection, an unreadable UNWIND, a CALL of its own. */
  function IntentOf(c: Clause, ordinal: nat, unwind: Bytes -> Option<ReturnClause>): Option<Intent> {
    match c.kind
    case Match => Some(PatternIntent(ordinal, c.kind, c.matchOptional, Trim(c.matchPattern), TextOf(c.where)))
    case OptionalMatch => Some(PatternIntent(ordinal, c.kind, true, Trim(c.matchPattern), TextOf(c.where)))
    case With => if c.projection.Some? then Some(ProjectionOf(ordinal, c.kind, c.projection.value, c.where)) else None
    case Return => if c.projection.Some? then Some(ProjectionOf(ordinal, c.kind, c.projection.value, c.where)) else None
    case Unwind =>
      var p := unwind(c.raw);
      if p.Some? then Some(ProjectionOf(ordinal, c.kind, p.value, None)) else None
    case InQueryCall => Some(CallIntent(ordinal, c.kind, Trim(c.raw)))
    case StandaloneCall => None
    case _ => Some(WriteIntent(ordinal, c.kind, Trim(c.raw), Trim(c.matchPattern), Trim(c.mergePattern),
                               Trim(c.mergeOnCreate), Trim(c.mergeOnMatch)))
  }

  function ToSeq<T>(o: Option<T>): seq<T> {
    if o.Some? then [o.value] else []
  }

  /** The intents of a query in source order. */
  function Intents(clauses: seq<Clause>, unwind: Bytes -> Option<ReturnClause>): seq<Intent> {
    if clauses == [] then []
    else
      var n := |clauses| - 1;
      Intents(clauses[..n], unwind) + ToSeq(IntentOf(clauses[n], n, unwind))
  }

  function Concat<T>(parts: seq<seq<T>>): seq<T> {
    if parts == [] then [] else Concat(parts[..|parts| - 1]) + parts[|parts| - 1]
  }

  lemma OrdinalIsPlace(c: Clause, ordinal: nat, unwind: Bytes -> Option<ReturnClause>)
    ensures forall x | x in ToSeq(IntentOf(c, ordinal, unwind)) :: x.ordinal == ordinal
  {
  }

  /** Intents are in strictly increasing order of their clauses. */
  lemma {:induction false} IntentsIncrease(clauses: seq<Clause>, unwind: Bytes -> Option<ReturnClause>)
    ensures forall i, j | 0 <= i < j < |Intents(clauses, unwind)| ::
              Intents(clauses, unwind)[i].ordinal < Intents(clauses, unwind)[j].ordinal
    ensures forall x | x in Intents(clauses, unwind) :: x.ordinal < |clauses|
    decreases |clauses|
  {
    if clauses != [] {
      var n := |clauses| - 1;
      IntentsIncrease(clauses[..n], unwind);
      OrdinalIsPlace(clauses[n], n, unwind);
      hide IntentOf;
    }
  }

  // ---------------------------------------------------------------- buckets

  /** The semantic model as a value: the buckets, all sort items, and the pagination of the last projection. */
  datatype Buckets = Buckets(patterns: seq<Intent>, writes: seq<Intent>, calls: seq<Intent>, projections: seq<Intent>,
                             ordering: seq<SortItem>, page: Pagination)
  {
    function Put(x: Intent): Buckets {
      match x
      case PatternIntent(_, _, _, _, _) => this.(patterns := patterns + [x])
      case WriteIntent(_, _, _, _, _, _, _) => this.(writes := writes + [x])
      case CallIntent(_, _, _) => this.(calls := calls + [x])
      case ProjectionIntent(_, _, _, _, _, orderBy, last, _) =>
        this.(projections := projections + [x], ordering := ordering + orderBy, page := last)
    }

    /** All intents, bucket after bucket. */
    function All(): seq<Intent> {
      patterns + writes + calls + projections
    }
  }

  const EMPTY := Buckets([], [], [], [], [], Pagination([], []))

  function Gather(xs: seq<Intent>): Buckets {
    if xs == [] then EMPTY else Gather(xs[..|xs| - 1]).Put(xs[|xs| - 1])
  }

  lemma GatherMore(xs: seq<Intent>, more: seq<Intent>)
    requires |more| <= 1
    ensures Gather(xs + more) == if more == [] then Gather(xs) else Gather(xs).Put(more[0])
  {
    if more == [] {
      assert xs + more == xs;
    } else {
      assert (xs + more)[..|xs|] == xs;
    }
  }

  function Counts(b: Buckets): multiset<Intent> {
    multiset(b.patterns) + multiset(b.writes) + multiset(b.calls) + multiset(b.projections)
  }

  lemma PutCounts(b: Buckets, x: Intent)
    ensures Counts(b.Put(x)) == Counts(b) + multiset{x}
  {
    match x {
      case PatternIntent(_, _, _, _, _) => CountMore(b.patterns, x);
      case WriteIntent(_, _, _, _, _, _, _) => CountMore(b.writes, x);
      case CallIntent(_, _, _) => CountMore(b.calls, x);
      case ProjectionIntent(_, _, _, _, _, _, _, _) => CountMore(b.projections, x);
    }
  }

  lemma CountMore(xs: seq<Intent>, x: Intent)
    ensures multiset(xs + [x]) == multiset(xs) + multiset{x}
  {
  }

  /** The buckets together hold each intent exactly as often as the query does. */
  lemma {:induction false} BucketsConserve(xs: seq<Intent>)
    ensures Counts(Gather(xs)) == multiset(xs)
    decreases |xs|
  {
    if xs != [] {
      var init, last := xs[..|xs| - 1], xs[|xs| - 1];
      BucketsConserve(init);
      PutCounts(Gather(init), last);
      CountMore(init, last);
      assert xs == init + [last];
    }
  }

  // ---------------------------------------------------------------- building the model

  method CollectItems(projection: ReturnClause) returns (items: seq<Item>)
    ensures items == (if projection.includeAll then [Item(STAR, [])] else []) + ItemsOf(projection.items)
  {
    items := KeepItems(projection.items);
    if projection.includeAll {
      items := [Item(STAR, [])] + items;
    }
  }

  method KeepItems(all: seq<Item>) returns (items: seq<Item>)
    ensures items == ItemsOf(all)
  {
    items := [];
    for i := 0 to |all|
      invariant items == ItemsOf(all[..i])
    {
      assert all[..i + 1][..i] == all[..i];
      var expr := Trim(all[i].expression);
      if expr == [] {
        continue;
      }
      items := items + [Item(expr, Trim(all[i].alias))];
    }
    assert all[..|all|] == all;
  }

  method CollectOrdering(orderBy: seq<SortItem>) returns (ordering: seq<SortItem>)
    ensures ordering == OrderingOf(orderBy)
  {
    ordering := [];
    for i := 0 to |orderBy|
      invariant ordering == OrderingOf(orderBy[..i])
    {
      assert orderBy[..i + 1][..i] == orderBy[..i];
      var expr := Trim(orderBy[i].expression);
      if expr == [] {
        continue;
      }
      ordering := ordering + [SortItem(expr, orderBy[i].direction)];
    }
    assert orderBy[..|orderBy|] == orderBy;
  }

  class Model {
    var patterns: seq<Intent>
    var writes: seq<Intent>
    var calls: seq<Intent>
    var projections: seq<Intent>
    var ordering: seq<SortItem>
    var page: Pagination

    ghost function Contents(): Buckets
      reads this
    {
      Buckets(patterns, writes, calls, projections, ordering, page)
    }

    constructor ()
      ensures Contents() == EMPTY
    {
      patterns, writes, calls, projections, ordering := [], [], [], [], [];
      page := Pagination([], []);
    }

    method AppendProjection(ordinal: nat, kind: ClauseKind, projection: ReturnClause, where: Option<Bytes>)
      modifies this
      ensures Contents() == old(Contents()).Put(ProjectionOf(ordinal, kind, projection, where))
    {
      var items := CollectItems(projection);
      var orderBy := CollectOrdering(projection.orderBy);
      ordering := ordering + orderBy;
      page := Pagination(TextOf(projection.skip), TextOf(projection.limit));
      projections := projections + [ProjectionIntent(ordinal, kind, projection.distinct, projection.includeAll, items,
                                                     orderBy, page, TextOf(where))];
    }

    method AppendClause(c: Clause, ordinal: nat, unwind: Bytes -> Option<ReturnClause>)
      modifies this
      ensures Contents() == Taking(old(Contents()), IntentOf(c, ordinal, unwind))
    {
      match c.kind {
        case Match | OptionalMatch =>
          var optional := c.kind == OptionalMatch || c.matchOptional;
          patterns := patterns + [PatternIntent(ordinal, c.kind, optional, Trim(c.matchPattern), TextOf(c.where))];
        case With | Return =>
          if c.projection.Some? {
            AppendProjection(ordinal, c.kind, c.projection.value, c.where);
          }
        case Unwind =>
          var projection := unwind(c.raw);
          if projection.Some? {
            AppendProjection(ordinal, c.kind, projection.value, None);
          }
        case InQueryCall =>
          calls := calls + [CallIntent(ordinal, c.kind, Trim(c.raw))];
        case Create | Merge | Delete | Set | Remove =>
          writes := writes + [WriteIntent(ordinal, c.kind, Trim(c.raw), Trim(c.matchPattern), Trim(c.mergePattern),
                                          Trim(c.mergeOnCreate), Trim(c.mergeOnMatch))];
        case StandaloneCall =>
      }
    }
  }

  function Taking(b: Buckets, x: Option<Intent>): Buckets {
    if x.Some? then b.Put(x.value) else b
  }

  /** The buckets after the given clauses, one clause after the other. */
  function ModelOf(clauses: seq<Clause>, unwind: Bytes -> Option<ReturnClause>): Buckets {
    if clauses == [] then EMPTY
    else
      var n := |clauses| - 1;
      Taking(ModelOf(clauses[..n], unwind), IntentOf(clauses[n], n, unwind))
  }

  lemma ModelOfMore(done: seq<Clause>, c: Clause, unwind: Bytes -> Option<ReturnClause>)
    ensures ModelOf(done + [c], unwind) == Taking(ModelOf(done, unwind), IntentOf(c, |done|, unwind))
  {
    assert (done + [c])[..|done|] == done;
  }

  /** The model holds the query's intents. */
  lemma {:induction false} ModelGathers(clauses: seq<Clause>, unwind: Bytes -> Option<ReturnClause>)
    ensures ModelOf(clauses, unwind) == Gather(Intents(clauses, unwind))
    decreases |clauses|
  {
    if clauses != [] {
      var n := |clauses| - 1;
      ModelGathers(clauses[..n], unwind);
      GatherMore(Intents(clauses[..n], unwind), ToSeq(IntentOf(clauses[n], n, unwind)));
    }
  }

  lemma PartStep(before: seq<Clause>, part: seq<Clause>, j: nat)
    requires j < |part|
    ensures before + part[..j + 1] == (before + part[..j]) + [part[j]]
  {
  }

  /** The clauses of one UNION part. */
  method AppendPart(model: Model, part: seq<Clause>, first: nat, unwind: Bytes -> Option<ReturnClause>,
                    ghost before: seq<Clause>)
    returns (ordinal: nat)
    requires first == |before| && model.Contents() == ModelOf(before, unwind)
    modifies model
    ensures ordinal == |before + part| && model.Contents() == ModelOf(before + part, unwind)
  {
    ghost var done := before;
    assert done == before + part[..0];
    ordinal := first;
    for j := 0 to |part|
      invariant done == before + part[..j] && ordinal == |done|
      invariant model.Contents() == ModelOf(done, unwind)
    {
      PartStep(before, part, j);
      ModelOfMore(done, part[j], unwind);
      model.AppendClause(part[j], ordinal, unwind);
      done := done + [part[j]];
      ordinal := ordinal + 1;
    }
    assert part[..|part|] == part;
  }

  /** The clauses of all UNION parts are counted through and left in the buckets. */
  method BuildFromQuery(parts: seq<seq<Clause>>, unwind: Bytes -> Option<ReturnClause>) returns (model: Model)
    ensures fresh(model) && model.Contents() == ModelOf(Concat(parts), unwind)
  {
    model := new Model();
    var ordinal: nat := 0;
    for i := 0 to |parts|
      invariant ordinal == |Concat(parts[..i])|
      invariant fresh(model) && model.Contents() == ModelOf(Concat(parts[..i]), unwind)
    {
      assert parts[..i + 1][..i] == parts[..i];
      ordinal := AppendPart(model, parts[i], ordinal, unwind, Concat(parts[..i]));
    }
    assert parts[..|parts|] == parts;
  }

  // ---------------------------------------------------------------- the MATCH query form

  function AsClause(m: MatchClause): Clause {
    Clause(Match, [], m.pattern, m.optional, [], [], [], None, m.where)
  }

  function AsClauses(matches: seq<MatchClause>, ret: ReturnClause): seq<Clause> {
    seq(|matches|, i requires 0 <= i < |matches| => AsClause(matches[i]))
    + [Clause(Return, [], [], false, [], [], [], Some(ret), None)]
  }

  lemma AsClausesMean(matches: seq<MatchClause>, ret: ReturnClause, unwind: Bytes -> Option<ReturnClause>)
    ensures forall i | 0 <= i < |matches| ::
              var m := matches[i];
              IntentOf(AsClauses(matches, ret)[i], i, unwind)
              == Some(PatternIntent(i, Match, m.optional, Trim(m.pattern), TextOf(m.where)))
    ensures var n := |matches|;
            IntentOf(AsClauses(matches, ret)[n], n, unwind) == Some(ProjectionOf(n, Return, ret, None))
  {
  }

  /** The dedicated builder for MATCH ... RETURN gives what the general one gives for the same clauses. */
  method BuildFromMatchQuery(matches: seq<MatchClause>, ret: ReturnClause, ghost unwind: Bytes -> Option<ReturnClause>)
    returns (model: Model)
    ensures fresh(model) && model.Contents() == ModelOf(AsClauses(matches, ret), unwind)
  {
    model := new Model();
    ghost var clauses := AsClauses(matches, ret);
    ghost var done: seq<Clause> := [];
    AsClausesMean(matches, ret, unwind);
    assert |clauses| == |matches| + 1;
    var ordinal: nat := 0;
    while ordinal < |matches|
      invariant ordinal <= |matches| && done == clauses[..ordinal]
      invariant fresh(model) && model.Contents() == ModelOf(done, unwind)
    {
      var m := matches[ordinal];
      PartStep([], clauses, ordinal);
      ModelOfMore(done, clauses[ordinal], unwind);
      model.patterns := model.patterns + [PatternIntent(ordinal, Match, m.optional, Trim(m.pattern), TextOf(m.where))];
      done := done + [clauses[ordinal]];
      ordinal := ordinal + 1;
    }
    ModelOfMore(done, clauses[ordinal], unwind);
    assert clauses == done + [clauses[ordinal]];
    model.AppendProjection(ordinal, Return, ret, None);
  }
}
