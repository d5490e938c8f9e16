/** The rewrites that stored counts allow leave a query's rows as they are: pruning, anti-probes and top-k sorting. */
module Rewrites {
  import opened Wrappers
  import opened Text
  import opened Semantic
  import opened Logical
  import opened Physical
  import opened Forcing
  import Sorting

  /**
   * What the operators work with: edges and expressions appear only through the rows they lead to.
   * unit is the row an expansion starts from if there are no rows.
   */
  datatype Meaning<!Row, !E> = Meaning(
    unit: Row,
    expand: (Bytes, Row) -> seq<Row>,
    expandOptional: (Bytes, Bytes, seq<Row>) -> seq<Row>,
    holds: (Bytes, Row) -> bool,
    joins: (Relation, Row) -> bool,
    less: (seq<SortItem>, Row, Row) -> bool,
    eval: Bytes -> Result<nat, E>,
    other: (Op, seq<Row>) -> Result<seq<Row>, E>)

  // ---------------------------------------------------------------- the operators on rows

  function Filter<T>(s: seq<T>, keep: T -> bool): seq<T> {
    if s == [] then []
    else Filter(s[..|s| - 1], keep) + if keep(s[|s| - 1]) then [s[|s| - 1]] else []
  }

  lemma {:induction false} FilterKeeps<T>(s: seq<T>, keep: T -> bool)
    ensures forall x | x in Filter(s, keep) :: keep(x)
    decreases |s|
  {
    if s != [] {
      FilterKeeps(s[..|s| - 1], keep);
    }
  }

  lemma {:induction false} FilterAll<T>(s: seq<T>, keep: T -> bool)
    requires forall x | x in s :: keep(x)
    ensures Filter(s, keep) == s
    decreases |s|
  {
    if s != [] {
      FilterAll(s[..|s| - 1], keep);
    }
  }

  function Take<T>(s: seq<T>, n: int): seq<T> {
    if 0 <= n < |s| then s[..n] else s
  }

  function Resolve<Row, E>(m: Meaning<Row, E>, text: Bytes): Result<Option<nat>, E> {
    if Blank(text) then Ok(None)
    else
      var v := m.eval(Trim(text));
      if v.Err? then Err(v.error) else Ok(Some(v.value))
  }

  function Page<T>(rows: seq<T>, skip: nat, limit: Option<nat>): seq<T> {
    if skip >= |rows| then []
    else if limit.Some? then Take(rows[skip..], limit.value)
    else rows[skip..]
  }

  /** SKIP and LIMIT are not even evaluated if there are no rows. */
  function Paginate<Row, E>(m: Meaning<Row, E>, page: Pagination, rows: seq<Row>): Result<seq<Row>, E> {
    if rows == [] then Ok([])
    else
      var skip := Resolve(m, page.skip);
      if skip.Err? then Err(skip.error)
      else
        var limit := Resolve(m, page.limit);
        if limit.Err? then Err(limit.error)
        else Ok(Page(rows, if skip.value.Some? then skip.value.value else 0, limit.value))
  }

  function Sorted<Row, E>(m: Meaning<Row, E>, ordering: seq<SortItem>, rows: seq<Row>): (r: seq<Row>)
    ensures |r| == |rows|
  {
    if |rows| <= 1 || ordering == [] then rows
    else
      var r := Sorting.StableSort(rows, (a, b) => m.less(ordering, a, b));
      assert |multiset(r)| == |multiset(rows)|;
      r
  }

  /** A single row or an empty ordering is left alone, and so is a k that is not positive. */
  function SortedTop<Row, E>(m: Meaning<Row, E>, ordering: seq<SortItem>, topK: Option<int>, rows: seq<Row>): seq<Row>
  {
    var all := Sorted(m, ordering, rows);
    if |rows| <= 1 || ordering == [] || topK.None? || topK.value <= 0 then all else Take(all, topK.value)
  }

  function Seed<Row, E>(m: Meaning<Row, E>, rows: seq<Row>): seq<Row> {
    if rows == [] then [m.unit] else rows
  }

  predicate Passes<Row, E>(m: Meaning<Row, E>, where: Bytes, row: Row) {
    Blank(where) || m.holds(where, row)
  }

  /** What a MATCH makes of the rows before it: for no rows, nothing. */
  function Expanded<Row, E>(m: Meaning<Row, E>, pattern: Bytes, where: Bytes, rows: seq<Row>): seq<Row> {
    Filter(FlatMap(rows, (row: Row) => m.expand(pattern, row)), (row: Row) => Passes(m, where, row))
  }

  function Perform<Row, E>(m: Meaning<Row, E>, op: PhysicalOp, rows: seq<Row>): Result<seq<Row>, E> {
    match op
    case Expand(optional, pattern, where, _) =>
      if optional then Ok(m.expandOptional(pattern, where, Seed(m, rows)))
      else Ok(Expanded(m, pattern, where, Seed(m, rows)))
    case Empty(_, _) => Ok([])
    case AntiProbe(relation) => Ok(Filter(rows, (row: Row) => !m.joins(relation, row)))
    case SortRows(ordering, topK) => Ok(SortedTop(m, ordering, topK, rows))
    case Other(o) => if o.PaginationOp? then Paginate(m, o.page, rows) else m.other(o, rows)
  }

  function PerformAll<Row, E>(m: Meaning<Row, E>, ops: seq<PhysicalOp>, rows: seq<Row>): Result<seq<Row>, E>
    decreases |ops|
  {
    if ops == [] then Ok(rows)
    else
      var r := PerformAll(m, ops[..|ops| - 1], rows);
      if r.Err? then r else Perform(m, ops[|ops| - 1], r.value)
  }

  function Then<Row, E>(m: Meaning<Row, E>, ops: seq<PhysicalOp>, r: Result<seq<Row>, E>): Result<seq<Row>, E> {
    if r.Err? then r else PerformAll(m, ops, r.value)
  }

  lemma {:induction false} PerformAppend<Row(!new), E>(m: Meaning<Row, E>, a: seq<PhysicalOp>, b: seq<PhysicalOp>,
                                                       rows: seq<Row>)
    ensures PerformAll(m, a + b, rows) == Then(m, b, PerformAll(m, a, rows))
    decreases |b|
  {
    if b == [] {
      assert a + b == a;
    } else {
      PerformAppend(m, a, b[..|b| - 1], rows);
      assert (a + b)[..|a + b| - 1] == a + b[..|b| - 1];
    }
  }

  // ---------------------------------------------------------------- pruning

  function CountOf(types: seq<Bytes>, upper: Bytes): nat {
    if types == [] then 0
    else CountOf(types[..|types| - 1], upper) + if Upper(types[|types| - 1]) == upper then 1 else 0
  }

  lemma {:induction false} CountedIfThere(types: seq<Bytes>, t: Bytes)
    requires t in types
    ensures CountOf(types, Upper(t)) > 0
    decreases |types|
  {
    var n := |types| - 1;
    if types[n] != t {
      assert types == types[..n] + [types[n]];
      CountedIfThere(types[..n], t);
    }
  }

  /** The counts are those of the stored edges, given by their types. */
  ghost predicate Exact(h: Hints, types: seq<Bytes>) {
    && (h.edgeTotal.Some? ==> h.edgeTotal.value == |types|)
    && (forall t | t in h.typeCounts :: h.typeCounts[t] == CountOf(types, t))
  }

  function TimesIn(types: seq<Bytes>, t: Bytes): nat {
    if types == [] then 0 else TimesIn(types[..|types| - 1], t) + if types[|types| - 1] == t then 1 else 0
  }

  /** The planner keys the stored counts by trimmed, upper-cased type. */
  method CountsByUpper(stored: map<Bytes, int>) returns (counts: map<Bytes, int>)
    ensures forall u | u in counts ::
              exists t | t in stored :: !Blank(t) && Upper(Trim(t)) == u && counts[u] == stored[t]
    ensures forall t | t in stored && !Blank(t) :: Upper(Trim(t)) in counts
  {
    counts := map[];
    var todo := stored.Keys;
    while todo != {}
      invariant todo <= stored.Keys
      invariant forall u | u in counts ::
                  exists t | t in stored :: !Blank(t) && Upper(Trim(t)) == u && counts[u] == stored[t]
      invariant forall t | t in stored.Keys - todo && !Blank(t) :: Upper(Trim(t)) in counts
      decreases todo
    {
      var t :| t in todo;
      todo := todo - {t};
      if Blank(t) {
        continue;
      }
      counts := counts[Upper(Trim(t)) := stored[t]];
    }
  }

  lemma {:induction false} CaseDoesNotMatter(types: seq<Bytes>, t: Bytes)
    requires forall o | o in types && Upper(o) == Upper(t) :: o == t
    ensures CountOf(types, Upper(t)) == TimesIn(types, t)
    decreases |types|
  {
    if types != [] {
      var n := |types| - 1;
      assert types[n] in types;
      CaseDoesNotMatter(types[..n], t);
    }
  }

  /** Edge types that differ not only in case have exact counts in the planner if the stored ones are exact. */
  lemma StoredCountsExact(h: Hints, stored: map<Bytes, int>, types: seq<Bytes>)
    requires h.edgeTotal == Some(|types|)
    requires forall t | t in stored :: Trimmed(t) && stored[t] == TimesIn(types, t)
    requires forall t, o | t in stored && o in types && Upper(o) == Upper(t) :: o == t
    requires forall u | u in h.typeCounts ::
               exists t | t in stored :: !Blank(t) && Upper(Trim(t)) == u && h.typeCounts[u] == stored[t]
    ensures Exact(h, types)
  {
    forall u | u in h.typeCounts ensures h.typeCounts[u] == CountOf(types, u) {
      var t :| t in stored && !Blank(t) && Upper(Trim(t)) == u && h.typeCounts[u] == stored[t];
      TrimFixesTrimmed(t);
      CaseDoesNotMatter(types, t);
    }
  }

  /** If the pattern names an edge type, it leads to rows only over an edge of that type. */
  ghost predicate NeedsEdges<Row(!new), E>(m: Meaning<Row, E>, r: Reader, types: seq<Bytes>, pattern: Bytes) {
    r.edgeType(pattern) != [] ==> forall row | m.expand(pattern, row) != [] :: r.edgeType(pattern) in types
  }

  ghost predicate FalseNeverHolds<Row(!new), E>(m: Meaning<Row, E>, where: Bytes) {
    AlwaysFalse(where) ==> forall row :: !Passes(m, where, row)
  }

  lemma {:induction false} NothingFlat<T, U>(xs: seq<T>, f: T -> seq<U>)
    requires forall x | x in xs :: f(x) == []
    ensures FlatMap(xs, f) == []
    decreases |xs|
  {
    if xs != [] {
      NothingFlat(xs[..|xs| - 1], f);
    }
  }

  lemma {:induction false} NothingKept<T>(s: seq<T>, keep: T -> bool)
    requires forall x | x in s :: !keep(x)
    ensures Filter(s, keep) == []
    decreases |s|
  {
    if s != [] {
      NothingKept(s[..|s| - 1], keep);
    }
  }

  /** With exact counts, a pruned expansion had no rows to give. */
  lemma PruningIsSafe<Row(!new), E>(m: Meaning<Row, E>, r: Reader, h: Hints, types: seq<Bytes>, op: Op,
                                    join: Option<Join>, rows: seq<Row>)
    requires Pruned(op, r, h) && Exact(h, types)
    requires EdgeTypeKnownEmpty(op.pattern, r, h) ==> NeedsEdges(m, r, types, op.pattern)
    requires FalseNeverHolds(m, op.where)
    ensures Perform(m, Empty(op.pattern, op.where), rows) == Perform(m, Expand(false, op.pattern, op.where, join), rows)
  {
    var f := (row: Row) => m.expand(op.pattern, row);
    var keep := (row: Row) => Passes(m, op.where, row);
    if AlwaysFalse(op.where) {
      NothingKept(FlatMap(Seed(m, rows), f), keep);
    } else {
      forall row ensures f(row) == [] {
        if f(row) != [] {
          CountedIfThere(types, r.edgeType(op.pattern));
        }
      }
      NothingFlat(Seed(m, rows), f);
    }
  }

  // ---------------------------------------------------------------- anti-probes

  lemma {:induction false} FilterFrom<T>(s: seq<T>, keep: T -> bool)
    ensures forall x | x in Filter(s, keep) :: x in s
    decreases |s|
  {
    if s != [] {
      FilterFrom(s[..|s| - 1], keep);
    }
  }

  /** Anti-probes only drop rows. */
  lemma {:induction false} ProbesFilter<Row(!new), E>(m: Meaning<Row, E>, probes: seq<Relation>, rows: seq<Row>)
    ensures var out := PerformAll(m, AsProbes(probes), rows);
            out.Ok? && forall row | row in out.value :: row in rows
    decreases |probes|
  {
    if probes != [] {
      var n := |probes| - 1;
      ProbesFilter(m, probes[..n], rows);
      assert AsProbes(probes)[..n] == AsProbes(probes[..n]);
      FilterFrom(PerformAll(m, AsProbes(probes[..n]), rows).value, (row: Row) => !m.joins(probes[n], row));
    } else {
      assert AsProbes(probes) == [];
    }
  }

  /** A relation that holds in every row leaves none. */
  lemma {:induction false} ProbesDropAll<Row(!new), E>(m: Meaning<Row, E>, probes: seq<Relation>, rows: seq<Row>,
                                                       x: Relation)
    requires x in probes && forall row | row in rows :: m.joins(x, row)
    ensures PerformAll(m, AsProbes(probes), rows) == Ok([])
    decreases |probes|
  {
    var n := |probes| - 1;
    assert AsProbes(probes)[..n] == AsProbes(probes[..n]);
    if probes[n] == x {
      ProbesFilter(m, probes[..n], rows);
      NothingKept(PerformAll(m, AsProbes(probes[..n]), rows).value, (row: Row) => !m.joins(x, row));
    } else {
      assert probes == probes[..n] + [probes[n]];
      ProbesDropAll(m, probes[..n], rows, x);
    }
  }

  lemma {:induction false} ProbesIdle<Row(!new), E>(m: Meaning<Row, E>, probes: seq<Relation>, rows: seq<Row>)
    requires forall x, row | x in probes && row in rows :: !m.joins(x, row)
    ensures PerformAll(m, AsProbes(probes), rows) == Ok(rows)
    decreases |probes|
  {
    if probes != [] {
      var n := |probes| - 1;
      assert AsProbes(probes)[..n] == AsProbes(probes[..n]) && probes[n] in probes;
      ProbesIdle(m, probes[..n], rows);
      FilterAll(rows, (row: Row) => !m.joins(probes[n], row));
    } else {
      assert AsProbes(probes) == [];
    }
  }

  /** The meaning m, but for a WHERE text that holds as f does in the given circumstances. */
  function Reading<Row, E>(m: Meaning<Row, E>, f: Formula, atom: Bytes -> bool, joins: Relation -> bool):
    Meaning<Row, E>
  {
    m.(holds := (w: Bytes, row: Row) => Satisfies(f, atom, joins), joins := (x: Relation, row: Row) => joins(x))
  }

  ghost predicate ProbesHarmless<Row(!new), E>(m: Meaning<Row, E>, r: Reader, h: Hints, op: Op, rows: seq<Row>) {
    PerformAll(m, PhysicalOps([op], 1, r, h), rows) == PerformAll(m, PlainOps([op]), rows)
  }

  lemma OneExpansion<Row(!new), E>(m: Meaning<Row, E>, r: Reader, h: Hints, pattern: Bytes, where: Bytes,
                                   rows: seq<Row>)
    requires !Pruned(MatchOp(pattern, where), r, h)
    ensures var op, out := MatchOp(pattern, where), Expanded(m, pattern, where, Seed(m, rows));
            && PerformAll(m, PlainOps([op]), rows) == Ok(out)
            && PerformAll(m, PhysicalOps([op], 1, r, h), rows) == PerformAll(m, AsProbes(Probes(where, r, h)), out)
  {
    var op := MatchOp(pattern, where);
    var main := Expand(false, pattern, where, None);
    assert PlainOps([op]) == [main];
    PerformOne(m, main, rows);
    assert PhysicalOps([op], 0, r, h) == [];
    assert PhysicalOps([op], 1, r, h) == [main] + AsProbes(Probes(where, r, h));
    PerformAppend(m, [main], AsProbes(Probes(where, r, h)), rows);
  }

  lemma ForcedProbesHarmless<Row(!new), E>(m: Meaning<Row, E>, r: Reader, h: Hints, pattern: Bytes, where: Bytes,
                                           f: Formula, atom: Bytes -> bool, joins: Relation -> bool, rows: seq<Row>)
    requires !Blank(where) && !Pruned(MatchOp(pattern, where), r, h)
    requires forall x | x in Probes(where, r, h) :: x in Forced(f, true)
    ensures ProbesHarmless(Reading(m, f, atom, joins), r, h, MatchOp(pattern, where), rows)
  {
    var read := Reading(m, f, atom, joins);
    OneExpansion(read, r, h, pattern, where, rows);
    var out := Expanded(read, pattern, where, Seed(read, rows));
    FilterKeeps(FlatMap(Seed(read, rows), (row: Row) => read.expand(pattern, row)),
                (row: Row) => Passes(read, where, row));
    forall x, row | x in Probes(where, r, h) && row in out ensures !read.joins(x, row) {
      assert Passes(read, where, row);
      ForcedAreAbsent(f, atom, joins, x);
    }
    ProbesIdle(read, Probes(where, r, h), out);
  }

  lemma FreeProbeLosesRows<Row(!new), E>(m: Meaning<Row, E>, r: Reader, h: Hints, pattern: Bytes, where: Bytes,
                                         f: Formula, x: Relation, rows: seq<Row>)
    returns (atom: Bytes -> bool, joins: Relation -> bool)
    requires Once(f) && !Pruned(MatchOp(pattern, where), r, h)
    requires FlatMap(Seed(m, rows), (row: Row) => m.expand(pattern, row)) != []
    requires x in Probes(where, r, h) && x !in Forced(f, true)
    ensures var read, op := Reading(m, f, atom, joins), MatchOp(pattern, where);
            && PerformAll(read, PhysicalOps([op], 1, r, h), rows) == Ok([])
            && PerformAll(read, PlainOps([op]), rows)
               == Ok(FlatMap(Seed(m, rows), (row: Row) => m.expand(pattern, row)))
  {
    atom, joins := FreeWitness(f, true, x);
    var read := Reading(m, f, atom, joins);
    OneExpansion(read, r, h, pattern, where, rows);
    var found := FlatMap(Seed(m, rows), (row: Row) => m.expand(pattern, row));
    assert found == FlatMap(Seed(read, rows), (row: Row) => read.expand(pattern, row)) by {
      SameFlat(Seed(m, rows), (row: Row) => m.expand(pattern, row), (row: Row) => read.expand(pattern, row));
    }
    FilterAll(found, (row: Row) => Passes(read, where, row));
    ProbesDropAll(read, Probes(where, r, h), found, x);
  }

  lemma {:induction false} SameFlat<T, U>(xs: seq<T>, f: T -> seq<U>, g: T -> seq<U>)
    requires forall x | x in xs :: f(x) == g(x)
    ensures FlatMap(xs, f) == FlatMap(xs, g)
    decreases |xs|
  {
    if xs != [] {
      SameFlat(xs[..|xs| - 1], f, g);
    }
  }

  /**
   * The rewrite on a MATCH that finds something: however its WHERE text, of the shape f, comes out, the plan with
   * anti-probes gives the rows of the plan without -- exactly if f forces every relation that the planner reads.
   */
  lemma ProbesHarmlessExactly<Row(!new), E>(m: Meaning<Row, E>, r: Reader, h: Hints, pattern: Bytes, where: Bytes,
                                            f: Formula, rows: seq<Row>)
    requires Once(f) && !Blank(where) && !Pruned(MatchOp(pattern, where), r, h)
    requires FlatMap(Seed(m, rows), (row: Row) => m.expand(pattern, row)) != []
    ensures (forall atom, joins :: ProbesHarmless(Reading(m, f, atom, joins), r, h, MatchOp(pattern, where), rows))
            <==> forall x | x in Probes(where, r, h) :: x in Forced(f, true)
  {
    if forall x | x in Probes(where, r, h) :: x in Forced(f, true) {
      forall atom, joins ensures ProbesHarmless(Reading(m, f, atom, joins), r, h, MatchOp(pattern, where), rows) {
        ForcedProbesHarmless(m, r, h, pattern, where, f, atom, joins, rows);
      }
    } else {
      var x :| x in Probes(where, r, h) && x !in Forced(f, true);
      var atom, joins := FreeProbeLosesRows(m, r, h, pattern, where, f, x, rows);
      assert !ProbesHarmless(Reading(m, f, atom, joins), r, h, MatchOp(pattern, where), rows);
    }
  }

  // ---------------------------------------------------------------- a small world for counterexamples

  const SOME_RELATION: Relation := Relation([97], [98], [84], false)

  /** Rows are numbers. The pattern [1] finds nothing, any other pattern one row. */
  function SmallMeaning(): Meaning<int, Bytes> {
    Meaning(0, (p: Bytes, row: int) => if p == [1] then [] else [row + 1], (p: Bytes, w: Bytes, rows: seq<int>) => rows,
            (w: Bytes, row: int) => true, (x: Relation, row: int) => true, (o: seq<SortItem>, a: int, b: int) => false,
            (t: Bytes) => Err([]), (o: Op, rows: seq<int>) => Ok(rows))
  }

  const NESTED: Bytes := Ascii("NOT (c.x AND NOT ((a)-[:T]-(b)))")
  const NARROWED: Bytes := Ascii("NOT ((a)-[:T {p: 1}]-(b))")
  const EXCLUSIVE: Bytes := Ascii("c.x XOR NOT ((a)-[:T]-(b))")

  /** The shapes of the three texts. */
  function ShapeOf(where: Bytes): Formula {
    if where == NESTED then Not(And(Atom(Ascii("c.x")), Not(Related(SOME_RELATION))))
    else if where == NARROWED then Not(Restricted(SOME_RELATION, Ascii("(a)-[:T {p: 1}]-(b)")))
    else Xor(Atom(Ascii("c.x")), Not(Related(SOME_RELATION)))
  }

  /** Reads the relation in the three texts, as the regular expression for undirected patterns does. */
  function SmallReader(): Reader {
    Reader((p: Bytes) => [], (w: Bytes) => false,
           (w: Bytes) => if w in {NESTED, NARROWED, EXCLUSIVE} then [Found([97], [84], [98])] else [],
           (w: Bytes) => [], (w: Bytes) => [])
  }

  /** Nothing is trimmed off a text that begins and ends with visible bytes. */
  lemma VisibleEnds(s: Bytes)
    requires s != [] && 33 <= s[0] <= 126 && 33 <= s[|s| - 1] <= 126
    ensures Trim(s) == s
  {
    TrimFixesTrimmed(s);
  }

  lemma ShapesAreTexts(where: Bytes)
    requires where in {NESTED, NARROWED, EXCLUSIVE}
    ensures Trim(where) == where && !Blank(where) && !AlwaysFalse(where)
  {
    assert NESTED[0] == 78 && NESTED[|NESTED| - 1] == 41 && |NESTED| > 5;
    assert NARROWED[0] == 78 && NARROWED[|NARROWED| - 1] == 41 && |NARROWED| > 5;
    assert EXCLUSIVE[0] == 99 && EXCLUSIVE[|EXCLUSIVE| - 1] == 41 && |EXCLUSIVE| > 5;
    VisibleEnds(where);
    VisibleEnds(Lower(where));
  }

  lemma SmallReaderFinds(h: Hints, where: Bytes)
    requires where in {NESTED, NARROWED, EXCLUSIVE} && Trim(where) == where && !Blank(where)
    ensures SOME_RELATION in Probes(where, SmallReader(), h)
  {
    var found := [Found([97], [84], [98])];
    VisibleEnds([97]);
    VisibleEnds([84]);
    VisibleEnds([98]);
    assert found[..0] == [];
    assert Collected(found, false, false) == [SOME_RELATION];
    ProbesExactly(where, SmallReader(), h);
    assert SOME_RELATION in NegatedIn(where, SmallReader());
  }

  /** For each of the three texts there is a plan that loses its only row to the anti-probe. */
  lemma UnforcedProbeLosesRow(h: Hints, where: Bytes) returns (atom: Bytes -> bool, joins: Relation -> bool)
    requires where in {NESTED, NARROWED, EXCLUSIVE}
    ensures var m, op := Reading(SmallMeaning(), ShapeOf(where), atom, joins), MatchOp([2], where);
            && PerformAll(m, PlainOps([op]), []) == Ok([1])
            && PerformAll(m, PhysicalOps([op], 1, SmallReader(), h), []) == Ok([])
  {
    ShapesAreTexts(where);
    SmallReaderFinds(h, where);
    assert !Pruned(MatchOp([2], where), SmallReader(), h);
    FlatOne(SmallMeaning().unit, (row: int) => SmallMeaning().expand([2], row));
    ShapesThatForce(Ascii("c.x"), SOME_RELATION);
    ShapesThatForce(Ascii("(a)-[:T {p: 1}]-(b)"), SOME_RELATION);
    OnceShapes(Ascii("c.x"), SOME_RELATION);
    OnceShapes(Ascii("(a)-[:T {p: 1}]-(b)"), SOME_RELATION);
    hide Forced, Probes, Once, Pruned, PerformAll, PhysicalOps, SmallReader, Reading, Ascii;
    atom, joins :=
      FreeProbeLosesRows(SmallMeaning(), SmallReader(), h, [2], where, ShapeOf(where), SOME_RELATION, []);
  }

  lemma FlatOne<T, U>(x: T, f: T -> seq<U>)
    ensures FlatMap([x], f) == f(x)
  {
    assert [x][..0] == [];
    assert FlatMap([x][..0], f) == [];
  }

  // ---------------------------------------------------------------- anti-probes behind a filter

  /**
   * The WHERE text is of the shape f: it holds only where f does. If the scan finds no OR in it, the planner reads
   * in it only relations that f forces.
   */
  ghost predicate Readable<Row(!new), E>(m: Meaning<Row, E>, r: Reader, where: Bytes, f: Formula,
                                         atom: (Bytes, Row) -> bool)
  {
    && (forall row | !Blank(where) && m.holds(where, row) ::
          Satisfies(f, (t: Bytes) => atom(t, row), (x: Relation) => m.joins(x, row)))
    && (!r.hasOr(Trim(where)) ==> forall x | x in NegatedIn(Trim(where), r) :: x in Forced(f, true))
  }

  /** Behind the filter of such a WHERE text, no probe drops a row. */
  lemma ProbesKeep<Row(!new), E>(m: Meaning<Row, E>, r: Reader, h: Hints, where: Bytes, f: Formula,
                                 atom: (Bytes, Row) -> bool, x: Relation, row: Row)
    requires Readable(m, r, where, f, atom) && x in Probes(where, r, h) && Passes(m, where, row)
    ensures !m.joins(x, row)
  {
    ProbesExactly(where, r, h);
    ForcedAreAbsent(f, (t: Bytes) => atom(t, row), (y: Relation) => m.joins(y, row), x);
  }

  // ---------------------------------------------------------------- top-k sorting

  lemma PageOfCut<T>(rows: seq<T>, kept: nat, limit: nat, skip: nat)
    requires skip <= kept
    ensures Page(Take(rows, kept + limit), skip, Some(limit)) == Page(rows, skip, Some(limit))
  {
    if skip < |rows| && kept + limit < |rows| {
      assert Take(rows[..kept + limit][skip..], limit) == rows[skip..skip + limit] == Take(rows[skip..], limit);
    }
  }

  lemma CutTooShort<T>(rows: seq<T>, kept: nat, limit: nat, skip: nat)
    requires kept < skip && 0 < limit && |rows| == skip + limit
    ensures |Page(Take(rows, kept + limit), skip, Some(limit))| < |Page(rows, skip, Some(limit))|
  {
  }

  /** An integer literal evaluates to itself. */
  predicate LiteralMeans<Row, E(==)>(m: Meaning<Row, E>, text: Bytes) {
    IntLiteral(text, 0).Some? ==> m.eval(Trim(text)) == Ok(IntLiteral(text, 0).value)
  }

  predicate LiteralsMean<Row, E(==)>(m: Meaning<Row, E>, page: Pagination) {
    LiteralMeans(m, page.skip) && LiteralMeans(m, page.limit)
  }

  /** What the planner adds to the literal LIMIT: the literal SKIP, or nothing if SKIP is no literal. */
  function KnownSkip(page: Pagination): nat {
    var skip := IntLiteral(page.skip, 0);
    if skip.Some? then skip.value else 0
  }

  ghost predicate CutInvisibleOn<Row(!new), E>(m: Meaning<Row, E>, ordering: seq<SortItem>, page: Pagination,
                                               k: Option<int>, rows: seq<Row>)
  {
    Paginate(m, page, SortedTop(m, ordering, k, rows)) == Paginate(m, page, Sorted(m, ordering, rows))
  }

  ghost predicate CutIsInvisible<Row(!new), E>(m: Meaning<Row, E>, ordering: seq<SortItem>, page: Pagination,
                                               k: Option<int>)
  {
    forall rows :: CutInvisibleOn(m, ordering, page, k, rows)
  }

  ghost predicate SkipIs<Row(!new), E>(m: Meaning<Row, E>, text: Bytes, skip: nat) {
    Resolve(m, text) == Ok(Some(skip)) || (Resolve(m, text) == Ok(None) && skip == 0)
  }

  lemma BlankIsNoLiteral(text: Bytes, least: int)
    requires Blank(text)
    ensures IntLiteral(text, least) == None
  {
    assert StripParens([]) == [] && Atoi([]) == None;
  }

  lemma LiteralResolves<Row(!new), E>(m: Meaning<Row, E>, text: Bytes)
    requires LiteralMeans(m, text) && IntLiteral(text, 0).Some?
    ensures Resolve(m, text) == Ok(Some(IntLiteral(text, 0).value))
  {
    if Blank(text) {
      BlankIsNoLiteral(text, 0);
    }
  }

  lemma CutKeepsPage<Row(!new), E>(m: Meaning<Row, E>, h: Hints, ordering: seq<SortItem>, page: Pagination, skip: nat,
                                   rows: seq<Row>)
    requires LiteralsMean(m, page) && TopK(page, h).Some? && SkipIs(m, page.skip, skip) && skip <= KnownSkip(page)
    ensures CutInvisibleOn(m, ordering, page, TopK(page, h), rows)
  {
    LiteralResolves(m, page.limit);
    PageOfCut(Sorted(m, ordering, rows), KnownSkip(page), IntLiteral(page.limit, 1).value, skip);
  }

  lemma CutLosesRows<Row(!new), E>(m: Meaning<Row, E>, h: Hints, ordering: seq<SortItem>, page: Pagination, skip: nat,
                                   rows: seq<Row>)
    requires LiteralsMean(m, page) && TopK(page, h).Some? && SkipIs(m, page.skip, skip) && ordering != []
    requires KnownSkip(page) < skip && KnownSkip(page) + IntLiteral(page.limit, 1).value <= MAX_INT64
    requires |rows| == skip + IntLiteral(page.limit, 1).value
    ensures !CutInvisibleOn(m, ordering, page, TopK(page, h), rows)
  {
    LiteralResolves(m, page.limit);
    CutTooShort(Sorted(m, ordering, rows), KnownSkip(page), IntLiteral(page.limit, 1).value, skip);
  }

  /**
   * A sort cut off at k = SKIP + LIMIT, followed by the pagination, gives the rows of the full sort exactly if
   * the value of SKIP is at most the literal the planner saw. A SKIP that is no literal counts as 0 there, so
   * `SKIP $s LIMIT 5` loses rows as soon as $s is positive. (A sum beyond 64 bits leaves the sort uncut.)
   */
  lemma TopKExactly<Row(!new), E>(m: Meaning<Row, E>, h: Hints, ordering: seq<SortItem>, page: Pagination, skip: nat)
    requires LiteralsMean(m, page) && ordering != [] && TopK(page, h).Some?
    requires SkipIs(m, page.skip, skip)
    ensures CutIsInvisible(m, ordering, page, TopK(page, h)) <==> skip <= KnownSkip(page)
  {
    if skip <= KnownSkip(page) {
      forall rows ensures CutInvisibleOn(m, ordering, page, TopK(page, h), rows) {
        CutKeepsPage(m, h, ordering, page, skip, rows);
      }
    } else {
      LateSkip(m, page, skip);
      var rows := seq(skip + IntLiteral(page.limit, 1).value, _ => m.unit);
      CutLosesRows(m, h, ordering, page, skip, rows);
      assert !CutInvisibleOn(m, ordering, page, TopK(page, h), rows);
    }
  }

  /** SKIP $s LIMIT 5 loses rows as soon as $s is positive. */
  lemma SkipByParameter<Row(!new), E>(m: Meaning<Row, E>, h: Hints, ordering: seq<SortItem>, skip: nat)
    requires m.eval(Ascii("$s")) == Ok(skip) && m.eval(Ascii("5")) == Ok(5)
    requires h.edgeTotal.Some? && h.edgeTotal.value >= 20 && ordering != []
    ensures var page := Pagination(Ascii("$s"), Ascii("5"));
            TopK(page, h) == Some(5) && (CutIsInvisible(m, ordering, page, TopK(page, h)) <==> skip == 0)
  {
    var page := Pagination(Ascii("$s"), Ascii("5"));
    ParameterTexts();
    assert SkipIs(m, page.skip, skip);
    TopKExactly(m, h, ordering, page, skip);
  }

  /** $s is no literal, 5 is one. */
  lemma ParameterTexts()
    ensures Trim(Ascii("$s")) == Ascii("$s") && !Blank(Ascii("$s")) && IntLiteral(Ascii("$s"), 0) == None
    ensures Trim(Ascii("5")) == Ascii("5") && IntLiteral(Ascii("5"), 0) == IntLiteral(Ascii("5"), 1) == Some(5)
  {
    var s, five := Ascii("$s"), Ascii("5");
    assert s[0] == 36 && s[1] == 115 && five[0] == 53;
    VisibleEnds(s);
    VisibleEnds(five);
    assert s[0] in s && !IsDigit(s[0]);
    assert five[..0] == [];
  }

  /** A SKIP beyond what the planner saw is no literal. */
  lemma LateSkip<Row(!new), E>(m: Meaning<Row, E>, page: Pagination, skip: nat)
    requires LiteralsMean(m, page) && SkipIs(m, page.skip, skip) && KnownSkip(page) < skip
    ensures KnownSkip(page) == 0
  {
    if IntLiteral(page.skip, 0).Some? {
      LiteralResolves(m, page.skip);
    }
  }

  // ---------------------------------------------------------------- whole plans

  /** The operator without any rewrite. */
  function Plain(op: Op): PhysicalOp {
    match op
    case MatchOp(pattern, where) => Expand(false, pattern, where, None)
    case OptionalMatchOp(pattern, where) => Expand(true, pattern, where, None)
    case SortOp(ordering) => SortRows(ordering, None)
    case _ => Other(op)
  }

  function PlainOps(ops: seq<Op>): seq<PhysicalOp> {
    Sorting.Map(ops, Plain)
  }

  /**
   * The premises on one operator: a pattern whose type counts as empty needs edges of it, an always false WHERE
   * text never holds, the relations read in it are forced, and literals mean what they say.
   */
  ghost predicate SaneOp<Row(!new), E>(m: Meaning<Row, E>, r: Reader, h: Hints, types: seq<Bytes>,
                                       formula: Bytes -> Formula, atom: (Bytes, Row) -> bool, op: Op)
  {
    match op
    case MatchOp(pattern, where) =>
      && (EdgeTypeKnownEmpty(pattern, r, h) ==> NeedsEdges(m, r, types, pattern))
      && FalseNeverHolds(m, where)
      && Readable(m, r, where, formula(where), atom)
    case PaginationOp(page) => LiteralsMean(m, page)
    case _ => true
  }

  /** Stored counts are exact, and the premises hold of the operators of the plan. */
  ghost predicate Sane<Row(!new), E>(m: Meaning<Row, E>, r: Reader, h: Hints, types: seq<Bytes>,
                                     formula: Bytes -> Formula, atom: (Bytes, Row) -> bool, ops: seq<Op>)
  {
    Exact(h, types) && forall op | op in ops :: SaneOp(m, r, h, types, formula, atom, op)
  }

  /** A SKIP that is absent or a literal. */
  predicate SkipKnown(page: Pagination) {
    Blank(page.skip) || IntLiteral(page.skip, 0).Some?
  }

  predicate SkipsKnown(ops: seq<Op>) {
    forall op | op in ops && op.PaginationOp? :: SkipKnown(op.page)
  }

  /** The cut at sort k of a chain, if it has one. */
  function CutAt(ops: seq<Op>, k: int, h: Hints): Option<int> {
    if 0 <= k < |ops| && ops[k].SortOp? then TopK(PageBehind(ops, k), h) else None
  }

  ghost predicate CutFrom<Row(!new), E>(m: Meaning<Row, E>, ordering: seq<SortItem>, k: Option<int>, rows: seq<Row>,
                                        plain: Result<seq<Row>, E>, fast: Result<seq<Row>, E>)
  {
    plain == Ok(Sorted(m, ordering, rows)) && fast == Ok(SortedTop(m, ordering, k, rows))
  }

  ghost predicate IsCut<Row(!new), E>(m: Meaning<Row, E>, ordering: seq<SortItem>, k: Option<int>,
                                      plain: Result<seq<Row>, E>, fast: Result<seq<Row>, E>)
  {
    exists rows :: CutFrom(m, ordering, k, rows, plain, fast)
  }

  /** Behind a sort that is cut off, the rewritten plan has the first rows of the plain plan's; elsewhere the same. */
  ghost predicate Matches<Row(!new), E>(m: Meaning<Row, E>, ops: seq<Op>, n: nat, h: Hints, plain: Result<seq<Row>, E>,
                                        fast: Result<seq<Row>, E>)
  {
    if CutAt(ops, n - 1, h).Some? && plain.Ok? then
      IsCut(m, ops[n - 1].ordering, CutAt(ops, n - 1, h), plain, fast)
    else fast == plain
  }

  lemma TopKTrims(page: Pagination, h: Hints)
    ensures TopK(Pagination(Trim(page.skip), Trim(page.limit)), h) == TopK(page, h)
  {
    TrimIdempotent(page.skip);
    TrimIdempotent(page.limit);
  }

  /** The pagination behind a sort that is cut off shows the same rows. */
  lemma PageBehindCut<Row(!new), E>(m: Meaning<Row, E>, ops: seq<Op>, n: nat, h: Hints, rows: seq<Row>)
    requires n < |ops| && CutAt(ops, n - 1, h).Some? && SkipsKnown(ops)
    requires ops[n].PaginationOp? ==> LiteralsMean(m, ops[n].page)
    ensures ops[n].PaginationOp?
    ensures CutInvisibleOn(m, ops[n - 1].ordering, ops[n].page, CutAt(ops, n - 1, h), rows)
  {
    assert !ops[n].PaginationOp? ==> IntLiteral([], 1) == None;
    var page := ops[n].page;
    TopKTrims(page, h);
    if !Blank(page.skip) {
      LiteralResolves(m, page.skip);
    }
    CutKeepsPage(m, h, ops[n - 1].ordering, page, KnownSkip(page), rows);
  }

  /** An operator that is not a sort: its lowering does to the rows what it does plainly. */
  lemma LoweringPerforms<Row(!new), E>(m: Meaning<Row, E>, ops: seq<Op>, n: nat, r: Reader, h: Hints, types: seq<Bytes>,
                                       formula: Bytes -> Formula, atom: (Bytes, Row) -> bool, rows: seq<Row>)
    requires Sane(m, r, h, types, formula, atom, ops) && n < |ops| && !ops[n].SortOp?
    ensures PerformAll(m, LoweredAt(ops, n, r, h), rows) == Perform(m, Plain(ops[n]), rows)
  {
    var main := Main(ops, n, r, h);
    PerformOne(m, main, rows);
    assert SaneOp(m, r, h, types, formula, atom, ops[n]);
    if Pruned(ops[n], r, h) {
      PruningIsSafe(m, r, h, types, ops[n], None, rows);
      assert LoweredAt(ops, n, r, h) == [main];
    } else if ops[n].MatchOp? {
      MatchPerforms(m, r, h, types, formula, atom, ops[n], main.join, rows);
    } else {
      assert LoweredAt(ops, n, r, h) == [main];
    }
  }

  /** An expansion with its probes behind it gives the rows of the expansion. */
  lemma MatchPerforms<Row(!new), E>(m: Meaning<Row, E>, r: Reader, h: Hints, types: seq<Bytes>,
                                    formula: Bytes -> Formula, atom: (Bytes, Row) -> bool, op: Op, join: Option<Join>,
                                    rows: seq<Row>)
    requires op.MatchOp? && SaneOp(m, r, h, types, formula, atom, op)
    ensures PerformAll(m, Spliced(Expand(false, op.pattern, op.where, join), r, h), rows) == Perform(m, Plain(op), rows)
  {
    var main := Expand(false, op.pattern, op.where, join);
    var probes, out := Probes(op.where, r, h), Expanded(m, op.pattern, op.where, Seed(m, rows));
    PerformOne(m, main, rows);
    PerformAppend(m, [main], AsProbes(probes), rows);
    FilterKeeps(FlatMap(Seed(m, rows), (row: Row) => m.expand(op.pattern, row)),
                (row: Row) => Passes(m, op.where, row));
    forall x, row | x in probes && row in out ensures !m.joins(x, row) {
      assert Passes(m, op.where, row);
      ProbesKeep(m, r, h, op.where, formula(op.where), atom, x, row);
    }
    ProbesIdle(m, probes, out);
  }

  lemma PerformOne<Row, E>(m: Meaning<Row, E>, op: PhysicalOp, rows: seq<Row>)
    ensures PerformAll(m, [op], rows) == Perform(m, op, rows)
  {
    assert [op][..0] == [];
    assert PerformAll(m, [op][..0], rows) == Ok(rows);
  }

  lemma SortPerforms<Row(!new), E>(m: Meaning<Row, E>, ops: seq<Op>, n: nat, r: Reader, h: Hints, rows: seq<Row>)
    requires n < |ops| && ops[n].SortOp?
    ensures Perform(m, Plain(ops[n]), rows) == Ok(Sorted(m, ops[n].ordering, rows))
    ensures PerformAll(m, LoweredAt(ops, n, r, h), rows) == Ok(SortedTop(m, ops[n].ordering, CutAt(ops, n, h), rows))
  {
    SortLowers(ops, n, r, h);
    PerformOne(m, SortRows(ops[n].ordering, CutAt(ops, n, h)), rows);
  }

  lemma SortLowers(ops: seq<Op>, n: nat, r: Reader, h: Hints)
    requires n < |ops| && ops[n].SortOp?
    ensures LoweredAt(ops, n, r, h) == [SortRows(ops[n].ordering, CutAt(ops, n, h))]
  {
  }

  /** One more operator on rows that the plans agree on. */
  lemma StepFromSame<Row(!new), E>(m: Meaning<Row, E>, ops: seq<Op>, n: nat, r: Reader, h: Hints, types: seq<Bytes>,
                                   formula: Bytes -> Formula, atom: (Bytes, Row) -> bool, at: Result<seq<Row>, E>)
    requires Sane(m, r, h, types, formula, atom, ops) && n < |ops|
    ensures Matches(m, ops, n + 1, h, Then(m, [Plain(ops[n])], at), Then(m, LoweredAt(ops, n, r, h), at))
  {
    if at.Ok? {
      PerformOne(m, Plain(ops[n]), at.value);
      if ops[n].SortOp? {
        SortPerforms(m, ops, n, r, h, at.value);
        assert CutFrom(m, ops[n].ordering, CutAt(ops, n, h), at.value, Then(m, [Plain(ops[n])], at),
                       Then(m, LoweredAt(ops, n, r, h), at));
      } else {
        LoweringPerforms(m, ops, n, r, h, types, formula, atom, at.value);
      }
    }
  }

  /** The pagination behind a sort that is cut off. */
  lemma StepFromCut<Row(!new), E>(m: Meaning<Row, E>, ops: seq<Op>, n: nat, r: Reader, h: Hints, types: seq<Bytes>,
                                  formula: Bytes -> Formula, atom: (Bytes, Row) -> bool, rows: seq<Row>)
    requires Sane(m, r, h, types, formula, atom, ops) && n < |ops| && CutAt(ops, n - 1, h).Some?
    requires SkipsKnown(ops)
    ensures var all := Sorted(m, ops[n - 1].ordering, rows);
            var top := SortedTop(m, ops[n - 1].ordering, CutAt(ops, n - 1, h), rows);
            Matches(m, ops, n + 1, h, Then(m, [Plain(ops[n])], Ok(all)), Then(m, LoweredAt(ops, n, r, h), Ok(top)))
  {
    var all := Sorted(m, ops[n - 1].ordering, rows);
    var top := SortedTop(m, ops[n - 1].ordering, CutAt(ops, n - 1, h), rows);
    assert SaneOp(m, r, h, types, formula, atom, ops[n]);
    PageBehindCut(m, ops, n, h, rows);
    PerformOne(m, Plain(ops[n]), all);
    LoweringPerforms(m, ops, n, r, h, types, formula, atom, top);
  }

  /** One more operator, anywhere in the chain. */
  lemma StepMatches<Row(!new), E>(m: Meaning<Row, E>, ops: seq<Op>, n: nat, r: Reader, h: Hints, types: seq<Bytes>,
                                  formula: Bytes -> Formula, atom: (Bytes, Row) -> bool,
                                  plain: Result<seq<Row>, E>, fast: Result<seq<Row>, E>,
                                  plain': Result<seq<Row>, E>, fast': Result<seq<Row>, E>)
    requires Sane(m, r, h, types, formula, atom, ops) && n < |ops|
    requires SkipsKnown(ops)
    requires Matches(m, ops, n, h, plain, fast)
    requires plain' == Then(m, [Plain(ops[n])], plain) && fast' == Then(m, LoweredAt(ops, n, r, h), fast)
    ensures Matches(m, ops, n + 1, h, plain', fast')
  {
    if CutAt(ops, n - 1, h).Some? && plain.Ok? {
      var rows :| CutFrom(m, ops[n - 1].ordering, CutAt(ops, n - 1, h), rows, plain, fast);
      StepFromCut(m, ops, n, r, h, types, formula, atom, rows);
    } else {
      StepFromSame(m, ops, n, r, h, types, formula, atom, plain);
    }
  }

  lemma OneMore<Row(!new), E>(m: Meaning<Row, E>, ops: seq<Op>, n: nat, r: Reader, h: Hints, rows: seq<Row>)
    requires n < |ops|
    ensures PerformAll(m, PlainOps(ops[..n + 1]), rows)
            == Then(m, [Plain(ops[n])], PerformAll(m, PlainOps(ops[..n]), rows))
    ensures PerformAll(m, PhysicalOps(ops, n + 1, r, h), rows)
            == Then(m, LoweredAt(ops, n, r, h), PerformAll(m, PhysicalOps(ops, n, r, h), rows))
  {
    assert PlainOps(ops[..n + 1]) == PlainOps(ops[..n]) + [Plain(ops[n])];
    PerformAppend(m, PlainOps(ops[..n]), [Plain(ops[n])], rows);
    PerformAppend(m, PhysicalOps(ops, n, r, h), LoweredAt(ops, n, r, h), rows);
  }

  lemma {:induction false} PrefixesMatch<Row(!new), E>(m: Meaning<Row, E>, ops: seq<Op>, n: nat, r: Reader, h: Hints,
                                                       types: seq<Bytes>, formula: Bytes -> Formula,
                                                       atom: (Bytes, Row) -> bool, rows: seq<Row>)
    requires Sane(m, r, h, types, formula, atom, ops) && n <= |ops|
    requires SkipsKnown(ops)
    ensures Matches(m, ops, n, h, PerformAll(m, PlainOps(ops[..n]), rows),
                    PerformAll(m, PhysicalOps(ops, n, r, h), rows))
    decreases n
  {
    hide PerformAll, Matches, Sane;
    if n > 0 {
      PrefixesMatch(m, ops, n - 1, r, h, types, formula, atom, rows);
      OneMore(m, ops, n - 1, r, h, rows);
      StepMatches(m, ops, n - 1, r, h, types, formula, atom, PerformAll(m, PlainOps(ops[..n - 1]), rows),
                  PerformAll(m, PhysicalOps(ops, n - 1, r, h), rows), PerformAll(m, PlainOps(ops[..n]), rows),
                  PerformAll(m, PhysicalOps(ops, n, r, h), rows));
    } else {
      NothingMatches(m, ops, r, h, rows);
    }
  }

  lemma NothingMatches<Row(!new), E>(m: Meaning<Row, E>, ops: seq<Op>, r: Reader, h: Hints, rows: seq<Row>)
    ensures Matches(m, ops, 0, h, PerformAll(m, PlainOps(ops[..0]), rows),
                    PerformAll(m, PhysicalOps(ops, 0, r, h), rows))
  {
    assert PlainOps(ops[..0]) == [];
  }

  /** With all rewrites a query gives the same rows in the same order as without any. */
  lemma RewritesPreserveRows<Row(!new), E>(m: Meaning<Row, E>, ops: seq<Op>, r: Reader, h: Hints, types: seq<Bytes>,
                                           formula: Bytes -> Formula, atom: (Bytes, Row) -> bool, rows: seq<Row>)
    requires Sane(m, r, h, types, formula, atom, ops)
    requires SkipsKnown(ops)
    ensures PerformAll(m, PhysicalOps(ops, |ops|, r, h), rows) == PerformAll(m, PlainOps(ops), rows)
  {
    PrefixesMatch(m, ops, |ops|, r, h, types, formula, atom, rows);
    assert ops[..|ops|] == ops;
    assert CutAt(ops, |ops| - 1, h) == None by {
      assert IntLiteral([], 1) == None;
    }
  }
}
