/** What a chain of clauses means, and when the operators, run one after the other, give it. */
module ClauseMeaning {
  import opened Wrappers
  import opened Text
  import opened Logical
  import opened Physical
  import opened Rewrites

  /** The next clause on the rows so far: a MATCH behind no rows has nothing to start from. */
  function MeantStep<Row, E>(m: Meaning<Row, E>, op: Op, rows: seq<Row>): Result<seq<Row>, E> {
    match op
    case MatchOp(pattern, where) => Ok(Expanded(m, pattern, where, rows))
    case OptionalMatchOp(pattern, where) => Ok(if rows == [] then [] else m.expandOptional(pattern, where, rows))
    case _ => Perform(m, Plain(op), rows)
  }

  /** What a query means, clause by clause: only the first one starts from the unit row. */
  function Meant<Row, E>(m: Meaning<Row, E>, ops: seq<Op>, rows: seq<Row>): Result<seq<Row>, E>
    decreases |ops|
  {
    if ops == [] then Ok(rows)
    else if |ops| == 1 then Perform(m, Plain(ops[0]), rows)
    else
      var r := Meant(m, ops[..|ops| - 1], rows);
      if r.Err? then r else MeantStep(m, ops[|ops| - 1], r.value)
  }

  /** The operator starts over: it has no rows to work on, and finds something from the unit row. */
  predicate Restarts<Row(==), E>(m: Meaning<Row, E>, op: Op, rows: seq<Row>) {
    rows == [] && match op
                  case MatchOp(pattern, where) => Expanded(m, pattern, where, [m.unit]) != []
                  case OptionalMatchOp(pattern, where) => m.expandOptional(pattern, where, [m.unit]) != []
                  case _ => false
  }

  /** Operator n of the chain does not start over. */
  ghost predicate GoesOn<Row, E>(m: Meaning<Row, E>, ops: seq<Op>, n: nat, rows: seq<Row>)
    requires n < |ops|
  {
    var before := Meant(m, ops[..n], rows);
    n > 0 && before.Ok? ==> !Restarts(m, ops[n], before.value)
  }

  /** No operator of the chain starts over. */
  ghost predicate NoRestart<Row, E>(m: Meaning<Row, E>, ops: seq<Op>, rows: seq<Row>) {
    forall n | 0 <= n < |ops| :: GoesOn(m, ops, n, rows)
  }

  lemma NothingExpands<Row(!new), E>(m: Meaning<Row, E>, pattern: Bytes, where: Bytes)
    ensures Expanded(m, pattern, where, []) == []
  {
  }

  lemma StepMeant<Row(!new), E>(m: Meaning<Row, E>, op: Op, rows: seq<Row>)
    ensures Perform(m, Plain(op), rows) == MeantStep(m, op, rows) <==> !Restarts(m, op, rows)
  {
    if op.MatchOp? && rows == [] {
      NothingExpands(m, op.pattern, op.where);
    }
  }

  lemma {:induction false} PrefixesMeant<Row(!new), E>(m: Meaning<Row, E>, ops: seq<Op>, n: nat, rows: seq<Row>)
    requires n <= |ops| && forall k | 0 <= k < n :: GoesOn(m, ops, k, rows)
    ensures PerformAll(m, PlainOps(ops[..n]), rows) == Meant(m, ops[..n], rows)
    decreases n
  {
    if n > 0 {
      PrefixesMeant(m, ops, n - 1, rows);
      OneMeant(m, ops, n - 1, rows);
      assert GoesOn(m, ops, n - 1, rows);
    } else {
      assert PlainOps(ops[..0]) == [];
    }
  }

  /** Where the plan and the meaning agree, they agree on one more operator exactly if it does not start over. */
  lemma OneMeant<Row(!new), E>(m: Meaning<Row, E>, ops: seq<Op>, n: nat, rows: seq<Row>)
    requires n < |ops| && PerformAll(m, PlainOps(ops[..n]), rows) == Meant(m, ops[..n], rows)
    ensures PerformAll(m, PlainOps(ops[..n + 1]), rows) == Meant(m, ops[..n + 1], rows) <==> GoesOn(m, ops, n, rows)
  {
    var before := Meant(m, ops[..n], rows);
    assert ops[..n + 1][..n] == ops[..n];
    assert PlainOps(ops[..n + 1])[..n] == PlainOps(ops[..n]);
    if n == 0 {
      assert PlainOps(ops[..0]) == [] && PlainOps(ops[..1]) == [Plain(ops[0])];
    } else if before.Ok? {
      StepMeant(m, ops[n], before.value);
    }
  }

  /**
   * After every clause the plain operators give what the clauses mean, exactly if no MATCH, optional or not, is
   * reached without rows while it finds something from the unit row.
   */
  lemma PlainMeansExactly<Row(!new), E>(m: Meaning<Row, E>, ops: seq<Op>, rows: seq<Row>)
    ensures (forall n | 0 <= n <= |ops| :: PerformAll(m, PlainOps(ops[..n]), rows) == Meant(m, ops[..n], rows))
            <==> NoRestart(m, ops, rows)
  {
    if NoRestart(m, ops, rows) {
      forall n | 0 <= n <= |ops| ensures PerformAll(m, PlainOps(ops[..n]), rows) == Meant(m, ops[..n], rows) {
        PrefixesMeant(m, ops, n, rows);
      }
    }
    if forall n | 0 <= n <= |ops| :: PerformAll(m, PlainOps(ops[..n]), rows) == Meant(m, ops[..n], rows) {
      forall n | 0 <= n < |ops| ensures GoesOn(m, ops, n, rows) {
        assert PerformAll(m, PlainOps(ops[..n]), rows) == Meant(m, ops[..n], rows);
        assert PerformAll(m, PlainOps(ops[..n + 1]), rows) == Meant(m, ops[..n + 1], rows);
        OneMeant(m, ops, n, rows);
      }
    }
  }

  lemma PlainMeans<Row(!new), E>(m: Meaning<Row, E>, ops: seq<Op>, rows: seq<Row>)
    requires NoRestart(m, ops, rows)
    ensures PerformAll(m, PlainOps(ops), rows) == Meant(m, ops, rows)
  {
    PrefixesMeant(m, ops, |ops|, rows);
    assert ops[..|ops|] == ops;
  }

  /** In the small world every row that a pattern leads to is kept. */
  lemma SmallExpandsFrom(p: Bytes, n: int)
    ensures Expanded(SmallMeaning(), p, [], [n]) == if p == [1] then [] else [n + 1]
  {
    OneExpands(SmallMeaning(), p, [], n);
  }

  lemma OneExpands<Row(!new), E>(m: Meaning<Row, E>, pattern: Bytes, where: Bytes, start: Row)
    requires forall row :: Passes(m, where, row)
    ensures Expanded(m, pattern, where, [start]) == m.expand(pattern, start)
  {
    var expand := (row: Row) => m.expand(pattern, row);
    FlatOne(start, expand);
    FilterAll(expand(start), (row: Row) => Passes(m, where, row));
  }

  /** Projections and other operators change nothing in the small world. */
  lemma SmallPerforms(op: Op, rows: seq<int>)
    requires op.MatchOp? || op.ProjectOp?
    ensures op.MatchOp? ==> Perform(SmallMeaning(), Plain(op), rows)
                            == Ok(Expanded(SmallMeaning(), op.pattern, op.where, if rows == [] then [0] else rows))
    ensures op.ProjectOp? ==> Perform(SmallMeaning(), Plain(op), rows) == Ok(rows)
  {
  }

  lemma TwoOps<Row(!new), E>(m: Meaning<Row, E>, a: Op, b: Op, rows: seq<Row>)
    ensures PerformAll(m, PlainOps([a, b]), rows) == Then(m, [Plain(b)], Perform(m, Plain(a), rows))
    ensures var r := Perform(m, Plain(a), rows);
            Meant(m, [a, b], rows) == if r.Err? then r else MeantStep(m, b, r.value)
  {
    assert PlainOps([a, b]) == [Plain(a)] + [Plain(b)];
    PerformAppend(m, [Plain(a)], [Plain(b)], rows);
    PerformOne(m, Plain(a), rows);
    assert [a, b][..1] == [a];
    assert Meant(m, [a, b][..1], rows) == Perform(m, Plain(a), rows);
  }

  /** MATCH that finds nothing, then MATCH that finds something: a row instead of none. */
  lemma RestartGivesRow()
    ensures var m, ops := SmallMeaning(), [MatchOp([1], []), MatchOp([2], [])];
            Meant(m, ops, []) == Ok([]) && PerformAll(m, PlainOps(ops), []) == Ok([1])
  {
    var m, a, b := SmallMeaning(), MatchOp([1], []), MatchOp([2], []);
    SmallExpandsFrom([1], 0);
    SmallExpandsFrom([2], 0);
    SmallPerforms(a, []);
    SmallPerforms(b, []);
    NothingExpands(m, [2], []);
    hide Expanded, SmallMeaning, PerformAll, Meant, Perform;
    TwoOps(m, a, b, []);
    PerformOne(m, Plain(b), []);
  }

  lemma OneMoreOp<Row(!new), E>(m: Meaning<Row, E>, ops: seq<Op>, op: Op, rows: seq<Row>)
    requires ops != []
    ensures PerformAll(m, PlainOps(ops + [op]), rows) == Then(m, [Plain(op)], PerformAll(m, PlainOps(ops), rows))
    ensures var r := Meant(m, ops, rows);
            Meant(m, ops + [op], rows) == if r.Err? then r else MeantStep(m, op, r.value)
  {
    assert PlainOps(ops + [op]) == PlainOps(ops) + [Plain(op)];
    PerformAppend(m, PlainOps(ops), [Plain(op)], rows);
    assert (ops + [op])[..|ops|] == ops;
  }

  /**
   * For the rows of the whole chain the condition suffices, but it is not needed: behind a MATCH that finds nothing
   * and one that starts over, a third one that finds nothing leaves no trace of it.
   */
  lemma RestartMasked()
    ensures var m, ops := SmallMeaning(), [MatchOp([1], []), MatchOp([2], []), MatchOp([1], [])];
            !NoRestart(m, ops, []) && Meant(m, ops, []) == Ok([]) && PerformAll(m, PlainOps(ops), []) == Ok([])
  {
    var m, a, b := SmallMeaning(), MatchOp([1], []), MatchOp([2], []);
    RestartGivesRow();
    SmallExpandsFrom([1], 1);
    SmallPerforms(a, [1]);
    NothingExpands(m, [1], []);
    hide Expanded, SmallMeaning, PerformAll, Meant, Perform;
    OneMoreOp(m, [a, b], a, []);
    PerformOne(m, Plain(a), [1]);
    RestartCounts(m, [a, b], a);
    assert [a, b] + [a] == [a, b, a];
  }

  /** Where the operators and the meaning part ways, something has started over. */
  lemma RestartCounts<Row(!new), E>(m: Meaning<Row, E>, ops: seq<Op>, op: Op)
    requires PerformAll(m, PlainOps(ops), []) != Meant(m, ops, [])
    ensures !NoRestart(m, ops + [op], [])
  {
    var all := ops + [op];
    assert all[..|ops|] == ops;
    if NoRestart(m, all, []) {
      PrefixesMeant(m, all, |ops|, []);
    }
  }
}
