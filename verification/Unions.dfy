/** Statements of several parts: each part runs on its own, and UNION puts their rows together. */
module Unions {
  import opened Wrappers
  import opened Text
  import opened Semantic
  import opened Logical
  import opened Physical
  import opened Forcing
  import opened Rewrites
  import opened ClauseMeaning
  import opened Pipeline
  import Sorting

  datatype UnionKind = All | Distinct

  /** Why a statement has no result; an error of a part is passed on. */
  datatype Failure<E> = UnsupportedShape | InvalidClauseComposition | DifferentColumns | Failed(error: E)

  datatype Table<Row> = Table(columns: seq<Bytes>, rows: seq<Row>)

  /**
   * What becomes of the rows of a plan: the shapes that are refused, the columns of a part and those found in rows,
   * the normal form of a row, and the text that two rows share if they are the same in the given columns.
   */
  datatype View<!Row, !E> = View(
    refuses: (seq<Clause>, Hints) -> Option<E>,
    columns: (seq<Clause>, seq<Row>) -> seq<Bytes>,
    infer: seq<Row> -> seq<Bytes>,
    normal: Row -> Row,
    signature: (Row, seq<Bytes>) -> Bytes)

  /** What a part finds when its turn comes: the graph, through the meaning of operators on it, and its counts. */
  datatype Stage<!Row, !E> = Stage(meaning: Meaning<Row, E>, hints: Hints)

  /** What the premises on a part speak of: the stored edge types, and the shapes of WHERE texts and their atoms. */
  datatype Ground<!Row> = Ground(types: seq<Bytes>, formula: Bytes -> Formula, atom: (Bytes, Row) -> bool)

  type Answer<Row, E> = Result<Table<Row>, Failure<E>>

  // ---------------------------------------------------------------- one part

  predicate HasReturn(clauses: seq<Clause>) {
    exists c | c in clauses :: c.kind == Return
  }

  /** A part without RETURN has neither columns nor rows. */
  function Shown<Row, E>(view: View<Row, E>, clauses: seq<Clause>, rows: seq<Row>): Table<Row> {
    if HasReturn(clauses) then Table(view.columns(clauses, rows), Sorting.Map(rows, view.normal)) else Table([], [])
  }

  /** What a part answers, given the rows of its plan. */
  function AnswerOf<Row, E>(view: View<Row, E>, h: Hints, clauses: seq<Clause>, rows: Result<seq<Row>, E>):
    Answer<Row, E>
  {
    var refused := view.refuses(clauses, h);
    if refused.Some? then Err(Failed(refused.value))
    else if rows.Err? then Err(Failed(rows.error))
    else Ok(Shown(view, clauses, rows.value))
  }

  /** The premises on a part. */
  ghost predicate Sound<Row(!new), E>(stage: Stage<Row, E>, ground: Ground<Row>, r: Reader, ops: seq<Op>) {
    && Sane(stage.meaning, r, stage.hints, ground.types, ground.formula, ground.atom, ops)
    && SkipsKnown(ops)
  }

  /** The answer of a part whose plain operators run from no rows. */
  function PlainAnswer<Row, E>(view: View<Row, E>, stage: Stage<Row, E>, clauses: seq<Clause>,
                               unwind: Bytes -> Option<ReturnClause>): Answer<Row, E>
  {
    AnswerOf(view, stage.hints, clauses, PerformAll(stage.meaning, PlainOps(Steps(clauses, unwind)), []))
  }

  /** The answer that a part means. */
  function MeantAnswer<Row, E>(view: View<Row, E>, stage: Stage<Row, E>, clauses: seq<Clause>,
                               unwind: Bytes -> Option<ReturnClause>): Answer<Row, E>
  {
    AnswerOf(view, stage.hints, clauses, Meant(stage.meaning, Steps(clauses, unwind), []))
  }

  method RunPart<Row(!new), E>(clauses: seq<Clause>, unwind: Bytes -> Option<ReturnClause>, r: Reader,
                               stage: Stage<Row, E>, view: View<Row, E>, ghost ground: Ground<Row>)
    returns (answer: Answer<Row, E>)
    requires Sound(stage, ground, r, Steps(clauses, unwind))
    ensures answer == PlainAnswer(view, stage, clauses, unwind)
  {
    var refused := view.refuses(clauses, stage.hints);
    if refused.Some? {
      return Err(Failed(refused.value));
    }
    var rows := RunRows(clauses, unwind, r, stage.hints, stage.meaning, [], ground.types, ground.formula, ground.atom);
    if rows.Err? {
      return Err(Failed(rows.error));
    }
    return Ok(Shown(view, clauses, rows.value));
  }

  // ---------------------------------------------------------------- putting the parts together

  function ColumnsOf<Row, E>(view: View<Row, E>, t: Table<Row>): seq<Bytes> {
    if t.columns == [] then view.infer(t.rows) else t.columns
  }

  predicate SameColumns(a: seq<Bytes>, b: seq<Bytes>) {
    |a| == |b| && forall i | 0 <= i < |a| :: Trim(a[i]) == Trim(b[i])
  }

  /** One more part behind the rows so far. The first columns that are not empty are those of the result. */
  function Extended<Row, E>(view: View<Row, E>, so: Table<Row>, part: Table<Row>): Answer<Row, E> {
    var columns := ColumnsOf(view, part);
    if so.columns == [] then Ok(Table(columns, so.rows + part.rows))
    else if SameColumns(so.columns, columns) then Ok(Table(so.columns, so.rows + part.rows))
    else Err(DifferentColumns)
  }

  /** Up to the first error, the parts' rows one behind the other. */
  function Appended<Row, E>(view: View<Row, E>, answers: seq<Answer<Row, E>>): Answer<Row, E> {
    if answers == [] then Ok(Table([], []))
    else
      var so := Appended(view, answers[..|answers| - 1]);
      var part := answers[|answers| - 1];
      if so.Err? then so else if part.Err? then part else Extended(view, so.value, part.value)
  }

  predicate Seen<T>(s: seq<T>, sign: T -> Bytes, x: Bytes) {
    exists i | 0 <= i < |s| :: sign(s[i]) == x
  }

  /** The first element of each signature. */
  function Firsts<T>(s: seq<T>, sign: T -> Bytes): seq<T> {
    if s == [] then []
    else
      var n := |s| - 1;
      Firsts(s[..n], sign) + if Seen(s[..n], sign, sign(s[n])) then [] else [s[n]]
  }

  function Narrowed<Row, E>(view: View<Row, E>, kind: UnionKind, t: Table<Row>): Table<Row> {
    if kind == Distinct then t.(rows := Firsts(t.rows, row => view.signature(row, t.columns))) else t
  }

  predicate Mixed(unions: seq<UnionKind>) {
    exists i | 0 <= i < |unions| :: unions[i] != unions[0]
  }

  function UnionOf<Row, E>(view: View<Row, E>, unions: seq<UnionKind>, answers: seq<Answer<Row, E>>): Answer<Row, E>
    requires unions != []
  {
    if |unions| != |answers| - 1 then Err(UnsupportedShape)
    else if Mixed(unions) then Err(InvalidClauseComposition)
    else
      var all := Appended(view, answers);
      if all.Err? then all else Ok(Narrowed(view, unions[0], all.value))
  }

  function PlainAnswers<Row, E>(view: View<Row, E>, stages: seq<Stage<Row, E>>, parts: seq<seq<Clause>>,
                                unwind: Bytes -> Option<ReturnClause>): (answers: seq<Answer<Row, E>>)
    requires |stages| == |parts|
    ensures |answers| == |parts|
    ensures forall i | 0 <= i < |parts| :: answers[i] == PlainAnswer(view, stages[i], parts[i], unwind)
  {
    seq(|parts|, i requires 0 <= i < |parts| => PlainAnswer(view, stages[i], parts[i], unwind))
  }

  function MeantAnswers<Row, E>(view: View<Row, E>, stages: seq<Stage<Row, E>>, parts: seq<seq<Clause>>,
                                unwind: Bytes -> Option<ReturnClause>): (answers: seq<Answer<Row, E>>)
    requires |stages| == |parts|
    ensures |answers| == |parts|
    ensures forall i | 0 <= i < |parts| :: answers[i] == MeantAnswer(view, stages[i], parts[i], unwind)
  {
    seq(|parts|, i requires 0 <= i < |parts| => MeantAnswer(view, stages[i], parts[i], unwind))
  }

  method DistinctRows<Row, E>(view: View<Row, E>, rows: seq<Row>, columns: seq<Bytes>) returns (out: seq<Row>)
    ensures out == Firsts(rows, row => view.signature(row, columns))
  {
    ghost var sign := row => view.signature(row, columns);
    if |rows| < 2 {
      assert |rows| == 1 ==> rows[..0] == [] && rows == [rows[0]];
      return rows;
    }
    out := [];
    var seen: set<Bytes> := {};
    for i := 0 to |rows|
      invariant out == Firsts(rows[..i], sign)
      invariant forall x :: x in seen <==> Seen(rows[..i], sign, x)
    {
      var signature := view.signature(rows[i], columns);
      SeenMore(rows, sign, i);
      assert rows[..i + 1][..i] == rows[..i];
      if signature !in seen {
        seen := seen + {signature};
        out := out + [rows[i]];
      }
    }
    assert rows[..|rows|] == rows;
  }

  lemma SeenMore<T>(s: seq<T>, sign: T -> Bytes, n: nat)
    requires n < |s|
    ensures forall x :: Seen(s[..n + 1], sign, x) <==> Seen(s[..n], sign, x) || sign(s[n]) == x
  {
    var a, b := s[..n], s[..n + 1];
    assert b == a + [s[n]] && b[n] == s[n];
    forall x ensures Seen(b, sign, x) <==> Seen(a, sign, x) || sign(s[n]) == x {
      if i :| 0 <= i < |a| && sign(a[i]) == x {
        assert b[i] == a[i];
      }
      if i :| 0 <= i < |b| && sign(b[i]) == x {
        assert i < n ==> a[i] == b[i];
      }
    }
  }

  /**
   * A UNION: its parts run one by one, each from no rows and on the graph it finds; the rows are appended, and
   * UNION DISTINCT keeps the first of equal rows. It means the same of the rows that its parts mean, if in none of
   * them an expansion starts over.
   */
  method RunUnion<Row(!new), E>(parts: seq<seq<Clause>>, unions: seq<UnionKind>, stages: seq<Stage<Row, E>>,
                                unwind: Bytes -> Option<ReturnClause>, r: Reader, view: View<Row, E>,
                                ghost grounds: seq<Ground<Row>>)
    returns (result: Answer<Row, E>)
    requires unions != [] && |stages| == |grounds| == |parts|
    requires forall i | 0 <= i < |parts| :: Sound(stages[i], grounds[i], r, Steps(parts[i], unwind))
    ensures result == UnionOf(view, unions, PlainAnswers(view, stages, parts, unwind))
    ensures (forall i | 0 <= i < |parts| :: NoRestart(stages[i].meaning, Steps(parts[i], unwind), [])) ==>
              result == UnionOf(view, unions, MeantAnswers(view, stages, parts, unwind))
  {
    if forall i | 0 <= i < |parts| :: NoRestart(stages[i].meaning, Steps(parts[i], unwind), []) {
      PartsMean(view, stages, parts, unwind);
    }
    if |unions| != |parts| - 1 {
      return Err(UnsupportedShape);
    }
    if Mixed(unions) {
      return Err(InvalidClauseComposition);
    }
    result := RunParts(parts, stages, unwind, r, view, grounds);
    if result.Ok? && unions[0] == Distinct {
      var rows := DistinctRows(view, result.value.rows, result.value.columns);
      result := Ok(result.value.(rows := rows));
    }
  }

  lemma AppendedMore<Row, E>(view: View<Row, E>, answers: seq<Answer<Row, E>>, i: nat, so: Table<Row>)
    requires i < |answers| && Appended(view, answers[..i]) == Ok(so)
    ensures Appended(view, answers[..i + 1])
            == if answers[i].Err? then answers[i] else Extended(view, so, answers[i].value)
  {
    assert answers[..i + 1][..i] == answers[..i];
  }

  /** One part after the other, up to the first error. */
  method RunParts<Row(!new), E>(parts: seq<seq<Clause>>, stages: seq<Stage<Row, E>>,
                                unwind: Bytes -> Option<ReturnClause>, r: Reader, view: View<Row, E>,
                                ghost grounds: seq<Ground<Row>>)
    returns (result: Answer<Row, E>)
    requires |stages| == |grounds| == |parts|
    requires forall i | 0 <= i < |parts| :: Sound(stages[i], grounds[i], r, Steps(parts[i], unwind))
    ensures result == Appended(view, PlainAnswers(view, stages, parts, unwind))
  {
    ghost var answers := PlainAnswers(view, stages, parts, unwind);
    var so: Table<Row> := Table([], []);
    assert Appended(view, answers[..0]) == Ok(so);
    hide Sound, PlainAnswer, Extended, Appended, PlainAnswers;
    for i := 0 to |parts|
      invariant Appended(view, answers[..i]) == Ok(so)
    {
      AppendedMore(view, answers, i, so);
      var part := RunPart(parts[i], unwind, r, stages[i], view, grounds[i]);
      if part.Err? {
        ErrorEnds(view, answers, i + 1);
        return part;
      }
      var more := Extend(view, so, part.value);
      if more.Err? {
        ErrorEnds(view, answers, i + 1);
        return more;
      }
      so := more.value;
    }
    assert answers[..|parts|] == answers;
    return Ok(so);
  }

  method Extend<Row, E>(view: View<Row, E>, so: Table<Row>, part: Table<Row>) returns (more: Answer<Row, E>)
    ensures more == Extended(view, so, part)
  {
    var columns := part.columns;
    if |columns| == 0 {
      columns := view.infer(part.rows);
    }
    var all := so.columns;
    if |all| == 0 {
      all := columns;
    } else if !SameColumns(all, columns) {
      return Err(DifferentColumns);
    }
    return Ok(Table(all, so.rows + part.rows));
  }

  lemma {:induction false} ErrorEnds<Row, E>(view: View<Row, E>, answers: seq<Answer<Row, E>>, n: nat)
    requires n <= |answers| && Appended(view, answers[..n]).Err?
    ensures Appended(view, answers) == Appended(view, answers[..n])
    decreases |answers| - n
  {
    if n < |answers| {
      assert answers[..n + 1][..n] == answers[..n];
      ErrorEnds(view, answers, n + 1);
    } else {
      assert answers[..n] == answers;
    }
  }

  lemma PartsMean<Row(!new), E>(view: View<Row, E>, stages: seq<Stage<Row, E>>, parts: seq<seq<Clause>>,
                                unwind: Bytes -> Option<ReturnClause>)
    requires |stages| == |parts|
    requires forall i | 0 <= i < |parts| :: NoRestart(stages[i].meaning, Steps(parts[i], unwind), [])
    ensures PlainAnswers(view, stages, parts, unwind) == MeantAnswers(view, stages, parts, unwind)
  {
    forall i | 0 <= i < |parts|
      ensures PlainAnswer(view, stages[i], parts[i], unwind) == MeantAnswer(view, stages[i], parts[i], unwind)
    {
      PlainMeans(stages[i].meaning, Steps(parts[i], unwind), []);
    }
  }

  /** The answer of a statement: that of its only part, or the union. */
  function Whole<Row, E>(view: View<Row, E>, unions: seq<UnionKind>, answers: seq<Answer<Row, E>>): Answer<Row, E>
    requires answers != []
  {
    if unions == [] then answers[0] else UnionOf(view, unions, answers)
  }

  /** A statement as the parser gives it: one part more than unions. */
  method RunStatement<Row(!new), E>(parts: seq<seq<Clause>>, unions: seq<UnionKind>, stages: seq<Stage<Row, E>>,
                                    unwind: Bytes -> Option<ReturnClause>, r: Reader, view: View<Row, E>,
                                    ghost grounds: seq<Ground<Row>>)
    returns (result: Answer<Row, E>)
    requires |parts| == |unions| + 1 && |stages| == |grounds| == |parts|
    requires forall i | 0 <= i < |parts| :: Sound(stages[i], grounds[i], r, Steps(parts[i], unwind))
    ensures result == Whole(view, unions, PlainAnswers(view, stages, parts, unwind))
    ensures (forall i | 0 <= i < |parts| :: NoRestart(stages[i].meaning, Steps(parts[i], unwind), [])) ==>
              result == Whole(view, unions, MeantAnswers(view, stages, parts, unwind))
  {
    if |unions| > 0 {
      result := RunUnion(parts, unions, stages, unwind, r, view, grounds);
    } else {
      result := RunPart(parts[0], unwind, r, stages[0], view, grounds[0]);
      if NoRestart(stages[0].meaning, Steps(parts[0], unwind), []) {
        PlainMeans(stages[0].meaning, Steps(parts[0], unwind), []);
      }
    }
  }

  // ---------------------------------------------------------------- what a union is

  /** The rows of all parts in turn. */
  function AllRows<Row, E>(answers: seq<Answer<Row, E>>): seq<Row>
    requires forall a | a in answers :: a.Ok?
  {
    if answers == [] then []
    else
      assert answers[|answers| - 1] in answers;
      AllRows(answers[..|answers| - 1]) + answers[|answers| - 1].value.rows
  }

  /** No part fails, and all agree on the names of their columns. */
  ghost predicate Agree<Row, E>(view: View<Row, E>, answers: seq<Answer<Row, E>>) {
    && (forall a | a in answers :: a.Ok?)
    && forall i | 0 <= i < |answers| ::
         SameColumns(ColumnsOf(view, answers[0].value), ColumnsOf(view, answers[i].value))
  }

  /**
   * If every part has columns, the result has the rows of all parts in turn, under the columns of the first one,
   * exactly if no part fails and all agree on the columns.
   */
  lemma {:induction false} AppendsExactly<Row(!new), E>(view: View<Row, E>, answers: seq<Answer<Row, E>>)
    requires answers != [] && forall a | a in answers && a.Ok? :: ColumnsOf(view, a.value) != []
    ensures Appended(view, answers).Ok? <==> Agree(view, answers)
    ensures Agree(view, answers) ==>
              Appended(view, answers) == Ok(Table(ColumnsOf(view, answers[0].value), AllRows(answers)))
    decreases |answers|
  {
    hide ColumnsOf, SameColumns;
    var n := |answers| - 1;
    var before := answers[..n];
    assert answers == before + [answers[n]];
    if n > 0 {
      AppendsExactly(view, before);
      assert before[0] == answers[0];
    } else {
      AppendsOne(view, answers[0]);
      assert answers == [answers[0]];
    }
  }

  lemma AppendsOne<Row(!new), E>(view: View<Row, E>, a: Answer<Row, E>)
    ensures Appended(view, [a]).Ok? <==> a.Ok?
    ensures Agree(view, [a]) <==> a.Ok?
    ensures a.Ok? ==> Appended(view, [a]) == Ok(Table(ColumnsOf(view, a.value), AllRows([a])))
  {
    assert [a][..0] == [];
    assert Appended(view, [a][..0]) == Ok(Table([], []));
  }

  // ---------------------------------------------------------------- what is kept of equal rows

  /** Where a signature comes for the first time. */
  function FirstPlaces<T>(s: seq<T>, sign: T -> Bytes): (places: seq<nat>)
    ensures forall n | n in places :: n < |s|
  {
    if s == [] then []
    else
      var n := |s| - 1;
      FirstPlaces(s[..n], sign) + if Seen(s[..n], sign, sign(s[n])) then [] else [n]
  }

  /** One more element is in a first place exactly if its signature has not come before. */
  lemma OneMorePlace<T>(s: seq<T>, sign: T -> Bytes)
    requires s != []
    ensures var n := |s| - 1;
            forall k :: k in FirstPlaces(s, sign) <==>
                        k in FirstPlaces(s[..n], sign) || (k == n && !Seen(s[..n], sign, sign(s[n])))
  {
  }

  lemma {:induction false} PlacesIncrease<T>(s: seq<T>, sign: T -> Bytes)
    ensures forall i, j | 0 <= i < j < |FirstPlaces(s, sign)| :: FirstPlaces(s, sign)[i] < FirstPlaces(s, sign)[j]
    decreases |s|
  {
    if s != [] {
      var before := FirstPlaces(s[..|s| - 1], sign);
      PlacesIncrease(s[..|s| - 1], sign);
      assert forall i | 0 <= i < |before| :: before[i] in before;
    }
  }

  lemma {:induction false} PlacesExactly<T>(s: seq<T>, sign: T -> Bytes, k: nat)
    requires k < |s|
    ensures k in FirstPlaces(s, sign) <==> !Seen(s[..k], sign, sign(s[k]))
    decreases |s|
  {
    var n := |s| - 1;
    OneMorePlace(s, sign);
    if k < n {
      PlacesExactly(s[..n], sign, k);
      assert s[..n][..k] == s[..k];
    } else {
      assert k !in FirstPlaces(s[..n], sign);
    }
  }

  lemma {:induction false} FirstsAtPlaces<T>(s: seq<T>, sign: T -> Bytes)
    ensures |Firsts(s, sign)| == |FirstPlaces(s, sign)|
    ensures forall i | 0 <= i < |Firsts(s, sign)| ::
              FirstPlaces(s, sign)[i] in FirstPlaces(s, sign) && Firsts(s, sign)[i] == s[FirstPlaces(s, sign)[i]]
    decreases |s|
  {
    if s != [] {
      var n := |s| - 1;
      FirstsAtPlaces(s[..n], sign);
      assert forall i | 0 <= i < |FirstPlaces(s[..n], sign)| ::
               FirstPlaces(s[..n], sign)[i] in FirstPlaces(s[..n], sign);
    }
  }

  /** UNION DISTINCT keeps, in order, exactly the rows whose signature has not come before. */
  lemma FirstsExactly<T>(s: seq<T>, sign: T -> Bytes) returns (places: seq<nat>)
    ensures |places| == |Firsts(s, sign)| && forall i, j | 0 <= i < j < |places| :: places[i] < places[j]
    ensures forall i | 0 <= i < |places| :: places[i] < |s| && Firsts(s, sign)[i] == s[places[i]]
    ensures forall k: nat | k < |s| :: k in places <==> !Seen(s[..k], sign, sign(s[k]))
  {
    places := FirstPlaces(s, sign);
    PlacesIncrease(s, sign);
    forall k: nat | k < |s| ensures k in places <==> !Seen(s[..k], sign, sign(s[k])) {
      PlacesExactly(s, sign, k);
    }
    FirstsAtPlaces(s, sign);
  }

  // ---------------------------------------------------------------- parts are not run one behind the other

  /** MATCH (b) RETURN b, as operators. */
  function OnePart(project: Op): seq<Op> {
    [MatchOp([2], []), project]
  }

  lemma OnePartRuns(project: Op, start: seq<int>, row: int)
    requires project.ProjectOp? && (start == [row] || (start == [] && row == 0))
    ensures PerformAll(SmallMeaning(), PlainOps(OnePart(project)), start) == Ok([row + 1])
  {
    SmallExpandsFrom([2], row);
    SmallPerforms(MatchOp([2], []), start);
    SmallPerforms(project, [row + 1]);
    hide Expanded, SmallMeaning, PerformAll, Perform, Plain;
    TwoOps(SmallMeaning(), MatchOp([2], []), project, start);
    PerformOne(SmallMeaning(), Plain(project), [row + 1]);
  }

  /**
   * MATCH (a) RETURN a UNION ALL MATCH (b) RETURN b: each part answers with one row; the plan over all parts that
   * EXPLAIN shows, were it run, would start the second part from the row of the first.
   */
  lemma UnionIsNoChain(project: Op)
    requires project.ProjectOp?
    ensures PerformAll(SmallMeaning(), PlainOps(OnePart(project)), []) == Ok([1])
    ensures PerformAll(SmallMeaning(), PlainOps(OnePart(project) + OnePart(project)), []) == Ok([2])
  {
    hide *;
    OnePartRuns(project, [], 0);
    OnePartRuns(project, [1], 1);
    OneBehindTheOther(SmallMeaning(), OnePart(project), OnePart(project), [], [1]);
  }

  lemma OneBehindTheOther<Row(!new), E>(m: Meaning<Row, E>, a: seq<Op>, b: seq<Op>, rows: seq<Row>, mid: seq<Row>)
    requires PerformAll(m, PlainOps(a), rows) == Ok(mid)
    ensures PerformAll(m, PlainOps(a + b), rows) == PerformAll(m, PlainOps(b), mid)
  {
    assert PlainOps(a + b) == PlainOps(a) + PlainOps(b);
    PerformAppend(m, PlainOps(a), PlainOps(b), rows);
  }
}
