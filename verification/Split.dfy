/** The statement splitter: semicolons outside quotes and comments end a statement. */
module Split {
  import opened Text

  datatype Mode = Code | Single(escaped: bool) | Double(escaped: bool) | Backtick | LineComment | BlockComment

  /** What the scanner does at one byte: the mode behind it, how far it moves, and whether a statement ends here. */
  datatype Move = Move(mode: Mode, width: nat, cuts: bool)

  const NEWLINE: byte := 10
  const DOUBLE: byte := 34
  const SINGLE: byte := 39
  const STAR: byte := 42
  const SLASH: byte := 47
  const SEMICOLON: byte := 59
  const BACKSLASH: byte := 92
  const BACKTICK: byte := 96

  predicate At(s: Bytes, i: nat, b: byte) {
    i < |s| && s[i] == b
  }

  function InQuotes(b: byte, quote: byte, escaped: bool, again: bool -> Mode): Move {
    if escaped then Move(again(false), 1, false)
    else if b == BACKSLASH then Move(again(true), 1, false)
    else if b == quote then Move(Code, 1, false)
    else Move(again(false), 1, false)
  }

  function Step(s: Bytes, i: nat, mode: Mode): (move: Move)
    requires i < |s|
    ensures 1 <= move.width && i + move.width <= |s|
    ensures move.cuts ==> s[i] == SEMICOLON && mode == move.mode == Code && move.width == 1
  {
    match mode
    case LineComment => Move(if s[i] == NEWLINE then Code else LineComment, 1, false)
    case BlockComment =>
      if s[i] == STAR && At(s, i + 1, SLASH) then Move(Code, 2, false) else Move(BlockComment, 1, false)
    case Single(escaped) => InQuotes(s[i], SINGLE, escaped, e => Single(e))
    case Double(escaped) => InQuotes(s[i], DOUBLE, escaped, e => Double(e))
    case Backtick =>
      if s[i] != BACKTICK then Move(Backtick, 1, false)
      else if At(s, i + 1, BACKTICK) then Move(Backtick, 2, false)
      else Move(Code, 1, false)
    case Code =>
      if s[i] == SLASH && At(s, i + 1, SLASH) then Move(LineComment, 2, false)
      else if s[i] == SLASH && At(s, i + 1, STAR) then Move(BlockComment, 2, false)
      else if s[i] == SINGLE then Move(Single(false), 1, false)
      else if s[i] == DOUBLE then Move(Double(false), 1, false)
      else if s[i] == BACKTICK then Move(Backtick, 1, false)
      else Move(Code, 1, s[i] == SEMICOLON)
  }

  /** Where the statement that the scanner is in ends: at the next cut or at the end of the text. */
  function NextCut(s: Bytes, i: nat, mode: Mode): (e: nat)
    requires i <= |s|
    ensures i <= e <= |s| && (e < |s| ==> s[e] == SEMICOLON)
    decreases |s| - i
  {
    if i == |s| then i
    else
      var move := Step(s, i, mode);
      if move.cuts then i else NextCut(s, i + move.width, move.mode)
  }

  /** The mode in which the scanner reaches the end of the text. */
  function EndMode(s: Bytes, i: nat, mode: Mode): Mode
    requires i <= |s|
    decreases |s| - i
  {
    if i == |s| then mode
    else
      var move := Step(s, i, mode);
      EndMode(s, i + move.width, move.mode)
  }

  /** No quote or comment is left open. */
  predicate Closed(s: Bytes) {
    EndMode(s, 0, Code) == Code
  }

  datatype Piece = Piece(text: Bytes, start: nat)

  datatype Segment = Segment(text: Bytes, start: nat, index: nat)

  /** Where the statements from start on end: the cuts, and the end of the text. */
  function Ends(s: Bytes, start: nat): (es: seq<nat>)
    requires start <= |s|
    ensures es != []
    decreases |s| - start
  {
    var e := NextCut(s, start, Code);
    if e < |s| then [e] + Ends(s, e + 1) else [e]
  }

  lemma {:induction false} EndsWithin(s: Bytes, start: nat)
    requires start <= |s|
    ensures var es := Ends(s, start);
            && es[|es| - 1] == |s|
            && (forall i | 0 <= i < |es| :: start <= es[i] <= |s|)
            && (forall i, j | 0 <= i < j < |es| :: es[i] < es[j])
    decreases |s| - start
  {
    var e := NextCut(s, start, Code);
    if e < |s| {
      EndsWithin(s, e + 1);
    }
  }

  /** Cuts the text at the given ends; each piece begins behind the end of the one before. */
  function CutAt(s: Bytes, es: seq<nat>, start: nat): (ps: seq<Piece>)
    ensures |ps| == |es|
  {
    if es == [] then [] else [Piece(Slice(s, start, es[0]), start)] + CutAt(s, es[1..], es[0] + 1)
  }

  function Slice(s: Bytes, lo: nat, hi: nat): Bytes {
    if lo <= hi <= |s| then s[lo..hi] else []
  }

  /** Everything between the cuts. */
  function Pieces(s: Bytes, start: nat): seq<Piece>
    requires start <= |s|
  {
    CutAt(s, Ends(s, start), start)
  }

  /** The piece that begins at start, and the pieces behind it. */
  lemma PiecesFrom(s: Bytes, start: nat, e: nat)
    requires start <= |s| && e == NextCut(s, start, Code)
    ensures Pieces(s, start) == [Piece(s[start..e], start)] + if e < |s| then Pieces(s, e + 1) else []
  {
    hide NextCut;
    var es := Ends(s, start);
    assert es[1..] == if e < |s| then Ends(s, e + 1) else [];
  }

  /** Pieces with something in them, numbered from first. */
  function Numbered(ps: seq<Piece>, first: nat): seq<Segment> {
    if ps == [] then []
    else if Blank(ps[0].text) then Numbered(ps[1..], first)
    else [Segment(ps[0].text, ps[0].start, first)] + Numbered(ps[1..], first + 1)
  }

  function Segments(s: Bytes): seq<Segment> {
    Numbered(Pieces(s, 0), 1)
  }

  // ---------------------------------------------------------------- the scanner

  /** The segments of the text from start on, numbered from first. */
  ghost function SegmentsFrom(s: Bytes, start: nat, first: nat): seq<Segment>
    requires start <= |s| + 1
  {
    if start <= |s| then Numbered(Pieces(s, start), first) else []
  }

  method SplitStatements(input: Bytes) returns (segments: seq<Segment>)
    ensures segments == Segments(input)
  {
    hide Step, Numbered, Ends, CutAt;
    segments := [];
    var start: nat, segmentIndex: nat := 0, 1;
    var mode := Code;
    var i: nat := 0;
    ghost var all := SegmentsFrom(input, 0, 1);
    while i < |input|
      invariant start <= i <= |input|
      invariant NextCut(input, start, Code) == NextCut(input, i, mode)
      invariant all == segments + SegmentsFrom(input, start, segmentIndex)
    {
      hide SegmentsFrom;
      var move := Step(input, i, mode);
      if move.cuts {
        segments, segmentIndex := AppendChunk(input, segments, segmentIndex, start, i, all);
        start := i + 1;
      }
      i := i + move.width;
      mode := move.mode;
    }
    segments, segmentIndex := AppendChunk(input, segments, segmentIndex, start, |input|, all);
  }

  /** A chunk becomes a segment unless it is blank. */
  method AppendChunk(input: Bytes, before: seq<Segment>, first: nat, start: nat, end: nat, ghost all: seq<Segment>)
    returns (segments: seq<Segment>, index: nat)
    requires start <= |input| && NextCut(input, start, Code) == end
    requires all == before + SegmentsFrom(input, start, first)
    ensures all == segments + SegmentsFrom(input, end + 1, index)
  {
    var chunk := input[start..end];
    PiecesFrom(input, start, end);
    ghost var rest := if end < |input| then Pieces(input, end + 1) else [];
    NumberedMore(Piece(chunk, start), rest, first);
    segments, index := before, first;
    if !Blank(chunk) {
      segments := segments + [Segment(chunk, start, index)];
      index := index + 1;
    }
  }

  // ---------------------------------------------------------------- nothing is lost

  function Joined(ps: seq<Piece>): Bytes
    requires ps != []
  {
    if |ps| == 1 then ps[0].text else ps[0].text + [SEMICOLON] + Joined(ps[1..])
  }

  /** The pieces joined with semicolons are the text again, so what is outside the segments is blank or a semicolon. */
  lemma {:induction false} PiecesCover(s: Bytes, start: nat)
    requires start <= |s|
    ensures Pieces(s, start) != [] && Joined(Pieces(s, start)) == s[start..]
    decreases |s| - start
  {
    hide NextCut, Ends;
    var e := NextCut(s, start, Code);
    PiecesFrom(s, start, e);
    if e < |s| {
      PiecesCover(s, e + 1);
      AroundCut(s, start, e);
    } else {
      assert s[start..e] == s[start..];
    }
  }

  lemma AroundCut(s: Bytes, start: nat, e: nat)
    requires start <= e < |s| && s[e] == SEMICOLON
    ensures s[start..] == s[start..e] + [SEMICOLON] + s[e + 1..]
  {
  }

  /** Each segment is a piece that is not blank, and the numbers have no gaps. */
  lemma {:induction false} NumberedHolds(ps: seq<Piece>, first: nat, i: nat)
    requires i < |Numbered(ps, first)|
    ensures var x := Numbered(ps, first)[i]; Piece(x.text, x.start) in ps && !Blank(x.text) && x.index == first + i
    decreases |ps|
  {
    if Blank(ps[0].text) {
      NumberedHolds(ps[1..], first, i);
    } else if i > 0 {
      NumberedHolds(ps[1..], first + 1, i - 1);
    }
  }

  /** Each piece that is not blank is a segment. */
  lemma {:induction false} NumberedKeeps(ps: seq<Piece>, first: nat, k: nat) returns (i: nat)
    requires k < |ps| && !Blank(ps[k].text)
    ensures i < |Numbered(ps, first)| && i <= k
    ensures Numbered(ps, first)[i].text == ps[k].text && Numbered(ps, first)[i].start == ps[k].start
    decreases |ps|
  {
    if Blank(ps[0].text) {
      i := NumberedKeeps(ps[1..], first, k - 1);
    } else if k == 0 {
      i := 0;
    } else {
      i := NumberedKeeps(ps[1..], first + 1, k - 1);
      i := i + 1;
    }
  }

  // ---------------------------------------------------------------- splitting a segment again

  /** Cutting the text off at a cut does not change how the scanner moves before it. */
  lemma StepBefore(s: Bytes, lo: nat, hi: nat, i: nat, mode: Mode)
    requires lo <= i < hi <= |s| && (hi < |s| ==> s[hi] == SEMICOLON)
    ensures Step(s[lo..hi], i - lo, mode) == Step(s, i, mode)
  {
  }

  lemma {:induction false} NextCutWithin(s: Bytes, lo: nat, i: nat, mode: Mode)
    requires lo <= i <= |s|
    ensures var e := NextCut(s, i, mode); NextCut(s[lo..e], i - lo, mode) == e - lo
    decreases |s| - i
  {
    hide Step;
    var e := NextCut(s, i, mode);
    if i < e {
      StepBefore(s, lo, e, i, mode);
      var move := Step(s, i, mode);
      NextCutWithin(s, lo, i + move.width, move.mode);
    }
  }

  lemma {:induction false} PieceIsWhole(s: Bytes, start: nat, i: nat)
    requires start <= |s| && i < |Pieces(s, start)|
    ensures NextCut(Pieces(s, start)[i].text, 0, Code) == |Pieces(s, start)[i].text|
    decreases |s| - start
  {
    hide Step, NextCut;
    var e := NextCut(s, start, Code);
    PiecesFrom(s, start, e);
    if i == 0 {
      NextCutWithin(s, start, start, Code);
    } else {
      PieceIsWhole(s, e + 1, i - 1);
    }
  }

  /** Splitting the text of a segment gives that one segment. */
  lemma SplitAgain(s: Bytes, i: nat)
    requires i < |Segments(s)|
    ensures Segments(Segments(s)[i].text) == [Segment(Segments(s)[i].text, 0, 1)]
  {
    var x := Segments(s)[i];
    NumberedHolds(Pieces(s, 0), 1, i);
    var k :| 0 <= k < |Pieces(s, 0)| && Pieces(s, 0)[k] == Piece(x.text, x.start);
    PieceIsWhole(s, 0, k);
    PieceAlone(x.text);
  }

  lemma PieceAlone(t: Bytes)
    requires NextCut(t, 0, Code) == |t| && !Blank(t)
    ensures Segments(t) == [Segment(t, 0, 1)]
  {
    PiecesFrom(t, 0, |t|);
    var ps := Pieces(t, 0);
    assert ps[1..] == [] && Numbered(ps[1..], 2) == [];
    assert t[0..|t|] == t;
  }

  // ---------------------------------------------------------------- homomorphism

  function Shift(ps: seq<Piece>, k: nat): seq<Piece> {
    if ps == [] then [] else [Piece(ps[0].text, ps[0].start + k)] + Shift(ps[1..], k)
  }

  function Moved(xs: seq<Segment>, k: nat, count: nat): seq<Segment> {
    if xs == [] then [] else [Segment(xs[0].text, xs[0].start + k, xs[0].index + count)] + Moved(xs[1..], k, count)
  }

  function With(a: Bytes, b: Bytes): Bytes {
    a + [SEMICOLON] + b
  }

  lemma StepPrefix(a: Bytes, b: Bytes, i: nat, mode: Mode)
    requires i < |a|
    ensures Step(With(a, b), i, mode) == Step(a, i, mode)
  {
    assert With(a, b)[0..|a|] == a;
    StepBefore(With(a, b), 0, |a|, i, mode);
  }

  /** At the semicolon between a and b the scanner cuts exactly in code, and moves on by one byte otherwise. */
  lemma StepBetween(a: Bytes, b: Bytes, mode: Mode)
    ensures var move := Step(With(a, b), |a|, mode);
            move.width == 1 && (move.cuts <==> mode == Code) && (mode == Code ==> move.mode == Code)
  {
    assert With(a, b)[|a|] == SEMICOLON;
  }

  /** Inside a, the cuts of a;b are those of a. */
  lemma {:induction false} NextCutPrefix(a: Bytes, b: Bytes, i: nat, mode: Mode)
    requires i <= |a| && NextCut(a, i, mode) < |a|
    ensures NextCut(With(a, b), i, mode) == NextCut(a, i, mode)
    ensures EndMode(a, i, mode) == EndMode(a, NextCut(a, i, mode) + 1, Code)
    decreases |a| - i
  {
    hide Step;
    StepPrefix(a, b, i, mode);
    var move := Step(a, i, mode);
    if !move.cuts {
      NextCutPrefix(a, b, i + move.width, move.mode);
    }
  }

  /** The semicolon between a and b is a cut exactly if a is closed. */
  lemma {:induction false} NextCutBetween(a: Bytes, b: Bytes, i: nat, mode: Mode)
    requires i <= |a| && NextCut(a, i, mode) == |a|
    ensures NextCut(With(a, b), i, mode) == |a| <==> EndMode(a, i, mode) == Code
    decreases |a| - i
  {
    hide Step;
    if i < |a| {
      StepPrefix(a, b, i, mode);
      var move := Step(a, i, mode);
      NextCutBetween(a, b, i + move.width, move.mode);
    } else {
      StepBetween(a, b, mode);
    }
  }

  lemma {:induction false} EndsPrefix(a: Bytes, b: Bytes, start: nat)
    requires start <= |a| && EndMode(a, start, Code) == Code
    ensures Ends(With(a, b), start) == Ends(a, start) + Ends(With(a, b), |a| + 1)
    decreases |a| - start
  {
    hide Step;
    var e := NextCut(a, start, Code);
    if e < |a| {
      NextCutPrefix(a, b, start, Code);
      EndsPrefix(a, b, e + 1);
    } else {
      NextCutBetween(a, b, start, Code);
    }
  }

  lemma {:induction false} NextCutSuffix(t: Bytes, k: nat, i: nat, mode: Mode)
    requires k + i <= |t|
    ensures NextCut(t, k + i, mode) == k + NextCut(t[k..], i, mode)
    decreases |t| - i
  {
    hide Step;
    if k + i < |t| {
      assert t[k..|t|] == t[k..];
      StepBefore(t, k, |t|, k + i, mode);
      var move := Step(t[k..], i, mode);
      if !move.cuts {
        NextCutSuffix(t, k, i + move.width, move.mode);
      }
    }
  }

  function Up(es: seq<nat>, k: nat): seq<nat> {
    if es == [] then [] else [es[0] + k] + Up(es[1..], k)
  }

  lemma {:induction false} EndsSuffix(t: Bytes, k: nat, start: nat)
    requires k + start <= |t|
    ensures Ends(t, k + start) == Up(Ends(t[k..], start), k)
    decreases |t| - start
  {
    hide Step;
    var e := NextCut(t[k..], start, Code);
    NextCutSuffix(t, k, start, Code);
    if k + e < |t| {
      EndsSuffix(t, k, e + 1);
      assert Ends(t, k + start) == [k + e] + Ends(t, k + (e + 1));
    }
  }

  lemma {:induction false} CutAppend(s: Bytes, es: seq<nat>, fs: seq<nat>, start: nat)
    requires es != []
    ensures CutAt(s, es + fs, start) == CutAt(s, es, start) + CutAt(s, fs, es[|es| - 1] + 1)
    decreases |es|
  {
    if |es| == 1 {
      assert (es + fs)[1..] == fs && es[1..] == [];
    } else {
      assert (es + fs)[1..] == es[1..] + fs;
      CutAppend(s, es[1..], fs, es[0] + 1);
    }
  }

  lemma {:induction false} CutPrefix(a: Bytes, b: Bytes, es: seq<nat>, start: nat)
    requires forall i | 0 <= i < |es| :: es[i] <= |a|
    ensures CutAt(With(a, b), es, start) == CutAt(a, es, start)
    decreases |es|
  {
    if es != [] {
      assert es[0] <= |a|;
      SlicePrefix(a, b, start, es[0]);
      CutPrefix(a, b, es[1..], es[0] + 1);
    }
  }

  lemma SlicePrefix(a: Bytes, b: Bytes, lo: nat, hi: nat)
    requires hi <= |a|
    ensures Slice(With(a, b), lo, hi) == Slice(a, lo, hi)
  {
    if lo <= hi {
      assert With(a, b)[lo..hi] == a[lo..hi];
    }
  }

  lemma {:induction false} CutSuffix(t: Bytes, k: nat, es: seq<nat>, start: nat)
    requires k <= |t|
    ensures CutAt(t, Up(es, k), start + k) == Shift(CutAt(t[k..], es, start), k)
    decreases |es|
  {
    hide Slice;
    if es != [] {
      SliceSuffix(t, k, start, es[0]);
      CutSuffix(t, k, es[1..], es[0] + 1);
      assert Up(es, k)[1..] == Up(es[1..], k);
      assert CutAt(t[k..], es, start)[1..] == CutAt(t[k..], es[1..], es[0] + 1);
    }
  }

  lemma SliceSuffix(t: Bytes, k: nat, lo: nat, hi: nat)
    requires k <= |t|
    ensures Slice(t, lo + k, hi + k) == Slice(t[k..], lo, hi)
  {
    if lo <= hi && hi + k <= |t| {
      assert t[lo + k..hi + k] == t[k..][lo..hi];
    }
  }

  lemma PiecesSideBySide(a: Bytes, b: Bytes)
    requires Closed(a)
    ensures Pieces(With(a, b), 0) == Pieces(a, 0) + Shift(Pieces(b, 0), |a| + 1)
  {
    hide CutAt, Ends, Shift, Up;
    var t, k := With(a, b), |a| + 1;
    assert t[k..] == b;
    EndsPrefix(a, b, 0);
    EndsSuffix(t, k, 0);
    EndsWithin(a, 0);
    CutAppend(t, Ends(a, 0), Ends(t, k), 0);
    CutPrefix(a, b, Ends(a, 0), 0);
    CutSuffix(t, k, Ends(b, 0), 0);
  }

  lemma {:induction false} NumberedAppend(ps: seq<Piece>, qs: seq<Piece>, first: nat)
    ensures Numbered(ps + qs, first) == Numbered(ps, first) + Numbered(qs, first + |Numbered(ps, first)|)
    decreases |ps|
  {
    if ps == [] {
      assert ps + qs == qs;
    } else {
      assert (ps + qs)[1..] == ps[1..] + qs;
      NumberedAppend(ps[1..], qs, if Blank(ps[0].text) then first else first + 1);
    }
  }

  lemma NumberedMore(p: Piece, ps: seq<Piece>, first: nat)
    ensures Numbered([p] + ps, first) ==
            if Blank(p.text) then Numbered(ps, first)
            else [Segment(p.text, p.start, first)] + Numbered(ps, first + 1)
  {
    assert ([p] + ps)[1..] == ps;
  }

  lemma {:induction false} NumberedMoves(ps: seq<Piece>, k: nat, first: nat, count: nat)
    ensures Numbered(Shift(ps, k), first + count) == Moved(Numbered(ps, first), k, count)
    decreases |ps|
  {
    if ps != [] {
      hide Numbered, Moved;
      var p, rest := ps[0], ps[1..];
      assert ps == [p] + rest;
      NumberedMore(p, rest, first);
      NumberedMore(Piece(p.text, p.start + k), Shift(rest, k), first + count);
      if Blank(p.text) {
        NumberedMoves(rest, k, first, count);
      } else {
        NumberedMoves(rest, k, first + 1, count);
      }
    }
  }

  /** What splitting a;b should give: the segments of a, then those of b behind them. */
  function SideBySide(a: Bytes, b: Bytes): seq<Segment> {
    Segments(a) + Moved(Segments(b), |a| + 1, |Segments(a)|)
  }

  lemma ClosedSplits(a: Bytes, b: Bytes)
    requires Closed(a)
    ensures Segments(With(a, b)) == SideBySide(a, b)
  {
    PiecesSideBySide(a, b);
    NumberedAppend(Pieces(a, 0), Shift(Pieces(b, 0), |a| + 1), 1);
    NumberedMoves(Pieces(b, 0), |a| + 1, 1, |Segments(a)|);
  }

  /** If a is left open, the semicolon behind it belongs to its last statement. */
  lemma {:induction false} OpenReaches(a: Bytes, start: nat) returns (k: nat)
    requires start <= |a| && EndMode(a, start, Code) != Code
    ensures k < |Pieces(With(a, []), start)|
    ensures var p := Pieces(With(a, []), start)[k];
            p.start <= |a| && p.text == With(a, [])[p.start..]
    decreases |a| - start
  {
    hide Step, NextCut;
    var t, e := With(a, []), NextCut(a, start, Code);
    if e < |a| {
      NextCutPrefix(a, [], start, Code);
      PiecesFrom(t, start, e);
      k := OpenReaches(a, e + 1);
      k := k + 1;
    } else {
      NextCutBetween(a, [], start, Code);
      NextCutBeyond(a, start, Code);
      PiecesFrom(t, start, |a| + 1);
      assert t[start..|a| + 1] == t[start..];
      k := 0;
    }
  }

  lemma {:induction false} NextCutBeyond(a: Bytes, i: nat, mode: Mode)
    requires i <= |a| && NextCut(With(a, []), i, mode) != |a| && NextCut(a, i, mode) == |a|
    ensures NextCut(With(a, []), i, mode) == |a| + 1
    decreases |a| - i
  {
    hide Step;
    if i < |a| {
      StepPrefix(a, [], i, mode);
      var move := Step(a, i, mode);
      NextCutBeyond(a, i + move.width, move.mode);
    } else {
      StepBetween(a, [], mode);
    }
  }

  /** A text that ends in a semicolon is not blank. */
  lemma SemicolonNotBlank(s: Bytes)
    ensures !Blank(s + [SEMICOLON])
  {
    TrimLeftStops(s);
    var t := TrimLeft(s + [SEMICOLON]);
    assert SpaceTail(t) == 0;
  }

  lemma {:induction false} TrimLeftStops(s: Bytes)
    ensures var t := TrimLeft(s + [SEMICOLON]); t != [] && t[|t| - 1] == SEMICOLON
    decreases |s|
  {
    var t := s + [SEMICOLON];
    var n := SpaceHead(t);
    if n > 0 {
      assert t[n - 1] != SEMICOLON;
      assert t[n..] == s[n..] + [SEMICOLON];
      TrimLeftStops(s[n..]);
    }
  }

  ghost predicate SplitsSideBySide(a: Bytes, b: Bytes) {
    Segments(With(a, b)) == SideBySide(a, b)
  }

  lemma {:induction false} PiecesWithin(s: Bytes, start: nat, i: nat)
    requires start <= |s| && i < |Pieces(s, start)|
    ensures Pieces(s, start)[i].start + |Pieces(s, start)[i].text| <= |s|
    decreases |s| - start
  {
    hide NextCut;
    var e := NextCut(s, start, Code);
    PiecesFrom(s, start, e);
    if i > 0 {
      PiecesWithin(s, e + 1, i - 1);
    }
  }

  /** No segment of a reaches beyond a. */
  lemma SegmentsWithin(a: Bytes, i: nat)
    requires i < |Segments(a)|
    ensures Segments(a)[i].start + |Segments(a)[i].text| <= |a|
  {
    NumberedHolds(Pieces(a, 0), 1, i);
    var x := Segments(a)[i];
    var k :| 0 <= k < |Pieces(a, 0)| && Pieces(a, 0)[k] == Piece(x.text, x.start);
    PiecesWithin(a, 0, k);
  }

  lemma NothingSplits()
    ensures Segments([]) == []
  {
    PiecesFrom([], 0, 0);
    assert Pieces([], 0)[1..] == [];
  }

  lemma OpenDoesNot(a: Bytes)
    requires !Closed(a)
    ensures !SplitsSideBySide(a, [])
  {
    hide Ends, CutAt;
    var t := With(a, []);
    var k := OpenReaches(a, 0);
    var p := Pieces(t, 0)[k];
    SemicolonNotBlank(a[p.start..]);
    assert p.text == a[p.start..] + [SEMICOLON];
    var i := NumberedKeeps(Pieces(t, 0), 1, k);
    NothingSplits();
    assert SideBySide(a, []) == Segments(a);
    assert Segments(t)[i].start + |Segments(t)[i].text| == |a| + 1;
    if i < |Segments(a)| {
      SegmentsWithin(a, i);
    }
  }

  /** Splitting respects a;b for every b exactly if a leaves no quote or comment open. */
  lemma HomomorphicExactly(a: Bytes)
    ensures (forall b :: SplitsSideBySide(a, b)) <==> Closed(a)
  {
    if Closed(a) {
      forall b ensures SplitsSideBySide(a, b) {
        ClosedSplits(a, b);
      }
    } else {
      OpenDoesNot(a);
    }
  }

  // ---------------------------------------------------------------- what a cut is

  /** A semicolon ends a statement exactly if the text before it is closed. */
  lemma CutsExactly(s: Bytes, i: nat)
    requires i < |s|
    ensures i in Ends(s, 0) <==> s[i] == SEMICOLON && Closed(s[..i])
  {
    if i in Ends(s, 0) {
      EndIsClosed(s, 0, i);
    }
    if s[i] == SEMICOLON && Closed(s[..i]) {
      ClosedEnds(s, i);
    }
  }

  lemma ClosedEnds(s: Bytes, i: nat)
    requires i < |s| && s[i] == SEMICOLON && Closed(s[..i])
    ensures i in Ends(s, 0)
  {
    hide NextCut, EndMode;
    assert s == With(s[..i], s[i + 1..]);
    EndsPrefix(s[..i], s[i + 1..], 0);
    EndsWithin(s[..i], 0);
  }

  lemma {:induction false} EndIsClosed(s: Bytes, start: nat, i: nat)
    requires start <= |s| && i in Ends(s, start) && i < |s|
    ensures start <= i && s[i] == SEMICOLON && EndMode(s[..i], start, Code) == Code
    decreases |s| - start
  {
    hide Step;
    var e := NextCut(s, start, Code);
    EndsInCode(s, start, Code);
    if i != e {
      EndIsClosed(s, e + 1, i);
      EndModeAcross(s, e, i, start);
    }
  }

  lemma EndModeAcross(s: Bytes, e: nat, i: nat, start: nat)
    requires start <= e < i <= |s| && s[e] == SEMICOLON && EndMode(s[..e], start, Code) == Code
    ensures EndMode(s[..i], start, Code) == EndMode(s[..i], e + 1, Code)
  {
    assert s[..i] == With(s[..e], s[e + 1..i]);
    EndModePrefix(s[..e], s[e + 1..i], start, Code);
  }

  lemma {:induction false} EndsInCode(s: Bytes, i: nat, mode: Mode)
    requires i <= |s| && NextCut(s, i, mode) < |s|
    ensures EndMode(s[..NextCut(s, i, mode)], i, mode) == Code
    decreases |s| - i
  {
    hide Step;
    var e := NextCut(s, i, mode);
    if i < e {
      StepBefore(s, 0, e, i, mode);
      assert s[0..e] == s[..e];
      var move := Step(s, i, mode);
      EndsInCode(s, i + move.width, move.mode);
    }
  }

  lemma {:induction false} EndModePrefix(a: Bytes, b: Bytes, i: nat, mode: Mode)
    requires i <= |a| && EndMode(a, i, mode) == Code
    ensures EndMode(With(a, b), i, mode) == EndMode(With(a, b), |a| + 1, Code)
    decreases |a| - i
  {
    hide Step;
    if i < |a| {
      StepPrefix(a, b, i, mode);
      var move := Step(a, i, mode);
      EndModePrefix(a, b, i + move.width, move.mode);
    } else {
      StepBetween(a, b, mode);
    }
  }
}
