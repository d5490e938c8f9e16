/** Line and column of a byte, within a segment and within the whole text, also behind EXPLAIN and PROFILE. */
module Positions {
  import opened Wrappers
  import opened Text
  import opened Split

  /** Lines and columns count from 1. */
  datatype Position = Position(line: nat, column: nat)

  function Advance(p: Position, b: byte): Position {
    if b == NEWLINE then Position(p.line + 1, 1) else Position(p.line, p.column + 1)
  }

  /** The position of byte k, or of the end of the text if there is no such byte. */
  function PositionAt(s: Bytes, k: nat): (p: Position)
    ensures p.line >= 1 && p.column >= 1
  {
    var n := if k > |s| then |s| else k;
    if n == 0 then Position(1, 1) else Advance(PositionAt(s, n - 1), s[n - 1])
  }

  method LineColAtOffset(input: Bytes, offset: int) returns (line: nat, column: nat)
    ensures Position(line, column) == PositionAt(input, if offset < 0 then 0 else offset)
  {
    line, column := 1, 1;
    if offset <= 0 {
      return;
    }
    var end := if offset > |input| then |input| else offset;
    for i := 0 to end
      invariant Position(line, column) == PositionAt(input, i)
    {
      if input[i] == NEWLINE {
        line := line + 1;
        column := 1;
        continue;
      }
      column := column + 1;
    }
  }

  function Newlines(s: Bytes): nat {
    if s == [] then 0 else Newlines(s[..|s| - 1]) + if s[|s| - 1] == NEWLINE then 1 else 0
  }

  /** The line counts the newlines before the byte, the column the bytes since the last one. */
  lemma {:induction false} PositionMeans(s: Bytes, k: nat)
    requires k <= |s|
    ensures var p := PositionAt(s, k);
            && p.line == 1 + Newlines(s[..k]) && p.column <= k + 1
            && NEWLINE !in s[k - (p.column - 1)..k]
            && (p.column <= k ==> s[k - p.column] == NEWLINE)
    decreases k
  {
    if k > 0 {
      PositionMeans(s, k - 1);
      assert s[..k][..k - 1] == s[..k - 1];
      var p := PositionAt(s, k - 1);
      if s[k - 1] != NEWLINE {
        assert s[k - 1 - (p.column - 1)..k] == s[k - 1 - (p.column - 1)..k - 1] + [s[k - 1]];
      }
    }
  }

  /** The end of one text and a position in another give the position in both together. */
  function Behind(base: Position, local: Position): Position {
    if local.line <= 1 then Position(base.line, base.column + (if local.column > 0 then local.column - 1 else 0))
    else Position(base.line + local.line - 1, local.column)
  }

  method LocalToGlobal(start: nat, full: Bytes, localLine: nat, localColumnZeroBased: nat)
    returns (line: nat, column: nat)
    ensures Position(line, column) == Behind(PositionAt(full, start), Position(localLine, localColumnZeroBased + 1))
  {
    var baseLine, baseCol := LineColAtOffset(full, start);
    if localLine <= 1 {
      return baseLine, baseCol + localColumnZeroBased;
    }
    return baseLine + localLine - 1, localColumnZeroBased + 1;
  }

  ghost predicate CutFrom(text: Bytes, start: nat, full: Bytes) {
    start + |text| <= |full| && full[start..start + |text|] == text
  }

  /** A local position, moved behind the segment's start, is the position in the full text. */
  lemma {:induction false} PositionsAgree(text: Bytes, start: nat, full: Bytes, k: nat)
    requires CutFrom(text, start, full) && k <= |text|
    ensures Behind(PositionAt(full, start), PositionAt(text, k)) == PositionAt(full, start + k)
    decreases k
  {
    if k > 0 {
      PositionsAgree(text, start, full, k - 1);
      assert full[start..start + |text|][k - 1] == full[start + (k - 1)];
    }
  }

  // ---------------------------------------------------------------- EXPLAIN and PROFILE

  /** unicode.IsLetter and unicode.IsDigit of the byte taken as a rune, or an underscore. */
  predicate IsWordByte(b: byte) {
    || 48 <= b <= 57 || 65 <= b <= 90 || 97 <= b <= 122 || b == 95
    || b == 0xAA || b == 0xB5 || b == 0xBA || (b >= 0xC0 && b != 0xD7 && b != 0xF7)
  }

  const EXPLAIN: Bytes := [69, 88, 80, 76, 65, 73, 78]
  const PROFILE: Bytes := [80, 82, 79, 70, 73, 76, 69]

  function SpacesEnd(s: Bytes, i: nat): (e: nat)
    requires i <= |s|
    ensures i <= e <= |s|
    decreases |s| - i
  {
    if i < |s| && IsLatinSpace(s[i]) then SpacesEnd(s, i + 1) else i
  }

  /** Where the statement behind the keyword begins, if the text begins with the keyword. */
  function PrefixEnd(raw: Bytes, keyword: Bytes): (end: Option<nat>)
    requires keyword != []
    ensures end.Some? ==> 0 < end.value <= |raw|
  {
    var start := SpacesEnd(raw, 0);
    var end := start + |keyword|;
    if end > |raw| || !SameLetters(raw[start..end], keyword) || (end < |raw| && IsWordByte(raw[end])) then None
    else Some(SpacesEnd(raw, end))
  }

  method SplitStatementPrefix(raw: Bytes, keyword: Bytes) returns (inner: Bytes, offset: nat, ok: bool)
    requires keyword != []
    ensures ok == PrefixEnd(raw, keyword).Some?
    ensures ok ==> offset == PrefixEnd(raw, keyword).value && inner == raw[offset..]
  {
    var start: nat := 0;
    while start < |raw| && IsLatinSpace(raw[start])
      invariant start <= |raw| && SpacesEnd(raw, start) == SpacesEnd(raw, 0)
    {
      start := start + 1;
    }
    if start + |keyword| > |raw| {
      return [], 0, false;
    }
    if !SameLetters(raw[start..start + |keyword|], keyword) {
      return [], 0, false;
    }
    var end: nat := start + |keyword|;
    if end < |raw| && IsWordByte(raw[end]) {
      return [], 0, false;
    }
    while end < |raw| && IsLatinSpace(raw[end])
      invariant end <= |raw| && SpacesEnd(raw, end) == SpacesEnd(raw, start + |keyword|)
    {
      end := end + 1;
    }
    return raw[end..], end, true;
  }

  datatype Wrapper = Explained | Profiled

  /** The wrappers around a statement, outermost first, and the statement's own segment; or the wrapper without one. */
  datatype Unwrapped = Bare(wrappers: seq<Wrapper>, inner: Segment) | Missing(wrapper: Wrapper, index: nat)

  function Inner(x: Segment, offset: nat): Segment
    requires offset <= |x.text|
  {
    Segment(x.text[offset..], x.start + offset, x.index)
  }

  function Around(w: Wrapper, u: Unwrapped): Unwrapped {
    if u.Bare? then Bare([w] + u.wrappers, u.inner) else u
  }

  function Unwrap(x: Segment): Unwrapped
    decreases |x.text|
  {
    var e, p := PrefixEnd(x.text, EXPLAIN), PrefixEnd(x.text, PROFILE);
    if e.Some? then
      if Blank(x.text[e.value..]) then Missing(Explained, x.index) else Around(Explained, Unwrap(Inner(x, e.value)))
    else if p.Some? then
      if Blank(x.text[p.value..]) then Missing(Profiled, x.index) else Around(Profiled, Unwrap(Inner(x, p.value)))
    else Bare([], x)
  }

  method UnwrapSegment(x: Segment) returns (u: Unwrapped)
    ensures u == Unwrap(x)
    decreases |x.text|
  {
    hide PrefixEnd, Blank;
    var inner, offset, ok := SplitStatementPrefix(x.text, EXPLAIN);
    if ok {
      if Blank(inner) {
        return Missing(Explained, x.index);
      }
      var rest := UnwrapSegment(Segment(inner, x.start + offset, x.index));
      return Around(Explained, rest);
    }
    inner, offset, ok := SplitStatementPrefix(x.text, PROFILE);
    if ok {
      if Blank(inner) {
        return Missing(Profiled, x.index);
      }
      var rest := UnwrapSegment(Segment(inner, x.start + offset, x.index));
      return Around(Profiled, rest);
    }
    return Bare([], x);
  }

  /** However deep it is nested, the statement's own segment is cut from the full text at its own offset. */
  lemma {:induction false} UnwrapCutsFrom(x: Segment, full: Bytes)
    requires CutFrom(x.text, x.start, full)
    ensures var u := Unwrap(x);
            u.Bare? ==> CutFrom(u.inner.text, u.inner.start, full) && u.inner.index == x.index
                        && u.inner.start + |u.inner.text| == x.start + |x.text|
    decreases |x.text|
  {
    var e, p := PrefixEnd(x.text, EXPLAIN), PrefixEnd(x.text, PROFILE);
    var n := if e.Some? then e.value else if p.Some? then p.value else 0;
    if e.Some? || p.Some? {
      InnerCutsFrom(x, full, n);
      UnwrapCutsFrom(Inner(x, n), full);
    }
  }

  lemma InnerCutsFrom(x: Segment, full: Bytes, n: nat)
    requires CutFrom(x.text, x.start, full) && n <= |x.text|
    ensures CutFrom(Inner(x, n).text, Inner(x, n).start, full)
  {
    assert full[x.start + n..x.start + |x.text|] == full[x.start..x.start + |x.text|][n..];
  }

  lemma {:induction false} PieceCutsFrom(s: Bytes, start: nat, i: nat)
    requires start <= |s| && i < |Pieces(s, start)|
    ensures CutFrom(Pieces(s, start)[i].text, Pieces(s, start)[i].start, s)
    decreases |s| - start
  {
    hide NextCut, Step;
    var e := NextCut(s, start, Code);
    PiecesFrom(s, start, e);
    if i > 0 {
      PieceCutsFrom(s, e + 1, i - 1);
    }
  }

  lemma SegmentCutsFrom(s: Bytes, i: nat)
    requires i < |Segments(s)|
    ensures CutFrom(Segments(s)[i].text, Segments(s)[i].start, s)
  {
    NumberedHolds(Pieces(s, 0), 1, i);
    var x := Segments(s)[i];
    var k :| 0 <= k < |Pieces(s, 0)| && Pieces(s, 0)[k] == Piece(x.text, x.start);
    PieceCutsFrom(s, 0, k);
  }

  /**
   * For every statement of a batch, through any nesting of EXPLAIN and PROFILE, the position reported for byte k
   * of the innermost statement is its position in the batch.
   */
  lemma ReportedPositionsAreTrue(batch: Bytes, i: nat, k: nat)
    requires i < |Segments(batch)|
    requires Unwrap(Segments(batch)[i]).Bare? && k <= |Unwrap(Segments(batch)[i]).inner.text|
    ensures var inner := Unwrap(Segments(batch)[i]).inner;
            Behind(PositionAt(batch, inner.start), PositionAt(inner.text, k)) == PositionAt(batch, inner.start + k)
  {
    hide Segments, Unwrap, PositionAt;
    SegmentCutsFrom(batch, i);
    UnwrapCutsFrom(Segments(batch)[i], batch);
    var inner := Unwrap(Segments(batch)[i]).inner;
    PositionsAgree(inner.text, inner.start, batch, k);
  }
}
