/**
 * Printing chain patterns, and parsing them back. The round trip is built from the inside out: decimal
 * bounds, type alternatives, the text between the brackets, one step with its arrow heads, then the
 * chain. Two properties of every printed part carry it: no part ends a scan early, and no
 * part is changed when the clause body is normalized.
 */
module ChainPrinting {
  import opened Wrappers
  import opened Text
  import opened Chain

  /** A step is printed as an arrow or with brackets; an undirected one without heads or with two. */
  datatype Style = Style(brackets: bool, heads: bool)

  datatype Printed = Printed(style: Style, segment: Segment, vertex: Bytes)

  // ---------------------------------------------------------------- numbers

  function Decimal(n: nat): Bytes {
    (if n < 10 then [] else Decimal(n / 10)) + [(48 + n % 10) as byte]
  }

  lemma {:induction false} DecimalDigits(n: nat)
    ensures Decimal(n) != [] && forall b | b in Decimal(n) :: IsDigit(b)
    decreases n
  {
    if n >= 10 {
      DecimalDigits(n / 10);
    }
  }

  lemma {:induction false} BoundAppend(s: Bytes, b: byte, value: int)
    requires IsDigit(b) && BoundFrom(s, value).Some?
    ensures BoundFrom(s + [b], value) == Some(Wrap64(BoundFrom(s, value).value * 10 + (b as int - 48)))
    decreases |s|
  {
    if s == [] {
      assert (s + [b])[1..] == [];
    } else {
      assert (s + [b])[1..] == s[1..] + [b];
      BoundAppend(s[1..], b, Wrap64(value * 10 + (s[0] as int - 48)));
    }
  }

  const MAX_INT64 := 0x7FFF_FFFF_FFFF_FFFF

  lemma WrapKeeps(n: int)
    requires 0 <= n <= MAX_INT64
    ensures Wrap64(n) == n
  {
  }

  lemma {:induction false} BoundOfDecimal(n: nat)
    requires n <= MAX_INT64
    ensures BoundFrom(Decimal(n), 0) == Some(n)
    decreases n
  {
    var b := (48 + n % 10) as byte;
    WrapKeeps(n);
    if n >= 10 {
      BoundOfDecimal(n / 10);
      BoundAppend(Decimal(n / 10), b, 0);
    } else {
      assert Decimal(n) == [b] && [b][1..] == [];
      assert BoundFrom([], n) == Some(n);
    }
  }

  function PrintHops(h: Hops): Bytes
    requires h.min >= 0
  {
    Decimal(h.min) + [DOT, DOT] + if h.max >= 0 then Decimal(h.max) else []
  }

  predicate GoodHops(h: Hops) {
    0 <= h.min <= MAX_INT64 && -1 <= h.max <= MAX_INT64
  }

  lemma {:induction false} DotsBehindDigits(s: Bytes, i: nat, n: nat)
    requires i <= n && n + 2 <= |s| && s[n] == DOT && s[n + 1] == DOT
    requires forall k | i <= k < n :: IsDigit(s[k])
    ensures DotsAt(s, i) == Some(n)
    decreases n - i
  {
    if i < n {
      DotsBehindDigits(s, i + 1, n);
    }
  }

  /** Bounds are read back as they were, unless they do not fit into 64 bits. */
  lemma HopsRoundTrip(h: Hops)
    requires GoodHops(h)
    ensures Visible(PrintHops(h)) && ParseHops(PrintHops(h)) == Some(h)
  {
    hide Trim, BoundFrom, DotsAt, Decimal;
    var low, high := Decimal(h.min), if h.max >= 0 then Decimal(h.max) else [];
    var s, n := PrintHops(h), |low|;
    DecimalDigits(h.min);
    if h.max >= 0 {
      DecimalDigits(h.max);
      BoundOfDecimal(h.max);
    }
    BoundOfDecimal(h.min);
    assert s[..n] == low && s[n + 2..] == high;
    forall k | 0 <= k < n ensures IsDigit(s[k]) {
      assert s[k] == low[k] && low[k] in low;
    }
    DotsBehindDigits(s, 0, n);
    VisibleIsTrimmed(low);
    VisibleIsTrimmed(high);
    VisibleIsTrimmed(s);
  }

  // ---------------------------------------------------------------- variables and types

  lemma IdentifierVisible(s: Bytes)
    requires IsIdentifier(s)
    ensures Visible(s) && COLON !in s && BAR !in s && OPEN_BRACE !in s && STAR !in s
    ensures OPEN_BRACKET !in s && CLOSE_BRACKET !in s && SINGLE !in s && DOUBLE !in s
  {
  }

  /** Bytes that mean nothing to the scanners around a bracket. */
  predicate Harmless(s: Bytes) {
    Visible(s) && OPEN_BRACKET !in s && CLOSE_BRACKET !in s && SINGLE !in s && DOUBLE !in s
  }

  lemma NamesBegin(s: Bytes)
    requires IsIdentifier(s)
    ensures s != [] && WithoutColon(s) == s
  {
  }

  function JoinBars(names: seq<Bytes>): Bytes
    requires names != []
  {
    if |names| == 1 then names[0] else names[0] + [BAR] + JoinBars(names[1..])
  }

  lemma {:induction false} BarsRoundTrip(names: seq<Bytes>)
    requires names != [] && forall i | 0 <= i < |names| :: IsIdentifier(names[i])
    ensures SplitOn(JoinBars(names), BAR) == names && TypeNames(names) == Some(names)
    ensures var s := JoinBars(names);
            Harmless(s) && COLON !in s && OPEN_BRACE !in s && STAR !in s && s != []
    decreases |names|
  {
    hide Trim, IsIdentifier;
    IdentifierVisible(names[0]);
    VisibleIsTrimmed(names[0]);
    NamesBegin(names[0]);
    assert names == [names[0]] + names[1..];
    if |names| == 1 {
      SplitOnNone(names[0], BAR);
      assert TypeNames([]) == Some([]);
    } else {
      BarsRoundTrip(names[1..]);
      SplitOnAt(names[0], JoinBars(names[1..]), BAR);
    }
  }

  function NamesOf(t: Types): seq<Bytes> {
    if t.edgeType != [] then [t.edgeType] else t.anyOf
  }

  /** No type, one type, or at least two alternatives. */
  predicate GoodTypes(t: Types) {
    && (t.edgeType != [] ==> IsIdentifier(t.edgeType) && t.anyOf == [])
    && (t.anyOf != [] ==> |t.anyOf| >= 2 && forall i | 0 <= i < |t.anyOf| :: IsIdentifier(t.anyOf[i]))
  }

  function PrintTypes(t: Types): Bytes {
    if NamesOf(t) == [] then [] else JoinBars(NamesOf(t))
  }

  lemma TypesRoundTrip(t: Types)
    requires GoodTypes(t)
    ensures var s := PrintTypes(t);
            && ParseTypes(s) == Some(t) && (s == [] <==> NamesOf(t) == [])
            && Harmless(s) && COLON !in s && OPEN_BRACE !in s && STAR !in s
  {
    var s := PrintTypes(t);
    if NamesOf(t) != [] {
      BarsRoundTrip(NamesOf(t));
    }
    VisibleIsTrimmed(s);
  }

  function PrintHead(v: Bytes, t: Types): Bytes {
    v + if NamesOf(t) == [] then [] else [COLON] + PrintTypes(t)
  }

  lemma HeadRoundTrip(v: Bytes, t: Types, props: Bytes)
    requires (v == [] || IsIdentifier(v)) && GoodTypes(t)
    ensures var s := PrintHead(v, t);
            && ParseHead(s, props) == Some(Edge(v, t, props))
            && Harmless(s) && OPEN_BRACE !in s && STAR !in s
  {
    hide ParseTypes, IsIdentifier, JoinBars, Trim;
    var s, types := PrintHead(v, t), PrintTypes(t);
    TypesRoundTrip(t);
    if v != [] {
      IdentifierVisible(v);
    }
    VisibleIsTrimmed(v);
    if NamesOf(t) == [] {
      assert s == v && t == Types([], []);
      assert COLON !in v;
      SplitOnNone(v, COLON);
      assert v != [] ==> v[0] in v;
    } else if v == [] {
      assert s == [COLON] + types && s[1..] == types;
    } else {
      assert s == v + [COLON] + types;
      SplitOnAt(v, types, COLON);
      SplitOnNone(types, COLON);
      assert v[0] in v;
    }
  }

  // ---------------------------------------------------------------- properties

  function PrintProps(props: Bytes): Bytes {
    if props == [] then [] else [OPEN_BRACE] + props + [CLOSE_BRACE]
  }

  lemma IndexAt(s: Bytes, b: byte, i: nat, n: nat)
    requires i <= n < |s| && s[n] == b && b !in s[i..n]
    ensures IndexOf(s, b, i) == Some(n)
    decreases n - i
  {
    if i < n {
      assert s[i] == s[i..n][0] && s[i + 1..n] == s[i..n][1..];
      IndexAt(s, b, i + 1, n);
    }
  }

  /** Properties behind a text without a brace are taken off again. */
  lemma PropsRoundTrip(head: Bytes, props: Bytes)
    requires Harmless(head) && Harmless(props) && OPEN_BRACE !in head
    ensures var s := head + PrintProps(props); Harmless(s) && TakeProps(s) == Some(Inner(head, props))
  {
    hide Trim, IndexOf;
    var s, n := head + PrintProps(props), |head|;
    HarmlessProps(head, props);
    VisibleIsTrimmed(s);
    VisibleIsTrimmed(head);
    VisibleIsTrimmed(props);
    if props == [] {
      assert s == head && s[0..] == s;
    } else {
      PropsAt(head, props);
      IndexAt(s, OPEN_BRACE, 0, n);
    }
  }

  lemma HarmlessProps(head: Bytes, props: Bytes)
    requires Harmless(head) && Harmless(props)
    ensures Harmless(head + PrintProps(props))
  {
  }

  lemma PropsAt(head: Bytes, props: Bytes)
    requires props != []
    ensures var s, n := head + PrintProps(props), |head|;
            && s[0..n] == head && s[..n] == head && s[n] == OPEN_BRACE && s[|s| - 1] == CLOSE_BRACE
            && s[n + 1..|s| - 1] == props
  {
    var s, n := head + PrintProps(props), |head|;
    var x := s[n + 1..|s| - 1];
    assert |x| == |props| && forall k | 0 <= k < |x| :: x[k] == props[k];
  }

  // ---------------------------------------------------------------- one segment

  predicate GoodSegment(x: Segment) {
    && (x.edgeVar == [] || IsIdentifier(x.edgeVar))
    && GoodTypes(Types(x.edgeType, x.anyOf))
    && Harmless(x.props) && STAR !in x.props
    && (x.hops.Some? ==> GoodHops(x.hops.value))
  }

  function PrintInner(x: Segment): Bytes
    requires GoodSegment(x)
  {
    PrintHead(x.edgeVar, Types(x.edgeType, x.anyOf))
    + (if x.hops.Some? then [STAR] + PrintHops(x.hops.value) else []) + PrintProps(x.props)
  }

  lemma HopsHarmless(h: Hops)
    requires GoodHops(h)
    ensures Harmless(PrintHops(h)) && OPEN_BRACE !in PrintHops(h) && STAR !in PrintHops(h)
  {
    DecimalDigits(h.min);
    if h.max >= 0 {
      DecimalDigits(h.max);
    }
  }

  /** An edge of fixed length. */
  lemma EdgeRoundTrip(x: Segment)
    requires GoodSegment(x) && x.hops.None?
    ensures var s := PrintInner(x);
            && Harmless(s) && STAR !in s
            && ParseEdge(s) == Some(Edge(x.edgeVar, Types(x.edgeType, x.anyOf), x.props))
  {
    hide ParseHead, TakeProps, PrintHead, Trim;
    var t := Types(x.edgeType, x.anyOf);
    var head := PrintHead(x.edgeVar, t);
    var s := PrintInner(x);
    HeadRoundTrip(x.edgeVar, t, x.props);
    assert s == head + PrintProps(x.props);
    PropsRoundTrip(head, x.props);
    VisibleIsTrimmed(s);
    if s == [] {
      NothingPrinted(x);
    }
  }

  lemma NothingPrinted(x: Segment)
    requires GoodSegment(x) && PrintInner(x) == []
    ensures x.edgeVar == [] && x.edgeType == [] && x.anyOf == [] && x.props == []
  {
    assert |PrintProps(x.props)| == 0;
  }

  /** An edge of variable length. */
  lemma VariableEdgeRoundTrip(x: Segment)
    requires GoodSegment(x) && x.hops.Some?
    ensures var s := PrintInner(x);
            && Harmless(s) && STAR in s
            && ParseVariableEdge(s) == Some((Edge(x.edgeVar, Types(x.edgeType, x.anyOf), x.props), x.hops.value))
  {
    hide ParseEdge, TakeProps, PrintHead, PrintHops, ParseHops, Trim, GoodTypes;
    var plain := x.(hops := None, props := []);
    var head, bounds := PrintHead(x.edgeVar, Types(x.edgeType, x.anyOf)), PrintHops(x.hops.value);
    var long := head + [STAR] + bounds;
    var s := PrintInner(x);
    HeadRoundTrip(x.edgeVar, Types(x.edgeType, x.anyOf), x.props);
    assert PrintInner(plain) == head;
    EdgeRoundTrip(plain);
    HopsRoundTrip(x.hops.value);
    HopsHarmless(x.hops.value);
    assert s == long + PrintProps(x.props) && s[|head|] == STAR;
    PropsRoundTrip(long, x.props);
    assert long[0..|head|] == head && long[..|head|] == head && long[|head| + 1..] == bounds;
    IndexAt(long, STAR, 0, |head|);
    VisibleIsTrimmed(s);
    VisibleIsTrimmed(head);
    VisibleIsTrimmed(bounds);
  }

  function Opening(d: Direction, heads: bool): Bytes {
    if d == Reverse || (d == Undirected && heads) then HEAD_BRACKET else DASH_BRACKET
  }

  function Closing(d: Direction, heads: bool): Bytes {
    [CLOSE_BRACKET] + if d == Forward || (d == Undirected && heads) then DASH_HEAD else [DASH]
  }

  function PrintBrackets(x: Segment, heads: bool): Bytes
    requires GoodSegment(x)
  {
    Opening(x.direction, heads) + PrintInner(x) + Closing(x.direction, heads)
  }

  lemma LastIndexAt(s: Bytes, b: byte, n: nat)
    requires n < |s| && s[n] == b && b !in s[n + 1..]
    ensures LastIndexOf(s, b) == Some(n)
    decreases |s|
  {
    if n < |s| - 1 {
      var t := s[..|s| - 1];
      assert s[n + 1..] == t[n + 1..] + [s[|s| - 1]];
      LastIndexAt(t, b, n);
    }
  }

  /** Where the parts of a bracketed step are. */
  lemma BracketsAt(x: Segment, heads: bool)
    requires GoodSegment(x) && Harmless(PrintInner(x))
    ensures var s, inner, d := PrintBrackets(x, heads), PrintInner(x), x.direction;
            var open := |Opening(d, heads)| - 1;
            var close := open + 1 + |inner|;
            && |s| == close + |Closing(d, heads)| && s[open] == OPEN_BRACKET && s[close] == CLOSE_BRACKET
            && s[open + 1..close] == inner && s[close..] == Closing(d, heads)
            && IndexOf(s, OPEN_BRACKET, 0) == Some(open) && LastIndexOf(s, CLOSE_BRACKET) == Some(close)
            && Visible(s)
  {
    hide PrintInner, Opening, Closing, IndexOf, LastIndexOf, GoodSegment;
    var s, inner, d := PrintBrackets(x, heads), PrintInner(x), x.direction;
    var o, c := Opening(d, heads), Closing(d, heads);
    var open := |o| - 1;
    var close := open + 1 + |inner|;
    Sandwich(o, inner, c);
    EndsOfBrackets(d, heads);
    assert s[open] == o[open] && s[close] == c[0];
    assert s[0..open] == o[..open] && s[close + 1..] == c[1..];
    IndexAt(s, OPEN_BRACKET, 0, open);
    LastIndexAt(s, CLOSE_BRACKET, close);
    VisibleAppend(o, inner);
    VisibleAppend(o + inner, c);
  }

  lemma VisibleAppend(a: Bytes, b: Bytes)
    requires Visible(a) && Visible(b)
    ensures Visible(a + b)
  {
  }

  lemma Sandwich(o: Bytes, m: Bytes, c: Bytes)
    ensures var s := o + m + c;
            && |s| == |o| + |m| + |c| && s[..|o|] == o && s[|o|..|o| + |m|] == m && s[|o| + |m|..] == c
  {
  }

  lemma EndsOfBrackets(d: Direction, heads: bool)
    ensures var o, c := Opening(d, heads), Closing(d, heads);
            && Visible(o) && Visible(c) && |o| >= 2 && |c| >= 2
            && o[|o| - 1] == OPEN_BRACKET && OPEN_BRACKET !in o[..|o| - 1]
            && c[0] == CLOSE_BRACKET && CLOSE_BRACKET !in c[1..]
  {
  }

  lemma DirectionRoundTrip(x: Segment, heads: bool)
    requires GoodSegment(x) && Harmless(PrintInner(x))
    ensures var s := PrintBrackets(x, heads);
            && (HEAD_BRACKET <= s || DASH_BRACKET <= s)
            && DirectionOf(s, HEAD_BRACKET <= s) == x.direction
  {
    hide PrintInner;
    var s, d := PrintBrackets(x, heads), x.direction;
    BracketsAt(x, heads);
    assert s[..|Opening(d, heads)|] == Opening(d, heads);
    assert HEAD_BRACKET <= s <==> Opening(d, heads) == HEAD_BRACKET;
    var tail := Closing(d, heads);
    assert s[|s| - 1] == tail[|tail| - 1];
    assert s[|s| - 2] == tail[|tail| - 2];
    assert s[|s| - 1..] == [s[|s| - 1]] && s[|s| - 2..] == [s[|s| - 2], s[|s| - 1]];
  }

  /** A bracketed step is parsed back with its direction, variable, types, bounds and properties. */
  lemma SegmentRoundTrip(x: Segment, heads: bool)
    requires GoodSegment(x)
    ensures Harmless(PrintInner(x)) && ParseSegment(PrintBrackets(x, heads)) == Some(x)
  {
    hide ParseEdge, ParseVariableEdge, DirectionOf, PrintInner, Trim, GoodSegment;
    if x.hops.Some? {
      VariableEdgeRoundTrip(x);
    } else {
      EdgeRoundTrip(x);
    }
    BracketsAt(x, heads);
    DirectionRoundTrip(x, heads);
    VisibleIsTrimmed(PrintBrackets(x, heads));
    VisibleIsTrimmed(PrintInner(x));
  }

  // ---------------------------------------------------------------- one step and its vertex

  function ArrowText(d: Direction, heads: bool): Bytes {
    match d
    case Forward => RIGHT
    case Reverse => LEFT
    case Undirected => if heads then TWO_HEADS else NO_HEAD
  }

  predicate GoodStep(p: Printed) {
    if p.style.brackets then GoodSegment(p.segment)
    else p.segment == Segment(p.segment.direction, None, [], [], [], [])
  }

  function PrintStep(p: Printed): Bytes
    requires GoodStep(p)
  {
    if p.style.brackets then PrintBrackets(p.segment, p.style.heads) else ArrowText(p.segment.direction, p.style.heads)
  }

  /** A vertex token: its first parenthesis is closed by its last byte, and there is no white space or quote in it. */
  predicate GoodVertex(v: Bytes, accepts: Bytes -> bool) {
    ConsumeVertex(v) == Some(|v|) && Visible(v) && SINGLE !in v && DOUBLE !in v && accepts(v)
  }

  lemma {:induction false} VertexEndBefore(v: Bytes, rest: Bytes, i: nat, depth: nat)
    requires i <= |v| && VertexEnd(v, i, depth).Some?
    ensures VertexEnd(v + rest, i, depth) == VertexEnd(v, i, depth)
    decreases |v| - i
  {
    if v[i] == OPEN {
      VertexEndBefore(v, rest, i + 1, depth + 1);
    } else if !(v[i] == CLOSE && depth == 1) {
      VertexEndBefore(v, rest, i + 1, if v[i] == CLOSE && depth > 0 then depth - 1 else depth);
    }
  }

  lemma VertexThen(v: Bytes, rest: Bytes)
    requires ConsumeVertex(v) == Some(|v|)
    ensures ConsumeVertex(v + rest) == Some(|v|) && (v + rest)[..|v|] == v && (v + rest)[|v|..] == rest
  {
    VertexEndBefore(v, rest, 0, 0);
  }

  lemma {:induction false} BracketEndAt(t: Bytes, i: nat, close: nat)
    requires i <= close < |t| && t[close] == CLOSE_BRACKET
    requires forall k | i <= k < close :: t[k] !in [SINGLE, DOUBLE, OPEN_BRACKET, CLOSE_BRACKET]
    ensures BracketEnd(t, i, 1, Plain) == Some(close)
    decreases close - i
  {
    if i < close {
      BracketEndAt(t, i + 1, close);
    }
  }

  /** What a text begins with decides which kind of bracket it is. */
  lemma OpeningThen(b: Bytes, more: Bytes, d: Direction, heads: bool)
    requires Opening(d, heads) <= b
    ensures HEAD_BRACKET <= b + more <==> Opening(d, heads) == HEAD_BRACKET
    ensures DASH_BRACKET <= b + more <==> Opening(d, heads) == DASH_BRACKET
  {
    var t, o := b + more, Opening(d, heads);
    assert t[0] == o[0] && t[1] == o[1];
    assert o <= t;
  }

  lemma SliceThen(b: Bytes, more: Bytes, i: nat, j: nat)
    requires i <= j <= |b|
    ensures (b + more)[i..j] == b[i..j]
  {
  }

  /** A bracket around harmless bytes ends where they end. */
  lemma BracketAround(t: Bytes, open: nat, close: nat)
    requires open < close < |t| && t[open] == OPEN_BRACKET && t[close] == CLOSE_BRACKET
    requires Harmless(t[open + 1..close])
    ensures BracketEnd(t, open, 0, Plain) == Some(close)
  {
    var inner := t[open + 1..close];
    forall k | open + 1 <= k < close ensures t[k] !in [SINGLE, DOUBLE, OPEN_BRACKET, CLOSE_BRACKET] {
      assert t[k] == inner[k - open - 1] && t[k] in inner;
    }
    BracketEndAt(t, open + 1, close);
  }

  lemma BracketFound(x: Segment, heads: bool, more: Bytes)
    requires GoodSegment(x)
    ensures var open := |Opening(x.direction, heads)| - 1;
            BracketEnd(PrintBrackets(x, heads) + more, open, 0, Plain) == Some(open + 1 + |PrintInner(x)|)
  {
    hide PrintInner, GoodSegment, PrintBrackets, Harmless, BracketEnd, IndexOf, LastIndexOf, ParseSegment, Opening,
         Closing, Visible;
    SegmentRoundTrip(x, heads);
    BracketsAt(x, heads);
    var b, open := PrintBrackets(x, heads), |Opening(x.direction, heads)| - 1;
    var close := open + 1 + |PrintInner(x)|;
    SliceThen(b, more, open + 1, close);
    BracketAround(b + more, open, close);
  }

  lemma RelationshipIs(t: Bytes, open: nat, close: nat)
    requires open == if HEAD_BRACKET <= t then 2 else 1
    requires HEAD_BRACKET <= t || DASH_BRACKET <= t
    requires BracketEnd(t, open, 0, Plain) == Some(close) && close + 2 < |t| && t[close + 1] == DASH
    ensures ConsumeRelationship(t) == Some(if t[close + 2] == GREATER then close + 3 else close + 2)
  {
  }

  lemma BracketsBegin(x: Segment, heads: bool)
    requires GoodSegment(x)
    ensures Opening(x.direction, heads) <= PrintBrackets(x, heads)
  {
    hide PrintInner, Opening, Closing;
    Sandwich(Opening(x.direction, heads), PrintInner(x), Closing(x.direction, heads));
  }

  lemma OpeningIs(d: Direction, heads: bool)
    ensures Opening(d, heads) == HEAD_BRACKET || Opening(d, heads) == DASH_BRACKET
  {
  }

  /** A printed step in brackets is one token, wherever a vertex follows. */
  lemma BracketsThen(x: Segment, heads: bool, more: Bytes)
    requires GoodSegment(x) && more != [] && more[0] == OPEN
    ensures var b := PrintBrackets(x, heads);
            ConsumeRelationship(b + more) == Some(|b|)
  {
    hide PrintInner, PrintBrackets, Opening, Closing, GoodSegment, BracketEnd, ConsumeRelationship, Harmless;
    hide IndexOf, LastIndexOf;
    SegmentRoundTrip(x, heads);
    BracketsAt(x, heads);
    BracketFound(x, heads, more);
    var b, d := PrintBrackets(x, heads), x.direction;
    var open, close := |Opening(d, heads)| - 1, |Opening(d, heads)| + |PrintInner(x)|;
    BracketsBegin(x, heads);
    OpeningIs(d, heads);
    OpeningThen(b, more, d, heads);
    ClosingAt(b, more, close, d, heads);
    RelationshipIs(b + more, open, close);
  }

  lemma ClosingAt(b: Bytes, more: Bytes, close: nat, d: Direction, heads: bool)
    requires close < |b| && b[close..] == Closing(d, heads) && more != [] && more[0] == OPEN
    ensures var t := b + more;
            && close + 2 <= |b| && t[close + 1] == DASH
            && |b| == if t[close + 2] == GREATER then close + 3 else close + 2
  {
    var t, tail := b + more, Closing(d, heads);
    assert forall k | 0 <= k < |tail| :: t[close + k] == tail[k];
    assert tail == [CLOSE_BRACKET, DASH] || tail == [CLOSE_BRACKET, DASH, GREATER];
    assert |tail| == 2 ==> t[close + 2] == more[0];
  }

  /** So is an arrow. */
  lemma ArrowThen(d: Direction, heads: bool, more: Bytes)
    requires more != [] && more[0] == OPEN
    ensures var a := ArrowText(d, heads);
            ConsumeRelationship(a + more) == None && ConsumeArrow(a + more) == Some((d, |a|))
  {
    var a := ArrowText(d, heads);
    var t := a + more;
    assert forall k | 0 <= k < |a| :: t[k] == a[k];
    assert t[|a|] == OPEN;
  }

  lemma PrefixThen(s: Bytes, more: Bytes)
    ensures (s + more)[..|s|] == s && (s + more)[|s|..] == more
  {
  }

  lemma StepThen(p: Printed, more: Bytes)
    requires GoodStep(p) && more != [] && more[0] == OPEN
    ensures var s := PrintStep(p);
            && NextStep(s + more) == Some(Step(|s|, p.segment))
            && (s + more)[..|s|] == s && (s + more)[|s|..] == more
  {
    hide GoodSegment, ParseSegment, ConsumeRelationship, ConsumeArrow, PrintBrackets, ArrowText;
    PrefixThen(PrintStep(p), more);
    if p.style.brackets {
      SegmentRoundTrip(p.segment, p.style.heads);
      BracketsThen(p.segment, p.style.heads, more);
    } else {
      ArrowThen(p.segment.direction, p.style.heads, more);
    }
  }

  // ---------------------------------------------------------------- whole chains

  predicate GoodLinks(ps: seq<Printed>, accepts: Bytes -> bool) {
    forall i | 0 <= i < |ps| :: GoodStep(ps[i]) && GoodVertex(ps[i].vertex, accepts)
  }

  function PrintLinks(ps: seq<Printed>, accepts: Bytes -> bool): Bytes
    requires GoodLinks(ps, accepts)
  {
    if ps == [] then [] else PrintStep(ps[0]) + ps[0].vertex + PrintLinks(ps[1..], accepts)
  }

  function SegmentsOf(ps: seq<Printed>): seq<Segment> {
    if ps == [] then [] else [ps[0].segment] + SegmentsOf(ps[1..])
  }

  function VerticesOf(ps: seq<Printed>): seq<Bytes> {
    if ps == [] then [] else [ps[0].vertex] + VerticesOf(ps[1..])
  }

  lemma {:induction false} LinksRoundTrip(ps: seq<Printed>, accepts: Bytes -> bool)
    requires GoodLinks(ps, accepts)
    ensures var links := LinksFrom(PrintLinks(ps, accepts), accepts);
            links.Some? && links.value.vertices == VerticesOf(ps) && links.value.segments == SegmentsOf(ps)
    decreases |ps|
  {
    if ps != [] {
      hide GoodStep, PrintStep, NextStep, ConsumeVertex;
      var p, s, rest := ps[0], PrintStep(ps[0]), PrintLinks(ps[1..], accepts);
      LinksRoundTrip(ps[1..], accepts);
      VertexThen(p.vertex, rest);
      VertexBegins(p.vertex, rest);
      StepThen(p, p.vertex + rest);
      var t := PrintLinks(ps, accepts);
      assert t == s + (p.vertex + rest);
      assert t != [];
    }
  }

  lemma VertexBegins(v: Bytes, rest: Bytes)
    requires ConsumeVertex(v) == Some(|v|)
    ensures v + rest != [] && (v + rest)[0] == OPEN
  {
  }

  lemma {:induction false} NormalizedKeeps(raw: Bytes, i: nat)
    requires i <= |raw| && Visible(raw) && SINGLE !in raw && DOUBLE !in raw
    ensures NormalizedFrom(raw, i, Plain) == raw[i..]
    decreases |raw| - i
  {
    if i < |raw| {
      assert raw[i] in raw;
      NormalizedKeeps(raw, i + 1);
      assert raw[i..] == [raw[i]] + raw[i + 1..];
    }
  }

  predicate Quiet(s: Bytes) {
    Visible(s) && SINGLE !in s && DOUBLE !in s
  }

  lemma StepQuiet(p: Printed)
    requires GoodStep(p)
    ensures Quiet(PrintStep(p))
  {
    hide GoodSegment, PrintInner, Quiet;
    if p.style.brackets {
      var x, heads := p.segment, p.style.heads;
      SegmentRoundTrip(x, heads);
      HarmlessQuiet(PrintInner(x));
      EndsQuiet(x.direction, heads);
      QuietAppend(Opening(x.direction, heads), PrintInner(x));
      QuietAppend(Opening(x.direction, heads) + PrintInner(x), Closing(x.direction, heads));
    } else {
      EndsQuiet(p.segment.direction, p.style.heads);
    }
  }

  lemma HarmlessQuiet(s: Bytes)
    requires Harmless(s)
    ensures Quiet(s)
  {
  }

  lemma EndsQuiet(d: Direction, heads: bool)
    ensures Quiet(Opening(d, heads)) && Quiet(Closing(d, heads)) && Quiet(ArrowText(d, heads))
  {
  }

  lemma QuietAppend(a: Bytes, b: Bytes)
    requires Quiet(a) && Quiet(b)
    ensures Quiet(a + b)
  {
  }

  lemma VertexQuiet(v: Bytes, accepts: Bytes -> bool)
    requires GoodVertex(v, accepts)
    ensures Quiet(v)
  {
  }

  lemma {:induction false} LinksQuiet(ps: seq<Printed>, accepts: Bytes -> bool)
    requires GoodLinks(ps, accepts)
    ensures Quiet(PrintLinks(ps, accepts))
    decreases |ps|
  {
    if ps != [] {
      hide GoodStep, PrintStep;
      hide Quiet;
      StepQuiet(ps[0]);
      LinksQuiet(ps[1..], accepts);
      VertexQuiet(ps[0].vertex, accepts);
      QuietAppend(PrintStep(ps[0]), ps[0].vertex);
      QuietAppend(PrintStep(ps[0]) + ps[0].vertex, PrintLinks(ps[1..], accepts));
    } else {
      assert PrintLinks(ps, accepts) == [];
    }
  }

  function PrintChain(first: Bytes, ps: seq<Printed>, accepts: Bytes -> bool): Bytes
    requires GoodLinks(ps, accepts)
  {
    first + PrintLinks(ps, accepts)
  }

  /** A printed chain is parsed back exactly if it has two or more segments; shorter ones are refused. */
  lemma ChainRoundTrip(first: Bytes, ps: seq<Printed>, accepts: Bytes -> bool)
    requires GoodVertex(first, accepts) && GoodLinks(ps, accepts)
    ensures ChainOf(Normalized(PrintChain(first, ps, accepts)), accepts)
            == if |ps| >= 2 then Some(ChainPattern([first] + VerticesOf(ps), SegmentsOf(ps))) else None
  {
    hide GoodLinks, ConsumeVertex, LinksFrom;
    var rest := PrintLinks(ps, accepts);
    var t := first + rest;
    LinksQuiet(ps, accepts);
    NormalizedKeeps(t, 0);
    assert t[0..] == t;
    VertexThen(first, rest);
    LinksRoundTrip(ps, accepts);
    SegmentCount(ps);
  }

  lemma {:induction false} SegmentCount(ps: seq<Printed>)
    ensures |SegmentsOf(ps)| == |ps|
    decreases |ps|
  {
    if ps != [] {
      SegmentCount(ps[1..]);
    }
  }
}
