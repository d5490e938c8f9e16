/** The parser for chain patterns such as (a)-[:KNOWS*1..3]->(b)<--(c). */
module Chain {
  import opened Wrappers
  import opened Text

  const DOUBLE: byte := 34
  const SINGLE: byte := 39
  const OPEN: byte := 40
  const CLOSE: byte := 41
  const STAR: byte := 42
  const DASH: byte := 45
  const DOT: byte := 46
  const COLON: byte := 58
  const LESS: byte := 60
  const GREATER: byte := 62
  const OPEN_BRACKET: byte := 91
  const BACKSLASH: byte := 92
  const CLOSE_BRACKET: byte := 93
  const OPEN_BRACE: byte := 123
  const BAR: byte := 124
  const CLOSE_BRACE: byte := 125

  datatype Direction = Forward | Reverse | Undirected

  /** max is -1 for no upper bound. */
  datatype Hops = Hops(min: int, max: int)

  datatype Segment = Segment(direction: Direction, hops: Option<Hops>, edgeVar: Bytes, edgeType: Bytes,
                             anyOf: seq<Bytes>,
                             props: Bytes)

  // ---------------------------------------------------------------- tokens

  /** The end of the vertex that the text begins with. */
  function VertexEnd(s: Bytes, i: nat, depth: nat): (end: Option<nat>)
    requires i <= |s|
    ensures end.Some? ==> i < end.value <= |s|
    decreases |s| - i
  {
    if i == |s| then None
    else if s[i] == OPEN then VertexEnd(s, i + 1, depth + 1)
    else if s[i] == CLOSE && depth == 1 then Some(i + 1)
    else VertexEnd(s, i + 1, if s[i] == CLOSE && depth > 0 then depth - 1 else depth)
  }

  function ConsumeVertex(s: Bytes): (end: Option<nat>)
    ensures end.Some? ==> 0 < end.value <= |s|
  {
    if s == [] || s[0] != OPEN then None else VertexEnd(s, 0, 0)
  }

  method ConsumeVertexSegment(s: Bytes) returns (end: Option<nat>)
    ensures end == ConsumeVertex(s)
  {
    if |s| == 0 || s[0] != OPEN {
      return None;
    }
    var depth: nat := 0;
    for i := 0 to |s|
      invariant (i == 0 <==> depth == 0)
      invariant VertexEnd(s, 0, 0) == VertexEnd(s, i, depth)
    {
      if s[i] == OPEN {
        depth := depth + 1;
      } else if s[i] == CLOSE {
        depth := depth - 1;
        if depth == 0 {
          return Some(i + 1);
        }
      }
    }
    return None;
  }

  const TWO_HEADS: Bytes := [LESS, DASH, DASH, GREATER]
  const RIGHT: Bytes := [DASH, DASH, GREATER]
  const LEFT: Bytes := [LESS, DASH, DASH]
  const NO_HEAD: Bytes := [DASH, DASH]

  /** The arrow that the text begins with, and its length. */
  function ConsumeArrow(s: Bytes): (arrow: Option<(Direction, nat)>)
    ensures arrow.Some? ==> 0 < arrow.value.1 <= |s|
  {
    if TWO_HEADS <= s then Some((Undirected, 4))
    else if RIGHT <= s then Some((Forward, 3))
    else if LEFT <= s then Some((Reverse, 3))
    else if NO_HEAD <= s && (|s| < 3 || s[2] != OPEN_BRACKET) then Some((Undirected, 2))
    else None
  }

  datatype Quote = Plain | InSingle | InDouble

  /** The position of the bracket that closes the first one. */
  function BracketEnd(s: Bytes, i: nat, depth: nat, q: Quote): (end: Option<nat>)
    requires i <= |s|
    ensures end.Some? ==> i <= end.value < |s|
    decreases |s| - i
  {
    if i == |s| then None
    else
      match q
      case InSingle =>
        if s[i] != SINGLE then BracketEnd(s, i + 1, depth, q)
        else if i + 1 < |s| && s[i + 1] == SINGLE then BracketEnd(s, i + 2, depth, q)
        else BracketEnd(s, i + 1, depth, Plain)
      case InDouble =>
        if s[i] == BACKSLASH then if i + 2 <= |s| then BracketEnd(s, i + 2, depth, q) else None
        else BracketEnd(s, i + 1, depth, if s[i] == DOUBLE then Plain else q)
      case Plain =>
        if s[i] == SINGLE then BracketEnd(s, i + 1, depth, InSingle)
        else if s[i] == DOUBLE then BracketEnd(s, i + 1, depth, InDouble)
        else if s[i] == OPEN_BRACKET then BracketEnd(s, i + 1, depth + 1, q)
        else if s[i] == CLOSE_BRACKET && depth == 1 then Some(i)
        else BracketEnd(s, i + 1, if s[i] == CLOSE_BRACKET && depth > 0 then depth - 1 else depth, q)
  }

  const HEAD_BRACKET: Bytes := [LESS, DASH, OPEN_BRACKET]
  const DASH_BRACKET: Bytes := [DASH, OPEN_BRACKET]

  /** The end of the bracketed relationship that the text begins with: the bracket, a dash, and an arrow head or not. */
  function ConsumeRelationship(s: Bytes): (end: Option<nat>)
    ensures end.Some? ==> 0 < end.value <= |s|
  {
    if !(HEAD_BRACKET <= s) && !(DASH_BRACKET <= s) then None
    else
      var e := BracketEnd(s, if HEAD_BRACKET <= s then 2 else 1, 0, Plain);
      if e.None? then None
      else if e.value + 2 < |s| && s[e.value + 1] == DASH && s[e.value + 2] == GREATER then Some(e.value + 3)
      else if e.value + 1 < |s| && s[e.value + 1] == DASH then Some(e.value + 2)
      else None
  }

  method ConsumeRelationshipSegment(s: Bytes) returns (end: Option<nat>)
    ensures end == ConsumeRelationship(s)
  {
    if !(HEAD_BRACKET <= s) && !(DASH_BRACKET <= s) {
      return None;
    }
    var open: nat := if HEAD_BRACKET <= s then 2 else 1;
    var i, depth: nat, q := open, 0, Plain;
    while i < |s|
      invariant open <= i && (i == open ==> depth == 0 && q.Plain?) && (i > open ==> depth > 0)
      invariant i <= |s| ==> BracketEnd(s, open, 0, Plain) == BracketEnd(s, i, depth, q)
      invariant i > |s| ==> BracketEnd(s, open, 0, Plain) == None
      decreases |s| - i
    {
      var ch := s[i];
      if q.InSingle? {
        if ch == SINGLE {
          if i + 1 < |s| && s[i + 1] == SINGLE {
            i := i + 2;
            continue;
          }
          q := Plain;
        }
      } else if q.InDouble? {
        if ch == BACKSLASH {
          i := i + 2;
          continue;
        }
        if ch == DOUBLE {
          q := Plain;
        }
      } else if ch == SINGLE {
        q := InSingle;
      } else if ch == DOUBLE {
        q := InDouble;
      } else if ch == OPEN_BRACKET {
        depth := depth + 1;
      } else if ch == CLOSE_BRACKET {
        depth := depth - 1;
        if depth == 0 {
          if i + 2 < |s| && s[i + 1] == DASH && s[i + 2] == GREATER {
            return Some(i + 3);
          }
          if i + 1 < |s| && s[i + 1] == DASH {
            return Some(i + 2);
          }
          return None;
        }
      }
      i := i + 1;
    }
    return None;
  }

  // ---------------------------------------------------------------- what stands in the brackets

  predicate IsDigit(b: byte) {
    48 <= b <= 57
  }

  predicate IsLetter(b: byte) {
    65 <= b <= 90 || 97 <= b <= 122 || b == 95
  }

  predicate IsIdentifier(s: Bytes) {
    s != [] && IsLetter(s[0]) && forall b | b in s :: IsLetter(b) || IsDigit(b)
  }

  function IndexOf(s: Bytes, b: byte, i: nat): (at: Option<nat>)
    requires i <= |s|
    ensures at.Some? ==> i <= at.value < |s| && s[at.value] == b && b !in s[i..at.value]
    ensures at.None? ==> b !in s[i..]
    decreases |s| - i
  {
    if i == |s| then None
    else if s[i] == b then Some(i)
    else
      var at := IndexOf(s, b, i + 1);
      assert s[i..] == [s[i]] + s[i + 1..];
      assert at.Some? ==> s[i..at.value] == [s[i]] + s[i + 1..at.value];
      at
  }

  function LastIndexOf(s: Bytes, b: byte): (at: Option<nat>)
    ensures at.Some? ==> at.value < |s| && s[at.value] == b && b !in s[at.value + 1..]
    ensures at.None? ==> b !in s
  {
    if s == [] then None
    else if s[|s| - 1] == b then Some(|s| - 1)
    else
      var at := LastIndexOf(s[..|s| - 1], b);
      assert s == s[..|s| - 1] + [s[|s| - 1]];
      assert at.Some? ==> s[at.value + 1..] == s[..|s| - 1][at.value + 1..] + [s[|s| - 1]];
      at
  }

  /** Two dots in a row. */
  function DotsAt(s: Bytes, i: nat): (at: Option<nat>)
    requires i <= |s|
    ensures at.Some? ==> i <= at.value && at.value + 2 <= |s|
    decreases |s| - i
  {
    if i + 2 > |s| then None
    else if s[i] == DOT && s[i + 1] == DOT then Some(i)
    else DotsAt(s, i + 1)
  }

  /** int arithmetic wraps around at 64 bits. */
  function Wrap64(n: int): int {
    (n + 0x8000_0000_0000_0000) % 0x1_0000_0000_0000_0000 - 0x8000_0000_0000_0000
  }

  function BoundFrom(s: Bytes, value: int): Option<int> {
    if s == [] then Some(value)
    else if !IsDigit(s[0]) then None
    else BoundFrom(s[1..], Wrap64(value * 10 + (s[0] as int - 48)))
  }

  function Bound(s: Bytes): Option<int> {
    if s == [] then None else BoundFrom(s, 0)
  }

  method ParseBound(raw: Bytes) returns (bound: Option<int>)
    ensures bound == Bound(raw)
  {
    if raw == [] {
      return None;
    }
    var value := 0;
    for i := 0 to |raw|
      invariant BoundFrom(raw, 0) == BoundFrom(raw[i..], value)
    {
      assert raw[i..][1..] == raw[i + 1..];
      if !IsDigit(raw[i]) {
        return None;
      }
      value := Wrap64(value * 10 + (raw[i] as int - 48));
    }
    return Some(value);
  }

  function OptionalBound(s: Bytes, default: int): Option<int> {
    if Blank(s) then Some(default) else Bound(Trim(s))
  }

  function ParseHops(text: Bytes): Option<Hops> {
    var raw := Trim(text);
    if raw == [] then Some(Hops(1, -1))
    else
      match DotsAt(raw, 0)
      case None => (match Bound(raw) case None => None case Some(n) => Some(Hops(n, n)))
      case Some(at) =>
        match (OptionalBound(raw[..at], 1), OptionalBound(raw[at + 2..], -1))
        case (Some(min), Some(max)) => Some(Hops(min, max))
        case _ => None
  }

  /** One type, or a list of alternatives. */
  datatype Types = Types(edgeType: Bytes, anyOf: seq<Bytes>)

  function WithoutColon(s: Bytes): Bytes {
    if s != [] && s[0] == COLON then s[1..] else s
  }

  function TypeNames(parts: seq<Bytes>): Option<seq<Bytes>> {
    if parts == [] then Some([])
    else
      var name, rest := WithoutColon(Trim(parts[0])), TypeNames(parts[1..]);
      if IsIdentifier(name) && rest.Some? then Some([name] + rest.value) else None
  }

  function ParseTypes(text: Bytes): Option<Types> {
    var raw := Trim(text);
    if raw == [] then Some(Types([], []))
    else
      match TypeNames(SplitOn(raw, BAR))
      case None => None
      case Some(names) => if |names| == 1 then Some(Types(names[0], [])) else Some(Types([], names))
  }

  /** Properties in braces at the end are taken off first. */
  datatype Inner = Inner(head: Bytes, props: Bytes)

  function TakeProps(text: Bytes): Option<Inner> {
    var raw := Trim(text);
    match IndexOf(raw, OPEN_BRACE, 0)
    case None => Some(Inner(raw, []))
    case Some(at) =>
      if raw[|raw| - 1] != CLOSE_BRACE then None
      else Some(Inner(Trim(raw[..at]), Trim(raw[at + 1..|raw| - 1])))
  }

  datatype Edge = Edge(edgeVar: Bytes, types: Types, props: Bytes)

  function ParseHead(raw: Bytes, props: Bytes): Option<Edge> {
    if raw != [] && raw[0] == COLON then
      (match ParseTypes(raw[1..])
       case None => None
       case Some(types) => Some(Edge([], types, props)))
    else
      var parts := SplitOn(raw, COLON);
      var name := Trim(parts[0]);
      if |parts| == 1 then
        if name == [] || IsIdentifier(name) then Some(Edge(name, Types([], []), props)) else None
      else if |parts| == 2 && IsIdentifier(name) then
        match ParseTypes(parts[1])
        case None => None
        case Some(types) => Some(Edge(name, types, props))
      else None
  }

  function ParseEdge(text: Bytes): Option<Edge> {
    if Blank(text) then Some(Edge([], Types([], []), []))
    else
      match TakeProps(text)
      case None => None
      case Some(inner) => ParseHead(inner.head, inner.props)
  }

  /** A variable-length edge: what stands before the star is an edge again, what stands behind it are the bounds. */
  function ParseVariableEdge(text: Bytes): Option<(Edge, Hops)> {
    if Blank(text) then None
    else
      match TakeProps(text)
      case None => None
      case Some(inner) =>
        match IndexOf(inner.head, STAR, 0)
        case None => None
        case Some(star) =>
          match (ParseEdge(Trim(inner.head[..star])), ParseHops(Trim(inner.head[star + 1..])))
          case (Some(edge), Some(hops)) => Some((edge.(props := inner.props), hops))
          case _ => None
  }

  const DASH_HEAD: Bytes := [DASH, GREATER]

  predicate EndsWith(s: Bytes, suffix: Bytes) {
    |suffix| <= |s| && s[|s| - |suffix|..] == suffix
  }

  function DirectionOf(raw: Bytes, reverse: bool): Direction {
    if reverse then if EndsWith(raw, DASH_HEAD) then Undirected else Reverse
    else if EndsWith(raw, [DASH]) then Undirected
    else Forward
  }

  function ParseSegment(text: Bytes): Option<Segment> {
    var raw := Trim(text);
    var forward, reverse := DASH_BRACKET <= raw, HEAD_BRACKET <= raw;
    if !forward && !reverse then None
    else
      match (IndexOf(raw, OPEN_BRACKET, 0), LastIndexOf(raw, CLOSE_BRACKET))
      case (Some(open), Some(close)) =>
        if close <= open then None
        else
          var inner, direction := Trim(raw[open + 1..close]), DirectionOf(raw, reverse);
          if STAR in inner then
            (match ParseVariableEdge(inner)
             case None => None
             case Some((e, hops)) =>
               Some(Segment(direction, Some(hops), e.edgeVar, e.types.edgeType, e.types.anyOf, e.props)))
          else
            (match ParseEdge(inner)
             case None => None
             case Some(e) => Some(Segment(direction, None, e.edgeVar, e.types.edgeType, e.types.anyOf, e.props)))
      case _ => None
  }

  // ---------------------------------------------------------------- the chain

  /** A token for the step between two vertices, and what it means. */
  datatype Step = Step(length: nat, segment: Segment)

  function NextStep(s: Bytes): (step: Option<Step>)
    ensures step.Some? ==> 0 < step.value.length <= |s|
  {
    match ConsumeRelationship(s)
    case Some(end) => (match ParseSegment(s[..end]) case None => None case Some(seg) => Some(Step(end, seg)))
    case None =>
      match ConsumeArrow(s)
      case None => None
      case Some((direction, end)) => Some(Step(end, Segment(direction, None, [], [], [], [])))
  }

  /** The tokens of a chain behind its first vertex. */
  datatype Links = Links(steps: seq<Bytes>, vertices: seq<Bytes>, segments: seq<Segment>)

  function LinksFrom(s: Bytes, accepts: Bytes -> bool): Option<Links>
    decreases |s|
  {
    if s == [] then Some(Links([], [], []))
    else
      match NextStep(s)
      case None => None
      case Some(step) =>
        match ConsumeVertex(s[step.length..])
        case None => None
        case Some(end) =>
          var vertex := s[step.length..][..end];
          var rest := LinksFrom(s[step.length..][end..], accepts);
          if !accepts(vertex) || rest.None? then None
          else Some(Links([s[..step.length]] + rest.value.steps, [vertex] + rest.value.vertices,
                          [step.segment] + rest.value.segments))
  }

  datatype ChainPattern = ChainPattern(vertices: seq<Bytes>, segments: seq<Segment>)

  /** accepts is what the expression for one vertex accepts; s is the normalized text. */
  function ChainOf(s: Bytes, accepts: Bytes -> bool): Option<ChainPattern> {
    match ConsumeVertex(s)
    case None => None
    case Some(end) =>
      var links := LinksFrom(s[end..], accepts);
      if !accepts(s[..end]) || links.None? || |links.value.segments| < 2 then None
      else Some(ChainPattern([s[..end]] + links.value.vertices, links.value.segments))
  }

  function PutBefore(steps: seq<Bytes>, vertices: seq<Bytes>, segments: seq<Segment>, rest: Option<Links>):
    Option<Links>
  {
    if rest.None? then None
    else Some(Links(steps + rest.value.steps, vertices + rest.value.vertices, segments + rest.value.segments))
  }

  lemma PutBeforeNothing(rest: Option<Links>)
    ensures PutBefore([], [], [], rest) == rest
  {
    if rest.Some? {
      var r := rest.value;
      assert [] + r.steps == r.steps && [] + r.vertices == r.vertices && [] + r.segments == r.segments;
    }
  }

  lemma PutBeforeMore(steps: seq<Bytes>, vertices: seq<Bytes>, segments: seq<Segment>, step: Bytes, vertex: Bytes,
                      segment: Segment, rest: Option<Links>)
    ensures PutBefore(steps, vertices, segments, PutBefore([step], [vertex], [segment], rest))
            == PutBefore(steps + [step], vertices + [vertex], segments + [segment], rest)
  {
    if rest.Some? {
      assert steps + ([step] + rest.value.steps) == steps + [step] + rest.value.steps;
      assert vertices + ([vertex] + rest.value.vertices) == vertices + [vertex] + rest.value.vertices;
      assert segments + ([segment] + rest.value.segments) == segments + [segment] + rest.value.segments;
    }
  }

  method ParseLinks(text: Bytes, accepts: Bytes -> bool) returns (links: Option<Links>)
    ensures links == LinksFrom(text, accepts)
  {
    hide ConsumeVertex, ParseSegment, ConsumeRelationship, ConsumeArrow;
    var s := text;
    var steps: seq<Bytes>, vertices: seq<Bytes>, segments: seq<Segment> := [], [], [];
    PutBeforeNothing(LinksFrom(s, accepts));
    while |s| > 0
      invariant LinksFrom(text, accepts) == PutBefore(steps, vertices, segments, LinksFrom(s, accepts))
      decreases |s|
    {
      var relationship := ConsumeRelationshipSegment(s);
      var segment, length: nat;
      if relationship.Some? {
        length := relationship.value;
        var parsed := ParseSegment(s[..length]);
        if parsed.None? {
          return None;
        }
        segment := parsed.value;
      } else {
        var arrow := ConsumeArrow(s);
        if arrow.None? {
          return None;
        }
        length := arrow.value.1;
        segment := Segment(arrow.value.0, None, [], [], [], []);
      }
      var rest := s[length..];
      var end := ConsumeVertexSegment(rest);
      if end.None? {
        return None;
      }
      var vertex := rest[..end.value];
      if !accepts(vertex) {
        return None;
      }
      PutBeforeMore(steps, vertices, segments, s[..length], vertex, segment, LinksFrom(rest[end.value..], accepts));
      steps, vertices, segments := steps + [s[..length]], vertices + [vertex], segments + [segment];
      s := rest[end.value..];
    }
    assert steps + [] == steps && vertices + [] == vertices && segments + [] == segments;
    return Some(Links(steps, vertices, segments));
  }

  method ParseChain(text: Bytes, accepts: Bytes -> bool) returns (chain: Option<ChainPattern>)
    ensures chain == ChainOf(Normalized(text), accepts)
  {
    var s := NormalizeClauseBody(text);
    var end := ConsumeVertexSegment(s);
    if end.None? {
      return None;
    }
    if !accepts(s[..end.value]) {
      return None;
    }
    var links := ParseLinks(s[end.value..], accepts);
    if links.None? || |links.value.segments| < 2 {
      return None;
    }
    return Some(ChainPattern([s[..end.value]] + links.value.vertices, links.value.segments));
  }

  // ---------------------------------------------------------------- nothing is skipped

  /** Steps and vertices in turn. */
  function Woven(steps: seq<Bytes>, vertices: seq<Bytes>): Bytes
    requires |steps| == |vertices|
  {
    if steps == [] then [] else steps[0] + vertices[0] + Woven(steps[1..], vertices[1..])
  }

  /** Where it stands, each step is read as its segment and each vertex as a vertex, to its last byte. */
  ghost predicate TokensRead(steps: seq<Bytes>, vertices: seq<Bytes>, segments: seq<Segment>)
    requires |steps| == |vertices| == |segments|
  {
    steps != [] ==>
      && NextStep(Woven(steps, vertices)) == Some(Step(|steps[0]|, segments[0]))
      && ConsumeVertex(vertices[0] + Woven(steps[1..], vertices[1..])) == Some(|vertices[0]|)
      && TokensRead(steps[1..], vertices[1..], segments[1..])
  }

  /** One more step and vertex in front. */
  lemma OneMoreLink(step: Bytes, vertex: Bytes, segment: Segment, more: Links)
    requires |more.steps| == |more.vertices| == |more.segments|
    requires TokensRead(more.steps, more.vertices, more.segments)
    requires NextStep(step + (vertex + Woven(more.steps, more.vertices))) == Some(Step(|step|, segment))
    requires ConsumeVertex(vertex + Woven(more.steps, more.vertices)) == Some(|vertex|)
    ensures var steps, vertices := [step] + more.steps, [vertex] + more.vertices;
            && Woven(steps, vertices) == step + (vertex + Woven(more.steps, more.vertices))
            && TokensRead(steps, vertices, [segment] + more.segments)
  {
    hide NextStep, ConsumeVertex;
    var steps, vertices, segments := [step] + more.steps, [vertex] + more.vertices, [segment] + more.segments;
    assert steps[1..] == more.steps && vertices[1..] == more.vertices && segments[1..] == more.segments;
    assert step + vertex + Woven(more.steps, more.vertices) == step + (vertex + Woven(more.steps, more.vertices));
  }

  lemma {:induction false} LinksCover(s: Bytes, accepts: Bytes -> bool)
    requires LinksFrom(s, accepts).Some?
    ensures var l := LinksFrom(s, accepts).value;
            && |l.steps| == |l.vertices| == |l.segments| && Woven(l.steps, l.vertices) == s
            && (forall v | v in l.vertices :: accepts(v))
            && TokensRead(l.steps, l.vertices, l.segments)
    decreases |s|
  {
    hide NextStep, ConsumeVertex;
    if s != [] {
      var n := NextStep(s).value.length;
      var rest := s[n..];
      var end := ConsumeVertex(rest).value;
      LinksCover(rest[end..], accepts);
      assert rest == rest[..end] + rest[end..] && s == s[..n] + rest;
      hide TokensRead, Woven;
      OneMoreLink(s[..n], rest[..end], NextStep(s).value.segment, LinksFrom(rest[end..], accepts).value);
    }
  }

  /**
   * On every accepted text the tokens make up the whole normalized text, each is read as what it stands for, and
   * there is one more vertex than segments.
   */
  lemma TokensCover(s: Bytes, accepts: Bytes -> bool)
    requires ChainOf(s, accepts).Some?
    ensures var c := ChainOf(s, accepts).value;
            && |c.vertices| == |c.segments| + 1 >= 3 && (forall v | v in c.vertices :: accepts(v))
            && ConsumeVertex(s) == Some(|c.vertices[0]|)
            && exists steps :: |steps| == |c.segments| && s == c.vertices[0] + Woven(steps, c.vertices[1..])
                               && TokensRead(steps, c.vertices[1..], c.segments)
  {
    hide LinksFrom, ConsumeVertex, TokensRead;
    var end := ConsumeVertex(s).value;
    LinksCover(s[end..], accepts);
    var l := LinksFrom(s[end..], accepts).value;
    var c := ChainOf(s, accepts).value;
    assert c.vertices[1..] == l.vertices;
    assert s == s[..end] + s[end..];
    assert TokensRead(l.steps, c.vertices[1..], c.segments);
  }

  // ---------------------------------------------------------------- white space

  /** White space outside quotes is dropped. */
  function NormalizedFrom(raw: Bytes, i: nat, q: Quote): Bytes
    requires i <= |raw|
    decreases |raw| - i
  {
    if i == |raw| then []
    else
      var b := raw[i];
      var twice := i + 1 < |raw|
                   && ((q.InSingle? && b == SINGLE && raw[i + 1] == SINGLE) || (q.InDouble? && b == BACKSLASH));
      if twice then [b, raw[i + 1]] + NormalizedFrom(raw, i + 2, q)
      else if q.Plain? && IsLatinSpace(b) then NormalizedFrom(raw, i + 1, q)
      else [b] + NormalizedFrom(raw, i + 1, After(b, q))
  }

  function After(b: byte, q: Quote): Quote {
    match q
    case InSingle => if b == SINGLE then Plain else q
    case InDouble => if b == DOUBLE then Plain else q
    case Plain => if b == SINGLE then InSingle else if b == DOUBLE then InDouble else q
  }

  function Normalized(raw: Bytes): Bytes {
    NormalizedFrom(raw, 0, Plain)
  }

  method NormalizeClauseBody(raw: Bytes) returns (b: Bytes)
    ensures b == Normalized(raw)
  {
    b := [];
    var q, i: nat := Plain, 0;
    while i < |raw|
      invariant i <= |raw| && Normalized(raw) == b + NormalizedFrom(raw, i, q)
      decreases |raw| - i
    {
      var piece, next, q' := NextBytes(raw, i, q);
      b, i, q := b + piece, next, q';
    }
  }

  method NextBytes(raw: Bytes, i: nat, q: Quote) returns (piece: Bytes, next: nat, q': Quote)
    requires i < |raw|
    ensures i < next <= |raw| && NormalizedFrom(raw, i, q) == piece + NormalizedFrom(raw, next, q')
  {
    var r := raw[i];
    if q.InSingle? {
      if r == SINGLE {
        if i + 1 < |raw| && raw[i + 1] == SINGLE {
          return [r, raw[i + 1]], i + 2, q;
        }
        return [r], i + 1, Plain;
      }
      return [r], i + 1, q;
    }
    if q.InDouble? {
      if r == BACKSLASH && i + 1 < |raw| {
        return [r, raw[i + 1]], i + 2, q;
      }
      return [r], i + 1, if r == DOUBLE then Plain else q;
    }
    if IsLatinSpace(r) {
      return [], i + 1, q;
    }
    return [r], i + 1, After(r, q);
  }
}
