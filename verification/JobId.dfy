/** The textual job identifier: three query-escaped fields joined with '|'. */
module JobId {
  import opened Wrappers
  import opened Text

  datatype Job = Job(tenant: Bytes, schema: Bytes, property: Bytes)

  const BAR: byte := 124
  const PERCENT: byte := 37
  const PLUS: byte := 43
  const SPACE: byte := 32

  /** Bytes that url.QueryEscape leaves alone: letters, digits, '-', '_', '.', '~'. */
  predicate Unreserved(b: byte) {
    || 65 <= b <= 90 || 97 <= b <= 122 || 48 <= b <= 57
    || b == 45 || b == 95 || b == 46 || b == 126
  }

  function HexDigit(n: int): byte
    requires 0 <= n < 16
  {
    if n < 10 then 48 + n else 55 + n
  }

  function UnhexDigit(b: byte): Option<int>
  {
    if 48 <= b <= 57 then Some(b - 48)
    else if 97 <= b <= 102 then Some(b - 87)
    else if 65 <= b <= 70 then Some(b - 55)
    else None
  }

  function EscapeByte(b: byte): Bytes {
    if Unreserved(b) then [b]
    else if b == SPACE then [PLUS]
    else [PERCENT, HexDigit(b / 16), HexDigit(b % 16)]
  }

  /** url.QueryEscape */
  function Escape(s: Bytes): Bytes {
    if s == [] then [] else EscapeByte(s[0]) + Escape(s[1..])
  }

  /** url.QueryUnescape */
  function Unescape(s: Bytes): Option<Bytes>
    decreases |s|
  {
    if s == [] then Some([])
    else if s[0] == PERCENT then
      if |s| < 3 then None
      else
        match (UnhexDigit(s[1]), UnhexDigit(s[2]))
        case (Some(h), Some(l)) =>
          (match Unescape(s[3..])
           case Some(rest) => Some([(16 * h + l) as byte] + rest)
           case None => None)
        case _ => None
    else
      match Unescape(s[1..])
      case Some(rest) => Some([if s[0] == PLUS then SPACE else s[0]] + rest)
      case None => None
  }

  function JobIdOf(tenant: Bytes, schema: Bytes, property: Bytes): Bytes {
    Escape(Trim(tenant)) + [BAR] + Escape(Trim(schema)) + [BAR] + Escape(Trim(property))
  }

  function ParseJobId(id: Bytes): Option<Job> {
    var parts := SplitOn(id, BAR);
    if |parts| != 3 then None
    else
      match (Unescape(parts[0]), Unescape(parts[1]), Unescape(parts[2]))
      case (Some(t), Some(s), Some(p)) =>
        if Blank(t) || Blank(s) || Blank(p) then None else Some(Job(Trim(t), Trim(s), Trim(p)))
      case _ => None
  }

  lemma UnescapeByte(b: byte, rest: Bytes)
    requires Unescape(rest).Some?
    ensures Unescape(EscapeByte(b) + rest) == Some([b] + Unescape(rest).value)
  {
    var e := EscapeByte(b);
    assert (e + rest)[|e|..] == rest;
    if !Unreserved(b) && b != SPACE {
      assert (e + rest)[3..] == rest;
    } else {
      assert (e + rest)[1..] == rest;
    }
  }

  /** Unescaping undoes escaping on every byte string. */
  lemma {:induction false} EscapeRoundTrip(s: Bytes)
    ensures Unescape(Escape(s)) == Some(s)
  {
    if s != [] {
      EscapeRoundTrip(s[1..]);
      UnescapeByte(s[0], Escape(s[1..]));
      assert s == [s[0]] + s[1..];
    }
  }

  /** Escaped text uses visible ASCII only, so it holds neither the separator nor white space. */
  lemma {:induction false} EscapeIsPlain(s: Bytes)
    ensures forall i | 0 <= i < |Escape(s)| :: 33 <= Escape(s)[i] <= 126 && Escape(s)[i] != BAR
  {
    if s != [] {
      EscapeIsPlain(s[1..]);
    }
  }

  lemma JobIdParts(tenant: Bytes, schema: Bytes, property: Bytes)
    ensures SplitOn(JobIdOf(tenant, schema, property), BAR) ==
            [Escape(Trim(tenant)), Escape(Trim(schema)), Escape(Trim(property))]
  {
    hide Escape, Trim, SplitOn;
    var t, s, p := Escape(Trim(tenant)), Escape(Trim(schema)), Escape(Trim(property));
    EscapeIsPlain(Trim(tenant));
    EscapeIsPlain(Trim(schema));
    EscapeIsPlain(Trim(property));
    assert t + [BAR] + s + [BAR] + p == t + [BAR] + (s + [BAR] + p);
    SplitOnAt(t, s + [BAR] + p, BAR);
    SplitOnAt(s, p, BAR);
    SplitOnNone(p, BAR);
  }

  /** Parsing an identifier gives back the trimmed triple, exactly when no field is blank. */
  lemma JobIdRoundTrip(tenant: Bytes, schema: Bytes, property: Bytes)
    ensures ParseJobId(JobIdOf(tenant, schema, property)) ==
            if Blank(tenant) || Blank(schema) || Blank(property) then None
            else Some(Job(Trim(tenant), Trim(schema), Trim(property)))
  {
    JobIdParts(tenant, schema, property);
    EscapeRoundTrip(Trim(tenant));
    EscapeRoundTrip(Trim(schema));
    EscapeRoundTrip(Trim(property));
    TrimIdempotent(tenant);
    TrimIdempotent(schema);
    TrimIdempotent(property);
  }

  /** Two triples share an identifier exactly when they agree up to surrounding white space. */
  lemma JobIdInjective(t1: Bytes, s1: Bytes, p1: Bytes, t2: Bytes, s2: Bytes, p2: Bytes)
    ensures JobIdOf(t1, s1, p1) == JobIdOf(t2, s2, p2) <==>
            Trim(t1) == Trim(t2) && Trim(s1) == Trim(s2) && Trim(p1) == Trim(p2)
  {
    if JobIdOf(t1, s1, p1) == JobIdOf(t2, s2, p2) {
      JobIdParts(t1, s1, p1);
      JobIdParts(t2, s2, p2);
      EscapeRoundTrip(Trim(t1));
      EscapeRoundTrip(Trim(s1));
      EscapeRoundTrip(Trim(p1));
      EscapeRoundTrip(Trim(t2));
      EscapeRoundTrip(Trim(s2));
      EscapeRoundTrip(Trim(p2));
    }
  }

  /** The scan trims stored entity IDs before parsing; that never changes an identifier. */
  lemma JobIdTrimmed(tenant: Bytes, schema: Bytes, property: Bytes)
    ensures Trim(JobIdOf(tenant, schema, property)) == JobIdOf(tenant, schema, property)
  {
    EscapeIsPlain(Trim(tenant));
    EscapeIsPlain(Trim(schema));
    EscapeIsPlain(Trim(property));
    VisibleIsTrimmed(JobIdOf(tenant, schema, property));
  }
}
