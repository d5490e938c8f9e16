/**
 * Byte strings as Go sees them. strings.TrimSpace takes white space off both ends, Unicode white space included,
 * which is recognized here by its UTF-8 bytes. Strings compare byte by byte, which is also the order of keys in
 * the store. Upper and lower case are those of ASCII letters, and strings.Split cuts at one byte.
 */
module Text {

  type byte = b: int | 0 <= b < 256

  type Bytes = seq<byte>

  /** Number of bytes taken by a white space rune (unicode.IsSpace) at the front of s; 0 if there is none. */
  function SpaceHead(s: Bytes): (n: nat)
    ensures n <= |s| && n <= 3
  {
    if |s| >= 1 && IsAsciiSpace(s[0]) then 1
    else if |s| >= 2 && IsSpace2(s[0], s[1]) then 2
    else if |s| >= 3 && IsSpace3(s[0], s[1], s[2]) then 3
    else 0
  }

  /** Number of bytes taken by a white space rune at the end of s; 0 if there is none. */
  function SpaceTail(s: Bytes): (n: nat)
    ensures n <= |s| && n <= 3
  {
    var k := |s|;
    if k >= 1 && IsAsciiSpace(s[k - 1]) then 1
    else if k >= 2 && IsSpace2(s[k - 2], s[k - 1]) then 2
    else if k >= 3 && IsSpace3(s[k - 3], s[k - 2], s[k - 1]) then 3
    else 0
  }

  predicate IsAsciiSpace(b: byte) {
    9 <= b <= 13 || b == 32
  }

  /** U+0085 and U+00A0 in UTF-8. */
  predicate IsSpace2(a: byte, b: byte) {
    a == 0xC2 && (b == 0x85 || b == 0xA0)
  }

  /** U+1680, U+2000-U+200A, U+2028, U+2029, U+202F, U+205F and U+3000 in UTF-8. */
  predicate IsSpace3(a: byte, b: byte, c: byte) {
    || (a == 0xE1 && b == 0x9A && c == 0x80)
    || (a == 0xE2 && b == 0x80 && (0x80 <= c <= 0x8A || c == 0xA8 || c == 0xA9 || c == 0xAF))
    || (a == 0xE2 && b == 0x81 && c == 0x9F)
    || (a == 0xE3 && b == 0x80 && c == 0x80)
  }

  /** unicode.IsSpace of a byte taken as a rune. */
  predicate IsLatinSpace(b: byte) {
    9 <= b <= 13 || b == 32 || b == 0x85 || b == 0xA0
  }

  function TrimLeft(s: Bytes): Bytes
    decreases |s|
  {
    if SpaceHead(s) == 0 then s else TrimLeft(s[SpaceHead(s)..])
  }

  function TrimRight(s: Bytes): Bytes
    decreases |s|
  {
    if SpaceTail(s) == 0 then s else TrimRight(s[..|s| - SpaceTail(s)])
  }

  /** strings.TrimSpace */
  function Trim(s: Bytes): Bytes {
    TrimRight(TrimLeft(s))
  }

  predicate Blank(s: Bytes) {
    Trim(s) == []
  }

  predicate Trimmed(s: Bytes) {
    SpaceHead(s) == 0 && SpaceTail(s) == 0
  }

  lemma {:induction false} TrimLeftEnd(s: Bytes)
    ensures SpaceHead(TrimLeft(s)) == 0
    ensures exists k | 0 <= k <= |s| :: TrimLeft(s) == s[k..]
    decreases |s|
  {
    var n := SpaceHead(s);
    if n == 0 {
      assert s == s[0..];
    } else {
      TrimLeftEnd(s[n..]);
      var k :| 0 <= k <= |s[n..]| && TrimLeft(s[n..]) == s[n..][k..];
      assert s[n..][k..] == s[n + k..];
    }
  }

  lemma {:induction false} TrimRightEnd(s: Bytes)
    ensures SpaceTail(TrimRight(s)) == 0
    ensures exists k | 0 <= k <= |s| :: TrimRight(s) == s[..k]
    decreases |s|
  {
    var n := SpaceTail(s);
    if n == 0 {
      assert s == s[..|s|];
    } else {
      var t := s[..|s| - n];
      TrimRightEnd(t);
      var k :| 0 <= k <= |t| && TrimRight(t) == t[..k];
      assert t[..k] == s[..k];
    }
  }

  /** What TrimSpace returns has no white space at either end. */
  lemma TrimIsTrimmed(s: Bytes)
    ensures Trimmed(Trim(s))
  {
    TrimLeftEnd(s);
    var t := TrimLeft(s);
    TrimRightEnd(t);
    var k :| 0 <= k <= |t| && TrimRight(t) == t[..k];
  }

  lemma TrimShorter(s: Bytes)
    ensures |Trim(s)| <= |s|
  {
    TrimLeftEnd(s);
    TrimRightEnd(TrimLeft(s));
  }

  lemma TrimFixesTrimmed(s: Bytes)
    requires Trimmed(s)
    ensures Trim(s) == s
  {
  }

  lemma TrimIdempotent(s: Bytes)
    ensures Trim(Trim(s)) == Trim(s)
  {
    TrimIsTrimmed(s);
  }

  function UpperByte(b: byte): byte {
    if 97 <= b <= 122 then b - 32 else b
  }

  function LowerByte(b: byte): byte {
    if 65 <= b <= 90 then b + 32 else b
  }

  /** Equal up to the case of ASCII letters; keyword is in upper case. */
  predicate SameLetters(s: Bytes, keyword: Bytes) {
    |s| == |keyword| && forall i | 0 <= i < |s| :: UpperByte(s[i]) == keyword[i]
  }

  /** Byte-wise lexicographic order: Go's < on strings, and the key order of the store. */
  predicate Less(a: Bytes, b: Bytes) {
    b != [] && (a == [] || a[0] < b[0] || (a[0] == b[0] && Less(a[1..], b[1..])))
  }

  predicate AtMost(a: Bytes, b: Bytes) {
    a == b || Less(a, b)
  }

  lemma {:induction false} LessIrreflexive(a: Bytes)
    ensures !Less(a, a)
  {
    if a != [] {
      LessIrreflexive(a[1..]);
    }
  }

  lemma {:induction false} LessTransitive(a: Bytes, b: Bytes, c: Bytes)
    requires Less(a, b) && Less(b, c)
    ensures Less(a, c)
  {
    if a != [] && a[0] == b[0] == c[0] {
      LessTransitive(a[1..], b[1..], c[1..]);
    }
  }

  lemma {:induction false} LessTotal(a: Bytes, b: Bytes)
    ensures a == b || Less(a, b) || Less(b, a)
  {
    if a != [] && b != [] && a[0] == b[0] {
      LessTotal(a[1..], b[1..]);
      assert a == [a[0]] + a[1..] && b == [b[0]] + b[1..];
    }
  }

  lemma LessAsymmetric(a: Bytes, b: Bytes)
    requires Less(a, b)
    ensures !Less(b, a) && a != b
  {
    LessIrreflexive(a);
    if Less(b, a) {
      LessTransitive(a, b, a);
    }
  }

  lemma AtMostTransitive(a: Bytes, b: Bytes, c: Bytes)
    requires AtMost(a, b) && AtMost(b, c)
    ensures AtMost(a, c)
  {
    if a != b && b != c {
      LessTransitive(a, b, c);
    }
  }

  lemma AtMostAntisymmetric(a: Bytes, b: Bytes)
    requires AtMost(a, b) && AtMost(b, a)
    ensures a == b
  {
    if a != b {
      LessAsymmetric(a, b);
    }
  }

  // ---------------------------------------------------------------- splitting

  /** strings.Split at one byte. */
  function SplitOn(s: Bytes, sep: byte): (parts: seq<Bytes>)
    ensures |parts| >= 1
  {
    if s == [] then [[]]
    else
      var rest := SplitOn(s[1..], sep);
      if s[0] == sep then [[]] + rest
      else [[s[0]] + rest[0]] + rest[1..]
  }

  lemma {:induction false} SplitOnNone(a: Bytes, sep: byte)
    requires sep !in a
    ensures SplitOn(a, sep) == [a]
  {
    if a != [] {
      SplitOnNone(a[1..], sep);
      assert a == [a[0]] + a[1..];
    }
  }

  lemma {:induction false} SplitOnAt(a: Bytes, rest: Bytes, sep: byte)
    requires sep !in a
    ensures SplitOn(a + [sep] + rest, sep) == [a] + SplitOn(rest, sep)
  {
    var s := a + [sep] + rest;
    if a == [] {
      assert s[1..] == rest;
    } else {
      SplitOnAt(a[1..], rest, sep);
      assert s[1..] == a[1..] + [sep] + rest;
      assert a == [a[0]] + a[1..];
    }
  }

  /** ASCII without white space and control characters. */
  predicate Visible(s: Bytes) {
    forall b | b in s :: 33 <= b <= 126
  }

  /** The bytes of an ASCII text. */
  function Ascii(s: string): (b: Bytes)
    ensures |b| == |s| && forall i | 0 <= i < |s| && s[i] < 128 as char :: b[i] == s[i] as int
  {
    seq(|s|, i requires 0 <= i < |s| => if s[i] < 128 as char then s[i] as int else 63)
  }

  lemma VisibleIsTrimmed(s: Bytes)
    requires Visible(s)
    ensures Trim(s) == s
  {
    assert forall i | 0 <= i < |s| :: s[i] in s;
    TrimFixesTrimmed(s);
  }
}
