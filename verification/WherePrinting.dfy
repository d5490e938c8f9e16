/** Printing WHERE conditions with all parentheses, and parsing them back. */
module WherePrinting {
  import opened Wrappers
  import opened Text
  import opened Where

  // ---------------------------------------------------------------- scanning part of a text

  predicate IsToken(token: Bytes) {
    token == AND || token == OR
  }

  /** At its ends the part neither splits an identifier nor separates a quote from what decides about it. */
  predicate Edges(t: Bytes, lo: nat, hi: nat) {
    && lo <= hi <= |t|
    && (0 < lo < hi ==> t[lo - 1] != BACKSLASH && !(Ident(t[lo - 1]) && Ident(t[lo])))
    && (lo < hi < |t| ==> t[hi] != SINGLE && t[hi] != DOUBLE && !(Ident(t[hi - 1]) && Ident(t[hi])))
  }

  function Lifted(c: Config, lo: nat): Config {
    Config(c.i + lo, c.quote, c.depth)
  }

  function LiftedStep(o: Outcome, lo: nat): Outcome {
    if o.Moved? then Moved(Lifted(o.c, lo)) else o
  }

  lemma {:induction false} BackslashesWithin(t: Bytes, lo: nat, hi: nat, i: nat)
    requires Edges(t, lo, hi) && lo + i < hi
    ensures Backslashes(t[lo..hi], i) == Backslashes(t, lo + i)
    decreases i
  {
    if i > 0 {
      BackslashesWithin(t, lo, hi, i - 1);
    }
  }

  lemma LexWithin(t: Bytes, lo: nat, hi: nat, i: nat, q: Quote)
    requires Edges(t, lo, hi) && lo + i < hi
    ensures Lex(t[lo..hi], i, q) == Lex(t, lo + i, q)
  {
    BackslashesWithin(t, lo, hi, i);
  }

  lemma SliceOfSlice(t: Bytes, lo: nat, hi: nat, a: nat, b: nat)
    requires lo <= hi <= |t| && a <= b <= hi - lo
    ensures t[lo..hi][a..b] == t[lo + a..lo + b]
  {
    var x, y := t[lo..hi][a..b], t[lo + a..lo + b];
    assert |x| == |y| && forall k | 0 <= k < |x| :: x[k] == y[k];
  }

  /** Where the token stands, there is no edge inside it. */
  lemma TokenWithin(t: Bytes, lo: nat, hi: nat, i: nat, token: Bytes)
    requires Edges(t, lo, hi) && lo <= i < hi && IsToken(token) && MatchesAt(t, i, token)
    ensures i + |token| <= hi
  {
    TokenBytes(t, i, token);
  }

  lemma TokenBytes(t: Bytes, i: nat, token: Bytes)
    requires IsToken(token) && MatchesAt(t, i, token)
    ensures forall k | i <= k < i + |token| :: Ident(t[k])
  {
    var s := t[i..i + |token|];
    forall k | i <= k < i + |token| ensures Ident(t[k]) {
      assert s[k - i] == t[k];
    }
  }

  lemma MatchesInPart(t: Bytes, lo: nat, hi: nat, i: nat, token: Bytes)
    requires Edges(t, lo, hi) && lo + i < hi && IsToken(token) && MatchesAt(t, lo + i, token)
    ensures MatchesAt(t[lo..hi], i, token)
  {
    TokenWithin(t, lo, hi, lo + i, token);
    SliceOfSlice(t, lo, hi, i, i + |token|);
  }

  lemma MatchesInWhole(t: Bytes, lo: nat, hi: nat, i: nat, token: Bytes)
    requires Edges(t, lo, hi) && lo + i < hi && IsToken(token) && MatchesAt(t[lo..hi], i, token)
    ensures MatchesAt(t, lo + i, token)
  {
    var s := t[lo + i..lo + (i + |token|)];
    SliceOfSlice(t, lo, hi, i, i + |token|);
    assert s[0] == t[lo + i] && s[|token| - 1] == t[lo + i + |token| - 1];
  }

  lemma MatchWithin(t: Bytes, lo: nat, hi: nat, i: nat, token: Bytes)
    requires Edges(t, lo, hi) && lo + i < hi && IsToken(token)
    ensures MatchesAt(t[lo..hi], i, token) <==> MatchesAt(t, lo + i, token)
  {
    hide MatchesAt;
    if MatchesAt(t[lo..hi], i, token) {
      MatchesInWhole(t, lo, hi, i, token);
    }
    if MatchesAt(t, lo + i, token) {
      MatchesInPart(t, lo, hi, i, token);
    }
  }

  lemma StepWithin(t: Bytes, lo: nat, hi: nat, token: Bytes, c: Config)
    requires Edges(t, lo, hi) && lo + c.i < hi && IsToken(token)
    ensures Step(t, token, Lifted(c, lo)) == LiftedStep(Step(t[lo..hi], token, c), lo)
  {
    hide Lex, MatchesAt;
    LexWithin(t, lo, hi, c.i, c.quote);
    MatchWithin(t, lo, hi, c.i, token);
  }

  /** The scanner gets from c to d without finding the token and without closing more than base parentheses. */
  predicate Passes(raw: Bytes, token: Bytes, base: nat, c: Config, d: Config)
    requires c.i <= |raw|
    decreases |raw| - c.i
  {
    || c == d
    || (c.i < |raw| && c.i < d.i
        && var o := Step(raw, token, c);
           o.Moved? && base <= o.c.depth && o.c.i <= d.i && Passes(raw, token, base, o.c, d))
  }

  /** The whole text is passed over: quotes and parentheses are closed, and the token is not at the top. */
  predicate Clean(w: Bytes, token: Bytes, base: nat) {
    Passes(w, token, base, Config(0, Plain, base), Config(|w|, Plain, base))
  }

  lemma {:induction false} PassesWithin(t: Bytes, lo: nat, hi: nat, token: Bytes, base: nat, c: Config, d: Config)
    requires Edges(t, lo, hi) && IsToken(token) && c.i <= hi - lo && d.i <= hi - lo
    requires Passes(t[lo..hi], token, base, c, d)
    ensures Passes(t, token, base, Lifted(c, lo), Lifted(d, lo))
    decreases hi - lo - c.i
  {
    hide Step;
    if c != d {
      StepWithin(t, lo, hi, token, c);
      PassesWithin(t, lo, hi, token, base, Step(t[lo..hi], token, c).c, d);
    }
  }

  lemma {:induction false} PassesOn(raw: Bytes, token: Bytes, base: nat, c: Config, d: Config, e: Config)
    requires c.i <= |raw| && d.i <= |raw| && Passes(raw, token, base, c, d) && Passes(raw, token, base, d, e)
    ensures Passes(raw, token, base, c, e)
    decreases |raw| - c.i
  {
    hide Step;
    if c != d {
      PassesOn(raw, token, base, Step(raw, token, c).c, d, e);
    }
  }

  /** A clean part of a text is passed over. */
  lemma PassesClean(t: Bytes, lo: nat, hi: nat, token: Bytes, base: nat)
    requires Edges(t, lo, hi) && IsToken(token) && Clean(t[lo..hi], token, base)
    ensures Passes(t, token, base, Config(lo, Plain, base), Config(hi, Plain, base))
  {
    hide Passes;
    PassesWithin(t, lo, hi, token, base, Config(0, Plain, base), Config(hi - lo, Plain, base));
  }

  lemma StepDeeper(w: Bytes, token: Bytes, other: Bytes, c: Config)
    requires c.i < |w| && Step(w, token, c).Moved?
    ensures Step(w, other, c.(depth := c.depth + 1))
            == Moved(Step(w, token, c).c.(depth := Step(w, token, c).c.depth + 1))
  {
  }

  /** Inside one more pair of parentheses no token counts. */
  lemma {:induction false} PassesDeeper(w: Bytes, token: Bytes, other: Bytes, c: Config, d: Config)
    requires c.i <= |w| && Passes(w, token, 0, c, d)
    ensures Passes(w, other, 1, c.(depth := c.depth + 1), d.(depth := d.depth + 1))
    decreases |w| - c.i
  {
    hide Step;
    if c != d {
      StepDeeper(w, token, other, c);
      PassesDeeper(w, token, other, Step(w, token, c).c, d);
    }
  }

  lemma {:induction false} SplitPasses(raw: Bytes, token: Bytes, start: nat, base: nat, c: Config, d: Config)
    requires start <= c.i <= |raw| && d.i <= |raw| && token != [] && Passes(raw, token, base, c, d)
    ensures start <= d.i && SplitFrom(raw, token, start, c) == SplitFrom(raw, token, start, d)
    decreases |raw| - c.i
  {
    hide Step, Trim;
    if c != d {
      SplitPasses(raw, token, start, base, Step(raw, token, c).c, d);
    }
  }

  lemma {:induction false} EnclosesPasses(raw: Bytes, token: Bytes, c: Config, d: Config)
    requires c.i <= |raw| && d.i <= |raw| && c.depth >= 1 && Passes(raw, token, 1, c, d)
    ensures Encloses(raw, c) == Encloses(raw, d)
    decreases |raw| - c.i
  {
    hide Lex;
    if c != d {
      EnclosesPasses(raw, token, Step(raw, token, c).c, d);
    }
  }

  // ---------------------------------------------------------------- white space at the ends

  lemma TrimmedEnds(a: Bytes, mid: Bytes, b: Bytes)
    requires Trimmed(a) && Trimmed(b) && a != [] && b != []
    requires mid != [] && mid[0] < 128 && mid[|mid| - 1] < 128
    ensures Trimmed(a + mid + b)
  {
  }

  lemma TrimSpaces(a: Bytes)
    requires Trimmed(a) && a != []
    ensures Trim(a + [SPACE]) == a && Trim([SPACE] + a) == a
  {
    var s, t := a + [SPACE], [SPACE] + a;
    assert SpaceHead(s) == 0 && SpaceTail(s) == 1 && s[..|s| - 1] == a;
    assert TrimLeft(s) == s && TrimRight(s) == TrimRight(a) == a;
    assert SpaceHead(t) == 1 && t[1..] == a;
    assert TrimLeft(t) == TrimLeft(a) == a;
  }

  lemma Parenthesized(w: Bytes)
    ensures Trimmed([OPEN] + w + [CLOSE])
  {
  }

  // ---------------------------------------------------------------- two parts around a token

  function Glue(op: Operator): Bytes {
    [SPACE] + TokenOf(op) + [SPACE]
  }

  /** A text that is closed, trimmed and free of tokens at the top. */
  predicate Whole(p: Bytes) {
    p != [] && Trimmed(p) && Clean(p, AND, 0) && Clean(p, OR, 0)
  }

  predicate Dull(b: byte) {
    b != SINGLE && b != DOUBLE && b != OPEN && b != CLOSE
  }

  lemma {:induction false} DullRun(t: Bytes, lo: nat, hi: nat, token: Bytes, base: nat)
    requires lo <= hi <= |t| && IsToken(token)
    requires forall k | lo <= k < hi :: Dull(t[k]) && UpperByte(t[k]) != token[0]
    ensures Passes(t, token, base, Config(lo, Plain, base), Config(hi, Plain, base))
    decreases hi - lo
  {
    if lo < hi {
      DullRun(t, lo + 1, hi, token, base);
    }
  }

  lemma Shallower(raw: Bytes, token: Bytes, c: Config, d: Config)
    requires c.i <= |raw| && Passes(raw, token, 1, c, d)
    ensures Passes(raw, token, 0, c, d)
    decreases |raw| - c.i
  {
    hide Step;
    if c != d {
      Shallower(raw, token, Step(raw, token, c).c, d);
    }
  }

  function Pasted(a: Bytes, op: Operator, b: Bytes): Bytes {
    a + Glue(op) + b
  }

  lemma PastedBytes(a: Bytes, op: Operator, b: Bytes)
    requires a != [] && b != []
    ensures var t, n, m := Pasted(a, op, b), |a|, |a| + |Glue(op)|;
            && |t| == m + |b| && t[0..n] == a && t[m..|t|] == b && t[n..m] == Glue(op)
            && Edges(t, 0, n) && Edges(t, m, |t|) && t[n] == SPACE && t[m - 1] == SPACE
  {
    var t, n, m := Pasted(a, op, b), |a|, |a| + |Glue(op)|;
    assert t[0..n] == a && t[m..|t|] == b;
    assert Glue(op)[0] == SPACE && Glue(op)[|Glue(op)| - 1] == SPACE;
    assert t[n..m] == Glue(op);
    assert t[n] == t[n..m][0] && t[m - 1] == t[n..m][m - 1 - n];
  }

  lemma GlueDull(op: Operator, other: Operator)
    requires op != other
    ensures forall k | 0 <= k < |Glue(op)| :: Dull(Glue(op)[k]) && UpperByte(Glue(op)[k]) != TokenOf(other)[0]
  {
  }

  /** The scanner passes over both parts, and over the glue unless it looks for the operator at the top. */
  lemma PastedPasses(a: Bytes, op: Operator, b: Bytes, x: Operator)
    requires Whole(a) && Whole(b)
    ensures var t, n, m := Pasted(a, op, b), |a|, |a| + |Glue(op)|;
            && Passes(t, TokenOf(x), 0, Config(0, Plain, 0), Config(n, Plain, 0))
            && Passes(t, TokenOf(x), 0, Config(m, Plain, 0), Config(|t|, Plain, 0))
            && (x != op ==> Passes(t, TokenOf(x), 0, Config(n, Plain, 0), Config(m, Plain, 0)))
  {
    hide Passes, Pasted, Glue;
    var t, n, m := Pasted(a, op, b), |a|, |a| + |Glue(op)|;
    PastedBytes(a, op, b);
    PassesClean(t, 0, n, TokenOf(x), 0);
    PassesClean(t, m, |t|, TokenOf(x), 0);
    if x != op {
      GlueDull(op, x);
      forall k | n <= k < m ensures Dull(t[k]) && UpperByte(t[k]) != TokenOf(x)[0] {
        assert t[k] == t[n..m][k - n];
      }
      DullRun(t, n, m, TokenOf(x), 0);
    }
  }

  function Opposite(op: Operator): Operator {
    if op.AndOp? then OrOp else AndOp
  }

  lemma PastedTrimmed(a: Bytes, op: Operator, b: Bytes)
    requires Whole(a) && Whole(b)
    ensures Trimmed(Pasted(a, op, b)) && Trim(Pasted(a, op, b)) == Pasted(a, op, b)
  {
    hide Clean;
    TrimmedEnds(a, Glue(op), b);
    TrimFixesTrimmed(Pasted(a, op, b));
  }

  /** The other token is not found at the top. */
  lemma PastedClean(a: Bytes, op: Operator, b: Bytes)
    requires Whole(a) && Whole(b)
    ensures Clean(Pasted(a, op, b), TokenOf(Opposite(op)), 0)
    ensures Split(Pasted(a, op, b), TokenOf(Opposite(op))) == Some([Pasted(a, op, b)])
  {
    hide Passes, Pasted, Glue, Trim;
    var t, n, m, token := Pasted(a, op, b), |a|, |a| + |Glue(op)|, TokenOf(Opposite(op));
    PastedBytes(a, op, b);
    PastedPasses(a, op, b, Opposite(op));
    PassesOn(t, token, 0, Config(0, Plain, 0), Config(n, Plain, 0), Config(m, Plain, 0));
    PassesOn(t, token, 0, Config(0, Plain, 0), Config(m, Plain, 0), Config(|t|, Plain, 0));
    PastedTrimmed(a, op, b);
    CleanIsWhole(t, token);
  }

  lemma CleanIsWhole(t: Bytes, token: Bytes)
    requires t != [] && Trimmed(t) && IsToken(token) && Clean(t, token, 0)
    ensures Split(t, token) == Some([t])
  {
    hide Passes, Step, Trim;
    TrimFixesTrimmed(t);
    SplitPasses(t, token, 0, 0, Config(0, Plain, 0), Config(|t|, Plain, 0));
    assert t[0..] == t;
  }

  lemma TokenStands(a: Bytes, op: Operator, b: Bytes)
    requires a != [] && b != []
    ensures Step(Pasted(a, op, b), TokenOf(op), Config(|a| + 1, Plain, 0)) == Found
  {
    hide Pasted;
    var t, n := Pasted(a, op, b), |a|;
    PastedBytes(a, op, b);
    var token := TokenOf(op);
    var s := t[n + 1..n + (1 + |token|)];
    SliceOfSlice(t, n, n + |Glue(op)|, 1, 1 + |token|);
    assert Glue(op)[1..1 + |token|] == token;
    assert t[n + 1] == s[0];
  }

  lemma OneMoreByte(t: Bytes, n: nat, m: nat)
    requires n < |t| && 0 < m <= |t|
    ensures t[0..n + 1] == t[0..n] + [t[n]] && t[m - 1..] == [t[m - 1]] + t[m..|t|]
  {
  }

  /** The operator's own token separates the parts. */
  lemma PastedSplits(a: Bytes, op: Operator, b: Bytes)
    requires Whole(a) && Whole(b)
    ensures Split(Pasted(a, op, b), TokenOf(op)) == Some([a, b])
  {
    hide Passes, Pasted, Trim, Step, Clean;
    var t, n, token := Pasted(a, op, b), |a|, TokenOf(op);
    var m := n + |Glue(op)|;
    PastedBytes(a, op, b);
    PastedTrimmed(a, op, b);
    PastedPasses(a, op, b, op);
    DullRun(t, n, n + 1, token, 0);
    DullRun(t, m - 1, m, token, 0);
    SplitPasses(t, token, 0, 0, Config(0, Plain, 0), Config(n, Plain, 0));
    SplitPasses(t, token, 0, 0, Config(n, Plain, 0), Config(n + 1, Plain, 0));
    TokenStands(a, op, b);
    SplitPasses(t, token, m - 1, 0, Config(m - 1, Plain, 0), Config(m, Plain, 0));
    SplitPasses(t, token, m - 1, 0, Config(m, Plain, 0), Config(|t|, Plain, 0));
    TrimSpaces(a);
    TrimSpaces(b);
    OneMoreByte(t, n, m);
    var rest := SplitFrom(t, token, m - 1, Config(m - 1, Plain, 0));
    assert rest == Some([b]);
    assert SplitFrom(t, token, 0, Config(0, Plain, 0)) == Some([a] + rest.value);
    assert [a] + [b] == [a, b] && t != [];
  }

  // ---------------------------------------------------------------- printing

  function Print(tree: Tree): Bytes {
    match tree
    case Leaf(text) => text
    case Node(op, left, right) => [OPEN] + Pasted(Print(left), op, Print(right)) + [CLOSE]
  }

  /** A comparison as the parser leaves it: trimmed, closed, no token at the top, and not in parentheses. */
  predicate GoodAtom(w: Bytes) {
    Whole(w) && w[0] != OPEN
  }

  predicate GoodTree(tree: Tree, accepts: Bytes -> bool) {
    match tree
    case Leaf(text) => GoodAtom(text) && accepts(text)
    case Node(_, left, right) => GoodTree(left, accepts) && GoodTree(right, accepts)
  }

  predicate Enclosed(p: Bytes) {
    |p| >= 2 && p[0] == OPEN && p[|p| - 1] == CLOSE && Clean(p[1..|p| - 1], AND, 1)
  }

  /** A pair of parentheses around a closed text is passed over, whatever the token. */
  lemma EnclosedIsWhole(t: Bytes, op: Operator)
    requires Clean(t, TokenOf(op), 0)
    ensures var p := [OPEN] + t + [CLOSE]; Whole(p) && Enclosed(p)
  {
    hide Trimmed;
    var p := [OPEN] + t + [CLOSE];
    Parenthesized(t);
    EnclosedClean(t, TokenOf(op), AND);
    EnclosedClean(t, TokenOf(op), OR);
  }

  lemma EnclosedClean(t: Bytes, token: Bytes, x: Bytes)
    requires IsToken(x) && Clean(t, token, 0)
    ensures Clean(t, x, 1) && Clean([OPEN] + t + [CLOSE], x, 0)
  {
    var p, n := [OPEN] + t + [CLOSE], |t| + 1;
    PassesDeeper(t, token, x, Config(0, Plain, 0), Config(|t|, Plain, 0));
    PassesClean(p, 1, n, x, 1);
    Shallower(p, x, Config(1, Plain, 1), Config(n, Plain, 1));
    Parentheses(p, x);
    PassesOn(p, x, 0, Config(1, Plain, 1), Config(n, Plain, 1), Config(n + 1, Plain, 0));
  }

  lemma Parentheses(p: Bytes, token: Bytes)
    requires IsToken(token) && |p| >= 2 && p[0] == OPEN && p[|p| - 1] == CLOSE
    ensures Step(p, token, Config(0, Plain, 0)) == Moved(Config(1, Plain, 1))
    ensures Step(p, token, Config(|p| - 1, Plain, 1)) == Moved(Config(|p|, Plain, 0))
    ensures Passes(p, token, 0, Config(|p| - 1, Plain, 1), Config(|p|, Plain, 0))
  {
  }

  lemma EnclosesWhole(p: Bytes)
    requires Enclosed(p)
    ensures Encloses(p, Config(0, Plain, 0))
  {
    hide Passes;
    var n := |p| - 1;
    PassesClean(p, 1, n, AND, 1);
    EnclosesPasses(p, AND, Config(1, Plain, 1), Config(n, Plain, 1));
  }

  /** If something follows, the first pair of parentheses does not enclose the whole. */
  lemma EnclosesPart(p: Bytes, rest: Bytes)
    requires Enclosed(p) && rest != [] && rest[0] == SPACE
    ensures !Encloses(p + rest, Config(0, Plain, 0))
  {
    hide Passes;
    var t, n := p + rest, |p| - 1;
    assert t[1..n] == p[1..n] && t[0] == OPEN && t[n] == CLOSE;
    PassesClean(t, 1, n, AND, 1);
    EnclosesPasses(t, AND, Config(1, Plain, 1), Config(n, Plain, 1));
  }

  lemma StripEnclosed(t: Bytes)
    requires Enclosed([OPEN] + t + [CLOSE])
    ensures Strip([OPEN] + t + [CLOSE]) == Strip(t)
  {
    hide Encloses, Enclosed, Trimmed;
    var p := [OPEN] + t + [CLOSE];
    Parenthesized(t);
    TrimFixesTrimmed(p);
    EnclosesWhole(p);
  }

  lemma StripStops(t: Bytes)
    requires Trimmed(t) && (t == [] || t[0] != OPEN || !Encloses(t, Config(0, Plain, 0)))
    ensures Strip(t) == t
  {
    hide Encloses;
    TrimFixesTrimmed(t);
  }

  lemma StripPasted(a: Bytes, op: Operator, b: Bytes)
    requires Whole(a) && Whole(b) && (a[0] != OPEN || Enclosed(a))
    ensures Strip(Pasted(a, op, b)) == Pasted(a, op, b)
  {
    hide Enclosed, Clean, Encloses;
    var t := Pasted(a, op, b);
    PastedTrimmed(a, op, b);
    if a[0] == OPEN {
      assert t == a + (Glue(op) + b);
      EnclosesPart(a, Glue(op) + b);
    }
    StripStops(t);
  }

  lemma {:induction false} PrintsWhole(tree: Tree, accepts: Bytes -> bool)
    requires GoodTree(tree, accepts)
    ensures Whole(Print(tree)) && (Print(tree)[0] != OPEN || Enclosed(Print(tree)))
    decreases tree
  {
    hide Clean, Enclosed, Pasted, Trimmed;
    if tree.Node? {
      PrintsWhole(tree.left, accepts);
      PrintsWhole(tree.right, accepts);
      var a, b := Print(tree.left), Print(tree.right);
      PastedClean(a, tree.op, b);
      EnclosedIsWhole(Pasted(a, tree.op, b), Opposite(tree.op));
    }
  }

  /** Parsing the fully parenthesized print of a condition gives the condition. */
  lemma {:induction false} ParsePrinted(tree: Tree, accepts: Bytes -> bool)
    requires GoodTree(tree, accepts)
    ensures ParseNode(Print(tree), accepts) == Some(tree)
    decreases tree
  {
    match tree {
      case Leaf(text) => ParseLeaf(text, accepts);
      case Node(op, left, right) =>
        PrintsWhole(left, accepts);
        PrintsWhole(right, accepts);
        ParsePrinted(left, accepts);
        ParsePrinted(right, accepts);
        ParsePasted(Print(left), op, Print(right), accepts);
    }
  }

  lemma ParseLeaf(text: Bytes, accepts: Bytes -> bool)
    requires GoodAtom(text) && accepts(text)
    ensures ParseNode(text, accepts) == Some(Leaf(text))
  {
    hide Clean, Trimmed, Split, Strip;
    StripStops(text);
    CleanIsWhole(text, OR);
    CleanIsWhole(text, AND);
  }

  /** Two printed conditions, joined and put into parentheses, are parsed as the two joined. */
  lemma ParsePasted(a: Bytes, op: Operator, b: Bytes, accepts: Bytes -> bool)
    requires Whole(a) && Whole(b) && (a[0] != OPEN || Enclosed(a))
    requires ParseNode(a, accepts).Some? && ParseNode(b, accepts).Some?
    ensures ParseNode([OPEN] + Pasted(a, op, b) + [CLOSE], accepts)
            == Some(Node(op, ParseNode(a, accepts).value, ParseNode(b, accepts).value))
  {
    hide Clean, Enclosed, Trimmed, Split, Strip, Pasted;
    var t := Pasted(a, op, b);
    PastedClean(a, op, b);
    PastedSplits(a, op, b);
    EnclosedIsWhole(t, Opposite(op));
    StripEnclosed(t);
    StripPasted(a, op, b);
    PastedBytes(a, op, b);
    SplitShorter(t, TokenOf(op));
    PartsPair(a, b, op, accepts, |t|);
  }

  lemma PartsPair(a: Bytes, b: Bytes, op: Operator, accepts: Bytes -> bool, bound: nat)
    requires |a| < bound && |b| < bound && ParseNode(a, accepts).Some? && ParseNode(b, accepts).Some?
    ensures ParseParts([a, b], op, accepts, bound)
            == Some(Node(op, ParseNode(a, accepts).value, ParseNode(b, accepts).value))
  {
    hide ParseNode;
    assert [a, b][..1] == [a];
  }
}
