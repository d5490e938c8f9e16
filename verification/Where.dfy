/** The parser for WHERE conditions: AND and OR at the top level, outside quotes and parentheses. */
module Where {
  import opened Wrappers
  import opened Text

  const SPACE: byte := 32
  const DOUBLE: byte := 34
  const SINGLE: byte := 39
  const OPEN: byte := 40
  const CLOSE: byte := 41
  const BACKSLASH: byte := 92
  const AND: Bytes := [65, 78, 68]
  const OR: Bytes := [79, 82]

  // ---------------------------------------------------------------- quotes, parentheses and tokens

  datatype Quote = Plain | InSingle | InDouble

  datatype Config = Config(i: nat, quote: Quote, depth: nat)

  predicate Ident(b: byte) {
    48 <= b <= 57 || 65 <= b <= 90 || 97 <= b <= 122 || b == 95
  }

  /** The number of backslashes right before i. */
  function Backslashes(raw: Bytes, i: nat): nat
    requires i <= |raw|
  {
    if i > 0 && raw[i - 1] == BACKSLASH then 1 + Backslashes(raw, i - 1) else 0
  }

  /** How the scanner moves over one byte as far as quotes go; plain bytes are looked at further. */
  datatype Lexed = Lexed(quote: Quote, width: nat, plain: bool)

  function OverQuote(raw: Bytes, i: nat, q: Quote, inside: Quote): (l: Lexed)
    requires i < |raw|
    ensures 1 <= l.width && i + l.width <= |raw|
  {
    if Backslashes(raw, i) % 2 == 1 then Lexed(q, 1, false)
    else if q == inside && i + 1 < |raw| && raw[i + 1] == raw[i] then Lexed(q, 2, false)
    else Lexed(if q == inside then Plain else inside, 1, false)
  }

  function Lex(raw: Bytes, i: nat, q: Quote): (l: Lexed)
    requires i < |raw|
    ensures 1 <= l.width && i + l.width <= |raw| && (l.plain ==> l.width == 1 && l.quote == Plain)
  {
    if raw[i] == SINGLE && q != InDouble then OverQuote(raw, i, q, InSingle)
    else if raw[i] == DOUBLE && q != InSingle then OverQuote(raw, i, q, InDouble)
    else Lexed(q, 1, q == Plain)
  }

  /** The token stands at i, not as part of a longer identifier. */
  predicate MatchesAt(raw: Bytes, i: nat, token: Bytes) {
    var end := i + |token|;
    && end <= |raw| && SameLetters(raw[i..end], token)
    && (i > 0 ==> !Ident(raw[i - 1])) && (end < |raw| ==> !Ident(raw[end]))
  }

  datatype Outcome = Moved(c: Config) | Found | Stuck

  function Step(raw: Bytes, token: Bytes, c: Config): (o: Outcome)
    requires c.i < |raw|
    ensures o.Moved? ==> c.i < o.c.i <= |raw|
    ensures o.Found? ==> MatchesAt(raw, c.i, token) && c.depth == 0
  {
    var l := Lex(raw, c.i, c.quote);
    if !l.plain then Moved(Config(c.i + l.width, l.quote, c.depth))
    else if raw[c.i] == OPEN then Moved(Config(c.i + 1, Plain, c.depth + 1))
    else if raw[c.i] == CLOSE then if c.depth == 0 then Stuck else Moved(Config(c.i + 1, Plain, c.depth - 1))
    else if c.depth == 0 && MatchesAt(raw, c.i, token) then Found
    else Moved(Config(c.i + 1, Plain, c.depth))
  }

  // ---------------------------------------------------------------- splitting at a token

  /** None stands for the nil result: something is left open, or a part is blank. */
  function SplitFrom(raw: Bytes, token: Bytes, start: nat, c: Config): Option<seq<Bytes>>
    requires start <= c.i <= |raw| && token != []
    decreases |raw| - c.i
  {
    if c.i == |raw| then
      if c.quote != Plain || c.depth != 0 || Blank(raw[start..]) then None else Some([Trim(raw[start..])])
    else
      match Step(raw, token, c)
      case Stuck => None
      case Moved(d) => SplitFrom(raw, token, start, d)
      case Found =>
        if Blank(raw[start..c.i]) then None
        else
          var next := c.i + |token|;
          var rest := SplitFrom(raw, token, next, Config(next, Plain, 0));
          if rest.None? then None else Some([Trim(raw[start..c.i])] + rest.value)
  }

  function Split(raw: Bytes, token: Bytes): Option<seq<Bytes>>
    requires token != []
  {
    var r := Trim(raw);
    if r == [] then None else SplitFrom(r, token, 0, Config(0, Plain, 0))
  }

  function Prepend(parts: seq<Bytes>, rest: Option<seq<Bytes>>): Option<seq<Bytes>> {
    if rest.None? then None else Some(parts + rest.value)
  }

  method SplitBoolean(text: Bytes, token: Bytes) returns (result: Option<seq<Bytes>>)
    requires token != []
    ensures result == Split(text, token)
  {
    hide Step, Trim;
    var raw := Trim(text);
    if raw == [] {
      return None;
    }
    var parts: seq<Bytes> := [];
    var start: nat, c := 0, Config(0, Plain, 0);
    PrependNothing(SplitFrom(raw, token, start, c));
    while c.i < |raw|
      invariant start <= c.i <= |raw|
      invariant Split(text, token) == Prepend(parts, SplitFrom(raw, token, start, c))
      decreases |raw| - c.i
    {
      var o := Step(raw, token, c);
      if o.Stuck? {
        return None;
      }
      if o.Moved? {
        c := o.c;
        continue;
      }
      var part := Trim(raw[start..c.i]);
      if part == [] {
        return None;
      }
      Regroup(parts, part, SplitFrom(raw, token, c.i + |token|, Config(c.i + |token|, Plain, 0)));
      parts := parts + [part];
      start := c.i + |token|;
      c := Config(start, Plain, 0);
    }
    if c.quote != Plain || c.depth != 0 {
      return None;
    }
    var last := Trim(raw[start..]);
    if last == [] {
      return None;
    }
    parts := parts + [last];
    return Some(parts);
  }

  lemma PrependNothing(rest: Option<seq<Bytes>>)
    ensures Prepend([], rest) == rest
  {
    if rest.Some? {
      assert [] + rest.value == rest.value;
    }
  }

  lemma Regroup(parts: seq<Bytes>, part: Bytes, rest: Option<seq<Bytes>>)
    ensures Prepend(parts, Prepend([part], rest)) == Prepend(parts + [part], rest)
  {
    if rest.Some? {
      assert parts + ([part] + rest.value) == parts + [part] + rest.value;
    }
  }

  /** The parts are shorter than the whole as soon as there are two of them. */
  lemma {:induction false} PartsShorter(raw: Bytes, token: Bytes, start: nat, c: Config)
    requires start <= c.i <= |raw| && token != [] && SplitFrom(raw, token, start, c).Some?
    ensures var ps := SplitFrom(raw, token, start, c).value;
            && |ps| >= 1
            && (forall i | 0 <= i < |ps| :: |ps[i]| <= |raw| - start)
            && (|ps| > 1 ==> forall i | 0 <= i < |ps| :: |ps[i]| < |raw| - start)
    decreases |raw| - c.i
  {
    hide Step, Trim;
    if c.i == |raw| {
      TrimShorter(raw[start..]);
    } else {
      match Step(raw, token, c) {
        case Moved(d) => PartsShorter(raw, token, start, d);
        case Found =>
          TrimShorter(raw[start..c.i]);
          PartsShorter(raw, token, c.i + |token|, Config(c.i + |token|, Plain, 0));
        case Stuck =>
      }
    }
  }

  lemma SplitShorter(raw: Bytes, token: Bytes)
    requires token != [] && Split(raw, token).Some? && |Split(raw, token).value| > 1
    ensures forall i | 0 <= i < |Split(raw, token).value| :: |Split(raw, token).value[i]| < |raw|
  {
    hide Trim, SplitFrom;
    TrimShorter(raw);
    PartsShorter(Trim(raw), token, 0, Config(0, Plain, 0));
  }

  // ---------------------------------------------------------------- outer parentheses

  /** The parenthesis at the front is closed by the one at the end, and not before. */
  predicate Encloses(raw: Bytes, c: Config)
    requires c.i <= |raw|
    decreases |raw| - c.i
  {
    if c.i == |raw| then c.quote == Plain && c.depth == 0
    else
      var l := Lex(raw, c.i, c.quote);
      if !l.plain then Encloses(raw, Config(c.i + l.width, l.quote, c.depth))
      else if raw[c.i] == OPEN then Encloses(raw, Config(c.i + 1, Plain, c.depth + 1))
      else if raw[c.i] == CLOSE then
        c.depth > 0 && (c.depth > 1 || c.i == |raw| - 1) && Encloses(raw, Config(c.i + 1, Plain, c.depth - 1))
      else Encloses(raw, Config(c.i + 1, Plain, c.depth))
  }

  function TrimOnce(raw: Bytes): (inner: Option<Bytes>)
    ensures inner.Some? ==> |inner.value| < |raw|
  {
    var r := Trim(raw);
    TrimShorter(raw);
    if |r| < 2 || r[0] != OPEN || r[|r| - 1] != CLOSE || !Encloses(r, Config(0, Plain, 0)) then None
    else Some(r[1..|r| - 1])
  }

  method TrimOuterParensOnce(text: Bytes) returns (inner: Option<Bytes>)
    ensures inner == TrimOnce(text)
  {
    hide Lex;
    var raw := Trim(text);
    if |raw| < 2 || raw[0] != OPEN || raw[|raw| - 1] != CLOSE {
      return None;
    }
    var c := Config(0, Plain, 0);
    while c.i < |raw|
      invariant c.i <= |raw| && Encloses(raw, Config(0, Plain, 0)) == Encloses(raw, c)
      decreases |raw| - c.i
    {
      var l := Lex(raw, c.i, c.quote);
      if !l.plain {
        c := Config(c.i + l.width, l.quote, c.depth);
        continue;
      }
      if raw[c.i] == OPEN {
        c := Config(c.i + 1, Plain, c.depth + 1);
        continue;
      }
      if raw[c.i] == CLOSE {
        if c.depth == 0 || (c.depth == 1 && c.i != |raw| - 1) {
          return None;
        }
        c := Config(c.i + 1, Plain, c.depth - 1);
        continue;
      }
      c := Config(c.i + 1, Plain, c.depth);
    }
    if c.quote != Plain || c.depth != 0 {
      return None;
    }
    return Some(raw[1..|raw| - 1]);
  }

  function Strip(raw: Bytes): (r: Bytes)
    ensures |r| <= |raw|
    decreases |raw|
  {
    TrimShorter(raw);
    var inner := TrimOnce(raw);
    if inner.None? then Trim(raw) else Strip(inner.value)
  }

  lemma TrimOnceTrims(raw: Bytes)
    ensures TrimOnce(Trim(raw)) == TrimOnce(raw)
  {
    TrimIdempotent(raw);
  }

  method StripOuterParens(text: Bytes) returns (raw: Bytes)
    ensures raw == Strip(text)
  {
    hide Trim;
    raw := Trim(text);
    TrimIdempotent(text);
    TrimOnceTrims(text);
    ghost var whole := text;
    while true
      invariant raw == Trim(whole) && Strip(text) == Strip(whole)
      decreases |whole|
    {
      TrimOnceTrims(whole);
      var inner := TrimOuterParensOnce(raw);
      if inner.None? {
        return;
      }
      whole := inner.value;
      raw := Trim(inner.value);
    }
  }

  // ---------------------------------------------------------------- the parser

  datatype Operator = AndOp | OrOp

  datatype Tree = Leaf(text: Bytes) | Node(op: Operator, left: Tree, right: Tree)

  function TokenOf(op: Operator): (token: Bytes)
    ensures token != []
  {
    if op.AndOp? then AND else OR
  }

  function Several(parts: Option<seq<Bytes>>): bool {
    parts.Some? && |parts.value| > 1
  }

  /** accepts is what the expressions for a single comparison accept. */
  function ParseNode(text: Bytes, accepts: Bytes -> bool): Option<Tree>
    decreases |text|, 2, 0
  {
    var raw := Strip(text);
    if raw == [] then None
    else
      var parts := Split(raw, OR);
      if Several(parts) then
        SplitShorter(raw, OR);
        ParseParts(parts.value, OrOp, accepts, |raw|)
      else ParseAndNode(raw, accepts)
  }

  function ParseAndNode(text: Bytes, accepts: Bytes -> bool): Option<Tree>
    decreases |text|, 1, 0
  {
    var raw := Strip(text);
    if raw == [] then None
    else
      var parts := Split(raw, AND);
      if Several(parts) then
        SplitShorter(raw, AND);
        ParseParts(parts.value, AndOp, accepts, |raw|)
      else if accepts(raw) then Some(Leaf(raw))
      else None
  }

  /** Parses all parts and combines them from the left. */
  function ParseParts(parts: seq<Bytes>, op: Operator, accepts: Bytes -> bool, ghost bound: nat): Option<Tree>
    requires parts != [] && forall i | 0 <= i < |parts| :: |parts[i]| < bound
    decreases bound, 0, |parts|
  {
    var n := |parts| - 1;
    if n == 0 then ParseNode(parts[0], accepts)
    else
      var left, right := ParseParts(parts[..n], op, accepts, bound), ParseNode(parts[n], accepts);
      if left.Some? && right.Some? then Some(Node(op, left.value, right.value)) else None
  }

  method ParseWhereNode(text: Bytes, accepts: Bytes -> bool) returns (tree: Option<Tree>)
    ensures tree == ParseNode(text, accepts)
    decreases |text|, 2
  {
    var raw := StripOuterParens(text);
    if raw == [] {
      return None;
    }
    var parts := SplitBoolean(raw, OR);
    if Several(parts) {
      SplitShorter(raw, OR);
      tree := CombineParts(parts.value, OrOp, accepts, |raw|);
      return;
    }
    tree := ParseWhereAndNode(raw, accepts);
  }

  method ParseWhereAndNode(text: Bytes, accepts: Bytes -> bool) returns (tree: Option<Tree>)
    ensures tree == ParseAndNode(text, accepts)
    decreases |text|, 1
  {
    var raw := StripOuterParens(text);
    if raw == [] {
      return None;
    }
    var parts := SplitBoolean(raw, AND);
    if Several(parts) {
      SplitShorter(raw, AND);
      tree := CombineParts(parts.value, AndOp, accepts, |raw|);
      return;
    }
    if !accepts(raw) {
      return None;
    }
    return Some(Leaf(raw));
  }

  method CombineParts(parts: seq<Bytes>, op: Operator, accepts: Bytes -> bool, ghost bound: nat)
    returns (tree: Option<Tree>)
    requires parts != [] && forall i | 0 <= i < |parts| :: |parts[i]| < bound
    ensures tree == ParseParts(parts, op, accepts, bound)
    decreases bound, 0
  {
    hide ParseNode;
    tree := ParseWhereNode(parts[0], accepts);
    var k := 1;
    assert parts[..1] == [parts[0]];
    while k < |parts|
      invariant 1 <= k <= |parts|
      invariant tree == ParseParts(parts[..k], op, accepts, bound)
    {
      assert parts[..k + 1][..k] == parts[..k];
      if tree.None? {
        PartsFail(parts, k, op, accepts, bound);
        return;
      }
      var right := ParseWhereNode(parts[k], accepts);
      tree := if right.None? then None else Some(Node(op, tree.value, right.value));
      k := k + 1;
    }
    assert parts[..k] == parts;
  }

  lemma {:induction false} PartsFail(parts: seq<Bytes>, k: nat, op: Operator, accepts: Bytes -> bool, bound: nat)
    requires 1 <= k <= |parts| && forall i | 0 <= i < |parts| :: |parts[i]| < bound
    requires ParseParts(parts[..k], op, accepts, bound).None?
    ensures ParseParts(parts, op, accepts, bound).None?
    decreases |parts|
  {
    if k == |parts| {
      assert parts[..k] == parts;
    } else {
      var n := |parts| - 1;
      assert parts[..n][..k] == parts[..k];
      PartsFail(parts[..n], k, op, accepts, bound);
    }
  }

  // ---------------------------------------------------------------- the parsed condition

  function TextsOf(tree: Tree): seq<Bytes> {
    match tree
    case Leaf(text) => [text]
    case Node(_, left, right) => TextsOf(left) + TextsOf(right)
  }

  function OperatorsOf(tree: Tree): set<Operator> {
    match tree
    case Leaf(_) => {}
    case Node(op, left, right) => OperatorsOf(left) + {op} + OperatorsOf(right)
  }

  /** The operator met so far, and whether all met so far were the same. */
  datatype Logic = Logic(op: Option<Operator>, uniform: bool)

  /** The walk meets the operators from left to right and stops at the first one that differs. */
  function Walk(tree: Tree, l: Logic): Logic {
    if !l.uniform || tree.Leaf? then l
    else
      var m := Walk(tree.left, l);
      if !m.uniform then Walk(tree.right, m)
      else if m.op.None? then Walk(tree.right, Logic(Some(tree.op), true))
      else if m.op.value != tree.op then Logic(m.op, false)
      else Walk(tree.right, m)
  }

  function Known(l: Logic): set<Operator> {
    if l.op.Some? then {l.op.value} else {}
  }

  lemma NoOthers(ops: set<Operator>)
    ensures ops <= {AndOp, OrOp}
  {
    forall x | x in ops ensures x in {AndOp, OrOp} {
      assert x.AndOp? || x.OrOp?;
    }
  }

  lemma {:induction false} WalkFinds(tree: Tree, l: Logic)
    requires l.uniform
    ensures var m := Walk(tree, l);
            && (m.uniform ==> Known(m) == Known(l) + OperatorsOf(tree))
            && (!m.uniform ==> Known(l) + OperatorsOf(tree) == {AndOp, OrOp})
    decreases tree
  {
    if tree.Node? {
      NoOthers(Known(l) + OperatorsOf(tree));
      WalkFinds(tree.left, l);
      var m := Walk(tree.left, l);
      if m.uniform && (m.op.None? || m.op.value == tree.op) {
        WalkFinds(tree.right, if m.op.None? then Logic(Some(tree.op), true) else m);
      }
    }
  }

  datatype Expr = Expr(atoms: seq<Bytes>, useOr: bool, root: Tree)

  method ParseWhereExpr(text: Bytes, accepts: Bytes -> bool) returns (expr: Option<Expr>)
    ensures var tree := ParseNode(Strip(text), accepts);
            expr.Some? <==> Strip(text) != [] && tree.Some?
    ensures expr.Some? ==> var tree := ParseNode(Strip(text), accepts).value;
                           && expr.value.root == tree && expr.value.atoms == TextsOf(tree) != []
                           && (expr.value.useOr <==> OperatorsOf(tree) == {OrOp})
  {
    var raw := StripOuterParens(text);
    if raw == [] {
      return None;
    }
    var tree := ParseWhereNode(raw, accepts);
    if tree.None? {
      return None;
    }
    SomeText(tree.value);
    WalkFinds(tree.value, Logic(None, true));
    var logic := Walk(tree.value, Logic(None, true));
    return Some(Expr(TextsOf(tree.value), logic.uniform && logic.op == Some(OrOp), tree.value));
  }

  lemma SomeText(tree: Tree)
    ensures TextsOf(tree) != []
  {
  }
}
