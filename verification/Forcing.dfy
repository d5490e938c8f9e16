/** Which relations a WHERE text rules out: those, and only those, may be probed for ahead of the text. */
module Forcing {
  import opened Text
  import opened Physical

  /**
   * The shape of a WHERE text. Related is a relationship pattern that says what the planner reads in it: some
   * edge of the type between the two vertices. A Restricted one says something else, because of labels,
   * properties, hop bounds or a variable without a vertex, and is true or false on its own, but the planner reads
   * it as the relation all the same.
   */
  datatype Formula =
    | Atom(text: Bytes)
    | Related(relation: Relation)
    | Restricted(relation: Relation, text: Bytes)
    | And(Formula, Formula)
    | Or(Formula, Formula)
    | Xor(Formula, Formula)
    | Not(Formula)

  predicate Satisfies(f: Formula, atom: Bytes -> bool, joins: Relation -> bool) {
    match f
    case Atom(text) => atom(text)
    case Related(x) => joins(x)
    case Restricted(_, text) => atom(text)
    case And(a, b) => Satisfies(a, atom, joins) && Satisfies(b, atom, joins)
    case Or(a, b) => Satisfies(a, atom, joins) || Satisfies(b, atom, joins)
    case Xor(a, b) => Satisfies(a, atom, joins) != Satisfies(b, atom, joins)
    case Not(a) => !Satisfies(a, atom, joins)
  }

  function Texts(f: Formula): set<Bytes> {
    match f
    case Atom(text) => {text}
    case Related(_) => {}
    case Restricted(_, text) => {text}
    case And(a, b) => Texts(a) + Texts(b)
    case Or(a, b) => Texts(a) + Texts(b)
    case Xor(a, b) => Texts(a) + Texts(b)
    case Not(a) => Texts(a)
  }

  function Relations(f: Formula): set<Relation> {
    match f
    case Related(x) => {x}
    case And(a, b) => Relations(a) + Relations(b)
    case Or(a, b) => Relations(a) + Relations(b)
    case Xor(a, b) => Relations(a) + Relations(b)
    case Not(a) => Relations(a)
    case _ => {}
  }

  predicate Apart(a: Formula, b: Formula) {
    Texts(a) !! Texts(b) && Relations(a) !! Relations(b)
  }

  /** No leaf occurs twice. */
  predicate Once(f: Formula) {
    match f
    case And(a, b) => Once(a) && Once(b) && Apart(a, b)
    case Or(a, b) => Once(a) && Once(b) && Apart(a, b)
    case Xor(a, b) => Once(a) && Once(b) && Apart(a, b)
    case Not(a) => Once(a)
    case _ => true
  }

  /** The relations that must be absent for f to have the value: a walk along AND, OR and NOT, stopped by XOR. */
  function Forced(f: Formula, value: bool): set<Relation> {
    match f
    case Related(x) => if value then {} else {x}
    case And(a, b) => if value then Forced(a, true) + Forced(b, true) else {}
    case Or(a, b) => if value then {} else Forced(a, false) + Forced(b, false)
    case Not(a) => Forced(a, !value)
    case _ => {}
  }

  lemma {:induction false} ForcedAreAbsent(f: Formula, atom: Bytes -> bool, joins: Relation -> bool, x: Relation)
    requires x in Forced(f, Satisfies(f, atom, joins))
    ensures !joins(x)
    decreases f
  {
    match f
    case And(a, b) => ForcedAreAbsent(if x in Forced(a, true) then a else b, atom, joins, x);
    case Or(a, b) => ForcedAreAbsent(if x in Forced(a, false) then a else b, atom, joins, x);
    case Not(a) => ForcedAreAbsent(a, atom, joins, x);
    case _ =>
  }

  lemma {:induction false} ForcedAreRelations(f: Formula, value: bool)
    ensures Forced(f, value) <= Relations(f)
    decreases f
  {
    match f
    case And(a, b) =>
      ForcedAreRelations(a, true);
      ForcedAreRelations(b, true);
    case Or(a, b) =>
      ForcedAreRelations(a, false);
      ForcedAreRelations(b, false);
    case Not(a) => ForcedAreRelations(a, !value);
    case _ =>
  }

  /** Some value of f leaves x free. */
  lemma {:induction false} FreeValue(f: Formula, x: Relation) returns (value: bool)
    ensures x !in Forced(f, value)
    decreases f
  {
    match f
    case Related(_) => value := true;
    case And(_, _) => value := false;
    case Not(a) =>
      value := FreeValue(a, x);
      value := !value;
    case _ => value := true;
  }

  lemma {:induction false} OnlyLeavesMatter(f: Formula, atom: Bytes -> bool, atom': Bytes -> bool,
                                            joins: Relation -> bool, joins': Relation -> bool)
    requires forall t | t in Texts(f) :: atom(t) == atom'(t)
    requires forall x | x in Relations(f) :: joins(x) == joins'(x)
    ensures Satisfies(f, atom, joins) == Satisfies(f, atom', joins')
    decreases f
  {
    match f
    case And(a, b) =>
      OnlyLeavesMatter(a, atom, atom', joins, joins');
      OnlyLeavesMatter(b, atom, atom', joins, joins');
    case Or(a, b) =>
      OnlyLeavesMatter(a, atom, atom', joins, joins');
      OnlyLeavesMatter(b, atom, atom', joins, joins');
    case Xor(a, b) =>
      OnlyLeavesMatter(a, atom, atom', joins, joins');
      OnlyLeavesMatter(b, atom, atom', joins, joins');
    case Not(a) => OnlyLeavesMatter(a, atom, atom', joins, joins');
    case _ =>
  }

  /** A value that does not force x can be had with x present. */
  lemma {:induction false} FreeWitness(f: Formula, value: bool, x: Relation)
    returns (atom: Bytes -> bool, joins: Relation -> bool)
    requires Once(f) && x !in Forced(f, value)
    ensures Satisfies(f, atom, joins) == value && joins(x)
    decreases f, 1
  {
    match f {
      case Not(a) => atom, joins := FreeWitness(a, !value, x);
      case And(a, b) =>
        var va, vb := true, true;
        if !value {
          va, vb := OneFixed(a, b, false, x);
        }
        atom, joins := PairWitness(f, a, b, va, vb, x);
      case Or(a, b) =>
        var va, vb := false, false;
        if value {
          va, vb := OneFixed(a, b, true, x);
        }
        atom, joins := PairWitness(f, a, b, va, vb, x);
      case Xor(a, b) =>
        var va := FreeValue(a, x);
        var vb := FreeValue(b, x);
        ForcedAreRelations(a, va != value);
        ForcedAreRelations(a, vb != value);
        ForcedAreRelations(b, va != value);
        if x in Relations(b) {
          va := vb != value;
        } else {
          vb := va != value;
        }
        atom, joins := PairWitness(f, a, b, va, vb, x);
      case Related(z) => atom, joins := (t: Bytes) => value, (y: Relation) => value || y != z;
      case _ => atom, joins := (t: Bytes) => value, (y: Relation) => true;
    }
  }

  /** One of two formulas can have the given value, and the other one some value, with x present. */
  lemma OneFixed(a: Formula, b: Formula, value: bool, x: Relation) returns (va: bool, vb: bool)
    requires Apart(a, b)
    ensures (va == value || vb == value) && x !in Forced(a, va) && x !in Forced(b, vb)
  {
    ForcedAreRelations(a, value);
    ForcedAreRelations(b, value);
    if x in Relations(b) {
      va := value;
      vb := FreeValue(b, x);
    } else {
      vb := value;
      va := FreeValue(a, x);
    }
  }

  /** Formulas without common leaves have their values independently of one another. */
  lemma {:induction false} PairWitness(f: Formula, a: Formula, b: Formula, va: bool, vb: bool, x: Relation)
    returns (atom: Bytes -> bool, joins: Relation -> bool)
    requires a < f && b < f && Once(a) && Once(b) && Apart(a, b) && x !in Forced(a, va) && x !in Forced(b, vb)
    ensures Satisfies(a, atom, joins) == va && Satisfies(b, atom, joins) == vb && joins(x)
    decreases f, 0
  {
    var atomA, joinsA := FreeWitness(a, va, x);
    var atomB, joinsB := FreeWitness(b, vb, x);
    atom := t => if t in Texts(a) then atomA(t) else atomB(t);
    joins := y => if y in Relations(a) then joinsA(y) else joinsB(y);
    OnlyLeavesMatter(a, atomA, atom, joinsA, joins);
    OnlyLeavesMatter(b, atomB, atom, joinsB, joins);
  }

  /** A formula without repeated leaves rules a relation out exactly if the walk arrives at it. */
  lemma ForcedExactly(f: Formula, x: Relation)
    requires Once(f)
    ensures (forall atom, joins | Satisfies(f, atom, joins) :: !joins(x)) <==> x in Forced(f, true)
  {
    if x in Forced(f, true) {
      forall atom, joins | Satisfies(f, atom, joins) ensures !joins(x) {
        ForcedAreAbsent(f, atom, joins, x);
      }
    } else {
      var atom, joins := FreeWitness(f, true, x);
    }
  }

  /** NOT (c AND NOT (r)), NOT (r {p: 1}) and c XOR NOT (r) do not force r to be absent; c AND NOT (r) does. */
  lemma ShapesThatForce(c: Bytes, x: Relation)
    ensures x !in Forced(Not(And(Atom(c), Not(Related(x)))), true)
    ensures x !in Forced(Not(Restricted(x, c)), true)
    ensures x !in Forced(Xor(Atom(c), Not(Related(x))), true)
    ensures x in Forced(And(Atom(c), Not(Related(x))), true) && x in Forced(Not(Or(Atom(c), Related(x))), true)
  {
    assert Forced(And(Atom(c), Not(Related(x))), false) == {};
    assert Forced(Restricted(x, c), false) == {};
    assert Forced(Not(Related(x)), true) == Forced(Related(x), false) == {x};
    assert Forced(Or(Atom(c), Related(x)), false) == Forced(Atom(c), false) + {x};
  }

  lemma OnceShapes(c: Bytes, x: Relation)
    ensures Once(Not(And(Atom(c), Not(Related(x))))) && Once(Not(Restricted(x, c)))
    ensures Once(Xor(Atom(c), Not(Related(x))))
  {
    assert Texts(Not(Related(x))) == {} && Relations(Atom(c)) == {};
    assert Once(And(Atom(c), Not(Related(x))));
  }
}
