/** The plan engine: a recursive visit from the root, then a sweep over all nodes. */
module Engine {
  import opened Wrappers
  import opened Logical

  /** Later nodes replace earlier ones of the same identifier. */
  function NodesById<Op>(nodes: seq<Node<Op>>): map<Id, Node<Op>> {
    if nodes == [] then map[] else NodesById(nodes[..|nodes| - 1])[nodes[|nodes| - 1].id := nodes[|nodes| - 1]]
  }

  /** A node that the engine can run: it exists, and its identifier is not empty. */
  predicate Exists<Op>(m: map<Id, Node<Op>>, id: Id) {
    id != 0 && id in m
  }

  /** Children of existing nodes have smaller ranks; children that do not exist do not matter. */
  ghost predicate Acyclic<Op>(m: map<Id, Node<Op>>, rank: Id -> nat) {
    forall id, c | id in m && c in m[id].children && Exists(m, c) :: rank(c) < rank(id)
  }

  // ---------------------------------------------------------------- the order of execution

  function VisitOrder<Op>(m: map<Id, Node<Op>>, ghost rank: Id -> nat, id: Id, done: seq<Id>): seq<Id>
    requires Acyclic(m, rank)
    decreases if Exists(m, id) then rank(id) + 1 else 0, 0
  {
    if !Exists(m, id) || id in done then done
    else VisitAll(m, rank, m[id].children, done, rank(id)) + [id]
  }

  function VisitAll<Op>(m: map<Id, Node<Op>>, ghost rank: Id -> nat, ids: seq<Id>, done: seq<Id>, ghost bound: nat)
    : seq<Id>
    requires Acyclic(m, rank) && forall c | c in ids && Exists(m, c) :: rank(c) < bound
    decreases bound, |ids| + 1
  {
    if ids == [] then done
    else
      assert ids[|ids| - 1] in ids;
      VisitOrder(m, rank, ids[|ids| - 1], VisitAll(m, rank, ids[..|ids| - 1], done, bound))
  }

  /** Nothing twice, nothing that does not exist, and every node after its existing children. */
  ghost predicate Sound<Op>(m: map<Id, Node<Op>>, order: seq<Id>) {
    && (forall id | id in order :: Exists(m, id))
    && (forall i, j | 0 <= i < j < |order| :: order[i] != order[j])
    && (forall i, c | 0 <= i < |order| && order[i] in m && c in m[order[i]].children && Exists(m, c) :: c in order[..i])
  }

  /** order continues done with identifiers of rank at most top. */
  ghost predicate Continues(done: seq<Id>, order: seq<Id>, rank: Id -> nat, top: nat) {
    done <= order && forall id | id in order :: id in done || rank(id) <= top
  }

  lemma {:induction false} VisitSound<Op>(m: map<Id, Node<Op>>, rank: Id -> nat, id: Id, done: seq<Id>)
    requires Acyclic(m, rank) && Sound(m, done)
    ensures var order := VisitOrder(m, rank, id, done);
            Sound(m, order) && Continues(done, order, rank, rank(id)) && (Exists(m, id) ==> id in order)
    decreases if Exists(m, id) then rank(id) + 1 else 0, 0
  {
    if Exists(m, id) && id !in done {
      VisitAllSound(m, rank, m[id].children, done, rank(id));
      var before := VisitAll(m, rank, m[id].children, done, rank(id));
      SoundMore(m, before, id);
    }
  }

  lemma SoundMore<Op>(m: map<Id, Node<Op>>, order: seq<Id>, id: Id)
    requires Sound(m, order) && Exists(m, id) && id !in order
    requires forall c | c in m[id].children && Exists(m, c) :: c in order
    ensures Sound(m, order + [id])
  {
    var all := order + [id];
    forall i, c | 0 <= i < |all| && all[i] in m && c in m[all[i]].children && Exists(m, c) ensures c in all[..i] {
      if i < |order| {
        assert c in order[..i] && all[..i] == order[..i];
      } else {
        assert all[..i] == order;
      }
    }
  }

  lemma {:induction false} VisitAllSound<Op>(m: map<Id, Node<Op>>, rank: Id -> nat, ids: seq<Id>, done: seq<Id>,
                                             bound: nat)
    requires Acyclic(m, rank) && Sound(m, done) && forall c | c in ids && Exists(m, c) :: rank(c) < bound
    ensures var order := VisitAll(m, rank, ids, done, bound);
            && Sound(m, order) && done <= order
            && (forall id | id in order :: id in done || rank(id) < bound)
            && (forall c | c in ids && Exists(m, c) :: c in order)
    decreases bound, |ids| + 1
  {
    if ids != [] {
      var n := |ids| - 1;
      assert ids[n] in ids;
      VisitAllSound(m, rank, ids[..n], done, bound);
      var before := VisitAll(m, rank, ids[..n], done, bound);
      if Exists(m, ids[n]) {
        VisitSound(m, rank, ids[n], before);
      }
      assert ids == ids[..n] + [ids[n]];
    }
  }

  /** Further visits only add to the order. */
  lemma {:induction false} VisitContinues<Op>(m: map<Id, Node<Op>>, rank: Id -> nat, id: Id, done: seq<Id>)
    requires Acyclic(m, rank)
    ensures done <= VisitOrder(m, rank, id, done)
    decreases if Exists(m, id) then rank(id) + 1 else 0, 0
  {
    if Exists(m, id) && id !in done {
      VisitAllContinues(m, rank, m[id].children, 0, done, rank(id));
    }
  }

  lemma {:induction false} VisitAllContinues<Op>(m: map<Id, Node<Op>>, rank: Id -> nat, ids: seq<Id>, k: nat,
                                                 done: seq<Id>, bound: nat)
    requires Acyclic(m, rank) && k <= |ids| && forall c | c in ids && Exists(m, c) :: rank(c) < bound
    ensures VisitAll(m, rank, ids[..k], done, bound) <= VisitAll(m, rank, ids, done, bound)
    ensures done <= VisitAll(m, rank, ids, done, bound)
    decreases bound, |ids| + 1
  {
    if ids == [] {
      assert ids[..k] == ids;
    } else {
      var n := |ids| - 1;
      assert ids[n] in ids;
      VisitAllContinues(m, rank, ids[..n], if k < n then k else n, done, bound);
      VisitContinues(m, rank, ids[n], VisitAll(m, rank, ids[..n], done, bound));
      if k <= n {
        assert ids[..n][..k] == ids[..k];
      } else {
        assert ids[..k] == ids;
      }
    }
  }

  function IdsOf<Op>(nodes: seq<Node<Op>>): (ids: seq<Id>)
    ensures |ids| == |nodes| && forall i | 0 <= i < |nodes| :: ids[i] == nodes[i].id
  {
    seq(|nodes|, i requires 0 <= i < |nodes| => nodes[i].id)
  }

  ghost function Top<Op>(m: map<Id, Node<Op>>, rank: Id -> nat): (bound: nat)
    ensures forall id | id in m :: rank(id) < bound
    decreases m.Keys
  {
    if m == map[] then 0
    else
      var id :| id in m;
      var rest := Top(map k | k in m && k != id :: m[k], rank);
      if rank(id) < rest then rest else rank(id) + 1
  }

  /** The whole run: from the root, then over all nodes. */
  ghost function Order<Op>(plan: Plan<Op>, rank: Id -> nat): seq<Id>
    requires Acyclic(NodesById(plan.nodes), rank)
  {
    var m := NodesById(plan.nodes);
    VisitAll(m, rank, IdsOf(plan.nodes), VisitOrder(m, rank, plan.root, []), Top(m, rank))
  }

  lemma {:induction false} NodesByIdKeys<Op>(nodes: seq<Node<Op>>)
    ensures forall id :: id in NodesById(nodes) <==> id in IdsOf(nodes)
    decreases |nodes|
  {
    if nodes != [] {
      var n := |nodes| - 1;
      NodesByIdKeys(nodes[..n]);
      assert IdsOf(nodes) == IdsOf(nodes[..n]) + [nodes[n].id];
    }
  }

  /** On every acyclic plan each existing node is run exactly once, after all its existing children. */
  lemma OrderIsSound<Op>(plan: Plan<Op>, rank: Id -> nat)
    requires Acyclic(NodesById(plan.nodes), rank)
    ensures Sound(NodesById(plan.nodes), Order(plan, rank))
    ensures forall id :: id in Order(plan, rank) <==> id != 0 && id in IdsOf(plan.nodes)
  {
    var m := NodesById(plan.nodes);
    VisitSound(m, rank, plan.root, []);
    VisitAllSound(m, rank, IdsOf(plan.nodes), VisitOrder(m, rank, plan.root, []), Top(m, rank));
    NodesByIdKeys(plan.nodes);
  }

  // ---------------------------------------------------------------- what a run computes

  /** Runs the nodes in the given order and stops at the first error. */
  function Run<Op, S, E>(m: map<Id, Node<Op>>, step: (Node<Op>, S) -> Result<S, E>, order: seq<Id>, start: S):
    Result<S, E>
    requires forall id | id in order :: id in m
  {
    if order == [] then Ok(start)
    else
      var id := order[|order| - 1];
      assert id in order;
      var r := Run(m, step, order[..|order| - 1], start);
      if r.Err? then r else step(m[id], r.value)
  }

  lemma {:induction false} ErrorStays<Op, S, E>(m: map<Id, Node<Op>>, step: (Node<Op>, S) -> Result<S, E>,
                                                order: seq<Id>,
                                                more: seq<Id>, start: S)
    requires order <= more && (forall id | id in more :: id in m) && Run(m, step, order, start).Err?
    ensures Run(m, step, more, start) == Run(m, step, order, start)
    decreases |more|
  {
    if order != more {
      ErrorStays(m, step, order, more[..|more| - 1], start);
    } else {
      assert order == more;
    }
  }

  // ---------------------------------------------------------------- the engine

  class Execution<Op, S, E> {
    const nodes: map<Id, Node<Op>>
    const step: (Node<Op>, S) -> Result<S, E>
    const start: S
    var visited: set<Id>
    var state: S
    /** The nodes run so far. */
    ghost var order: seq<Id>

    ghost predicate Valid()
      reads this
    {
      && (forall id :: id in visited <==> id in order)
      && Sound(nodes, order) && Run(nodes, step, order, start) == Ok(state)
    }

    constructor (nodes: map<Id, Node<Op>>, step: (Node<Op>, S) -> Result<S, E>, start: S)
      ensures Valid() && order == [] && this.nodes == nodes && this.step == step && this.start == start
    {
      this.nodes, this.step, this.start := nodes, step, start;
      visited, state, order := {}, start, [];
    }

    /** Runs one node behind the nodes run so far. */
    method RunNode(id: Id) returns (err: Option<E>)
      requires Valid() && Exists(nodes, id) && id !in order
      requires forall c | c in nodes[id].children && Exists(nodes, c) :: c in order
      modifies this
      ensures err.None? ==> Valid() && order == old(order) + [id]
      ensures forall o | o in old(order) + [id] :: o in nodes
      ensures err.Some? ==> Run(nodes, step, old(order) + [id], start) == Err(err.value)
    {
      SoundMore(nodes, order, id);
      assert (order + [id])[..|order|] == order;
      visited := visited + {id};
      var r := step(nodes[id], state);
      if r.Err? {
        return Some(r.error);
      }
      state := r.value;
      order := order + [id];
      err := None;
    }

    method Visit(id: Id, ghost rank: Id -> nat) returns (err: Option<E>)
      requires Valid() && Acyclic(nodes, rank)
      modifies this
      ensures err.None? ==> Valid() && order == VisitOrder(nodes, rank, id, old(order))
      ensures Sound(nodes, VisitOrder(nodes, rank, id, old(order)))
      ensures err.Some? ==> Run(nodes, step, VisitOrder(nodes, rank, id, old(order)), start) == Err(err.value)
      decreases if Exists(nodes, id) then rank(id) + 1 else 0, 0
    {
      VisitSound(nodes, rank, id, order);
      if id == 0 || id in visited {
        return None;
      }
      if id !in nodes {
        return None;
      }
      var children := nodes[id].children;
      VisitAllSound(nodes, rank, children, order, rank(id));
      ghost var before := VisitAll(nodes, rank, children, order, rank(id));
      err := VisitEach(children, rank, rank(id));
      if err.Some? {
        assert before <= before + [id];
        ErrorStays(nodes, step, before, before + [id], start);
        return;
      }
      err := RunNode(id);
    }

    method VisitEach(ids: seq<Id>, ghost rank: Id -> nat, ghost bound: nat) returns (err: Option<E>)
      requires Valid() && Acyclic(nodes, rank) && forall c | c in ids && Exists(nodes, c) :: rank(c) < bound
      modifies this
      ensures err.None? ==> Valid() && order == VisitAll(nodes, rank, ids, old(order), bound)
      ensures Sound(nodes, VisitAll(nodes, rank, ids, old(order), bound))
      ensures err.Some? ==> Run(nodes, step, VisitAll(nodes, rank, ids, old(order), bound), start) == Err(err.value)
      decreases bound, |ids| + 1
    {
      VisitAllSound(nodes, rank, ids, order, bound);
      for i := 0 to |ids|
        invariant Valid() && order == VisitAll(nodes, rank, ids[..i], old(order), bound)
      {
        assert ids[..i + 1][..i] == ids[..i];
        assert ids[i] in ids;
        err := Visit(ids[i], rank);
        if err.Some? {
          VisitAllContinues(nodes, rank, ids, i + 1, old(order), bound);
          ErrorStays(nodes, step, VisitAll(nodes, rank, ids[..i + 1], old(order), bound),
                     VisitAll(nodes, rank, ids, old(order), bound), start);
          return;
        }
      }
      assert ids[..|ids|] == ids;
      err := None;
    }

    /** The result lists its operators only at the very end, so the sweep is always taken. */
    method VisitRootThenAll(root: Id, ids: seq<Id>, ghost rank: Id -> nat, ghost bound: nat) returns (err: Option<E>)
      requires Valid() && order == [] && Acyclic(nodes, rank)
      requires forall c | Exists(nodes, c) :: rank(c) < bound
      modifies this
      ensures Sound(nodes, VisitAll(nodes, rank, ids, VisitOrder(nodes, rank, root, []), bound))
      ensures Run(nodes, step, VisitAll(nodes, rank, ids, VisitOrder(nodes, rank, root, []), bound), start)
              == if err.Some? then Err(err.value) else Ok(state)
    {
      var reported: nat := 0;
      ghost var first := VisitOrder(nodes, rank, root, []);
      err := Visit(root, rank);
      VisitAllSound(nodes, rank, ids, first, bound);
      if err.Some? {
        VisitAllContinues(nodes, rank, ids, 0, first, bound);
        ErrorStays(nodes, step, first, VisitAll(nodes, rank, ids, first, bound), start);
        return;
      }
      if reported == 0 {
        err := VisitEach(ids, rank, bound);
      }
    }
  }

  lemma NonEmptyHolds<T>(s: seq<T>)
    ensures s == [] || exists x :: x in s
  {
    if s != [] {
      assert s[0] in s;
    }
  }

  /** The engine runs the nodes in this order, each once, and stops at the first error. */
  method Execute<Op, S, E>(plan: Plan<Op>, step: (Node<Op>, S) -> Result<S, E>, start: S, ghost rank: Id -> nat)
    returns (r: Result<S, E>)
    requires Acyclic(NodesById(plan.nodes), rank)
    ensures Sound(NodesById(plan.nodes), Order(plan, rank))
    ensures r == Run(NodesById(plan.nodes), step, Order(plan, rank), start)
  {
    OrderIsSound(plan, rank);
    if |plan.nodes| == 0 {
      NonEmptyHolds(Order(plan, rank));
      return Ok(start);
    }
    var nodes := NodesById(plan.nodes);
    var e := new Execution(nodes, step, start);
    var err := e.VisitRootThenAll(plan.root, IdsOf(plan.nodes), rank, Top(nodes, rank));
    r := if err.Some? then Err(err.value) else Ok(e.state);
  }
}
