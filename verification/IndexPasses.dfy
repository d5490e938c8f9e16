/** Without crashes and writers a build of n vertices takes exactly n / 64 + 1 passes. */
module IndexPasses {
  import opened Wrappers
  import opened Text
  import opened IndexStore
  import opened IndexMachine
  import opened IndexFrozen

  lemma {:induction false} IterateAdd<S>(f: S -> S, s: S, a: nat, b: nat)
    ensures Iterate(f, s, a + b) == Iterate(f, Iterate(f, s, a), b)
    decreases b
  {
    if b > 0 {
      IterateAdd(f, s, a, b - 1);
    }
  }

  lemma {:induction false} IterateFixed<S>(f: S -> S, s: S, n: nat)
    requires f(s) == s
    ensures Iterate(f, s, n) == s
    decreases n
  {
    if n > 0 {
      IterateFixed(f, s, n - 1);
    }
  }

  lemma IterateOnce<S>(f: S -> S, s: S)
    ensures Iterate(f, s, 1) == f(s)
  {
    assert Iterate(f, s, 0) == s;
  }

  lemma IterateMore<S>(f: S -> S, s: S, n: nat)
    ensures Iterate(f, s, n + 1) == Iterate(f, f(s), n)
  {
    IterateOnce(f, s);
    IterateAdd(f, s, 1, n);
  }

  lemma IterateAround<S>(f: S -> S, s: S, n: nat)
    ensures f(Iterate(f, f(s), n)) == Iterate(f, s, n + 2)
  {
    IterateMore(f, s, n + 1);
  }

  lemma {:induction false} CountDown<S(!new)>(step: S -> S, rest: (S, nat) -> bool, done: S -> bool,
                                             s: S, left: nat, count: nat)
    requires rest(s, left)
    requires forall u, l: nat | rest(u, l) :: (l < 64 ==> done(step(u))) && (l >= 64 ==> rest(step(u), l - 64))
    ensures count <= left / 64 ==> exists l: nat :: rest(Iterate(step, s, count), l)
    ensures count == left / 64 + 1 ==> done(Iterate(step, s, count))
    decreases count
  {
    if count > 0 {
      IterateMore(step, s, count - 1);
      if left >= 64 {
        CountDown(step, rest, done, step(s), left - 64, count - 1);
      }
    } else {
      assert rest(Iterate(step, s, 0), left);
    }
  }

  // ---------------------------------------------------------------- one vertex

  ghost function Left(g: Graph, k: Key, checkpoint: Bytes): nat {
    |Ids(g, k.tenant) - Passed(g, k.tenant, checkpoint)|
  }

  lemma LeftNext(g: Graph, k: Key, checkpoint: Bytes, x: Bytes)
    requires WellFormed(g) && IsNext(g, k.tenant, checkpoint, x)
    ensures Left(g, k, checkpoint) == Left(g, k, x) + 1
  {
    PassedNext(g, k.tenant, checkpoint, x);
    assert VertexKey(k.tenant, x) in g && x in Ids(g, k.tenant);
    var a := Ids(g, k.tenant) - Passed(g, k.tenant, checkpoint);
    var b := Ids(g, k.tenant) - Passed(g, k.tenant, x);
    assert a == b + {x};
  }

  /** Two worlds that differ at most in index entries and in the phase of the worker. */
  ghost predicate SameRecords(w: World, u: World) {
    && u.store.graph == w.store.graph && u.store.jobs == w.store.jobs
    && w.worker.Busy? && u.worker.Busy?
    && u.worker.hand == w.worker.hand.(phase := u.worker.hand.phase)
  }

  ghost predicate AtScan(w: World, k: Key, g: Graph, processed: nat, left: nat) {
    && Inv(w) && w.store.graph == g
    && w.worker.Busy? && w.worker.hand.key == k && w.worker.hand.phase == Scan
    && w.worker.hand.processed == processed
    && Left(g, k, w.worker.hand.state.checkpoint) == left
  }

  ghost predicate AtRest(w: World, k: Key, g: Graph, left: nat) {
    && Inv(w) && w.store.graph == g && w.worker == Idle
    && Pending(w.store.jobs, k)
    && Left(g, k, Latest(w.store.jobs, k).value.checkpoint) == left
  }

  ghost predicate Done(w: World, k: Key, g: Graph) {
    && Inv(w) && w.store.graph == g && w.worker == Idle
    && Latest(w.store.jobs, k).Some? && Latest(w.store.jobs, k).value.completed
  }

  /** Where a round of the loop leaves the worker. */
  ghost predicate AfterRound(w: World, k: Key, g: Graph, p: nat, left: nat) {
    if p + 1 < MAX_PER_PASS then AtScan(w, k, g, p + 1, left) else AtRest(w, k, g, left)
  }

  /** Where a pass entered with p vertices processed and `left` to go leaves the worker. */
  ghost predicate AfterPass(w: World, k: Key, g: Graph, p: nat, left: nat) {
    if p + left < MAX_PER_PASS then Done(w, k, g)
    else p <= MAX_PER_PASS && AtRest(w, k, g, left - (MAX_PER_PASS - p))
  }

  /** Writing the entries of one vertex one by one ends in its checkpoint transaction. */
  lemma {:induction false} WritesEnd(f: World -> World, limit: nat, w: World) returns (n: nat)
    requires Drives(f, limit)
    requires w.worker.Busy? && (w.worker.hand.phase.Write? || w.worker.hand.phase.Checkpoint?)
    ensures var u := Iterate(f, w, n);
            SameRecords(w, u) && u.worker.hand.phase.Checkpoint?
            && u.worker.hand.phase.id == w.worker.hand.phase.id
    decreases if w.worker.hand.phase.Write? then |w.worker.hand.phase.todo| + 1 else 0
  {
    if w.worker.hand.phase.Checkpoint? {
      n := 0;
    } else {
      assert f(w) == WorkStep(w, limit);
      var m := WritesEnd(f, limit, f(w));
      IterateMore(f, w, m);
      n := m + 1;
    }
  }

  lemma RoundFinds(f: World -> World, limit: nat, w: World, k: Key, g: Graph, p: nat, left: nat) returns (x: Bytes)
    requires Drives(f, limit) && AtScan(w, k, g, p, left) && left > 0
    ensures SameRecords(w, f(w)) && f(w).worker.hand.phase == Fill(x)
    ensures IsNext(g, k.tenant, w.worker.hand.state.checkpoint, x)
  {
    var h := w.worker.hand;
    NextVertexSpec(g, k.tenant, h.state.checkpoint);
    if NextVertex(g, k.tenant, h.state.checkpoint) == None {
      PassedAll(g, k.tenant, h.state.checkpoint);
    }
    x := NextVertex(g, k.tenant, h.state.checkpoint).value;
    assert VertexKey(k.tenant, x) in g;
    TrimFixesTrimmed(x);
    assert f(w) == WorkStep(w, limit);
  }

  lemma VertexFills(f: World -> World, limit: nat, w: World, x: Bytes) returns (n: nat)
    requires Drives(f, limit) && w.worker.Busy? && w.worker.hand.phase == Fill(x)
    ensures var u := Iterate(f, w, n);
            SameRecords(w, u) && u.worker.hand.phase.Checkpoint? && u.worker.hand.phase.id == x
  {
    var w2 := f(w);
    assert w2 == WorkStep(w, limit);
    if w2.worker.hand.phase.Collect? {
      var w3 := f(w2);
      assert w3 == WorkStep(w2, limit);
      var n3 := WritesEnd(f, limit, w3);
      IterateMore(f, w2, n3);
      IterateMore(f, w, n3 + 1);
      n := n3 + 2;
    } else {
      IterateOnce(f, w);
      n := 1;
    }
  }

  lemma CheckpointRecords(limit: nat, u: World)
    requires Inv(u) && u.worker.Busy? && u.worker.hand.phase.Checkpoint?
    ensures var h := u.worker.hand;
            var next := Advanced(h.state, h.phase.id, h.phase.indexed);
            var z := WorkStep(u, limit);
            && z.store.graph == u.store.graph
            && UniqueRevisions(z.store.jobs) && Latest(z.store.jobs, h.key) == Some(next)
            && z.worker == if h.processed + 1 < MAX_PER_PASS then Busy(Hand(h.key, next, h.processed + 1, Scan))
                           else Idle
  {
    var h := u.worker.hand;
    ReplaceLatest(u.store.jobs, h.key, h.state, Advanced(h.state, h.phase.id, h.phase.indexed));
  }

  lemma VertexCheckpointed(f: World -> World, limit: nat, w: World, u: World, k: Key, g: Graph, p: nat, left: nat,
                           x: Bytes)
    requires Drives(f, limit) && AtScan(w, k, g, p, left) && SameRecords(w, u)
    requires IsNext(g, k.tenant, w.worker.hand.state.checkpoint, x)
    requires u.worker.hand.phase.Checkpoint? && u.worker.hand.phase.id == x
    ensures left > 0 && AfterRound(f(u), k, g, p, left - 1)
  {
    LeftNext(g, k, w.worker.hand.state.checkpoint, x);
    CheckpointRecords(limit, u);
  }

  // ---------------------------------------------------------------- one pass

  /** From any scan the worker gets through one round, or through the end of the build. */
  ghost predicate RoundsEnd(f: World -> World, k: Key, g: Graph) {
    && (forall w, p: nat, left: nat | AtScan(w, k, g, p, left) && left > 0 ::
          exists n: nat :: AfterRound(Iterate(f, w, n), k, g, p, left - 1))
    && (forall w, p: nat | AtScan(w, k, g, p, 0) :: exists n: nat :: Done(Iterate(f, w, n), k, g))
  }

  lemma RoundEnds(f: World -> World, limit: nat, w: World, k: Key, g: Graph, p: nat, left: nat)
    requires Drives(f, limit) && AtScan(w, k, g, p, left) && left > 0
    ensures exists n: nat :: AfterRound(Iterate(f, w, n), k, g, p, left - 1)
  {
    var x := RoundFinds(f, limit, w, k, g, p, left);
    var w1 := f(w);
    var n1 := VertexFills(f, limit, w1, x);
    var u := Iterate(f, w1, n1);
    VertexCheckpointed(f, limit, w, u, k, g, p, left, x);
    IterateAround(f, w, n1);
    assert AfterRound(Iterate(f, w, n1 + 2), k, g, p, left - 1);
  }

  lemma LastRoundEnds(f: World -> World, limit: nat, w: World, k: Key, g: Graph, p: nat)
    requires Drives(f, limit) && AtScan(w, k, g, p, 0)
    ensures exists n: nat :: Done(Iterate(f, w, n), k, g)
  {
    var h := w.worker.hand;
    NextVertexSpec(g, k.tenant, h.state.checkpoint);
    if NextVertex(g, k.tenant, h.state.checkpoint).Some? {
      LeftNext(g, k, h.state.checkpoint, NextVertex(g, k.tenant, h.state.checkpoint).value);
    }
    var w1 := WorkStep(w, limit);
    PutNewer(w1.store.jobs, k, Finished(h.state));
    var w2 := WorkStep(w1, limit);
    IterateOnce(f, w1);
    IterateMore(f, w, 1);
    assert Done(Iterate(f, w, 2), k, g);
  }

  lemma AllRoundsEnd(limit: nat, k: Key, g: Graph)
    ensures RoundsEnd(Driver(limit), k, g)
  {
    var f := Driver(limit);
    forall w, p: nat, left: nat | AtScan(w, k, g, p, left) && left > 0
      ensures exists n: nat :: AfterRound(Iterate(f, w, n), k, g, p, left - 1)
    {
      RoundEnds(f, limit, w, k, g, p, left);
    }
    forall w, p: nat | AtScan(w, k, g, p, 0) ensures exists n: nat :: Done(Iterate(f, w, n), k, g) {
      LastRoundEnds(f, limit, w, k, g, p);
    }
  }

  lemma ScanBelowMax(w: World, k: Key, g: Graph, p: nat, left: nat)
    requires AtScan(w, k, g, p, left)
    ensures p < MAX_PER_PASS
  {
  }

  lemma {:induction false} PassEnds(f: World -> World, w: World, k: Key, g: Graph, p: nat, left: nat)
    returns (n: nat)
    requires RoundsEnd(f, k, g) && AtScan(w, k, g, p, left)
    ensures AfterPass(Iterate(f, w, n), k, g, p, left)
    decreases left
  {
    hide AtScan, AtRest, Done, Iterate;
    ScanBelowMax(w, k, g, p, left);
    if left == 0 {
      n :| Done(Iterate(f, w, n), k, g);
    } else {
      var a: nat :| AfterRound(Iterate(f, w, a), k, g, p, left - 1);
      var u := Iterate(f, w, a);
      if p + 1 < MAX_PER_PASS {
        var b := PassEnds(f, u, k, g, p + 1, left - 1);
        hide AfterRound, AfterPass, RoundsEnd;
        IterateAdd(f, w, a, b);
        n := a + b;
      } else {
        n := a;
      }
    }
  }

  ghost function Started(w: World, k: Key): World
    requires Pending(w.store.jobs, k)
  {
    World(w.store, w.catalog + {k}, Busy(Hand(k, Latest(w.store.jobs, k).value, 0, Scan)))
  }

  /** A whole pass over job k: its transactions up to the point where the worker is idle again. */
  ghost function Pass(w: World, k: Key, limit: nat): World {
    if Pending(w.store.jobs, k) && exists n: nat :: WorkN(Started(w, k), limit, n).worker.Idle?
    then
      var n: nat :| WorkN(Started(w, k), limit, n).worker.Idle?;
      WorkN(Started(w, k), limit, n)
    else w
  }

  ghost function PassOver(k: Key, limit: nat): World -> World {
    (w: World) => Pass(w, k, limit)
  }

  ghost function Passes(w: World, k: Key, limit: nat, count: nat): World {
    Iterate(PassOver(k, limit), w, count)
  }

  /** Waiting longer than needed changes nothing. */
  lemma IdleAgree(f: World -> World, limit: nat, s: World, m: nat, n: nat)
    requires Drives(f, limit) && Iterate(f, s, m).worker.Idle? && Iterate(f, s, n).worker.Idle?
    ensures Iterate(f, s, m) == Iterate(f, s, n)
  {
    var a, b := if m <= n then m else n, if m <= n then n else m;
    IterateAdd(f, s, a, b - a);
    IterateFixed(f, Iterate(f, s, a), b - a);
  }

  lemma OnePass(w: World, limit: nat, k: Key, g: Graph, left: nat)
    requires AtRest(w, k, g, left)
    ensures AfterPass(Pass(w, k, limit), k, g, 0, left)
  {
    var s := Started(w, k);
    AllRoundsEnd(limit, k, g);
    var n := PassEnds(Driver(limit), s, k, g, 0, left);
    assert WorkN(s, limit, n).worker.Idle?;
    var m: nat :| WorkN(s, limit, m).worker.Idle? && Pass(w, k, limit) == WorkN(s, limit, m);
    assert WorkN(s, limit, m) == Iterate(Driver(limit), s, m);
    IdleAgree(Driver(limit), limit, s, m, n);
  }

  /** Each of the first left / 64 passes leaves the build pending; the next one completes it. */
  lemma PassCount(w: World, limit: nat, k: Key, g: Graph, left: nat, count: nat)
    requires AtRest(w, k, g, left)
    ensures count <= left / 64 ==> Pending(Passes(w, k, limit, count).store.jobs, k)
    ensures count == left / 64 + 1 ==> Done(Passes(w, k, limit, count), k, g)
  {
    hide Pass, Left, Inv, Done, Iterate;
    var step := PassOver(k, limit);
    var rest := (u: World, l: nat) => AtRest(u, k, g, l);
    var done := (u: World) => Done(u, k, g);
    forall u, l: nat | rest(u, l)
      ensures (l < 64 ==> done(step(u))) && (l >= 64 ==> rest(step(u), l - 64))
    {
      OnePass(u, limit, k, g, l);
      assert step(u) == Pass(u, k, limit);
    }
    CountDown(step, rest, done, w, left, count);
  }

  /** A build enqueued over n vertices completes in pass number n / 64 + 1 and in no earlier one. */
  lemma BuildTakes(w: World, limit: nat, k: Key)
    requires Inv(w) && w.worker == Idle
    ensures var n := |Ids(w.store.graph, k.tenant)|;
            var e := Enqueued(w, k);
            && (forall count: nat | count <= n / 64 :: Pending(Passes(e, k, limit, count).store.jobs, k))
            && Done(Passes(e, k, limit, n / 64 + 1), k, w.store.graph)
  {
    var g := w.store.graph;
    var n := |Ids(g, k.tenant)|;
    var e := Enqueued(w, k);
    PutNewer(w.store.jobs, k, Fresh(NextRevision(w.store.jobs, k)));
    NothingPassed(g, k.tenant);
    assert Ids(g, k.tenant) - Passed(g, k.tenant, []) == Ids(g, k.tenant);
    assert AtRest(e, k, g, n);
    forall count: nat | count <= n / 64 ensures Pending(Passes(e, k, limit, count).store.jobs, k) {
      PassCount(e, limit, k, g, n, count);
    }
    PassCount(e, limit, k, g, n, n / 64 + 1);
  }
}
