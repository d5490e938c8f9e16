/** The build job on a graph that no writer touches: exact revisions, counters, entries and number of passes. */
module IndexFrozen {
  import opened Wrappers
  import opened Text
  import opened IndexStore
  import opened IndexMachine

  ghost function Ids(g: Graph, tenant: Bytes): set<Bytes> {
    set v | v in g && v.tenant == tenant :: v.id
  }

  /** The vertices a checkpoint has passed. */
  ghost function Passed(g: Graph, tenant: Bytes, checkpoint: Bytes): set<Bytes> {
    set id | id in Ids(g, tenant) && AtMost(id, checkpoint)
  }

  /** Entries contributed by a set of vertices, counted with the multiplicity the worker counts them. */
  ghost function Total(g: Graph, k: Key, ids: set<Bytes>): nat
    decreases ids
  {
    if ids == {} then 0
    else
      var id :| id in ids;
      |Found(g, k, id)| + Total(g, k, ids - {id})
  }

  lemma {:induction false} TotalAdd(g: Graph, k: Key, ids: set<Bytes>, x: Bytes)
    requires x !in ids
    ensures Total(g, k, ids + {x}) == Total(g, k, ids) + |Found(g, k, x)|
    decreases ids
  {
    var all := ids + {x};
    var id :| id in all && Total(g, k, all) == |Found(g, k, id)| + Total(g, k, all - {id});
    if id == x {
      assert all - {x} == ids;
    } else {
      assert all - {id} == (ids - {id}) + {x};
      TotalAdd(g, k, ids - {id}, x);
      assert ids == (ids - {id}) + {id};
      TotalAdd(g, k, ids - {id}, id);
    }
  }

  /** Vertices without entries do not count. */
  lemma {:induction false} TotalSkips(g: Graph, k: Key, ids: set<Bytes>, some: set<Bytes>)
    requires some <= ids && forall id | id in ids - some :: Found(g, k, id) == []
    ensures Total(g, k, ids) == Total(g, k, some)
    decreases ids
  {
    if ids != some {
      var x :| x in ids && x !in some;
      var less := ids - {x};
      TotalSkips(g, k, less, some);
      TotalAdd(g, k, less, x);
      assert less + {x} == ids;
    }
  }

  /** The entries called for by a set of vertices. */
  ghost function EntriesFor(g: Graph, k: Key, ids: set<Bytes>): set<Entry> {
    set id, e | id in ids && e in Found(g, k, id) :: e
  }

  /** A backfill that started from `base` has visited `done` and put `count` entries. */
  ghost predicate Progress(entries: set<Entry>, base: set<Entry>, g: Graph, k: Key, done: set<Bytes>, count: nat) {
    entries == base + EntriesFor(g, k, done) && count == Total(g, k, done)
  }

  lemma ProgressStarts(base: set<Entry>, g: Graph, k: Key)
    ensures Progress(base, base, g, k, {}, 0)
  {
    assert EntriesFor(g, k, {}) == {};
  }

  lemma ProgressStep(entries: set<Entry>, base: set<Entry>, g: Graph, k: Key, done: set<Bytes>, count: nat, id: Bytes)
    requires Progress(entries, base, g, k, done, count) && id !in done
    ensures Progress(entries + SetOf(Found(g, k, id)), base, g, k, done + {id}, count + |Found(g, k, id)|)
  {
    TotalAdd(g, k, done, id);
  }

  /** Having visited every vertex that has entries, the backfill has put all entries. */
  lemma ProgressEnds(entries: set<Entry>, base: set<Entry>, g: Graph, k: Key, done: set<Bytes>, count: nat)
    requires Progress(entries, base, g, k, done, count)
    requires done <= Ids(g, k.tenant) && forall id | id in Ids(g, k.tenant) - done :: Found(g, k, id) == []
    ensures entries == base + AllEntries(g, k) && count == Total(g, k, Ids(g, k.tenant))
  {
    EntriesForAll(g, k, done);
    TotalSkips(g, k, Ids(g, k.tenant), done);
  }

  /** Visiting only the vertices that have entries finds them all. */
  lemma EntriesForAll(g: Graph, k: Key, some: set<Bytes>)
    requires some <= Ids(g, k.tenant) && forall id | id in Ids(g, k.tenant) - some :: Found(g, k, id) == []
    ensures EntriesFor(g, k, some) == AllEntries(g, k)
  {
    forall e | e in AllEntries(g, k) ensures e in EntriesFor(g, k, some) {
      var v :| v in g && v.tenant == k.tenant && e in Contribution(k, v.id, g[v]);
      assert VertexKey(k.tenant, v.id) == v && e in Found(g, k, v.id);
      assert v.id in Ids(g, k.tenant);
    }
    forall e | e in EntriesFor(g, k, some) ensures e in AllEntries(g, k) {
      var id :| id in some && e in Found(g, k, id);
      var v := VertexKey(k.tenant, id);
      assert v in g && e in Contribution(k, v.id, g[v]);
    }
  }

  ghost function MatchingVertices(g: Graph, k: Key, ids: set<Bytes>): set<Bytes> {
    set id | id in ids && Found(g, k, id) != []
  }

  /** For a vertex index the total is the number of matching vertices. */
  lemma {:induction false} TotalCountsMatches(g: Graph, k: Key, ids: set<Bytes>)
    requires k.kind == VertexIndex
    ensures Total(g, k, ids) == |MatchingVertices(g, k, ids)|
    decreases ids
  {
    if ids == {} {
      assert MatchingVertices(g, k, ids) == {};
    } else {
      var x :| x in ids;
      var rest := ids - {x};
      TotalCountsMatches(g, k, rest);
      TotalAdd(g, k, rest, x);
      assert rest + {x} == ids && |Found(g, k, x)| <= 1;
      hide Found;
      assert MatchingVertices(g, k, ids) == MatchingVertices(g, k, rest) + if Found(g, k, x) != [] then {x} else {};
    }
  }

  /** The places in a list of outgoing edges, from n on, whose edges have an entry. */
  ghost function PlacesFrom(k: Key, out: seq<OutEdge>, n: nat): set<nat> {
    set i: nat | n <= i < |out| && out[i].edgeType == k.name && !Blank(out[i].id) && k.property in out[i].props
  }

  lemma {:induction false} EdgeEntriesCount(k: Key, id: Bytes, out: seq<OutEdge>, n: nat)
    requires n <= |out|
    ensures |EdgeEntries(k, id, out[n..])| == |PlacesFrom(k, out, n)|
    decreases |out| - n
  {
    if n == |out| {
      assert PlacesFrom(k, out, n) == {};
    } else {
      EdgeEntriesCount(k, id, out, n + 1);
      assert out[n..][1..] == out[n + 1..];
      var more := PlacesFrom(k, out, n + 1);
      assert n !in more;
      if n in PlacesFrom(k, out, n) {
        assert PlacesFrom(k, out, n) == more + {n};
      } else {
        assert PlacesFrom(k, out, n) == more;
      }
    }
  }

  /** The matching edges of some vertices: each is a source and a place among its outgoing edges. */
  ghost function MatchingEdges(g: Graph, k: Key, ids: set<Bytes>): set<(Bytes, nat)> {
    set id, i | id in ids && VertexKey(k.tenant, id) in g
                && i in PlacesFrom(k, g[VertexKey(k.tenant, id)].out, 0) :: (id, i)
  }

  ghost function Paired(x: Bytes, places: set<nat>): set<(Bytes, nat)> {
    set i | i in places :: (x, i)
  }

  lemma {:induction false} PairedCount(x: Bytes, places: set<nat>)
    ensures |Paired(x, places)| == |places|
    decreases places
  {
    if places == {} {
      assert Paired(x, places) == {};
    } else {
      var p :| p in places;
      PairedCount(x, places - {p});
      assert Paired(x, places) == Paired(x, places - {p}) + {(x, p)};
    }
  }

  lemma MatchingEdgesMore(g: Graph, k: Key, rest: set<Bytes>, x: Bytes)
    requires k.kind == EdgeIndex && x !in rest
    ensures |MatchingEdges(g, k, rest + {x})| == |MatchingEdges(g, k, rest)| + |Found(g, k, x)|
  {
    var here := VertexKey(k.tenant, x) in g;
    var out := if here then g[VertexKey(k.tenant, x)].out else [];
    var pairs := Paired(x, PlacesFrom(k, out, 0));
    PairedCount(x, PlacesFrom(k, out, 0));
    EdgeEntriesCount(k, x, out, 0);
    assert out[0..] == out;
    assert MatchingEdges(g, k, rest + {x}) == MatchingEdges(g, k, rest) + pairs;
    assert MatchingEdges(g, k, rest) * pairs == {};
  }

  /** For an edge index the total is the number of matching edges. */
  lemma {:induction false} TotalCountsEdges(g: Graph, k: Key, ids: set<Bytes>)
    requires k.kind == EdgeIndex
    ensures Total(g, k, ids) == |MatchingEdges(g, k, ids)|
    decreases ids
  {
    if ids == {} {
      assert MatchingEdges(g, k, ids) == {};
    } else {
      var x :| x in ids;
      var rest := ids - {x};
      TotalCountsEdges(g, k, rest);
      TotalAdd(g, k, rest, x);
      MatchingEdgesMore(g, k, rest, x);
      assert rest + {x} == ids;
    }
  }

  /** Checkpointing the next vertex passes exactly that vertex. */
  lemma PassedNext(g: Graph, tenant: Bytes, checkpoint: Bytes, x: Bytes)
    requires WellFormed(g) && IsNext(g, tenant, checkpoint, x)
    ensures x !in Passed(g, tenant, checkpoint)
    ensures Passed(g, tenant, x) == Passed(g, tenant, checkpoint) + {x}
  {
    assert VertexKey(tenant, x) in g && x in Ids(g, tenant);
    if AtMost(x, checkpoint) {
      LessIrreflexive(x);
      if x != checkpoint {
        LessAsymmetric(x, checkpoint);
      }
    }
    forall id | id in Ids(g, tenant) ensures AtMost(id, x) <==> AtMost(id, checkpoint) || id == x {
      assert VertexKey(tenant, id) in g;
      LessTotal(id, checkpoint);
      if AtMost(id, checkpoint) {
        AtMostTransitive(id, checkpoint, x);
      } else if AtMost(id, x) {
        AtMostAntisymmetric(id, x);
      }
    }
  }

  lemma NothingPassed(g: Graph, tenant: Bytes)
    requires WellFormed(g)
    ensures Passed(g, tenant, []) == {}
  {
    forall id | id in Ids(g, tenant) ensures !AtMost(id, []) {
      assert VertexKey(tenant, id) in g;
    }
  }

  lemma PassedAll(g: Graph, tenant: Bytes, checkpoint: Bytes)
    requires NextVertex(g, tenant, checkpoint) == None
    ensures Passed(g, tenant, checkpoint) == Ids(g, tenant)
  {
    NextVertexSpec(g, tenant, checkpoint);
    forall id | id in Ids(g, tenant) ensures AtMost(id, checkpoint) {
      assert VertexKey(tenant, id) in g;
      LessTotal(id, checkpoint);
    }
  }

  // ---------------------------------------------------------------- counters over a run

  /** Events that leave the graph, the records of k and the entries of k to the worker alone. */
  predicate Quiet(ev: Event, k: Key) {
    match ev
    case Edit => false
    case Restart(j) => j != k
    case CreateAsync(j) => j != k
    case CreateSync(j) => j != k
    case Migrate(j) => j != k
    case Drop(d) => !(SameKeyspace(d, k) || SameUpToCase(k, d))
    case _ => true
  }

  /** The durable record of k, enqueued at revision r, counts the vertices passed and the entries written. */
  ghost predicate RecordTally(w: World, k: Key, r: nat) {
    var g := w.store.graph;
    match Latest(w.store.jobs, k)
    case None => false
    case Some(s) =>
      if s.completed
      then s.revision == r + |Ids(g, k.tenant)| + 1 && s.indexed == Total(g, k, Ids(g, k.tenant))
      else
        && s.revision == r + |Passed(g, k.tenant, s.checkpoint)|
        && s.indexed == Total(g, k, Passed(g, k.tenant, s.checkpoint))
  }

  ghost predicate HandTally(w: World, k: Key) {
    w.worker.Busy? && w.worker.hand.key == k ==>
      var h := w.worker.hand;
      var g := w.store.graph;
      match h.phase
      case Scan => true
      case Finish => Passed(g, k.tenant, h.state.checkpoint) == Ids(g, k.tenant)
      case Fill(x) => IsNext(g, k.tenant, h.state.checkpoint, x)
      case Collect(x) => IsNext(g, k.tenant, h.state.checkpoint, x)
      case Write(x, todo, c) =>
        && IsNext(g, k.tenant, h.state.checkpoint, x)
        && c + |todo| == |Found(g, k, x)|
      case Checkpoint(x, m) => IsNext(g, k.tenant, h.state.checkpoint, x) && m == |Found(g, k, x)|
  }

  ghost predicate Tally(w: World, k: Key, r: nat) {
    Inv(w) && RecordTally(w, k, r) && HandTally(w, k)
  }

  lemma ScanTally(w: World, limit: nat, k: Key, r: nat)
    requires Tally(w, k, r) && w.worker.Busy? && w.worker.hand.phase == Scan
    ensures Tally(WorkStep(w, limit), k, r)
  {
    var h := w.worker.hand;
    var g := w.store.graph;
    NextVertexSpec(g, h.key.tenant, h.state.checkpoint);
    match NextVertex(g, h.key.tenant, h.state.checkpoint)
    case None => PassedAll(g, h.key.tenant, h.state.checkpoint);
    case Some(x) =>
      assert VertexKey(h.key.tenant, x) in g;
      TrimFixesTrimmed(x);
  }

  lemma FillTally(w: World, limit: nat, k: Key, r: nat)
    requires Tally(w, k, r) && w.worker.Busy?
    requires w.worker.hand.phase.Fill? || w.worker.hand.phase.Collect?
    ensures Tally(WorkStep(w, limit), k, r)
  {
    var w' := WorkStep(w, limit);
    assert w'.store.jobs == w.store.jobs && w'.store.graph == w.store.graph;
    assert RecordTally(w', k, r);
  }

  lemma WriteTally(w: World, limit: nat, k: Key, r: nat)
    requires Tally(w, k, r) && w.worker.Busy? && w.worker.hand.phase.Write?
    ensures Tally(WorkStep(w, limit), k, r)
  {
    var w' := WorkStep(w, limit);
    assert w'.store.jobs == w.store.jobs && w'.store.graph == w.store.graph;
    assert RecordTally(w', k, r);
  }

  lemma FinishTally(w: World, limit: nat, k: Key, r: nat)
    requires Tally(w, k, r) && w.worker.Busy? && w.worker.hand.phase == Finish
    ensures Tally(WorkStep(w, limit), k, r)
  {
    PutNewer(w.store.jobs, w.worker.hand.key, Finished(w.worker.hand.state));
  }

  lemma CheckpointTally(w: World, limit: nat, k: Key, r: nat)
    requires Tally(w, k, r) && w.worker.Busy? && w.worker.hand.phase.Checkpoint?
    ensures Tally(WorkStep(w, limit), k, r)
  {
    var h := w.worker.hand;
    var g := w.store.graph;
    var x := h.phase.id;
    ReplaceLatest(w.store.jobs, h.key, h.state, Advanced(h.state, x, h.phase.indexed));
    if h.key == k {
      PassedNext(g, k.tenant, h.state.checkpoint, x);
      TotalAdd(g, k, Passed(g, k.tenant, h.state.checkpoint), x);
    }
  }

  lemma WorkTally(w: World, limit: nat, k: Key, r: nat)
    requires Tally(w, k, r) && w.worker.Busy?
    ensures Tally(WorkStep(w, limit), k, r)
  {
    match w.worker.hand.phase
    case Scan => ScanTally(w, limit, k, r);
    case Finish => FinishTally(w, limit, k, r);
    case Checkpoint(_, _) => CheckpointTally(w, limit, k, r);
    case Write(_, _, _) => WriteTally(w, limit, k, r);
    case _ => FillTally(w, limit, k, r);
  }

  lemma StepTally(w: World, ev: Event, w': World, k: Key, r: nat)
    requires Tally(w, k, r) && Next(w, ev, w') && Quiet(ev, k)
    ensures Tally(w', k, r)
  {
    match ev
    case Work(limit) => WorkTally(w, limit, k, r);
    case Restart(j) => PutNewer(w.store.jobs, j, Fresh(NextRevision(w.store.jobs, j)));
    case CreateAsync(j) => PutNewer(w.store.jobs, j, Fresh(NextRevision(w.store.jobs, j)));
    case Drop(d) => CompletionsLatest(w.store.jobs, d, k);
    case _ =>
  }

  // ---------------------------------------------------------------- entries over a run

  /** The entries index k would find in its keyspace, of its own kind. */
  function EntriesOf(entries: set<Entry>, k: Key): set<Entry> {
    set e | e in entries && e.kind == k.kind && InKeyspace(e, k)
  }

  ghost predicate Within(w: World, k: Key, base: set<Entry>) {
    && base <= EntriesOf(w.store.entries, k) <= base + AllEntries(w.store.graph, k)
    && (w.worker.Busy? && w.worker.hand.key == k && w.worker.hand.phase.Write? ==>
          forall e | e in w.worker.hand.phase.todo :: e in AllEntries(w.store.graph, k))
  }

  lemma FoundBelongs(g: Graph, j: Key, id: Bytes)
    requires WellFormed(g)
    ensures forall e | e in Found(g, j, id) :: e.kind == j.kind && InKeyspace(e, j) && e in AllEntries(g, j)
  {
    if VertexKey(j.tenant, id) in g {
      ContributionBelongs(j, id, g[VertexKey(j.tenant, id)]);
    }
  }

  lemma AllBelong(g: Graph, j: Key)
    requires WellFormed(g)
    ensures forall e | e in AllEntries(g, j) :: e.kind == j.kind && InKeyspace(e, j)
  {
    forall e | e in AllEntries(g, j) ensures e.kind == j.kind && InKeyspace(e, j) {
      var v :| v in g && v.tenant == j.tenant && e in Contribution(j, v.id, g[v]);
      ContributionBelongs(j, v.id, g[v]);
    }
  }

  ghost predicate TodoBelongs(w: World) {
    w.worker.Busy? && w.worker.hand.phase.Write? ==>
      forall e | e in w.worker.hand.phase.todo :: e.kind == w.worker.hand.key.kind && InKeyspace(e, w.worker.hand.key)
  }

  lemma WorkWithin(w: World, limit: nat, k: Key, base: set<Entry>)
    requires Inv(w) && w.worker.Busy? && Within(w, k, base) && TodoBelongs(w)
    ensures Within(WorkStep(w, limit), k, base) && TodoBelongs(WorkStep(w, limit))
  {
    var h := w.worker.hand;
    match h.phase
    case Fill(x) => FoundBelongs(w.store.graph, h.key, x);
    case Collect(x) => FoundBelongs(w.store.graph, h.key, x);
    case Write(x, todo, _) =>
    case _ =>
  }

  lemma StepWithin(w: World, ev: Event, w': World, k: Key, base: set<Entry>)
    requires Inv(w) && Within(w, k, base) && TodoBelongs(w) && Next(w, ev, w') && Quiet(ev, k)
    ensures Within(w', k, base) && TodoBelongs(w')
  {
    match ev
    case Work(limit) => WorkWithin(w, limit, k, base);
    case CreateSync(j) => AllBelong(w.store.graph, j);
    case Migrate(j) => AllBelong(w.store.graph, j);
    case _ =>
  }

  lemma QuietGraph(w: World, ev: Event, w': World, k: Key)
    requires Next(w, ev, w') && Quiet(ev, k)
    ensures w'.store.graph == w.store.graph
  {
    match ev
    case Work(limit) => assert WorkStep(w, limit).store.graph == w.store.graph;
    case Drop(d) => assert Dropped(w, d).store.graph == w.store.graph;
    case _ =>
  }

  /** Everything a quiet step keeps, bundled for the induction over runs. */
  ghost predicate Settled(w: World, g: Graph, k: Key, r: nat, base: set<Entry>) {
    Tally(w, k, r) && Within(w, k, base) && TodoBelongs(w) && w.store.graph == g
  }

  lemma StepSettled(w: World, ev: Event, w': World, g: Graph, k: Key, r: nat, base: set<Entry>)
    requires Settled(w, g, k, r, base) && Next(w, ev, w') && Quiet(ev, k)
    ensures Settled(w', g, k, r, base)
  {
    StepTally(w, ev, w', k, r);
    StepWithin(w, ev, w', k, base);
    QuietGraph(w, ev, w', k);
  }

  lemma {:induction false} QuietRun(ws: seq<World>, evs: seq<Event>, g: Graph, k: Key, r: nat, base: set<Entry>)
    requires IsRun(ws, evs) && Settled(ws[0], g, k, r, base)
    requires forall i | 0 <= i < |evs| :: Quiet(evs[i], k)
    ensures forall i | 0 <= i < |ws| :: Settled(ws[i], g, k, r, base)
    decreases |evs|
  {
    if |evs| > 0 {
      var n := |evs| - 1;
      var ws', evs' := ws[..n + 1], evs[..n];
      QuietRun(ws', evs', g, k, r, base);
      assert Settled(ws'[n], g, k, r, base);
      StepSettled(ws[n], evs[n], ws[n + 1], g, k, r, base);
      forall i | 0 <= i < |ws| ensures Settled(ws[i], g, k, r, base) {
        if i <= n {
          assert ws[i] == ws'[i];
        }
      }
    }
  }

  lemma EnqueueStartsTally(w: World, k: Key)
    requires Inv(w) && w.worker == Idle
    ensures Tally(Enqueued(w, k), k, NextRevision(w.store.jobs, k))
    ensures Within(Enqueued(w, k), k, EntriesOf(w.store.entries, k))
  {
    PutNewer(w.store.jobs, k, Fresh(NextRevision(w.store.jobs, k)));
    NothingPassed(w.store.graph, k.tenant);
  }

  /**
   * On a graph of n vertices that nobody writes to, a build enqueued at revision r completes -- whatever
   * crashes and other calls come in between -- at revision r + n + 1, with its counter equal to the number
   * of entries the graph calls for, and leaves exactly the entries a synchronous backfill would leave.
   */
  lemma FrozenBuildIsExact(ws: seq<World>, evs: seq<Event>, k: Key)
    requires |evs| >= 1 && IsRun(ws, evs) && Inv(ws[0]) && evs[0] == Restart(k)
    requires forall i | 1 <= i < |evs| :: Quiet(evs[i], k)
    requires !Pending(ws[|evs|].store.jobs, k)
    ensures var g := ws[0].store.graph;
            var s := Latest(ws[|evs|].store.jobs, k);
            && s.Some? && s.value.completed
            && s.value.revision == NextRevision(ws[0].store.jobs, k) + |Ids(g, k.tenant)| + 1
            && s.value.indexed == Total(g, k, Ids(g, k.tenant))
    ensures EntriesOf(ws[|evs|].store.entries, k) == EntriesOf(Backfilled(ws[0], k).store.entries, k)
  {
    var g := ws[0].store.graph;
    var r := NextRevision(ws[0].store.jobs, k);
    var base := EntriesOf(ws[0].store.entries, k);
    assert Next(ws[0], evs[0], ws[1]);
    EnqueueStartsTally(ws[0], k);
    QuietRun(ws[1..], evs[1..], g, k, r, base);
    var last := ws[|evs|];
    assert Settled(ws[1..][|evs| - 1], g, k, r, base);
    forall i | 0 <= i < |ws| ensures ws[i].store.graph == g {
      if i > 0 {
        assert Settled(ws[1..][i - 1], g, k, r, base);
      }
    }
    FrozenEntries(ws, evs, k);
    AllBelong(g, k);
    assert EntriesOf(last.store.entries, k) == base + AllEntries(g, k);
  }

  lemma FrozenEntries(ws: seq<World>, evs: seq<Event>, k: Key)
    requires |evs| >= 1 && IsRun(ws, evs) && Inv(ws[0]) && evs[0] == Restart(k)
    requires forall i | 1 <= i < |evs| :: Quiet(evs[i], k)
    requires forall i | 0 <= i < |ws| :: ws[i].store.graph == ws[0].store.graph
    requires !Pending(ws[|evs|].store.jobs, k)
    ensures AllEntries(ws[0].store.graph, k) <= ws[|evs|].store.entries
  {
    var g := ws[0].store.graph;
    var last := ws[|evs|];
    forall e | e in AllEntries(g, k) ensures e in last.store.entries {
      var v :| v in g && v.tenant == k.tenant && e in Contribution(k, v.id, g[v]);
      forall i | 0 <= i < |evs| && evs[i].Drop?
        ensures !(SameKeyspace(evs[i].key, k) || SameUpToCase(k, evs[i].key))
      {
        assert i >= 1;
      }
      assert VertexKey(k.tenant, v.id) == v;
      ContributionBelongs(k, v.id, g[v]);
      assert KeyOf(e) == k;
      CompletedJobCovers(ws, evs, 0, e);
    }
  }
}
