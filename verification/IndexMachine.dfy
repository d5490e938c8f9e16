/**
 * The durable index-build machine. One event is one store transaction of the background worker,
 * or one whole DDL call; vertex writers may step in between any two events, and a crash may strike
 * between any two transactions of a worker pass. A crash loses the catalog and the record in hand.
 */
module IndexMachine {
  import opened Wrappers
  import opened Text
  import opened IndexStore

  /** Where the worker stands in the loop over vertices. */
  datatype Phase =
    | Scan
    | Finish
    | Fill(id: Bytes)
    | Collect(id: Bytes)
    | Write(id: Bytes, todo: seq<Entry>, written: nat)
    | Checkpoint(id: Bytes, indexed: nat)

  datatype Hand = Hand(key: Key, state: JobState, processed: nat, phase: Phase)

  datatype Worker = Idle | Busy(hand: Hand)

  datatype World = World(store: Store, catalog: set<Key>, worker: Worker)

  datatype Event =
    | Edit
    | Start(key: Key)
    | Work(limit: nat)
    | Crash
    | Restart(key: Key)
    | CreateAsync(key: Key)
    | CreateSync(key: Key)
    | Migrate(key: Key)
    | Drop(key: Key)

  const MAX_PER_PASS: nat := 64

  // ---------------------------------------------------------------- one worker transaction

  function Fresh(revision: nat): JobState {
    JobState(revision, [], 0, false)
  }

  function Advanced(s: JobState, id: Bytes, indexed: nat): JobState {
    JobState(s.revision + 1, id, s.indexed + indexed, false)
  }

  function Finished(s: JobState): JobState {
    JobState(s.revision + 1, s.checkpoint, s.indexed, true)
  }

  function Found(g: Graph, k: Key, id: Bytes): seq<Entry> {
    if VertexKey(k.tenant, id) in g then Contribution(k, id, g[VertexKey(k.tenant, id)]) else []
  }

  /** The write-batch limit only ever splits the edge backfill; a vertex contributes one entry at most. */
  predicate Fits(k: Key, found: seq<Entry>, limit: nat) {
    k.kind == VertexIndex || |found| <= limit
  }

  function SetOf(es: seq<Entry>): set<Entry> {
    set e | e in es
  }

  /** The worker's next transaction, or the end of its pass. */
  ghost function WorkStep(w: World, limit: nat): World
    requires w.worker.Busy?
  {
    var h := w.worker.hand;
    var k := h.key;
    var st := w.store;
    match h.phase
    case Scan =>
      (match NextVertex(st.graph, k.tenant, h.state.checkpoint)
       case None => w.(worker := Busy(h.(phase := Finish)))
       case Some(id) =>
         w.(worker := Busy(h.(phase := if Blank(id) then Finish else Fill(id)))))
    case Finish =>
      World(st.(jobs := st.jobs + {JobEntry(k, Finished(h.state))}), w.catalog, Idle)
    case Fill(id) =>
      var found := Found(st.graph, k, id);
      if Fits(k, found, limit) then
        World(st.(entries := st.entries + SetOf(found)), w.catalog,
              Busy(h.(phase := Checkpoint(id, |found|))))
      else w.(worker := Busy(h.(phase := Collect(id))))
    case Collect(id) =>
      var found := Found(st.graph, k, id);
      w.(worker := Busy(h.(phase := NextWrite(id, found, 0))))
    case Write(id, todo, written) =>
      if todo == [] then w.(worker := Busy(h.(phase := Checkpoint(id, written))))
      else
        World(st.(entries := st.entries + {todo[0]}), w.catalog,
              Busy(h.(phase := NextWrite(id, todo[1..], written + 1))))
    case Checkpoint(id, indexed) =>
      var next := Advanced(h.state, id, indexed);
      World(st.(jobs := st.jobs - {JobEntry(k, h.state)} + {JobEntry(k, next)}), w.catalog,
            if h.processed + 1 < MAX_PER_PASS then Busy(Hand(k, next, h.processed + 1, Scan)) else Idle)
  }

  function NextWrite(id: Bytes, todo: seq<Entry>, written: nat): Phase {
    if todo == [] then Checkpoint(id, written) else Write(id, todo, written)
  }

  /** f performs the worker's transactions one by one, and leaves an idle worker where it is. */
  ghost predicate Drives(f: World -> World, limit: nat) {
    && (forall w: World {:trigger WorkStep(w, limit)} | w.worker.Busy? :: f(w) == WorkStep(w, limit))
    && (forall w: World {:trigger f(w)} | w.worker.Idle? :: f(w) == w)
  }

  ghost function Driver(limit: nat): (f: World -> World)
    ensures Drives(f, limit)
  {
    (w: World) => if w.worker.Idle? then w else WorkStep(w, limit)
  }

  /** The world after the next n transactions of a pass. */
  ghost function WorkN(w: World, limit: nat, n: nat): World {
    Iterate(Driver(limit), w, n)
  }

  ghost function Iterate<S>(f: S -> S, s: S, n: nat): S
    decreases n
  {
    if n == 0 then s else f(Iterate(f, s, n - 1))
  }

  // ---------------------------------------------------------------- DDL calls

  /** Restarting a build, and creating an index in the background: catalog key plus a fresh record. */
  ghost function Enqueued(w: World, k: Key): World {
    World(w.store.(jobs := w.store.jobs + {JobEntry(k, Fresh(NextRevision(w.store.jobs, k)))}),
          w.catalog + {k}, w.worker)
  }

  /** Every entry index k should hold for the graph. */
  function AllEntries(g: Graph, k: Key): set<Entry> {
    set v, e | v in g && v.tenant == k.tenant && e in Contribution(k, v.id, g[v]) :: e
  }

  function Backfilled(w: World, k: Key): World {
    World(w.store.(entries := w.store.entries + AllEntries(w.store.graph, k)), w.catalog + {k}, w.worker)
  }

  /** The case folding behind strings.EqualFold, Unicode letters included. Nothing is known about it here. */
  const FOLD: Bytes -> Bytes

  predicate EqualFold(a: Bytes, b: Bytes) {
    FOLD(a) == FOLD(b)
  }

  /** Drop looks up the build jobs to complete case-insensitively. */
  predicate SameUpToCase(j: Key, k: Key) {
    && j.kind == k.kind
    && EqualFold(j.tenant, k.tenant) && EqualFold(j.name, k.name) && EqualFold(j.property, k.property)
  }

  /** Index entries do not record whether their schema is a label or an edge type. */
  predicate SameKeyspace(j: Key, k: Key) {
    j.tenant == k.tenant && j.name == k.name && j.property == k.property
  }

  ghost function CompletionsFor(jobs: set<JobEntry>, k: Key): set<JobEntry> {
    set e | e in jobs && SameUpToCase(e.key, k) && Latest(jobs, e.key) == Some(e.state) && !e.state.completed
      :: JobEntry(e.key, Finished(e.state))
  }

  function Cleared(entries: set<Entry>, k: Key): set<Entry> {
    set e | e in entries && !(InKeyspace(e, k) && !Blank(e.entityId))
  }

  ghost function Dropped(w: World, k: Key): World {
    World(Store(w.store.graph, Cleared(w.store.entries, k), w.store.jobs + CompletionsFor(w.store.jobs, k)),
          w.catalog - {k}, w.worker)
  }

  // ---------------------------------------------------------------- the transition relation

  function KeyOf(e: Entry): Key {
    Key(e.kind, e.tenant, e.name, e.property)
  }

  /** The graph calls for entry e: its vertex or edge is there, with the label or type and the property value. */
  ghost predicate Calls(g: Graph, e: Entry) {
    var v := VertexKey(e.tenant, e.owner);
    v in g && e in Contribution(KeyOf(e), e.owner, g[v])
  }

  /** Writers may do anything to vertices and edges and to their entries, but leave an entry that stays right. */
  ghost predicate GoodEdit(s: Store, s': Store) {
    && WellFormed(s'.graph)
    && s'.jobs == s.jobs
    && forall e | e in s.entries && Calls(s.graph, e) && Calls(s'.graph, e) :: e in s'.entries
  }

  ghost predicate Next(w: World, ev: Event, w': World) {
    match ev
    case Edit => GoodEdit(w.store, w'.store) && w' == w.(store := w'.store)
    case Start(k) =>
      && w.worker == Idle && Pending(w.store.jobs, k)
      && w' == World(w.store, w.catalog + {k}, Busy(Hand(k, Latest(w.store.jobs, k).value, 0, Scan)))
    case Work(limit) => w.worker.Busy? && w' == WorkStep(w, limit)
    case Crash => w' == World(w.store, {}, Idle)
    case Restart(k) => w.worker == Idle && w' == Enqueued(w, k)
    case CreateAsync(k) => w.worker == Idle && w' == if k in w.catalog then w else Enqueued(w, k)
    case CreateSync(k) =>
      w.worker == Idle && k.kind == VertexIndex && w' == if k in w.catalog then w else Backfilled(w, k)
    case Migrate(k) => w.worker == Idle && w' == Backfilled(w, k)
    case Drop(k) => w.worker == Idle && w' == if k in w.catalog then Dropped(w, k) else w
  }

  ghost predicate IsRun(ws: seq<World>, evs: seq<Event>) {
    |ws| == |evs| + 1 && forall i | 0 <= i < |evs| :: Next(ws[i], evs[i], ws[i + 1])
  }

  /** w' can be reached from w. */
  ghost predicate Leads(w: World, w': World) {
    exists ws, evs :: IsRun(ws, evs) && ws[0] == w && ws[|evs|] == w'
  }

  lemma LeadsSelf(w: World)
    ensures Leads(w, w)
  {
    assert IsRun([w], []) && [w][0] == w;
  }

  lemma LeadsOn(w: World, u: World, ev: Event, w': World)
    requires Leads(w, u) && Next(u, ev, w')
    ensures Leads(w, w')
  {
    var ws, evs :| IsRun(ws, evs) && ws[0] == w && ws[|evs|] == u;
    var ws', evs' := ws + [w'], evs + [ev];
    forall i | 0 <= i < |evs'| ensures Next(ws'[i], evs'[i], ws'[i + 1]) {
      if i < |evs| {
        assert ws'[i] == ws[i] && ws'[i + 1] == ws[i + 1] && evs'[i] == evs[i];
      }
    }
    assert IsRun(ws', evs') && ws'[0] == w && ws'[|evs'|] == w';
  }

  /** A set of worlds that no event leaves. */
  ghost predicate Closed(reach: World -> bool) {
    forall w, ev, w' {:trigger Next(w, ev, w')} | reach(w) && Next(w, ev, w') :: reach(w')
  }

  lemma LeadsClosed(w: World)
    ensures Leads(w, w) && Closed((u: World) => Leads(w, u))
  {
    LeadsSelf(w);
    forall u, ev, w' | Leads(w, u) && Next(u, ev, w') ensures Leads(w, w') {
      LeadsOn(w, u, ev, w');
    }
  }

  lemma {:induction false} ClosedUnderWork(reach: World -> bool, w: World, limit: nat, n: nat)
    requires Closed(reach) && reach(w)
    ensures reach(WorkN(w, limit, n))
    decreases n
  {
    if n > 0 {
      var v := WorkN(w, limit, n - 1);
      ClosedUnderWork(reach, w, limit, n - 1);
      if v.worker.Busy? {
        assert Driver(limit)(v) == WorkStep(v, limit);
        assert Next(v, Work(limit), WorkN(w, limit, n));
      }
    }
  }

  // ---------------------------------------------------------------- invariants

  ghost predicate Inv(w: World) {
    && UniqueRevisions(w.store.jobs)
    && WellFormed(w.store.graph)
    && (w.worker.Busy? ==>
          var h := w.worker.hand;
          Latest(w.store.jobs, h.key) == Some(h.state) && !h.state.completed && h.processed < MAX_PER_PASS)
  }

  /**
   * What the durable record of the job promises about one entry: while the job is pending, an entry of a vertex
   * at or before the checkpoint is there; once it is not, the entry is there if the catalog lists the index --
   * and, when `strict`, even if it does not.
   */
  ghost predicate RecordOk(w: World, e: Entry, strict: bool) {
    var k := KeyOf(e);
    if Pending(w.store.jobs, k)
    then AtMost(e.owner, Latest(w.store.jobs, k).value.checkpoint) ==> e in w.store.entries
    else strict || k in w.catalog ==> e in w.store.entries
  }

  /** No vertex was skipped between the checkpoint and the vertex the worker has in hand. */
  ghost predicate NotSkipped(h: Hand, next: Bytes, id: Bytes) {
    Less(h.state.checkpoint, id) ==> AtMost(next, id)
  }

  ghost predicate HandOk(w: World, e: Entry) {
    w.worker.Busy? && w.worker.hand.key == KeyOf(e) ==>
      var h := w.worker.hand;
      match h.phase
      case Scan => true
      case Finish => e in w.store.entries
      case Fill(x) => NotSkipped(h, x, e.owner)
      case Collect(x) => NotSkipped(h, x, e.owner)
      case Write(x, todo, _) =>
        NotSkipped(h, x, e.owner) && (x == e.owner ==> e in w.store.entries || e in todo)
      case Checkpoint(x, _) => NotSkipped(h, x, e.owner) && (x == e.owner ==> e in w.store.entries)
  }

  ghost predicate Good(w: World, e: Entry, strict: bool) {
    Inv(w) && Calls(w.store.graph, e) && RecordOk(w, e, strict) && HandOk(w, e)
  }

  // ---------------------------------------------------------------- every event keeps them

  lemma EditKeeps(w: World, w': World, e: Entry, strict: bool)
    requires Good(w, e, strict) && Next(w, Edit, w') && Calls(w'.store.graph, e)
    ensures Good(w', e, strict)
  {
  }

  lemma StartKeeps(w: World, j: Key, w': World, e: Entry, strict: bool)
    requires Good(w, e, strict) && Next(w, Start(j), w')
    ensures Good(w', e, strict)
  {
  }

  lemma CrashKeeps(w: World, w': World, e: Entry, strict: bool)
    requires Good(w, e, strict) && Next(w, Crash, w')
    ensures Good(w', e, strict)
  {
  }

  lemma EnqueueKeeps(w: World, j: Key, e: Entry, strict: bool)
    requires Inv(w) && w.worker == Idle && Calls(w.store.graph, e)
    requires j == KeyOf(e) || RecordOk(w, e, strict)
    ensures Good(Enqueued(w, j), e, strict)
  {
    PutNewer(w.store.jobs, j, Fresh(NextRevision(w.store.jobs, j)));
    assert e.owner != [];
  }

  lemma BackfillKeeps(w: World, j: Key, e: Entry, strict: bool)
    requires Inv(w) && w.worker == Idle && Calls(w.store.graph, e)
    requires j == KeyOf(e) || RecordOk(w, e, strict)
    ensures Good(Backfilled(w, j), e, strict)
  {
    if j == KeyOf(e) {
      assert VertexKey(e.tenant, e.owner) in w.store.graph;
      assert e in AllEntries(w.store.graph, j);
    }
  }

  /** Completing jobs on a drop keeps revisions unique and completes exactly the matching pending jobs. */
  lemma CompletionsLatest(jobs: set<JobEntry>, d: Key, k: Key)
    requires UniqueRevisions(jobs)
    ensures UniqueRevisions(jobs + CompletionsFor(jobs, d))
    ensures Latest(jobs + CompletionsFor(jobs, d), k) ==
            if SameUpToCase(k, d) && Pending(jobs, k) then Some(Finished(Latest(jobs, k).value))
            else Latest(jobs, k)
  {
    var jobs' := jobs + CompletionsFor(jobs, d);
    forall e | e in CompletionsFor(jobs, d)
      ensures Pending(jobs, e.key) && e.state == Finished(Latest(jobs, e.key).value)
      ensures IsLatest(jobs, e.key, Latest(jobs, e.key).value)
    {
    }
    if SameUpToCase(k, d) && Pending(jobs, k) {
      var s := Latest(jobs, k).value;
      assert IsLatest(jobs, k, s);
      assert JobEntry(k, s) in jobs;
      assert JobEntry(k, Finished(s)) in CompletionsFor(jobs, d);
      assert IsLatest(jobs', k, Finished(s));
      LatestIs(jobs', k, Finished(s));
    } else {
      LatestFrame(jobs, jobs', k);
    }
  }

  /** A drop of index d leaves index k alone, or removes it from the catalog together with its entries. */
  predicate HarmlessDrop(d: Key, k: Key) {
    d == k || !(SameKeyspace(d, k) || SameUpToCase(k, d))
  }

  lemma DropKeeps(w: World, d: Key, e: Entry, strict: bool)
    requires Good(w, e, strict) && w.worker == Idle
    requires HarmlessDrop(d, KeyOf(e)) && (strict ==> d != KeyOf(e))
    ensures Good(Dropped(w, d), e, strict)
  {
    CompletionsLatest(w.store.jobs, d, KeyOf(e));
    if d == KeyOf(e) {
      EqualFoldReflexive(d);
    }
  }

  lemma EqualFoldReflexive(k: Key)
    ensures SameUpToCase(k, k)
  {
  }

  // ---------------------------------------------------------------- every worker transaction keeps them

  lemma ScanKeeps(w: World, limit: nat, e: Entry, strict: bool)
    requires Good(w, e, strict) && w.worker.Busy? && w.worker.hand.phase == Scan
    ensures Good(WorkStep(w, limit), e, strict)
  {
    var h := w.worker.hand;
    var g := w.store.graph;
    NextVertexSpec(g, h.key.tenant, h.state.checkpoint);
    match NextVertex(g, h.key.tenant, h.state.checkpoint)
    case None =>
      if h.key == KeyOf(e) {
        LessTotal(e.owner, h.state.checkpoint);
      }
    case Some(x) =>
      assert VertexKey(h.key.tenant, x) in g;
      TrimFixesTrimmed(x);
  }

  lemma FinishKeeps(w: World, limit: nat, e: Entry, strict: bool)
    requires Good(w, e, strict) && w.worker.Busy? && w.worker.hand.phase == Finish
    ensures Good(WorkStep(w, limit), e, strict)
  {
    PutNewer(w.store.jobs, w.worker.hand.key, Finished(w.worker.hand.state));
  }

  lemma FillKeeps(w: World, limit: nat, e: Entry, strict: bool)
    requires Good(w, e, strict) && w.worker.Busy?
    requires var p := w.worker.hand.phase; p.Fill? || p.Collect? || p.Write?
    ensures Good(WorkStep(w, limit), e, strict)
  {
    var h := w.worker.hand;
    if h.phase.Write? && h.phase.todo != [] {
      assert h.phase.todo == [h.phase.todo[0]] + h.phase.todo[1..];
    }
  }

  lemma CheckpointKeeps(w: World, limit: nat, e: Entry, strict: bool)
    requires Good(w, e, strict) && w.worker.Busy? && w.worker.hand.phase.Checkpoint?
    ensures Good(WorkStep(w, limit), e, strict)
  {
    var h := w.worker.hand;
    var x := h.phase.id;
    ReplaceLatest(w.store.jobs, h.key, h.state, Advanced(h.state, x, h.phase.indexed));
    if h.key == KeyOf(e) && AtMost(e.owner, x) {
      LessTotal(e.owner, h.state.checkpoint);
      if Less(h.state.checkpoint, e.owner) {
        AtMostAntisymmetric(e.owner, x);
      }
    }
  }

  lemma WorkKeeps(w: World, limit: nat, e: Entry, strict: bool)
    requires Good(w, e, strict) && w.worker.Busy?
    ensures Good(WorkStep(w, limit), e, strict)
  {
    match w.worker.hand.phase
    case Scan => ScanKeeps(w, limit, e, strict);
    case Finish => FinishKeeps(w, limit, e, strict);
    case Checkpoint(_, _) => CheckpointKeeps(w, limit, e, strict);
    case _ => FillKeeps(w, limit, e, strict);
  }

  // ---------------------------------------------------------------- whole runs

  /** Events that a run may contain without voiding the promise for index k. */
  predicate Allowed(ev: Event, k: Key, strict: bool) {
    ev.Drop? ==> HarmlessDrop(ev.key, k) && (strict ==> ev.key != k)
  }

  lemma StepKeeps(w: World, ev: Event, w': World, e: Entry, strict: bool)
    requires Good(w, e, strict) && Next(w, ev, w') && Calls(w'.store.graph, e)
    requires Allowed(ev, KeyOf(e), strict)
    ensures Good(w', e, strict)
  {
    match ev
    case Edit => EditKeeps(w, w', e, strict);
    case Start(j) => StartKeeps(w, j, w', e, strict);
    case Work(limit) => WorkKeeps(w, limit, e, strict);
    case Crash => CrashKeeps(w, w', e, strict);
    case Restart(j) => EnqueueKeeps(w, j, e, strict);
    case CreateAsync(j) => EnqueueKeeps(w, j, e, strict);
    case CreateSync(j) => BackfillKeeps(w, j, e, strict);
    case Migrate(j) => BackfillKeeps(w, j, e, strict);
    case Drop(d) => DropKeeps(w, d, e, strict);
  }

  lemma {:induction false} RunKeeps(ws: seq<World>, evs: seq<Event>, e: Entry, strict: bool)
    requires IsRun(ws, evs) && Good(ws[0], e, strict)
    requires forall i | 0 <= i < |ws| :: Calls(ws[i].store.graph, e)
    requires forall i | 0 <= i < |evs| :: Allowed(evs[i], KeyOf(e), strict)
    ensures Good(ws[|evs|], e, strict)
    decreases |evs|
  {
    if |evs| > 0 {
      var n := |evs| - 1;
      RunKeeps(ws[..n + 1], evs[..n], e, strict);
      StepKeeps(ws[n], evs[n], ws[n + 1], e, strict);
    }
  }

  // ---------------------------------------------------------------- the invariant from an empty store on

  lemma WorkKeepsInv(w: World, limit: nat)
    requires Inv(w) && w.worker.Busy?
    ensures Inv(WorkStep(w, limit))
  {
    var h := w.worker.hand;
    match h.phase
    case Finish => PutNewer(w.store.jobs, h.key, Finished(h.state));
    case Checkpoint(x, indexed) => ReplaceLatest(w.store.jobs, h.key, h.state, Advanced(h.state, x, indexed));
    case _ =>
  }

  lemma InvKeeps(w: World, ev: Event, w': World)
    requires Inv(w) && Next(w, ev, w')
    ensures Inv(w')
  {
    hide WorkStep;
    var jobs := w.store.jobs;
    match ev
    case Work(limit) => WorkKeepsInv(w, limit);
    case Restart(j) => PutNewer(jobs, j, Fresh(NextRevision(jobs, j)));
    case CreateAsync(j) => PutNewer(jobs, j, Fresh(NextRevision(jobs, j)));
    case Drop(d) => CompletionsLatest(jobs, d, d);
    case _ =>
  }

  /** Whatever happens, drops and arbitrary edits included. */
  lemma {:induction false} InvThroughout(ws: seq<World>, evs: seq<Event>, i: nat)
    requires IsRun(ws, evs) && Inv(ws[0]) && i < |ws|
    ensures Inv(ws[i])
    decreases i
  {
    if i > 0 {
      InvThroughout(ws, evs, i - 1);
      InvKeeps(ws[i - 1], evs[i - 1], ws[i]);
    }
  }

  /** A process that has just started on an empty store. */
  const EMPTY: World := World(Store(map[], {}, {}), {}, Idle)

  lemma ReachableInv(w: World)
    requires Leads(EMPTY, w)
    ensures Inv(w)
  {
    var ws, evs :| IsRun(ws, evs) && ws[0] == EMPTY && ws[|evs|] == w;
    InvThroughout(ws, evs, |evs|);
  }

  /** The calls after which every existing vertex is owed an entry: (re)starting a build, or a synchronous one. */
  predicate Promises(w: World, ev: Event, k: Key) {
    || ev == Restart(k)
    || (ev == CreateAsync(k) && k !in w.catalog)
    || (ev == CreateSync(k) && k !in w.catalog)
    || ev == Migrate(k)
  }

  lemma PromiseMade(w: World, ev: Event, w': World, e: Entry, strict: bool)
    requires Inv(w) && Next(w, ev, w') && Promises(w, ev, KeyOf(e)) && Calls(w.store.graph, e)
    ensures Good(w', e, strict)
  {
    match ev
    case Restart(_) => EnqueueKeeps(w, KeyOf(e), e, strict);
    case CreateAsync(_) => EnqueueKeeps(w, KeyOf(e), e, strict);
    case _ => BackfillKeeps(w, KeyOf(e), e, strict);
  }

  /**
   * Safety of the build job over every run. Whatever happened before, let event i enqueue the build, and let
   * writers, worker transactions, crashes, restarts and other DDL calls follow in any order, with no drop touching
   * the index. If the job's latest record is completed at the end, every entry is there that the graph called for
   * all the time since the enqueue.
   */
  lemma CompletedJobCovers(ws: seq<World>, evs: seq<Event>, i: nat, e: Entry)
    requires IsRun(ws, evs) && Inv(ws[0]) && i < |evs| && Promises(ws[i], evs[i], KeyOf(e))
    requires forall j | i <= j < |ws| :: Calls(ws[j].store.graph, e)
    requires forall j | i <= j < |evs| && evs[j].Drop? ::
               !(SameKeyspace(evs[j].key, KeyOf(e)) || SameUpToCase(KeyOf(e), evs[j].key))
    requires !Pending(ws[|evs|].store.jobs, KeyOf(e))
    ensures e in ws[|evs|].store.entries
  {
    InvThroughout(ws, evs, i);
    PromiseMade(ws[i], evs[i], ws[i + 1], e, true);
    EqualFoldReflexive(KeyOf(e));
    RunKeeps(ws[i + 1..], evs[i + 1..], e, true);
  }

  /**
   * The catalog over every run, drops of the index included: whenever it lists the index and no build of it is
   * pending, every entry is there that the graph called for since the last enqueue or synchronous backfill.
   */
  lemma CatalogKeepsPromise(ws: seq<World>, evs: seq<Event>, i: nat, e: Entry)
    requires IsRun(ws, evs) && Inv(ws[0]) && i < |evs| && Promises(ws[i], evs[i], KeyOf(e))
    requires forall j | i <= j < |ws| :: Calls(ws[j].store.graph, e)
    requires forall j | i <= j < |evs| && evs[j].Drop? :: HarmlessDrop(evs[j].key, KeyOf(e))
    requires KeyOf(e) in ws[|evs|].catalog && !Pending(ws[|evs|].store.jobs, KeyOf(e))
    ensures e in ws[|evs|].store.entries
  {
    InvThroughout(ws, evs, i);
    PromiseMade(ws[i], evs[i], ws[i + 1], e, false);
    RunKeeps(ws[i + 1..], evs[i + 1..], e, false);
  }

  /** After a drop nothing is left of the index: no catalog key, no entry, no pending build. */
  lemma DropClears(w: World, k: Key)
    requires Inv(w) && k in w.catalog
    ensures var w' := Dropped(w, k);
            && k !in w'.catalog
            && !Pending(w'.store.jobs, k)
            && forall id, v, e | id != [] && Trimmed(id) && e in Contribution(k, id, v) :: e !in w'.store.entries
  {
    CompletionsLatest(w.store.jobs, k, k);
    EqualFoldReflexive(k);
    forall id, v, e | id != [] && Trimmed(id) && e in Contribution(k, id, v)
      ensures e !in Dropped(w, k).store.entries
    {
      ContributionBelongs(k, id, v);
    }
  }

  // ---------------------------------------------------------------- exactly which drops are harmless

  const SOME_ID: Bytes := [65]

  function Sample(k: Key): Vertex {
    Vertex([k.name], map[k.property := []], [OutEdge(SOME_ID, k.name, SOME_ID, map[k.property := []])])
  }

  /** A world whose catalog lists d and k and whose promise for k holds, but not after dropping d. */
  ghost function Spoiler(d: Key, k: Key): World {
    var g := map[VertexKey(k.tenant, SOME_ID) := Sample(k)];
    if SameKeyspace(d, k) then World(Store(g, AllEntries(g, k), {}), {d, k}, Idle)
    else World(Store(g, {}, {JobEntry(k, Fresh(1))}), {d, k}, Idle)
  }

  function SampleEntry(k: Key): Entry {
    Entry(k.kind, k.tenant, k.name, k.property, [], SOME_ID, SOME_ID, if k.kind == EdgeIndex then SOME_ID else [])
  }

  lemma SampleContributes(k: Key)
    requires !Blank(k.name)
    ensures KeyOf(SampleEntry(k)) == k && Contribution(k, SOME_ID, Sample(k)) == [SampleEntry(k)]
  {
    TrimFixesTrimmed(SOME_ID);
    var out := Sample(k).out;
    assert out[1..] == [];
    assert EdgeEntries(k, SOME_ID, []) == [];
    if k.kind == EdgeIndex {
      assert EdgeEntries(k, SOME_ID, out) == [SampleEntry(k)];
    }
  }

  lemma SharedKeyspaceSpoils(d: Key, k: Key)
    requires !Blank(k.name) && !HarmlessDrop(d, k) && SameKeyspace(d, k)
    ensures var w := Spoiler(d, k);
            Good(w, SampleEntry(k), false) && !Good(Dropped(w, d), SampleEntry(k), false)
  {
    var w, e := Spoiler(d, k), SampleEntry(k);
    SampleContributes(k);
    TrimFixesTrimmed(SOME_ID);
    assert e in Contribution(k, SOME_ID, Sample(k));
    BackfillKeeps(World(Store(w.store.graph, {}, {}), {d, k}, Idle), k, e, false);
    LatestNone({}, k);
    CompletionsLatest({}, d, k);
    assert e !in Dropped(w, d).store.entries;
  }

  lemma SharedSpellingSpoils(d: Key, k: Key)
    requires !Blank(k.name) && !HarmlessDrop(d, k) && !SameKeyspace(d, k)
    ensures var w := Spoiler(d, k);
            Good(w, SampleEntry(k), false) && !Good(Dropped(w, d), SampleEntry(k), false)
  {
    var w, e := Spoiler(d, k), SampleEntry(k);
    SampleContributes(k);
    TrimFixesTrimmed(SOME_ID);
    assert e in Contribution(k, SOME_ID, Sample(k));
    var jobs := {JobEntry(k, Fresh(1))};
    assert IsLatest(jobs, k, Fresh(1));
    LatestIs(jobs, k, Fresh(1));
    CompletionsLatest(jobs, d, k);
    assert e !in Dropped(w, d).store.entries;
  }

  /** A backfill or a restarted build on the empty store, and then a writer who adds the vertex. */
  lemma SpoilerIsReachable(d: Key, k: Key)
    ensures Leads(EMPTY, Spoiler(d, k))
  {
    var w1 := Backfilled(EMPTY, d);
    var ev := if SameKeyspace(d, k) then Migrate(k) else Restart(k);
    var w2 := if SameKeyspace(d, k) then Backfilled(w1, k) else Enqueued(w1, k);
    var w3 := Spoiler(d, k);
    assert AllEntries(map[], d) == {} && AllEntries(map[], k) == {};
    assert NextRevision({}, k) == 1 by {
      LatestNone({}, k);
    }
    assert w2.catalog == {d, k};
    TrimFixesTrimmed(SOME_ID);
    LeadsSelf(EMPTY);
    LeadsOn(EMPTY, EMPTY, Migrate(d), w1);
    LeadsOn(EMPTY, w1, ev, w2);
    LeadsOn(EMPTY, w2, Edit, w3);
  }

  /** The spoiler world can arise, keeps its promise for k, and breaks it when d is dropped. */
  lemma SpoilerSpoils(d: Key, k: Key)
    requires !Blank(k.name) && !HarmlessDrop(d, k)
    ensures var w, e := Spoiler(d, k), SampleEntry(k);
            && Leads(EMPTY, w) && KeyOf(e) == k && Good(w, e, false) && w.worker == Idle && d in w.catalog
            && !Good(Dropped(w, d), e, false)
  {
    hide Good, Dropped, Leads;
    SpoilerIsReachable(d, k);
    if SameKeyspace(d, k) {
      SharedKeyspaceSpoils(d, k);
    } else {
      SharedSpellingSpoils(d, k);
    }
  }

  /**
   * Dropping d keeps the promise for every entry of k in every world exactly when d is k itself, or d shares
   * neither k's tenant, name and property nor -- within its kind -- their spelling up to case. Only worlds that can
   * arise from an empty store count.
   */
  lemma HarmlessDropExactly(d: Key, k: Key)
    requires !Blank(k.name)
    ensures HarmlessDrop(d, k) <==>
            forall w, e | Leads(EMPTY, w) && Good(w, e, false) && KeyOf(e) == k && w.worker == Idle && d in w.catalog ::
              Good(Dropped(w, d), e, false)
  {
    hide Leads;
    if HarmlessDrop(d, k) {
      forall w, e | Leads(EMPTY, w) && Good(w, e, false) && KeyOf(e) == k && w.worker == Idle && d in w.catalog
        ensures Good(Dropped(w, d), e, false)
      {
        DropKeeps(w, d, e, false);
      }
    } else {
      SpoilerSpoils(d, k);
    }
  }
}
