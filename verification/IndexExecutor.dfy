/**
 * The calls of the executor, imperatively: worker passes, DDL calls and their scans and batches, on a store and
 * a catalog that they update in place. A budget says how many more transactions the process lives for, so a call
 * that ends early is a call that a crash has cut short; each is proved to perform the machine's transactions.
 */
module IndexExecutor {
  import opened Wrappers
  import opened Text
  import opened IndexStore
  import opened IndexMachine
  import opened IndexFrozen

  predicate Valid(k: Key) {
    k.tenant != [] && k.name != [] && k.property != []
  }

  function TrimKey(k: Key): Key {
    Key(k.kind, Trim(k.tenant), Trim(k.name), Trim(k.property))
  }

  /** indexschema.Catalog; the kind of a key says which of its two maps holds it. */
  class Catalog {
    var keys: set<Key>

    constructor ()
      ensures keys == {}
    {
      keys := {};
    }

    method Add(k: Key) returns (added: bool)
      modifies this
      ensures added <==> Valid(k) && k !in old(keys)
      ensures keys == if Valid(k) then old(keys) + {k} else old(keys)
    {
      if k.tenant == [] || k.name == [] || k.property == [] {
        return false;
      }
      if k in keys {
        return false;
      }
      keys := keys + {k};
      return true;
    }

    predicate Has(k: Key)
      reads this
    {
      k in keys
    }

    method Remove(k: Key) returns (removed: bool)
      modifies this
      ensures removed <==> Valid(k) && k in old(keys)
      ensures keys == if Valid(k) then old(keys) - {k} else old(keys)
    {
      if k.tenant == [] || k.name == [] || k.property == [] {
        return false;
      }
      if k !in keys {
        return false;
      }
      keys := keys - {k};
      return true;
    }
  }

  datatype Outcome = Created(entries: nat) | Dropped(entries: nat) | Skipped | Conflict | NotFound | Invalid

  lemma SetOfPrefix(es: seq<Entry>, i: nat)
    requires i < |es|
    ensures SetOf(es[..i + 1]) == SetOf(es[..i]) + {es[i]}
  {
    assert es[..i + 1] == es[..i] + [es[i]];
  }

  ghost function PendingKeys(jobs: set<JobEntry>): set<Key> {
    set e | e in jobs && Pending(jobs, e.key) :: e.key
  }

  lemma PendingKeysAre(jobs: set<JobEntry>, keys: set<Key>)
    requires forall k :: Pending(jobs, k) <==> k in keys
    ensures PendingKeys(jobs) == keys
  {
    forall k | k in keys ensures k in PendingKeys(jobs) {
      LatestNone(jobs, k);
    }
  }

  /** Jobs outside ks have kept their latest record. */
  ghost predicate SameExcept(jobs: set<JobEntry>, jobs': set<JobEntry>, ks: set<Key>) {
    forall j | j !in ks :: Latest(jobs', j) == Latest(jobs, j)
  }

  /** Of the jobs worked on, exactly `finished` have nothing pending any more. */
  ghost predicate Completed(jobs: set<JobEntry>, done: set<Key>, finished: set<Key>) {
    finished <= done && forall k | k in done :: k in finished <==> !Pending(jobs, k)
  }

  lemma CompletedIs(jobs: set<JobEntry>, done: set<Key>, finished: set<Key>)
    requires Completed(jobs, done, finished)
    ensures finished == set k | k in done && !Pending(jobs, k)
  {
  }

  lemma CompletedOneMore(start: set<JobEntry>, before: set<JobEntry>, after: set<JobEntry>,
                         done: set<Key>, finished: set<Key>, k: Key, completed: bool)
    requires SameExcept(start, before, done) && SameExcept(before, after, {k})
    requires Completed(before, done, finished) && k !in done
    requires completed <==> !Pending(after, k)
    ensures SameExcept(start, after, done + {k})
    ensures Completed(after, done + {k}, if completed then finished + {k} else finished)
  {
    forall j | j !in done + {k} ensures Latest(after, j) == Latest(start, j) {
      assert Latest(before, j) == Latest(start, j);
    }
    forall j | j in done ensures Pending(after, j) <==> Pending(before, j) {
      assert Latest(after, j) == Latest(before, j);
    }
  }

  predicate Registered(keys: set<Key>, base: set<Key>, done: set<Key>) {
    keys == base + done
  }

  predicate Parted<T>(done: set<T>, todo: set<T>, all: set<T>) {
    done !! todo && done + todo == all
  }

  lemma PartedStep<T>(done: set<T>, todo: set<T>, all: set<T>, x: T)
    requires Parted(done, todo, all) && x in todo
    ensures Parted(done + {x}, todo - {x}, all) && x !in done
  {
  }

  /** Taking one more transaction. */
  lemma NextTransaction(f: World -> World, limit: nat, w0: World, n: nat, u: World)
    requires Drives(f, limit) && Iterate(f, w0, n) == u && u.worker.Busy?
    ensures Iterate(f, w0, n + 1) == WorkStep(u, limit)
  {
    assert f(u) == WorkStep(u, limit);
  }

  class Executor {
    var store: Store
    const catalog: Catalog
    /** Writes one transaction may hold. */
    const limit: nat
    /** Transactions left before the process dies. */
    var budget: nat

    ghost predicate Ok()
      reads this, catalog
    {
      && UniqueRevisions(store.jobs)
      && WellFormed(store.graph)
      && forall e | e in store.jobs :: Valid(e.key)
    }

    ghost function Rest(): World
      reads this, catalog
    {
      World(store, catalog.keys, Idle)
    }

    ghost function Doing(h: Hand): World
      reads this, catalog
    {
      World(store, catalog.keys, Busy(h))
    }

    constructor (s: Store, limit: nat, budget: nat)
      requires UniqueRevisions(s.jobs) && WellFormed(s.graph) && forall e | e in s.jobs :: Valid(e.key)
      ensures Ok() && Rest() == World(s, {}, Idle) && this.limit == limit && this.budget == budget
    {
      this.store, this.limit, this.budget := s, limit, budget;
      var c := new Catalog();
      this.catalog := c;
    }

    // -------------------------------------------------------------- job records

    /** Scans the job records in whatever order the store yields them and keeps the highest revision of each. */
    method ListAllRecords() returns (byId: map<Key, JobState>)
      requires UniqueRevisions(store.jobs)
      ensures forall k :: Latest(store.jobs, k) == if k in byId then Some(byId[k]) else None
    {
      byId := map[];
      var todo := store.jobs;
      ghost var seen: set<JobEntry> := {};
      while todo != {}
        invariant seen !! todo && seen + todo == store.jobs
        invariant forall k :: k in byId <==> exists e :: e in seen && e.key == k
        invariant forall k | k in byId :: IsLatest(seen, k, byId[k])
        decreases todo
      {
        var e :| e in todo;
        todo := todo - {e};
        if !(e.key in byId && byId[e.key].revision > e.state.revision) {
          byId := byId[e.key := e.state];
        }
        seen := seen + {e};
      }
      assert seen == store.jobs;
      forall k ensures Latest(store.jobs, k) == if k in byId then Some(byId[k]) else None {
        if k in byId {
          LatestIs(store.jobs, k, byId[k]);
        } else {
          LatestNone(store.jobs, k);
        }
      }
    }

    method ListPendingRecords() returns (pending: map<Key, JobState>)
      requires UniqueRevisions(store.jobs)
      ensures forall k :: k in pending <==> Pending(store.jobs, k)
      ensures forall k | k in pending :: Latest(store.jobs, k) == Some(pending[k])
    {
      var records := ListAllRecords();
      pending := map k | k in records && !records[k].completed :: records[k];
    }

    /** Appends a fresh record above every record the job has. */
    method Enqueue(k: Key)
      requires Ok() && Valid(k)
      modifies this`store
      ensures Ok()
      ensures store == old(store).(jobs := old(store.jobs) + {JobEntry(k, Fresh(NextRevision(old(store.jobs), k)))})
    {
      var records := ListAllRecords();
      var revision := 1;
      var todo := records.Keys;
      while todo != {}
        invariant todo <= records.Keys
        invariant revision == if k in records && k !in todo && records[k].revision >= 1
                              then records[k].revision + 1 else 1
        decreases todo
      {
        var j :| j in todo;
        todo := todo - {j};
        if j == k && records[j].revision >= revision {
          revision := records[j].revision + 1;
        }
      }
      assert revision == NextRevision(store.jobs, k);
      PutNewer(store.jobs, k, Fresh(revision));
      store := store.(jobs := store.jobs + {JobEntry(k, Fresh(revision))});
    }

    // -------------------------------------------------------------- one worker pass

    /** A transaction commits unless the process has died by now. */
    method Transact() returns (ok: bool)
      modifies this`budget
      ensures ok <==> old(budget) > 0
      ensures budget == if old(budget) > 0 then old(budget) - 1 else 0
    {
      ok := budget > 0;
      if ok {
        budget := budget - 1;
      }
    }

    /** ScanVerticesFrom with limit 1 over the vertex keys. */
    method FirstAfter(tenant: Bytes, checkpoint: Bytes) returns (next: Option<Bytes>)
      ensures next == NextVertex(store.graph, tenant, checkpoint)
    {
      next := None;
      var todo := store.graph.Keys;
      while todo != {}
        invariant todo <= store.graph.Keys
        invariant next == None ==>
                    forall o | VertexKey(tenant, o) in store.graph && After(checkpoint, o) ::
                      VertexKey(tenant, o) in todo
        invariant next.Some? ==> VertexKey(tenant, next.value) in store.graph && After(checkpoint, next.value)
        invariant next.Some? ==>
                    forall o | VertexKey(tenant, o) in store.graph && After(checkpoint, o)
                               && VertexKey(tenant, o) !in todo ::
                      AtMost(next.value, o)
        decreases todo
      {
        var v :| v in todo;
        todo := todo - {v};
        if v.tenant == tenant && After(checkpoint, v.id) {
          if next == None {
            next := Some(v.id);
          } else {
            LessTotal(v.id, next.value);
            if Less(v.id, next.value) {
              forall o | AtMost(next.value, o) ensures AtMost(v.id, o) {
                AtMostTransitive(v.id, next.value, o);
              }
              next := Some(v.id);
            }
          }
        }
      }
      if next.Some? {
        NextVertexIs(store.graph, tenant, checkpoint, next.value);
      } else {
        NextVertexSpec(store.graph, tenant, checkpoint);
      }
    }

    /** The worker stands at h, having spent b0 - budget of its transactions since w0. */
    ghost predicate At(f: World -> World, w0: World, b0: nat, h: Hand)
      reads this, catalog
    {
      budget <= b0 && Iterate(f, w0, b0 - budget) == Doing(h)
    }

    /** What is durable is what the transactions spent so far have written. */
    ghost predicate Stopped(f: World -> World, w0: World, b0: nat)
      reads this, catalog
    {
      && budget <= b0
      && Iterate(f, w0, b0 - budget).store == store
      && Iterate(f, w0, b0 - budget).catalog == catalog.keys
    }

    method PutOne(id: Bytes, e: Entry, ghost rest: seq<Entry>, ghost written: nat,
                  ghost f: World -> World, ghost w0: World, ghost b0: nat, ghost h: Hand)
      returns (ok: bool)
      requires Drives(f, limit) && Ok() && At(f, w0, b0, h.(phase := Write(id, [e] + rest, written)))
      modifies this`store, this`budget
      ensures Ok() && store.graph == old(store.graph) && store.jobs == old(store.jobs)
      ensures Stopped(f, w0, b0)
      ensures ok ==> store.entries == old(store.entries) + {e}
      ensures if ok then At(f, w0, b0, h.(phase := NextWrite(id, rest, written + 1))) else budget == 0
    {
      NextTransaction(f, limit, w0, b0 - budget, Doing(h.(phase := Write(id, [e] + rest, written))));
      ok := Transact();
      if ok {
        assert ([e] + rest)[1..] == rest;
        store := store.(entries := store.entries + {e});
      }
    }

    /** Puts the entries of one vertex, one transaction each, after the batch turned out too large. */
    method FillOneByOne(k: Key, id: Bytes, ghost f: World -> World, ghost w0: World, ghost b0: nat, ghost h: Hand)
      returns (ok: bool, count: nat)
      requires Drives(f, limit) && Ok() && At(f, w0, b0, h.(phase := Collect(id))) && h.key == k
      modifies this`store, this`budget
      ensures Ok() && store.graph == old(store.graph) && store.jobs == old(store.jobs)
      ensures Stopped(f, w0, b0)
      ensures if ok then At(f, w0, b0, h.(phase := Checkpoint(id, count))) else budget == 0
      ensures ok ==> store.entries == old(store.entries) + SetOf(Found(store.graph, k, id))
      ensures ok ==> count == |Found(store.graph, k, id)|
    {
      hide Found;
      count := 0;
      NextTransaction(f, limit, w0, b0 - budget, Doing(h.(phase := Collect(id))));
      ok := Transact();
      if !ok {
        return;
      }
      var records := Found(store.graph, k, id);
      while count < |records|
        invariant count <= |records|
        invariant store.entries == old(store.entries) + SetOf(records[..count])
        invariant Ok() && store.graph == old(store.graph) && store.jobs == old(store.jobs)
        invariant At(f, w0, b0, h.(phase := NextWrite(id, records[count..], count)))
      {
        assert records[count..] == [records[count]] + records[count + 1..];
        ok := PutOne(id, records[count], records[count + 1..], count, f, w0, b0, h);
        if !ok {
          return;
        }
        SetOfPrefix(records, count);
        count := count + 1;
      }
      ok := true;
      assert records[..count] == records;
    }

    /** Indexes one vertex: in one transaction if its entries fit, else one by one. */
    method FillVertex(k: Key, id: Bytes,
                        ghost f: World -> World, ghost w0: World, ghost b0: nat, ghost h: Hand)
      returns (ok: bool, count: nat)
      requires Drives(f, limit) && Ok() && At(f, w0, b0, h.(phase := Fill(id))) && h.key == k
      modifies this`store, this`budget
      ensures Ok() && store.graph == old(store.graph) && store.jobs == old(store.jobs)
      ensures Stopped(f, w0, b0)
      ensures if ok then At(f, w0, b0, h.(phase := Checkpoint(id, count))) else budget == 0
      ensures ok ==> store.entries == old(store.entries) + SetOf(Found(store.graph, k, id))
      ensures ok ==> count == |Found(store.graph, k, id)|
    {
      count := 0;
      NextTransaction(f, limit, w0, b0 - budget, Doing(h.(phase := Fill(id))));
      ok := Transact();
      if !ok {
        return;
      }
      var found := Found(store.graph, k, id);
      if Fits(k, found, limit) {
        store := store.(entries := store.entries + SetOf(found));
        count := |found|;
      } else {
        ok, count := FillOneByOne(k, id, f, w0, b0, h);
      }
    }

    /** Replaces the job's record by the next one, atomically. */
    method SaveCheckpoint(k: Key, state: JobState, id: Bytes, indexed: nat,
                        ghost f: World -> World, ghost w0: World, ghost b0: nat, ghost h: Hand)
      returns (ok: bool)
      requires Drives(f, limit) && Ok() && At(f, w0, b0, h.(phase := Checkpoint(id, indexed)))
      requires h.key == k && h.state == state
      requires Latest(store.jobs, k) == Some(state) && Valid(k)
      modifies this`store, this`budget
      ensures Ok() && store.graph == old(store.graph) && Stopped(f, w0, b0)
      ensures ok ==> Latest(store.jobs, k) == Some(Advanced(state, id, indexed))
      ensures ok ==> Iterate(f, w0, b0 - budget).worker ==
                     if h.processed + 1 < MAX_PER_PASS
                     then Busy(Hand(k, Advanced(state, id, indexed), h.processed + 1, Scan)) else Idle
      ensures !ok ==> budget == 0 && store == old(store)
      ensures forall j | j != k :: Latest(store.jobs, j) == Latest(old(store.jobs), j)
    {
      NextTransaction(f, limit, w0, b0 - budget, Doing(h.(phase := Checkpoint(id, indexed))));
      ok := Transact();
      if ok {
        var next := Advanced(state, id, indexed);
        ReplaceLatest(store.jobs, k, state, next);
        store := store.(jobs := store.jobs - {JobEntry(k, state)} + {JobEntry(k, next)});
      }
    }

    method PutCompleted(k: Key, state: JobState)
      requires Ok() && Latest(store.jobs, k) == Some(state) && Valid(k)
      modifies this`store
      ensures Ok() && store == old(store).(jobs := old(store.jobs) + {JobEntry(k, Finished(state))})
      ensures Latest(store.jobs, k) == Some(Finished(state))
      ensures forall j | j != k :: Latest(store.jobs, j) == Latest(old(store.jobs), j)
    {
      PutNewer(store.jobs, k, Finished(state));
      store := store.(jobs := store.jobs + {JobEntry(k, Finished(state))});
    }

    /** Adds the completed record. */
    method Dequeue(k: Key, state: JobState,
                        ghost f: World -> World, ghost w0: World, ghost b0: nat, ghost h: Hand) returns (ok: bool)
      requires Drives(f, limit) && Ok() && At(f, w0, b0, h.(phase := Finish)) && h.key == k && h.state == state
      requires Latest(store.jobs, k) == Some(state) && Valid(k)
      modifies this`store, this`budget
      ensures Ok() && store.graph == old(store.graph) && Stopped(f, w0, b0)
      ensures ok ==> Latest(store.jobs, k) == Some(Finished(state))
      ensures ok ==> Iterate(f, w0, b0 - budget).worker == Idle
      ensures !ok ==> budget == 0 && store == old(store)
      ensures forall j | j != k :: Latest(store.jobs, j) == Latest(old(store.jobs), j)
    {
      NextTransaction(f, limit, w0, b0 - budget, Doing(h.(phase := Finish)));
      ok := Transact();
      if ok {
        PutCompleted(k, state);
      }
    }

    /** Looks for the next vertex after the checkpoint. */
    method ScanNext(k: Key, state: JobState, ghost f: World -> World, ghost w0: World, ghost b0: nat, ghost h: Hand)
      returns (ok: bool, next: Option<Bytes>)
      requires Drives(f, limit) && Ok() && At(f, w0, b0, h) && h.phase == Scan && h.key == k && h.state == state
      modifies this`budget
      ensures Stopped(f, w0, b0)
      ensures !ok ==> budget == 0
      ensures ok ==> At(f, w0, b0, h.(phase := if next == None then Finish else Fill(next.value)))
    {
      NextTransaction(f, limit, w0, b0 - budget, Doing(h));
      ok := Transact();
      next := None;
      if ok {
        next := FirstAfter(k.tenant, state.checkpoint);
        if next.Some? && Blank(next.value) {
          next := None;
        }
      }
    }

    /** Writes one vertex's entries and checkpoints it. */
    method IndexVertex(k: Key, state: JobState, id: Bytes,
                       ghost f: World -> World, ghost w0: World, ghost b0: nat, ghost h: Hand)
      returns (ok: bool, next: JobState)
      requires Drives(f, limit) && Ok() && At(f, w0, b0, h.(phase := Fill(id)))
      requires h.key == k && h.state == state && !state.completed
      requires Latest(store.jobs, k) == Some(state) && Valid(k)
      modifies this`store, this`budget
      ensures Ok() && store.graph == old(store.graph) && Stopped(f, w0, b0)
      ensures ok ==> Latest(store.jobs, k) == Some(next) && !next.completed
      ensures ok ==> Iterate(f, w0, b0 - budget).worker ==
                     if h.processed + 1 < MAX_PER_PASS then Busy(Hand(k, next, h.processed + 1, Scan)) else Idle
      ensures !ok ==> budget == 0
      ensures forall j | j != k :: Latest(store.jobs, j) == Latest(old(store.jobs), j)
    {
      var indexed;
      ok, indexed := FillVertex(k, id, f, w0, b0, h);
      next := Advanced(state, id, indexed);
      if ok {
        ok := SaveCheckpoint(k, state, id, indexed, f, w0, b0, h);
      }
    }

    /** The loop of one pass, followed along the machine that f drives from w0. */
    method RunPass(k: Key, record: JobState, ghost f: World -> World, ghost w0: World)
      returns (alive: bool, completed: bool)
      requires Drives(f, limit) && Ok() && Valid(k) && Latest(store.jobs, k) == Some(record) && !record.completed
      requires w0 == Doing(Hand(k, record, 0, Scan))
      modifies this`store, this`budget
      ensures Ok() && store.graph == old(store.graph) && Stopped(f, w0, old(budget))
      ensures if alive then Iterate(f, w0, old(budget) - budget).worker == Idle else budget == 0
      ensures alive ==> (completed <==> !Pending(store.jobs, k)) && Latest(store.jobs, k).Some?
      ensures forall j | j != k :: Latest(store.jobs, j) == Latest(old(store.jobs), j)
    {
      var state := record;
      var processed: nat := 0;
      ghost var b0 := budget;
      completed := false;
      while processed < MAX_PER_PASS
        invariant Ok() && store.graph == old(store.graph)
        invariant processed <= MAX_PER_PASS && !state.completed && Latest(store.jobs, k) == Some(state)
        invariant Stopped(f, w0, b0)
        invariant if processed < MAX_PER_PASS then At(f, w0, b0, Hand(k, state, processed, Scan))
                  else Iterate(f, w0, b0 - budget).worker == Idle
        invariant forall j | j != k :: Latest(store.jobs, j) == Latest(old(store.jobs), j)
      {
        ghost var h := Hand(k, state, processed, Scan);
        var next;
        alive, next := ScanNext(k, state, f, w0, b0, h);
        if !alive {
          return;
        }
        if next == None {
          alive := Dequeue(k, state, f, w0, b0, h);
          completed := alive;
          return;
        }
        alive, state := IndexVertex(k, state, next.value, f, w0, b0, h);
        if !alive {
          return;
        }
        processed := processed + 1;
      }
      alive := true;
    }

    /**
     * One pass over one job: up to 64 vertices, or the completing record. Whatever the number of
     * transactions the process lives for, the store ends as that many steps of the machine leave it.
     */
    method ProcessJob(k: Key, record: JobState) returns (alive: bool, completed: bool)
      requires Ok() && Valid(k) && Latest(store.jobs, k) == Some(record) && !record.completed
      modifies this`store, this`budget
      ensures Ok() && store.graph == old(store.graph) && budget <= old(budget)
      ensures var start := World(old(store), catalog.keys, Busy(Hand(k, record, 0, Scan)));
              var u := WorkN(start, limit, old(budget) - budget);
              u.store == store && u.catalog == catalog.keys && (if alive then u.worker == Idle else budget == 0)
      ensures alive ==> (completed <==> !Pending(store.jobs, k)) && Latest(store.jobs, k).Some?
      ensures forall j | j != k :: Latest(store.jobs, j) == Latest(old(store.jobs), j)
    {
      alive, completed := RunPass(k, record, Driver(limit), Doing(Hand(k, record, 0, Scan)));
    }

    /** Registers the job's index and runs one pass of its build. */
    method ProcessRecord(k: Key, record: JobState, ghost reach: World -> bool) returns (alive: bool, completed: bool)
      requires Ok() && Valid(k) && Latest(store.jobs, k) == Some(record) && !record.completed
      requires Closed(reach) && reach(Rest())
      modifies this`store, this`budget, catalog
      ensures Ok() && store.graph == old(store.graph)
      ensures if alive then reach(Rest()) else reach(World(store, {}, Idle))
      ensures alive ==> catalog.keys == old(catalog.keys) + {k}
      ensures alive ==> (completed <==> !Pending(store.jobs, k))
      ensures SameExcept(old(store.jobs), store.jobs, {k})
    {
      hide WorkStep, Driver, WorkN;
      ghost var before := Rest();
      var _ := catalog.Add(k);
      ghost var begun := World(store, catalog.keys, Busy(Hand(k, record, 0, Scan)));
      assert Next(before, Start(k), begun);
      ghost var b := budget;
      alive, completed := ProcessJob(k, record);
      ghost var u := WorkN(begun, limit, b - budget);
      ClosedUnderWork(reach, begun, limit, b - budget);
      if !alive {
        assert Next(u, Crash, World(store, {}, Idle));
      }
    }

    /** The next listed record; `done` and `finished` keep the tally of the pass. */
    method ProcessNext(k: Key, record: JobState, before: nat, ghost reach: World -> bool,
                       ghost start: set<JobEntry>, ghost base: set<Key>, ghost done: set<Key>, ghost finished: set<Key>)
      returns (alive: bool, processed: nat, ghost finished': set<Key>)
      requires Registered(catalog.keys, base, done)
      requires Ok() && Valid(k) && Latest(start, k) == Some(record) && !record.completed && k !in done
      requires Closed(reach) && reach(Rest())
      requires SameExcept(start, store.jobs, done) && Completed(store.jobs, done, finished) && before == |finished|
      modifies this`store, this`budget, catalog
      ensures Ok() && store.graph == old(store.graph)
      ensures if alive then reach(Rest()) else reach(World(store, {}, Idle))
      ensures alive ==> Registered(catalog.keys, base, done + {k})
      ensures alive ==> SameExcept(start, store.jobs, done + {k})
      ensures alive ==> Completed(store.jobs, done + {k}, finished') && processed == |finished'|
    {
      ghost var jobs := store.jobs;
      var completed;
      alive, completed := ProcessRecord(k, record, reach);
      processed := if completed then before + 1 else before;
      finished' := if completed then finished + {k} else finished;
      if alive {
        CompletedOneMore(start, jobs, store.jobs, done, finished, k, completed);
      }
    }

    /** The loop over the records listed at the start of the pass. */
    method ProcessRecords(records: map<Key, JobState>, ghost reach: World -> bool)
      returns (alive: bool, processed: nat, ghost finished: set<Key>)
      requires Ok() && Closed(reach) && reach(Rest())
      requires forall k | k in records :: Valid(k) && Latest(store.jobs, k) == Some(records[k]) && !records[k].completed
      modifies this`store, this`budget, catalog
      ensures Ok() && store.graph == old(store.graph)
      ensures if alive then reach(Rest()) else reach(World(store, {}, Idle))
      ensures alive ==> catalog.keys == old(catalog.keys) + records.Keys
      ensures alive ==> Completed(store.jobs, records.Keys, finished) && processed == |finished|
    {
      processed := 0;
      var todo := records.Keys;
      ghost var done: set<Key>;
      done, finished := {}, {};
      while todo != {}
        invariant Parted(done, todo, records.Keys)
        invariant Ok() && store.graph == old(store.graph) && reach(Rest())
        invariant SameExcept(old(store.jobs), store.jobs, done)
        invariant Registered(catalog.keys, old(catalog.keys), done)
        invariant Completed(store.jobs, done, finished) && processed == |finished|
        decreases todo
      {
        var k :| k in todo;
        alive, processed, finished :=
          ProcessNext(k, records[k], processed, reach, old(store.jobs), old(catalog.keys), done, finished);
        if !alive {
          return;
        }
        PartedStep(done, todo, records.Keys, k);
        todo := todo - {k};
        done := done + {k};
      }
      alive := true;
    }

    /**
     * One worker pass over every pending job. A pass that lives to its end is a run of the machine; one
     * that dies on the way leaves the store as a run ending in a crash does.
     */
    method ProcessPendingJobs() returns (alive: bool, processed: nat)
      requires Ok()
      modifies this`store, this`budget, catalog
      ensures Ok() && store.graph == old(store.graph)
      ensures if alive then Leads(old(Rest()), Rest()) else Leads(old(Rest()), World(store, {}, Idle))
      ensures alive ==> catalog.keys == old(catalog.keys) + PendingKeys(old(store.jobs))
      ensures alive ==> processed == |set k | k in PendingKeys(old(store.jobs)) && !Pending(store.jobs, k)|
    {
      var records := ListPendingRecords();
      ghost var start := Rest();
      ghost var jobs := store.jobs;
      PendingKeysAre(jobs, records.Keys);
      forall k | k in records ensures Valid(k) {
        LatestNone(jobs, k);
      }
      LeadsClosed(start);
      ghost var finished;
      alive, processed, finished := ProcessRecords(records, (u: World) => Leads(start, u));
      if alive {
        CompletedIs(store.jobs, PendingKeys(jobs), finished);
      }
    }

    // -------------------------------------------------------------- synchronous backfill

    /** Scans the vertices carrying the label, or all vertices, and indexes those that match, in one transaction. */
    method BackfillVertices(k: Key, byLabel: bool) returns (count: nat)
      requires Ok() && k.kind == VertexIndex && Trimmed(k.name) && k.name != []
      modifies this`store
      ensures Ok() && store == old(store).(entries := old(store.entries) + AllEntries(old(store.graph), k))
      ensures count == Total(store.graph, k, Ids(store.graph, k.tenant))
    {
      var g := store.graph;
      var entries := store.entries;
      count := 0;
      var ids := set v | v in g && v.tenant == k.tenant && (byLabel ==> k.name in g[v].labels) :: v.id;
      assert forall id | id in ids :: VertexKey(k.tenant, id) in g;
      var todo := ids;
      ghost var done: set<Bytes> := {};
      ProgressStarts(entries, g, k);
      while todo != {}
        invariant Parted(done, todo, ids)
        invariant store == old(store) && Progress(entries, store.entries, g, k, done, count)
        decreases todo
      {
        var id :| id in todo;
        assert id in ids;
        PartedStep(done, todo, ids, id);
        ProgressStep(entries, store.entries, g, k, done, count, id);
        FoundIs(g, k, id);
        todo := todo - {id};
        done := done + {id};
        var vertex := g[VertexKey(k.tenant, id)];
        if k.name in vertex.labels && !Blank(id) && k.property in vertex.props {
          entries := entries + {Entry(VertexIndex, k.tenant, k.name, k.property, vertex.props[k.property], id, id, [])};
          count := count + 1;
        }
      }
      assert done == ids;
      LabelledSuffice(g, k, ids, byLabel);
      ProgressEnds(entries, store.entries, g, k, done, count);
      store := store.(entries := entries);
    }

    /** Indexes the out-edges of every source of an edge of the type, vertex by vertex. */
    method BackfillEdges(k: Key) returns (alive: bool, count: nat)
      requires Ok() && k.kind == EdgeIndex
      modifies this`store, this`budget
      ensures Ok() && store.graph == old(store.graph) && store.jobs == old(store.jobs)
      ensures alive ==> store.entries == old(store.entries) + AllEntries(store.graph, k)
      ensures alive ==> count == Total(store.graph, k, Ids(store.graph, k.tenant))
    {
      ghost var base := store.entries;
      alive := Transact();
      count := 0;
      if !alive {
        return;
      }
      var g := store.graph;
      var ids := set v, e | v in g && v.tenant == k.tenant && e in g[v].out
                            && e.edgeType == k.name && !Blank(v.id) :: v.id;
      var todo := ids;
      ghost var done: set<Bytes> := {};
      ProgressStarts(base, g, k);
      while todo != {}
        invariant Parted(done, todo, ids)
        invariant Ok() && store.graph == g && store.jobs == old(store.jobs)
        invariant Progress(store.entries, base, g, k, done, count)
        decreases todo
      {
        var id :| id in todo;
        PartedStep(done, todo, ids, id);
        ProgressStep(store.entries, base, g, k, done, count, id);
        todo := todo - {id};
        var written;
        alive, written := FillVertexNow(k, id);
        if !alive {
          return;
        }
        done := done + {id};
        count := count + written;
      }
      alive := true;
      assert done == ids;
      EdgeSourcesSuffice(g, k, ids);
      ProgressEnds(store.entries, base, g, k, done, count);
    }

    /** Indexing one vertex outside any build job. */
    method FillVertexNow(k: Key, id: Bytes) returns (alive: bool, written: nat)
      requires Ok()
      modifies this`store, this`budget
      ensures Ok() && store.graph == old(store.graph) && store.jobs == old(store.jobs)
      ensures alive ==> store.entries == old(store.entries) + SetOf(Found(store.graph, k, id))
      ensures alive ==> written == |Found(store.graph, k, id)|
    {
      ghost var h := Hand(k, Fresh(1), 0, Fill(id));
      alive, written := FillVertex(k, id, Driver(limit), Doing(h), budget, h);
    }

    // -------------------------------------------------------------- DDL calls

    /** CREATE INDEX with a synchronous backfill. */
    method CreateIndex(name: Key, ifNotExists: bool, byLabel: bool) returns (r: Outcome)
      requires Ok() && name.kind == VertexIndex
      modifies this`store, catalog
      ensures Ok()
      ensures var k := TrimKey(name);
              if !Valid(k) then r == Invalid && Rest() == old(Rest())
              else if k in old(catalog.keys) then
                r == (if ifNotExists then Skipped else Conflict) && Rest() == old(Rest())
              else Rest() == Backfilled(old(Rest()), k)
                   && r == Created(Total(store.graph, k, Ids(store.graph, k.tenant)))
    {
      var k := TrimKey(name);
      TrimIsTrimmed(name.name);
      if !Valid(k) {
        return Invalid;
      }
      if catalog.Has(k) {
        return if ifNotExists then Skipped else Conflict;
      }
      var added := catalog.Add(k);
      var count := BackfillVertices(k, byLabel);
      return Created(count);
    }

    /** Creating an index whose backfill is left to the worker. */
    method CreateIndexAsync(name: Key, ifNotExists: bool) returns (r: Outcome)
      requires Ok()
      modifies this`store, catalog
      ensures Ok()
      ensures var k := TrimKey(name);
              if !Valid(k) then r == Invalid && Rest() == old(Rest())
              else if k in old(catalog.keys) then
                r == (if ifNotExists then Skipped else Conflict) && Rest() == old(Rest())
              else r == Created(0) && Rest() == Enqueued(old(Rest()), k)
    {
      var k := TrimKey(name);
      if !Valid(k) {
        return Invalid;
      }
      if catalog.Has(k) {
        return if ifNotExists then Skipped else Conflict;
      }
      var added := catalog.Add(k);
      Enqueue(k);
      return Created(0);
    }

    /** Restarting the build of an index. */
    method RestartBuild(k: Key)
      requires Ok() && Valid(k)
      modifies this`store, catalog
      ensures Ok() && Rest() == Enqueued(old(Rest()), k)
    {
      var _ := catalog.Add(k);
      Enqueue(k);
    }

    method CollectEntries(k: Key) returns (records: seq<Entry>)
      ensures SetOf(records) == store.entries - Cleared(store.entries, k)
      ensures |records| == |store.entries - Cleared(store.entries, k)|
    {
      records := [];
      ghost var doomed := store.entries - Cleared(store.entries, k);
      var todo := store.entries;
      assert doomed - todo == {};
      while todo != {}
        invariant todo <= store.entries
        invariant Collected(records, doomed, todo)
        decreases todo
      {
        var e :| e in todo;
        CollectedStep(records, doomed, todo, e);
        todo := todo - {e};
        if InKeyspace(e, k) && !Blank(e.entityId) {
          records := records + [e];
        }
      }
      assert doomed - {} == doomed;
    }

    /** Deletes entries in one transaction, or one by one if they exceed the batch limit. */
    method DeleteEntries(records: seq<Entry>) returns (deleted: nat)
      requires Ok()
      modifies this`store
      ensures Ok() && store == old(store).(entries := old(store.entries) - SetOf(records))
      ensures deleted == |records|
    {
      deleted := 0;
      var entries := store.entries;
      while deleted < |records| && deleted < limit
        invariant deleted <= |records| && store == old(store)
        invariant entries == store.entries - SetOf(records[..deleted])
      {
        entries := entries - {records[deleted]};
        SetOfPrefix(records, deleted);
        deleted := deleted + 1;
      }
      if deleted == |records| {
        assert records[..deleted] == records;
        store := store.(entries := entries);
        return;
      }
      // The batch is over the limit: the transaction is rolled back.
      deleted := 0;
      while deleted < |records|
        invariant deleted <= |records|
        invariant store == old(store).(entries := old(store.entries) - SetOf(records[..deleted]))
      {
        store := store.(entries := store.entries - {records[deleted]});
        SetOfPrefix(records, deleted);
        deleted := deleted + 1;
      }
      assert records[..deleted] == records;
    }

    /** Marks job j as completed if it is pending and its names match those of k up to case. */
    method CompleteBuild(k: Key, j: Key, record: JobState, ghost jobs: set<JobEntry>, ghost done: set<Key>)
      requires Ok() && UniqueRevisions(jobs) && SameExcept(jobs, store.jobs, done) && j !in done
      requires Latest(jobs, j) == Some(record) && store.jobs == jobs + CompletedSoFar(jobs, k, done)
      modifies this`store
      ensures Ok() && store == old(store).(jobs := jobs + CompletedSoFar(jobs, k, done + {j}))
      ensures SameExcept(jobs, store.jobs, done + {j})
    {
      CompletedSoFarStep(jobs, k, done, j);
      ghost var before := store.jobs;
      assert Latest(before, j) == Some(record);
      if SameUpToCase(j, k) && !record.completed {
        assert Valid(j) by {
          LatestNone(before, j);
        }
        PutCompleted(j, record);
      }
      SameExceptTwice(jobs, before, store.jobs, done, {j});
    }

    /** Marks every pending build whose names match up to case as completed. */
    method CompleteBuilds(k: Key)
      requires Ok()
      modifies this`store
      ensures Ok()
      ensures store == old(store).(jobs := old(store.jobs) + CompletionsFor(old(store.jobs), k))
    {
      ghost var jobs := store.jobs;
      var records := ListAllRecords();
      var todo := records.Keys;
      ghost var done: set<Key> := {};
      assert jobs + CompletedSoFar(jobs, k, {}) == jobs;
      while todo != {}
        invariant Parted(done, todo, records.Keys)
        invariant Ok() && store == old(store).(jobs := jobs + CompletedSoFar(jobs, k, done))
        invariant SameExcept(jobs, store.jobs, done)
        decreases todo
      {
        var j :| j in todo;
        PartedStep(done, todo, records.Keys, j);
        CompleteBuild(k, j, records[j], jobs, done);
        todo := todo - {j};
        done := done + {j};
      }
      CompletedAll(jobs, k, records.Keys);
    }

    /** DROP INDEX: entries, then pending builds, then the catalog key. */
    method DropIndex(name: Key, ifExists: bool) returns (r: Outcome)
      requires Ok()
      modifies this`store, catalog
      ensures Ok()
      ensures var k := TrimKey(name);
              if !Valid(k) then r == Invalid && Rest() == old(Rest())
              else if k !in old(catalog.keys) then
                r == (if ifExists then Skipped else NotFound) && Rest() == old(Rest())
              else Rest() == IndexMachine.Dropped(old(Rest()), k)
                   && r == Outcome.Dropped(|old(store.entries) - store.entries|)
    {
      var k := TrimKey(name);
      if !Valid(k) {
        return Invalid;
      }
      if !catalog.Has(k) {
        return if ifExists then Skipped else NotFound;
      }
      ghost var entries := store.entries;
      var records := CollectEntries(k);
      var deleted := DeleteEntries(records);
      ClearedIsRest(entries, k);
      CompleteBuilds(k);
      var removed := catalog.Remove(k);
      return Outcome.Dropped(deleted);
    }
  }

  /** Jobs outside ks have kept their latest record. */
  lemma SameExceptTwice(a: set<JobEntry>, b: set<JobEntry>, c: set<JobEntry>, ks: set<Key>, ls: set<Key>)
    requires SameExcept(a, b, ks) && SameExcept(b, c, ls)
    ensures SameExcept(a, c, ks + ls)
  {
    forall j | j !in ks + ls ensures Latest(c, j) == Latest(a, j) {
      assert Latest(b, j) == Latest(a, j);
    }
  }

  lemma ClearedIsRest(entries: set<Entry>, k: Key)
    ensures entries - (entries - Cleared(entries, k)) == Cleared(entries, k)
    ensures entries - Cleared(entries, k) == set e | e in entries && InKeyspace(e, k) && !Blank(e.entityId)
  {
  }

  /** The records collected so far, each once. */
  ghost predicate Collected(records: seq<Entry>, doomed: set<Entry>, todo: set<Entry>) {
    SetOf(records) == doomed - todo && |records| == |doomed - todo|
  }

  lemma CollectedStep(records: seq<Entry>, doomed: set<Entry>, todo: set<Entry>, e: Entry)
    requires Collected(records, doomed, todo) && e in todo
    ensures Collected(if e in doomed then records + [e] else records, doomed, todo - {e})
  {
    if e in doomed {
      assert doomed - (todo - {e}) == (doomed - todo) + {e};
    } else {
      assert doomed - (todo - {e}) == doomed - todo;
    }
  }

  ghost function CompletedSoFar(jobs: set<JobEntry>, k: Key, done: set<Key>): set<JobEntry> {
    set e | e in CompletionsFor(jobs, k) && e.key in done
  }

  lemma CompletedSoFarStep(jobs: set<JobEntry>, k: Key, done: set<Key>, j: Key)
    requires UniqueRevisions(jobs) && Latest(jobs, j).Some?
    ensures CompletedSoFar(jobs, k, done + {j}) ==
            CompletedSoFar(jobs, k, done) +
              if SameUpToCase(j, k) && Pending(jobs, j) then {JobEntry(j, Finished(Latest(jobs, j).value))} else {}
  {
    var s := Latest(jobs, j).value;
    assert IsLatest(jobs, j, s);
    if SameUpToCase(j, k) && Pending(jobs, j) {
      assert JobEntry(j, s) in jobs;
      assert JobEntry(j, Finished(s)) in CompletionsFor(jobs, k);
    }
  }

  lemma CompletedAll(jobs: set<JobEntry>, k: Key, keys: set<Key>)
    requires forall j :: j in keys <==> Latest(jobs, j).Some?
    ensures CompletedSoFar(jobs, k, keys) == CompletionsFor(jobs, k)
  {
  }

  lemma FoundIs(g: Graph, k: Key, id: Bytes)
    requires WellFormed(g) && VertexKey(k.tenant, id) in g && k.kind == VertexIndex && Trimmed(k.name) && k.name != []
    ensures var v := g[VertexKey(k.tenant, id)];
            SetOf(Found(g, k, id)) ==
              if k.name in v.labels && !Blank(id) && k.property in v.props
              then {Entry(VertexIndex, k.tenant, k.name, k.property, v.props[k.property], id, id, [])} else {}
    ensures |Found(g, k, id)| <= 1 && (Found(g, k, id) == [] <==> SetOf(Found(g, k, id)) == {})
  {
    TrimFixesTrimmed(k.name);
    TrimFixesTrimmed(id);
    var v := g[VertexKey(k.tenant, id)];
    if k.name in v.labels && k.property in v.props {
      assert Found(g, k, id)[0] in Found(g, k, id);
    }
  }

  /** A scan of the labelled vertices sees every vertex that has an entry. */
  lemma LabelledSuffice(g: Graph, k: Key, ids: set<Bytes>, byLabel: bool)
    requires k.kind == VertexIndex
    requires ids == set v | v in g && v.tenant == k.tenant && (byLabel ==> k.name in g[v].labels) :: v.id
    ensures ids <= Ids(g, k.tenant) && forall id | id in Ids(g, k.tenant) - ids :: Found(g, k, id) == []
  {
    forall id | id in Ids(g, k.tenant) - ids ensures Found(g, k, id) == [] {
      var v := VertexKey(k.tenant, id);
      assert v in g && v.id == id;
    }
  }

  lemma {:induction false} NoTypeNoEntries(k: Key, id: Bytes, out: seq<OutEdge>)
    requires forall e | e in out :: e.edgeType != k.name
    ensures EdgeEntries(k, id, out) == []
  {
    if out != [] {
      NoTypeNoEntries(k, id, out[1..]);
    }
  }

  /** The sources of edges of the type are all the vertices that have an edge entry. */
  lemma EdgeSourcesSuffice(g: Graph, k: Key, ids: set<Bytes>)
    requires WellFormed(g) && k.kind == EdgeIndex
    requires ids == set v, e | v in g && v.tenant == k.tenant && e in g[v].out
                               && e.edgeType == k.name && !Blank(v.id) :: v.id
    ensures ids <= Ids(g, k.tenant) && forall id | id in Ids(g, k.tenant) - ids :: Found(g, k, id) == []
  {
    forall id | id in Ids(g, k.tenant) - ids ensures Found(g, k, id) == [] {
      var v := VertexKey(k.tenant, id);
      assert v in g && v.id == id;
      TrimFixesTrimmed(id);
      forall e | e in g[v].out ensures e.edgeType != k.name {
        assert e.edgeType == k.name ==> v.id in ids;
      }
      NoTypeNoEntries(k, id, g[v].out);
    }
  }
}
