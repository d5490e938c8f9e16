/** What the store holds for secondary indexes: the graph, the index entries, and the revisioned job records. */
module IndexStore {
  import opened Wrappers
  import opened Text

  /** Vertex indexes are named by a label, edge indexes by an edge type. */
  datatype Kind = VertexIndex | EdgeIndex

  datatype Key = Key(kind: Kind, tenant: Bytes, name: Bytes, property: Bytes)

  datatype OutEdge = OutEdge(id: Bytes, edgeType: Bytes, dst: Bytes, props: map<Bytes, Bytes>)

  /** A vertex together with its outgoing edges, which the store keeps under their source. */
  datatype Vertex = Vertex(labels: seq<Bytes>, props: map<Bytes, Bytes>, out: seq<OutEdge>)

  datatype VertexKey = VertexKey(tenant: Bytes, id: Bytes)

  type Graph = map<VertexKey, Vertex>

  /** One index entry; `owner` is the vertex it was written for (the source vertex of an edge entry). */
  datatype Entry = Entry(kind: Kind, tenant: Bytes, name: Bytes, property: Bytes,
                         value: Bytes, entityId: Bytes, owner: Bytes, dst: Bytes)

  datatype JobState = JobState(revision: nat, checkpoint: Bytes, indexed: nat, completed: bool)

  /** One persisted job record. Several revisions of one job may coexist. */
  datatype JobEntry = JobEntry(key: Key, state: JobState)

  datatype Store = Store(graph: Graph, entries: set<Entry>, jobs: set<JobEntry>)

  /** The premise on vertex IDs: non-empty, no surrounding white space. */
  ghost predicate WellFormed(g: Graph) {
    forall v | v in g :: v.id != [] && Trimmed(v.id)
  }

  // ---------------------------------------------------------------- index contributions

  function EdgeEntries(k: Key, id: Bytes, out: seq<OutEdge>): seq<Entry> {
    if out == [] then []
    else
      var e := out[0];
      (if e.edgeType == k.name && !Blank(e.id) && k.property in e.props
       then [Entry(EdgeIndex, k.tenant, k.name, k.property, e.props[k.property], e.id, id, e.dst)]
       else []) + EdgeEntries(k, id, out[1..])
  }

  /** The entries index k must hold on account of vertex v. */
  function Contribution(k: Key, id: Bytes, v: Vertex): seq<Entry> {
    match k.kind
    case VertexIndex =>
      if !Blank(k.name) && k.name in v.labels && k.property in v.props
      then [Entry(VertexIndex, k.tenant, k.name, k.property, v.props[k.property], id, id, [])]
      else []
    case EdgeIndex => EdgeEntries(k, id, v.out)
  }

  lemma {:induction false} EdgeEntriesBelong(k: Key, id: Bytes, out: seq<OutEdge>)
    ensures forall e | e in EdgeEntries(k, id, out) ::
              e.kind == EdgeIndex && InKeyspace(e, k) && e.owner == id && !Blank(e.entityId)
  {
    if out != [] {
      EdgeEntriesBelong(k, id, out[1..]);
    }
  }

  /** ScanPropertyIndexAll ranges over tenant, name and property; it does not tell labels from edge types. */
  predicate InKeyspace(e: Entry, k: Key) {
    e.tenant == k.tenant && e.name == k.name && e.property == k.property
  }

  lemma ContributionBelongs(k: Key, id: Bytes, v: Vertex)
    requires id != [] && Trimmed(id)
    ensures forall e | e in Contribution(k, id, v) ::
              e.kind == k.kind && InKeyspace(e, k) && e.owner == id && !Blank(e.entityId)
  {
    TrimFixesTrimmed(id);
    if k.kind == EdgeIndex {
      EdgeEntriesBelong(k, id, v.out);
    }
  }

  // ---------------------------------------------------------------- job records

  /** No job has two records with one revision. */
  ghost predicate UniqueRevisions(jobs: set<JobEntry>) {
    forall a, b | a in jobs && b in jobs && a.key == b.key && a.state.revision == b.state.revision :: a == b
  }

  ghost predicate IsLatest(jobs: set<JobEntry>, k: Key, s: JobState) {
    && JobEntry(k, s) in jobs
    && forall e | e in jobs && e.key == k :: e.state.revision <= s.revision
  }

  /** The record that counts for job k: the one with the highest revision. */
  ghost function Latest(jobs: set<JobEntry>, k: Key): Option<JobState> {
    if exists s :: IsLatest(jobs, k, s) then
      var s :| IsLatest(jobs, k, s); Some(s)
    else None
  }

  ghost predicate Pending(jobs: set<JobEntry>, k: Key) {
    Latest(jobs, k).Some? && !Latest(jobs, k).value.completed
  }

  lemma LatestIs(jobs: set<JobEntry>, k: Key, s: JobState)
    requires UniqueRevisions(jobs) && IsLatest(jobs, k, s)
    ensures Latest(jobs, k) == Some(s)
  {
    var t := Latest(jobs, k).value;
    assert IsLatest(jobs, k, t);
    var a, b := JobEntry(k, t), JobEntry(k, s);
    assert a in jobs && b in jobs;
  }

  lemma {:induction false} LatestExists(jobs: set<JobEntry>, k: Key)
    ensures (exists e :: e in jobs && e.key == k) ==> exists s :: IsLatest(jobs, k, s)
    decreases jobs
  {
    if e :| e in jobs && e.key == k {
      var rest := jobs - {e};
      LatestExists(rest, k);
      if exists d :: d in rest && d.key == k {
        var s :| IsLatest(rest, k, s);
        if e.state.revision > s.revision {
          assert IsLatest(jobs, k, e.state);
        } else {
          assert IsLatest(jobs, k, s);
        }
      } else {
        assert IsLatest(jobs, k, e.state);
      }
    }
  }

  /** Latest is None exactly for a job without records. */
  lemma LatestNone(jobs: set<JobEntry>, k: Key)
    ensures Latest(jobs, k) == None <==> forall e | e in jobs :: e.key != k
  {
    LatestExists(jobs, k);
  }

  /** Jobs that keep their records keep their latest one. */
  lemma LatestFrame(jobs: set<JobEntry>, jobs': set<JobEntry>, k: Key)
    requires UniqueRevisions(jobs) && UniqueRevisions(jobs')
    requires forall s :: JobEntry(k, s) in jobs <==> JobEntry(k, s) in jobs'
    ensures Latest(jobs', k) == Latest(jobs, k)
  {
    forall s ensures IsLatest(jobs, k, s) <==> IsLatest(jobs', k, s) {
      assert forall e: JobEntry | e.key == k :: e == JobEntry(k, e.state);
    }
    if s :| IsLatest(jobs, k, s) {
      LatestIs(jobs, k, s);
      LatestIs(jobs', k, s);
    }
  }

  /** The revision an enqueue writes: one above every record of the job, and 1 for a new job. */
  ghost function NextRevision(jobs: set<JobEntry>, k: Key): nat {
    match Latest(jobs, k)
    case None => 1
    case Some(s) => s.revision + 1
  }

  /** Adding a record above all others of its job makes it the latest, and touches no other job. */
  lemma PutNewer(jobs: set<JobEntry>, k: Key, s: JobState)
    requires UniqueRevisions(jobs)
    requires Latest(jobs, k).None? || Latest(jobs, k).value.revision < s.revision
    ensures UniqueRevisions(jobs + {JobEntry(k, s)})
    ensures Latest(jobs + {JobEntry(k, s)}, k) == Some(s)
    ensures forall j | j != k :: Latest(jobs + {JobEntry(k, s)}, j) == Latest(jobs, j)
  {
    var jobs' := jobs + {JobEntry(k, s)};
    LatestNone(jobs, k);
    assert forall e | e in jobs && e.key == k :: e.state.revision < s.revision;
    assert IsLatest(jobs', k, s);
    LatestIs(jobs', k, s);
    forall j | j != k ensures Latest(jobs', j) == Latest(jobs, j) {
      LatestFrame(jobs, jobs', j);
    }
  }

  /** The checkpoint transaction: delete the previous record and put the next one. */
  lemma ReplaceLatest(jobs: set<JobEntry>, k: Key, old_: JobState, next: JobState)
    requires UniqueRevisions(jobs) && Latest(jobs, k) == Some(old_) && old_.revision < next.revision
    ensures var jobs' := jobs - {JobEntry(k, old_)} + {JobEntry(k, next)};
            && UniqueRevisions(jobs')
            && Latest(jobs', k) == Some(next)
            && forall j | j != k :: Latest(jobs', j) == Latest(jobs, j)
  {
    var jobs' := jobs - {JobEntry(k, old_)} + {JobEntry(k, next)};
    assert forall e | e in jobs && e.key == k :: e.state.revision < next.revision;
    assert IsLatest(jobs', k, next);
    LatestIs(jobs', k, next);
    forall j | j != k ensures Latest(jobs', j) == Latest(jobs, j) {
      LatestFrame(jobs, jobs', j);
    }
  }

  // ---------------------------------------------------------------- vertex scans

  /** A scan "from" a checkpoint starts strictly after it; the empty checkpoint means the beginning. */
  predicate After(checkpoint: Bytes, id: Bytes) {
    checkpoint == [] || Less(checkpoint, id)
  }

  ghost predicate IsNext(g: Graph, tenant: Bytes, checkpoint: Bytes, id: Bytes) {
    && VertexKey(tenant, id) in g
    && After(checkpoint, id)
    && forall o | VertexKey(tenant, o) in g && After(checkpoint, o) :: AtMost(id, o)
  }

  /** ScanVerticesFrom with limit 1. */
  ghost function NextVertex(g: Graph, tenant: Bytes, checkpoint: Bytes): Option<Bytes> {
    if exists id :: IsNext(g, tenant, checkpoint, id) then
      var id :| IsNext(g, tenant, checkpoint, id); Some(id)
    else None
  }

  lemma {:induction false} LeastExists(ids: set<Bytes>) returns (m: Bytes)
    requires ids != {}
    ensures m in ids && forall o | o in ids :: AtMost(m, o)
    decreases ids
  {
    var x :| x in ids;
    m := x;
    var rest := ids - {x};
    if rest == {} {
      assert ids == {x};
    } else {
      var r := LeastExists(rest);
      LessTotal(x, r);
      m := if Less(r, x) then r else x;
      forall o | o in ids ensures AtMost(m, o) {
        if o in rest {
          AtMostTransitive(m, r, o);
        }
      }
    }
  }

  /** The scan finds the least ID after the checkpoint, and nothing only if nothing is left. */
  lemma NextVertexSpec(g: Graph, tenant: Bytes, checkpoint: Bytes)
    ensures NextVertex(g, tenant, checkpoint) == None ==>
              forall o | VertexKey(tenant, o) in g :: !After(checkpoint, o)
    ensures NextVertex(g, tenant, checkpoint).Some? ==>
              IsNext(g, tenant, checkpoint, NextVertex(g, tenant, checkpoint).value)
  {
    var ids := set v | v in g && v.tenant == tenant && After(checkpoint, v.id) :: v.id;
    if ids != {} {
      var m := LeastExists(ids);
      forall o | VertexKey(tenant, o) in g && After(checkpoint, o) ensures AtMost(m, o) {
        assert VertexKey(tenant, o).id in ids;
      }
      assert IsNext(g, tenant, checkpoint, m);
    } else {
      forall o | VertexKey(tenant, o) in g ensures !After(checkpoint, o) {
        assert !After(checkpoint, o) || VertexKey(tenant, o).id in ids;
      }
    }
  }

  lemma NextVertexIs(g: Graph, tenant: Bytes, checkpoint: Bytes, id: Bytes)
    requires IsNext(g, tenant, checkpoint, id)
    ensures NextVertex(g, tenant, checkpoint) == Some(id)
  {
    NextVertexSpec(g, tenant, checkpoint);
    var o := NextVertex(g, tenant, checkpoint).value;
    assert IsNext(g, tenant, checkpoint, o);
    assert VertexKey(tenant, o) in g && VertexKey(tenant, id) in g;
    AtMostAntisymmetric(o, id);
  }
}
