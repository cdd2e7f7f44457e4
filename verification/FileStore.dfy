/**
  Metadata rows and blobs (internal/service/storage.go Upload, Delete, resolveEngine):
  two stores that no transaction ties together, changed step by step by uploads and
  deletes in any interleaving, each step allowed to fail, and across deployments
  with different engines.
*/
module FileStore {
  import opened Engines

  type ThreadId = string

  datatype Record = Record(backend: Backend, content: Bytes)

  datatype Pc =
    | Saving(id: Id, store: Backend, content: Bytes)
    | Saved(id: Id, store: Backend, content: Bytes)
    | Discarding(id: Id, store: Backend)               // too large, or the row could not be written
    | Deleting(id: Id, target: Backend)                // the row has been looked up
    | Removing(id: Id, target: Backend)                // the row is gone

  /**
    home records, for every id ever given to an upload, the engine it was sent to;
    orphaned, which records lost their blob to the clean-up of an upload that was told its
    row had not been written.
  */
  datatype System = System(
    deployment: Deployment,
    records: map<Id, Record>,
    blobs: map<(Backend, Id), Bytes>,
    home: map<Id, Backend>,
    orphaned: set<Id>,
    threads: map<ThreadId, Pc>)

  datatype Step =
    | StartUpload(t: ThreadId, id: Id, content: Bytes)
    | Save(t: ThreadId, ok: bool, leftBehind: bool)
    | RejectTooLarge(t: ThreadId)
    | CreateRow(t: ThreadId, ok: bool, tookEffect: bool)   // an error need not mean that there is no row
    | Discard(t: ThreadId, ok: bool)
    | LookUp(t: ThreadId, id: Id, ok: bool)
    | DeleteRow(t: ThreadId, ok: bool)
    | RemoveBlob(t: ThreadId, ok: bool)
    | Redeploy(d: Deployment)                          // a restart: what was running is lost

  predicate At(s: System, t: ThreadId) { t in s.threads }

  predicate Enabled(s: System, e: Step) {
    match e
    case StartUpload(t, id, _) => t !in s.threads && id !in s.home
    case Save(t, _, _) => At(s, t) && s.threads[t].Saving?
    case RejectTooLarge(t) => At(s, t) && s.threads[t].Saved?
    case CreateRow(t, _, _) => At(s, t) && s.threads[t].Saved?
    case Discard(t, _) => At(s, t) && s.threads[t].Discarding?
    case LookUp(t, _, _) => t !in s.threads
    case DeleteRow(t, _) => At(s, t) && s.threads[t].Deleting?
    case RemoveBlob(t, _) => At(s, t) && s.threads[t].Removing?
    case Redeploy(_) => true
  }

  function Ended(s: System, t: ThreadId): System {
    s.(threads := s.threads - {t})
  }

  function Goto(s: System, t: ThreadId, pc: Pc): System {
    s.(threads := s.threads[t := pc])
  }

  function Apply(s: System, e: Step): System
    requires Enabled(s, e)
  {
    match e
    case StartUpload(t, id, content) =>
      var store := MainEngine(s.deployment);
      Goto(s.(home := s.home[id := store]), t, Saving(id, store, content))
    case Save(t, ok, leftBehind) =>
      var pc := s.threads[t];
      var stored := s.(blobs := s.blobs[(pc.store, pc.id) := pc.content]);
      if ok then Goto(stored, t, Saved(pc.id, pc.store, pc.content))
      else if leftBehind then Ended(stored, t)
      else Ended(s, t)
    case RejectTooLarge(t) => Goto(s, t, Discarding(s.threads[t].id, s.threads[t].store))
    case CreateRow(t, ok, tookEffect) =>
      var pc := s.threads[t];
      var written := s.(records := s.records[pc.id := Record(pc.store, pc.content)]);
      if ok then Ended(written, t)
      else Goto(if tookEffect then written else s, t, Discarding(pc.id, pc.store))
    case Discard(t, ok) =>
      var pc := s.threads[t];
      Ended(if ok then s.(blobs := s.blobs - {(pc.store, pc.id)},
                          orphaned := s.orphaned + (if pc.id in s.records then {pc.id} else {}))
            else s, t)
    case LookUp(t, id, ok) =>
      Goto(s, t, Deleting(id, if ok && id in s.records then ResolveEngine(s.deployment, s.records[id].backend)
                              else MainEngine(s.deployment)))
    case DeleteRow(t, ok) =>
      var pc := s.threads[t];
      if !ok || pc.id !in s.records then Ended(s, t)
      else Goto(s.(records := s.records - {pc.id}), t, Removing(pc.id, pc.target))
    case RemoveBlob(t, ok) =>
      var pc := s.threads[t];
      Ended(if ok then s.(blobs := s.blobs - {(pc.target, pc.id)}) else s, t)
    case Redeploy(d) => s.(deployment := d, threads := map[])
  }

  function Initial(d: Deployment): System {
    System(d, map[], map[], map[], {}, map[])
  }

  /** On the way to a row. */
  predicate Writing(pc: Pc) {
    pc.Saving? || pc.Saved?
  }

  predicate Uploading(pc: Pc) {
    Writing(pc) || pc.Discarding?
  }

  /** A row's blob is where the row was written to, with the content that was uploaded, unless it is orphaned. */
  ghost predicate RowsHaveBlobs(s: System) {
    forall id | id in s.records ::
      && id in s.home && s.records[id].backend == s.home[id]
      && var k := (s.home[id], id);
         if id in s.orphaned then k !in s.blobs else k in s.blobs && s.blobs[k] == s.records[id].content
  }

  ghost predicate BlobsAtHome(s: System) {
    forall k | k in s.blobs :: k.1 in s.home && s.home[k.1] == k.0
  }

  ghost predicate ThreadOk(s: System, pc: Pc) {
    match pc
    case Saving(id, store, _) => id in s.home && s.home[id] == store && id !in s.records && id !in s.orphaned
    case Saved(id, store, content) =>
      && id in s.home && s.home[id] == store && id !in s.records && id !in s.orphaned
      && (store, id) in s.blobs && s.blobs[(store, id)] == content
    case Discarding(id, store) => id in s.home && s.home[id] == store
    case Deleting(_, _) => true
    case Removing(id, _) => id in s.home && id !in s.records
  }

  /** Neither is busy with the file the other is writing. */
  predicate Apart(p: Pc, q: Pc) {
    && (Writing(p) && (Uploading(q) || q.Removing?) ==> p.id != q.id)
    && (Writing(q) && (Uploading(p) || p.Removing?) ==> p.id != q.id)
  }

  /** An id has one upload, and no removal begins before that upload has written its row. */
  ghost predicate Exclusive(s: System) {
    forall t, u | t in s.threads && u in s.threads && t != u :: Apart(s.threads[t], s.threads[u])
  }

  ghost predicate ThreadsOk(s: System) {
    forall t | t in s.threads :: ThreadOk(s, s.threads[t])
  }

  predicate OrphansAtHome(s: System) {
    forall id | id in s.orphaned :: id in s.home
  }

  ghost predicate Inv(s: System) {
    RowsHaveBlobs(s) && BlobsAtHome(s) && Exclusive(s) && OrphansAtHome(s) && ThreadsOk(s)
  }

  lemma RowsStay(s: System, e: Step)
    requires Inv(s) && Enabled(s, e)
    ensures RowsHaveBlobs(Apply(s, e))
  {
    match e
    case CreateRow(t, _, _) => assert ThreadOk(s, s.threads[t]);
    case Save(t, _, _) => assert ThreadOk(s, s.threads[t]);
    case Discard(t, _) => assert ThreadOk(s, s.threads[t]);
    case RemoveBlob(t, _) => assert ThreadOk(s, s.threads[t]);
    case _ =>
  }

  lemma HomesStay(s: System, e: Step)
    requires Inv(s) && Enabled(s, e)
    ensures BlobsAtHome(Apply(s, e))
  {
    match e
    case Save(t, _, _) => assert ThreadOk(s, s.threads[t]);
    case _ =>
  }

  lemma StaysApart(s: System, e: Step, u: ThreadId)
    requires Inv(s) && Enabled(s, e) && !e.Redeploy?
    requires e.t in Apply(s, e).threads && u in s.threads && u != e.t
    ensures Apart(Apply(s, e).threads[e.t], s.threads[u])
  {
    assert ThreadOk(s, s.threads[u]);
    assert e.t in s.threads ==> Apart(s.threads[e.t], s.threads[u]);
  }

  lemma OwnThreadStays(s: System, e: Step)
    requires Inv(s) && Enabled(s, e) && !e.Redeploy?
    requires e.t in Apply(s, e).threads
    ensures ThreadOk(Apply(s, e), Apply(s, e).threads[e.t])
  {
    assert e.t in s.threads ==> ThreadOk(s, s.threads[e.t]);
  }

  lemma OtherThreadStays(s: System, e: Step, u: ThreadId)
    requires Inv(s) && Enabled(s, e) && !e.Redeploy?
    requires u in s.threads && u != e.t
    ensures ThreadOk(Apply(s, e), s.threads[u])
  {
    assert ThreadOk(s, s.threads[u]);
    assert e.t in s.threads ==> ThreadOk(s, s.threads[e.t]);
  }

  lemma ExclusionStays(s: System, e: Step)
    requires Inv(s) && Enabled(s, e) && !e.Redeploy?
    ensures Exclusive(Apply(s, e))
  {
    var s' := Apply(s, e);
    forall t, u | t in s'.threads && u in s'.threads && t != u
      ensures Apart(s'.threads[t], s'.threads[u])
    {
      if t == e.t { StaysApart(s, e, u); } else if u == e.t { StaysApart(s, e, t); }
    }
  }

  lemma ThreadsStay(s: System, e: Step)
    requires Inv(s) && Enabled(s, e) && !e.Redeploy?
    ensures ThreadsOk(Apply(s, e))
  {
    var s' := Apply(s, e);
    forall t | t in s'.threads
      ensures ThreadOk(s', s'.threads[t])
    {
      if t == e.t { OwnThreadStays(s, e); } else { OtherThreadStays(s, e, t); }
    }
  }

  lemma OrphansStay(s: System, e: Step)
    requires Inv(s) && Enabled(s, e)
    ensures OrphansAtHome(Apply(s, e))
  {}

  lemma ApplyInv(s: System, e: Step)
    requires Inv(s) && Enabled(s, e)
    ensures Inv(Apply(s, e))
  {
    RowsStay(s, e);
    HomesStay(s, e);
    OrphansStay(s, e);
    if !e.Redeploy? {
      ExclusionStays(s, e);
      ThreadsStay(s, e);
    }
  }

  // ------------------------------------------------------------ whole runs

  ghost predicate Runs(s: System, es: seq<Step>)
    decreases |es|
  {
    es == [] || (Enabled(s, es[0]) && Runs(Apply(s, es[0]), es[1..]))
  }

  function Reach(s: System, es: seq<Step>): System
    requires Runs(s, es)
    decreases |es|
  {
    if es == [] then s else Reach(Apply(s, es[0]), es[1..])
  }

  lemma {:induction false} ReachInv(s: System, es: seq<Step>)
    requires Inv(s) && Runs(s, es)
    ensures Inv(Reach(s, es))
    decreases |es|
  {
    if es != [] {
      ApplyInv(s, es[0]);
      ReachInv(Apply(s, es[0]), es[1..]);
    }
  }

  /** Reading the file through the engine its record resolves to gives the uploaded bytes. */
  predicate Readable(s: System, id: Id)
    requires id in s.records
  {
    var k := (ResolveEngine(s.deployment, s.records[id].backend), id);
    k in s.blobs && s.blobs[k] == s.records[id].content
  }

  /**
    At every step boundary of every interleaving, whatever failed: a file on record can be
    read through the engine resolveEngine picks exactly when the deployment running now
    has the engine the file was uploaded to, and the file is not orphaned.
  */
  lemma ReadableIffServed(d: Deployment, es: seq<Step>, id: Id)
    requires Runs(Initial(d), es) && id in Reach(Initial(d), es).records
    ensures var s := Reach(Initial(d), es);
            Readable(s, id) <==> Served(s.deployment, s.records[id].backend) && id !in s.orphaned
  {
    ReachInv(Initial(d), es);
    var s := Reach(Initial(d), es);
    ServedIsResolved(s.deployment, s.records[id].backend);
    var k := (ResolveEngine(s.deployment, s.records[id].backend), id);
    assert k in s.blobs ==> s.home[id] == k.0;
  }

  /** A row write says what it did. */
  predicate Told(e: Step) {
    e.CreateRow? ==> e.ok || !e.tookEffect
  }

  /** What is discarded has no row. */
  ghost predicate DiscardsRowless(s: System) {
    s.orphaned == {} && forall t | t in s.threads && s.threads[t].Discarding? :: s.threads[t].id !in s.records
  }

  lemma ToldStaysRowless(s: System, e: Step)
    requires Inv(s) && DiscardsRowless(s) && Enabled(s, e) && Told(e)
    ensures DiscardsRowless(Apply(s, e))
  {
    var s' := Apply(s, e);
    forall t | t in s'.threads && s'.threads[t].Discarding?
      ensures s'.threads[t].id !in s'.records
    {
      if t in s.threads {
        assert ThreadOk(s, s.threads[t]);
        if e.CreateRow? && e.t != t {
          assert Apart(s.threads[e.t], s.threads[t]);
        }
      }
    }
  }

  lemma {:induction false} ToldRunsOrphanNothing(s: System, es: seq<Step>)
    requires Inv(s) && DiscardsRowless(s) && Runs(s, es) && forall e | e in es :: Told(e)
    ensures Reach(s, es).orphaned == {}
    decreases |es|
  {
    if es != [] {
      assert es[0] in es;
      ApplyInv(s, es[0]);
      ToldStaysRowless(s, es[0]);
      ToldRunsOrphanNothing(Apply(s, es[0]), es[1..]);
    }
  }

  /** So as long as every row write that reports an error has had no effect, serving the engine is all it takes. */
  lemma ToldMeansReadable(d: Deployment, es: seq<Step>, id: Id)
    requires Runs(Initial(d), es) && (forall e | e in es :: Told(e)) && id in Reach(Initial(d), es).records
    ensures var s := Reach(Initial(d), es); Readable(s, id) <==> Served(s.deployment, s.records[id].backend)
  {
    ToldRunsOrphanNothing(Initial(d), es);
    ReadableIffServed(d, es, id);
  }

  /** A row write that took effect and reported an error costs the file its blob, once the clean-up has run. */
  lemma UntoldRowLosesItsBlob(s: System, t: ThreadId)
    requires Inv(s) && t in s.threads && s.threads[t].Saved?
    ensures var id, s1 := s.threads[t].id, Apply(s, CreateRow(t, false, true));
            var s2 := Apply(s1, Discard(t, true));
            && id in s1.records && (Served(s.deployment, s.threads[t].store) ==> Readable(s1, id))
            && id in s2.records && id in s2.orphaned && !Readable(s2, id)
  {
    assert ThreadOk(s, s.threads[t]);
    ServedIsResolved(s.deployment, s.threads[t].store);
    var s2 := Apply(Apply(s, CreateRow(t, false, true)), Discard(t, true));
    HomesStay(s, CreateRow(t, false, true));
    assert forall k | k in s2.blobs :: s2.home[k.1] == k.0;
  }

  /** Restarts keep the engine, or add S3 with the local directory kept. */
  predicate Upgrade(s: System, e: Step) {
    e.Redeploy? ==> e.d == s.deployment || e.d == S3WithLocal
  }

  ghost predicate Upgrades(s: System, es: seq<Step>)
    requires Runs(s, es)
    decreases |es|
  {
    es == [] || (Upgrade(s, es[0]) && Upgrades(Apply(s, es[0]), es[1..]))
  }

  ghost predicate AllServed(s: System) {
    forall id | id in s.home :: Served(s.deployment, s.home[id])
  }

  lemma {:induction false} UpgradesServe(s: System, es: seq<Step>)
    requires AllServed(s) && Runs(s, es) && Upgrades(s, es)
    ensures AllServed(Reach(s, es))
    decreases |es|
  {
    if es != [] {
      assert AllServed(Apply(s, es[0]));
      UpgradesServe(Apply(s, es[0]), es[1..]);
    }
  }

  /** Through any number of such moves every file on record stays readable, unless orphaned. */
  lemma MoveToS3KeepsFiles(d: Deployment, es: seq<Step>, id: Id)
    requires Runs(Initial(d), es) && Upgrades(Initial(d), es) && id in Reach(Initial(d), es).records
    ensures Readable(Reach(Initial(d), es), id) <==> id !in Reach(Initial(d), es).orphaned
  {
    UpgradesServe(Initial(d), es);
    ReadableIffServed(d, es, id);
    ReachInv(Initial(d), es);
  }

  // --------------------------------------------------------- nothing left over

  /** The step removes what it set out to remove, and leaves nothing behind. */
  predicate Clean(e: Step) {
    match e
    case Save(_, ok, leftBehind) => ok || !leftBehind
    case Discard(_, ok) => ok
    case RemoveBlob(_, ok) => ok
    case Redeploy(_) => false
    case _ => true
  }

  predicate Holds(pc: Pc, id: Id) {
    pc.id == id && (pc.Saved? || pc.Discarding? || pc.Removing?)
  }

  /** The file has a record, or someone is about to write one or to remove the blob. */
  ghost predicate InCare(s: System, id: Id) {
    id in s.records || exists t | t in s.threads :: Holds(s.threads[t], id)
  }

  ghost predicate Accounted(s: System) {
    forall k | k in s.blobs :: InCare(s, k.1)
  }

  /** One deployment sends everything to one engine. */
  ghost predicate OneEngine(s: System) {
    && (forall id | id in s.home :: s.home[id] == MainEngine(s.deployment))
    && (forall t | t in s.threads && !Uploading(s.threads[t]) :: s.threads[t].target == MainEngine(s.deployment))
  }

  lemma OneEngineStays(s: System, e: Step)
    requires RowsHaveBlobs(s) && OneEngine(s) && Enabled(s, e) && Clean(e)
    ensures OneEngine(Apply(s, e))
  {}

  /** A thread that leaves a file alone at last has given it a record or removed its blob. */
  lemma LetsGo(s: System, e: Step, k: (Backend, Id))
    requires Inv(s) && OneEngine(s) && Enabled(s, e) && Clean(e)
    requires e.t in s.threads && Holds(s.threads[e.t], k.1) && k in s.blobs
    ensures InCare(Apply(s, e), k.1) || k !in Apply(s, e).blobs
  {
    var s' := Apply(s, e);
    assert ThreadOk(s, s.threads[e.t]);
    assert s.home[k.1] == k.0;
    if e.t in s'.threads {
      assert Holds(s'.threads[e.t], k.1);
    }
  }

  lemma RowGoesToRemoval(s: System, e: Step, id: Id)
    requires Enabled(s, e) && id in s.records
    ensures InCare(Apply(s, e), id)
  {
    var s' := Apply(s, e);
    if id !in s'.records {
      assert e.DeleteRow? && e.t in s'.threads && Holds(s'.threads[e.t], id);
    }
  }

  lemma StaysAccounted(s: System, e: Step, k: (Backend, Id))
    requires Inv(s) && InCare(s, k.1) && OneEngine(s) && Enabled(s, e) && Clean(e)
    requires k in s.blobs && k in Apply(s, e).blobs
    ensures InCare(Apply(s, e), k.1)
  {
    var s' := Apply(s, e);
    if k.1 in s.records {
      RowGoesToRemoval(s, e, k.1);
    } else {
      var t :| t in s.threads && Holds(s.threads[t], k.1);
      if t == e.t {
        LetsGo(s, e, k);
      } else {
        assert t in s'.threads && s'.threads[t] == s.threads[t];
      }
    }
  }

  lemma ApplyAccounted(s: System, e: Step)
    requires Inv(s) && Accounted(s) && OneEngine(s) && Enabled(s, e) && Clean(e)
    ensures Accounted(Apply(s, e))
  {
    var s' := Apply(s, e);
    forall k | k in s'.blobs
      ensures InCare(s', k.1)
    {
      if k in s.blobs {
        StaysAccounted(s, e, k);
      } else {
        assert e.Save? && Holds(s'.threads[e.t], k.1);
      }
    }
  }

  lemma {:induction false} RunsStayAccounted(s: System, es: seq<Step>)
    requires Inv(s) && Accounted(s) && OneEngine(s)
    requires Runs(s, es) && forall e | e in es :: Clean(e)
    ensures Accounted(Reach(s, es))
    decreases |es|
  {
    if es != [] {
      assert es[0] in es;
      ApplyInv(s, es[0]);
      OneEngineStays(s, es[0]);
      ApplyAccounted(s, es[0]);
      RunsStayAccounted(Apply(s, es[0]), es[1..]);
    }
  }

  /** The blobs that the records speak of, and where. */
  function Recorded(records: map<Id, Record>): map<(Backend, Id), Bytes> {
    map id | id in records :: (records[id].backend, id) := records[id].content
  }

  /** The records that have their blobs. */
  function Kept(s: System): map<Id, Record> {
    map id | id in s.records && id !in s.orphaned :: s.records[id]
  }

  lemma RecordedIsAll(s: System)
    requires RowsHaveBlobs(s) && BlobsAtHome(s) && forall k | k in s.blobs :: k.1 in s.records
    ensures s.blobs == Recorded(Kept(s))
  {
    var expected := Recorded(Kept(s));
    forall k | k in s.blobs
      ensures k in expected
    {
      assert k == (s.records[k.1].backend, k.1);
      assert k.1 in Kept(s);
    }
  }

  /**
    Unless a removal fails, a failed save leaves a file behind or the server is
    stopped half way: once every upload and delete has ended, in whatever order
    their steps came, the blobs are those of the records not orphaned and no others.
  */
  lemma NothingLeftOver(d: Deployment, es: seq<Step>)
    requires Runs(Initial(d), es) && (forall e | e in es :: Clean(e))
    requires Reach(Initial(d), es).threads == map[]
    ensures var s := Reach(Initial(d), es); s.blobs == Recorded(Kept(s))
  {
    RunsStayAccounted(Initial(d), es);
    ReachInv(Initial(d), es);
    var s := Reach(Initial(d), es);
    assert forall k | k in s.blobs :: InCare(s, k.1);
    RecordedIsAll(s);
  }
}
