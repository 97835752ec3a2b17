/**
  Delivery of the outbox: committing requests, direct hand-offs, the Cron's
  publish runners, crashes between any two transactions
  (apps/worker/src/jobs.ts:317-386, 923-957, 1035-1112;
  apps/worker/src/routes/turns.ts:591-633).
 */
module OutboxDelivery {
  import opened Wrappers
  import opened Jobs
  import opened Outbox

  datatype Hub = SessionHub(session: string) | WorkspaceHub(workspace: string)

  function HubOf(workspace: string, session: Session): Hub {
    if session.Some? then SessionHub(session.value) else WorkspaceHub(workspace)
  }

  function HubOfRow(row: Row): Hub {
    HubOf(row.workspace, row.event.session)
  }

  /** What one call of a hub's `publish` carries. */
  datatype Batch = Batch(hub: Hub, events: set<EventId>)

  /** A runner of a publish job: after its claim, after its read, after the hub's answer. */
  datatype Runner = Starting(job: JobId) | Holding(job: JobId, batch: Batch) | Acknowledged(job: JobId)

  datatype System = System(
    db: Db,
    rows: map<EventId, Row>,
    handed: set<(Hub, EventId)>,
    runners: map<nat, Runner>,
    offered: map<JobId, Batch>,   // batches committing requests keep for the direct hand-off
    acked: set<JobId>,            // offered batches whose direct hand-off returned
    now: Time)

  function Handing(batch: Batch): set<(Hub, EventId)> {
    set e | e in batch.events :: (batch.hub, e)
  }

  predicate Covers(job: Job, id: EventId, row: Row) {
    && job.kind == Publish && job.payload.Range?
    && row.workspace == job.workspace && row.event.session == job.payload.session
    && job.payload.firstId <= id <= job.payload.lastId
  }

  /** The rows the runner's query returns. */
  function ReadRange(rows: map<EventId, Row>, job: Job): Batch
    requires job.payload.Range?
  {
    Batch(HubOf(job.workspace, job.payload.session), set e | e in rows && Covers(job, e, rows[e]))
  }

  function BatchOf(workspace: string, p: Publication): Batch {
    Batch(HubOf(workspace, p.session), set i | 0 <= i < |p.events| :: p.events[i].id)
  }

  function Offer(offered: map<JobId, Batch>, workspace: string, publications: seq<Publication>): map<JobId, Batch> {
    if publications == [] then offered
    else
      var n := |publications| - 1;
      Offer(offered, workspace, publications[..n])[publications[n].jobId := BatchOf(workspace, publications[n])]
  }

  datatype Step =
    | Commits(workspace: string, events: seq<OutboxEvent>, ids: seq<EventId>)
    | Begins(r: nat, id: JobId)
    | Reads(r: nat)
    | Publishes(r: nat)
    | PublishesUnheard(r: nat)    // the hub took the batch, its answer was lost
    | Finishes(r: nat)
    | FinishesUnheard(r: nat)     // the commit landed, its answer was lost
    | Fails(r: nat, error: string, attempts: nat, retryAfter: int)
    | Crashes(r: nat)
    | HandsOver(id: JobId)
    | HandsOverUnheard(id: JobId)
    | FinishesHandedOver(ids: seq<JobId>)
    | Others(tx: Tx)
    | Tick(seconds: nat)

  /** Ids come from a sequence: increasing within one transaction, never reused, but transactions interleave. */
  predicate Drawn(rows: map<EventId, Row>, ids: seq<EventId>) {
    && (forall i, j :: 0 <= i < j < |ids| ==> ids[i] < ids[j])
    && (forall i :: 0 <= i < |ids| ==> ids[i] !in rows)
  }

  predicate IsPublish(db: Db, id: JobId) {
    id in db.jobs && db.jobs[id].kind == Publish
  }

  /** Every other transaction: it queues and retires no publish job. */
  predicate Unrelated(db: Db, tx: Tx) {
    match tx
    case TxEnqueue(_, kind, _, _) => kind != Publish
    case TxFinish(id) => !IsPublish(db, id)
    case TxFinishFailed(id, _) => !IsPublish(db, id)
    case _ => true
  }

  predicate Enabled(s: System, step: Step) {
    match step
    case Commits(_, events, ids) => |ids| == |events| && Drawn(s.rows, ids)
    case Begins(r, id) => r !in s.runners && IsPublish(s.db, id) && Claimable(s.db, id, s.now)
    case Reads(r) =>
      r in s.runners && s.runners[r].Starting? && s.runners[r].job in s.db.jobs && s.db.jobs[s.runners[r].job].payload.Range?
    case Publishes(r) => r in s.runners && s.runners[r].Holding?
    case PublishesUnheard(r) => r in s.runners && s.runners[r].Holding?
    case Finishes(r) => r in s.runners && s.runners[r].Acknowledged?
    case FinishesUnheard(r) => r in s.runners && s.runners[r].Acknowledged?
    case Fails(r, _, _, _) => r in s.runners
    case Crashes(r) => r in s.runners
    case HandsOver(id) => id in s.offered
    case HandsOverUnheard(id) => id in s.offered
    case FinishesHandedOver(ids) => forall i :: 0 <= i < |ids| ==> ids[i] in s.acked || !IsPublish(s.db, ids[i])
    case Others(tx) => Unrelated(s.db, tx)
    case Tick(_) => true
  }

  function Commit(s: System, workspace: string, stamped: seq<Stamped>): System
    requires forall i :: 0 <= i < |GroupAll(stamped)| ==> GroupAll(stamped)[i].rows != []
  {
    var (db, publications) := EnqueueGroups(s.db, workspace, GroupAll(stamped), s.now);
    s.(db := db, rows := Insert(s.rows, workspace, stamped), offered := Offer(s.offered, workspace, publications))
  }

  function Next(s: System, step: Step): System
    requires Enabled(s, step)
  {
    match step
    case Commits(workspace, events, ids) =>
      GroupsPartition(Stamp(events, ids));
      Commit(s, workspace, Stamp(events, ids))
    case Begins(r, id) => s.(db := Claim(s.db, id, s.now), runners := s.runners[r := Starting(id)])
    case Reads(r) =>
      var id := s.runners[r].job;
      s.(runners := s.runners[r := Holding(id, ReadRange(s.rows, s.db.jobs[id]))])
    case Publishes(r) =>
      s.(handed := s.handed + Handing(s.runners[r].batch), runners := s.runners[r := Acknowledged(s.runners[r].job)])
    case PublishesUnheard(r) => s.(handed := s.handed + Handing(s.runners[r].batch))
    case Finishes(r) => s.(db := Finish(s.db, s.runners[r].job, s.now), runners := s.runners - {r})
    case FinishesUnheard(r) => s.(db := Finish(s.db, s.runners[r].job, s.now))
    case Fails(r, error, attempts, retryAfter) =>
      s.(db := Fail(s.db, s.runners[r].job, error, attempts, retryAfter, s.now), runners := s.runners - {r})
    case Crashes(r) => s.(runners := s.runners - {r})
    case HandsOver(id) => s.(handed := s.handed + Handing(s.offered[id]), acked := s.acked + {id})
    case HandsOverUnheard(id) => s.(handed := s.handed + Handing(s.offered[id]))
    case FinishesHandedOver(ids) => s.(db := FinishAll(s.db, ids, s.now))
    case Others(tx) => s.(db := Apply(s.db, tx, s.now))
    case Tick(seconds) => s.(now := s.now + seconds)
  }

  const START := System(EMPTY, map[], {}, map[], map[], {}, 0)

  ghost predicate Reachable(s: System, steps: seq<Step>)
    decreases |steps|
  {
    if steps == [] then s == START
    else
      var n := |steps| - 1;
      exists before :: Reachable(before, steps[..n]) && Enabled(before, steps[n]) && s == Next(before, steps[n])
  }

  // ---- Queueing a commit's groups -------------------------------------------

  /** Publish jobs carry the key of their own range, and their last event is committed. */
  ghost predicate Named(db: Db, ids: set<EventId>) {
    forall j: JobId :: IsPublish(db, j) ==>
      var p := db.jobs[j].payload;
      p.Range? && db.jobs[j].key == PublishKey(p.session, p.firstId, p.lastId) && p.lastId in ids
  }

  function LastId(g: Group): EventId
    requires g.rows != []
  {
    g.rows[|g.rows| - 1].id
  }

  function Lasts(groups: seq<Group>): set<EventId>
    requires forall i :: 0 <= i < |groups| ==> groups[i].rows != []
  {
    set i | 0 <= i < |groups| :: LastId(groups[i])
  }

  /** Groups with rows, whose last ids are new and differ. */
  ghost predicate Queueable(groups: seq<Group>, ids: set<EventId>) {
    && (forall i :: 0 <= i < |groups| ==> groups[i].rows != [] && LastId(groups[i]) !in ids)
    && (forall i, j :: 0 <= i < j < |groups| ==> LastId(groups[i]) != LastId(groups[j]))
  }

  /** An unfinished publish job over exactly the range of a group. */
  predicate Stands(job: Job, workspace: string, g: Group)
    requires g.rows != []
  {
    && job.workspace == workspace && job.kind == Publish && job.doneAt.None?
    && job.payload == Range(g.session, g.rows[0].id, LastId(g))
  }

  predicate QueuedAt(jobs: map<JobId, Job>, id: JobId, workspace: string, g: Group, p: Publication)
    requires g.rows != []
  {
    id in jobs && Stands(jobs[id], workspace, g) && p == Publication(id, g.session, g.rows)
  }

  ghost predicate Queued(db: Db, workspace: string, groups: seq<Group>, after: Db, publications: seq<Publication>)
    requires forall i :: 0 <= i < |groups| ==> groups[i].rows != []
  {
    && after.nextJob == db.nextJob + |groups| && |publications| == |groups|
    && (forall i :: 0 <= i < |groups| ==> QueuedAt(after.jobs, db.nextJob + i, workspace, groups[i], publications[i]))
    && (forall j :: j in db.jobs ==> j in after.jobs && after.jobs[j] == db.jobs[j])
    && (forall j :: j in after.jobs ==> j in db.jobs || db.nextJob <= j < after.nextJob)
  }

  lemma OtherLastOtherKey(s: Session, f: EventId, l: EventId, s': Session, f': EventId, l': EventId)
    requires l != l'
    ensures PublishKey(s, f, l) != PublishKey(s', f', l')
  {
    if PublishKey(s, f, l) == PublishKey(s', f', l') { KeyNamesLast(s, f, l, s', f', l'); }
  }

  lemma FreshRangeIsNew(db: Db, ids: set<EventId>, session: Session, first: EventId, last: EventId)
    requires Named(db, ids) && last !in ids
    ensures !HasKey(db, Publish, PublishKey(session, first, last))
  {
    forall j: JobId | IsPublish(db, j) ensures db.jobs[j].key != PublishKey(session, first, last) {
      var p := db.jobs[j].payload;
      OtherLastOtherKey(p.session, p.firstId, p.lastId, session, first, last);
    }
  }

  /** One more group: its range is new, so it gets the next job. */
  lemma EnqueueGroupAdds(db: Db, workspace: string, g: Group, now: Time, ids: set<EventId>)
    requires Consistent(db) && Named(db, ids) && g.rows != [] && LastId(g) !in ids
    ensures var (after, id) := EnqueueGroup(db, workspace, g, now);
      id == Some(db.nextJob) && after.nextJob == db.nextJob + 1
      && after.jobs.Keys == db.jobs.Keys + {db.nextJob}
      && (forall j :: j in db.jobs ==> after.jobs[j] == db.jobs[j])
      && Stands(after.jobs[db.nextJob], workspace, g)
  {
    hide PublishKey, Named, UniqueKeys, HasKey;
    FreshRangeIsNew(db, ids, g.session, g.rows[0].id, LastId(g));
  }

  lemma EnqueueGroupConsistent(db: Db, workspace: string, g: Group, now: Time)
    requires Consistent(db) && g.rows != []
    ensures Consistent(EnqueueGroup(db, workspace, g, now).0)
  {
    hide Consistent, PublishKey;
    var first, last := g.rows[0].id, LastId(g);
    ApplyKeepsConsistent(db, TxEnqueue(workspace, Publish, PublishKey(g.session, first, last), Range(g.session, first, last)), now);
  }

  lemma EnqueueGroupNamed(db: Db, workspace: string, g: Group, now: Time, ids: set<EventId>)
    requires Consistent(db) && Named(db, ids) && g.rows != [] && LastId(g) !in ids
    ensures Consistent(EnqueueGroup(db, workspace, g, now).0) && Named(EnqueueGroup(db, workspace, g, now).0, ids + {LastId(g)})
  {
    hide Consistent, PublishKey, HasKey;
    EnqueueGroupConsistent(db, workspace, g, now);
  }

  lemma QueueOneMore(db: Db, workspace: string, front: seq<Group>, g: Group, mid: Db, pubs: seq<Publication>, after: Db)
    requires g.rows != [] && forall i :: 0 <= i < |front| ==> front[i].rows != []
    requires Queued(db, workspace, front, mid, pubs)
    requires after.nextJob == mid.nextJob + 1 && after.jobs.Keys == mid.jobs.Keys + {mid.nextJob}
    requires forall j :: j in mid.jobs ==> after.jobs[j] == mid.jobs[j]
    requires mid.nextJob !in mid.jobs && Stands(after.jobs[mid.nextJob], workspace, g)
    ensures Queued(db, workspace, front + [g], after, pubs + [Publication(mid.nextJob, g.session, g.rows)])
  {
    var all, allPubs := front + [g], pubs + [Publication(mid.nextJob, g.session, g.rows)];
    forall i | 0 <= i < |all| ensures QueuedAt(after.jobs, db.nextJob + i, workspace, all[i], allPubs[i]) {
      if i < |front| { assert QueuedAt(mid.jobs, db.nextJob + i, workspace, front[i], pubs[i]); }
    }
  }

  lemma LastIsNew(groups: seq<Group>, ids: set<EventId>)
    requires groups != [] && Queueable(groups, ids)
    ensures var n := |groups| - 1;
      Queueable(groups[..n], ids) && LastId(groups[n]) !in ids + Lasts(groups[..n])
      && ids + Lasts(groups) == ids + Lasts(groups[..n]) + {LastId(groups[n])}
  {
    var n := |groups| - 1;
    var front := groups[..n];
    assert forall i :: 0 <= i < n ==> front[i] == groups[i];
  }

  /** What holds of the tables and publications after the groups are queued. */
  ghost predicate AllQueued(db: Db, w: string, groups: seq<Group>, now: Time, ids: set<EventId>)
    requires forall i :: 0 <= i < |groups| ==> groups[i].rows != []
  {
    var (after, publications) := EnqueueGroups(db, w, groups, now);
    Queued(db, w, groups, after, publications) && Consistent(after) && Named(after, ids)
  }

  lemma EnqueueOneMore(db: Db, w: string, front: seq<Group>, g: Group, groups: seq<Group>, now: Time, ids: set<EventId>)
    requires groups == front + [g] && front == groups[..|groups| - 1]
    requires (forall i :: 0 <= i < |groups| ==> groups[i].rows != []) && (forall i :: 0 <= i < |front| ==> front[i].rows != [])
    requires g.rows != [] && LastId(g) !in ids && AllQueued(db, w, front, now, ids)
    ensures AllQueued(db, w, groups, now, ids + {LastId(g)})
  {
    var (mid, pubs) := EnqueueGroups(db, w, front, now);
    EnqueueGroupAdds(mid, w, g, now, ids);
    EnqueueGroupNamed(mid, w, g, now, ids);
    var after := EnqueueGroup(mid, w, g, now).0;
    QueueOneMore(db, w, front, g, mid, pubs, after);
    assert EnqueueGroups(db, w, groups, now) == (after, pubs + [Publication(mid.nextJob, g.session, g.rows)]);
  }

  lemma NothingToQueue(db: Db, workspace: string, now: Time, ids: set<EventId>)
    requires Consistent(db) && Named(db, ids)
    ensures AllQueued(db, workspace, [], now, ids + Lasts([]))
  {
    assert ids + Lasts([]) == ids;
  }

  /** No fresh range is ever suppressed as a duplicate: each group gets a job of its own. */
  lemma {:induction false} EveryGroupIsQueued(db: Db, workspace: string, groups: seq<Group>, now: Time, ids: set<EventId>)
    requires Consistent(db) && Named(db, ids) && Queueable(groups, ids)
    ensures AllQueued(db, workspace, groups, now, ids + Lasts(groups))
    decreases |groups|
  {
    hide AllQueued, Named, Consistent, Lasts;
    if groups == [] {
      NothingToQueue(db, workspace, now, ids);
    } else {
      var n := |groups| - 1;
      LastIsNew(groups, ids);
      EveryGroupIsQueued(db, workspace, groups[..n], now, ids);
      assert groups == groups[..n] + [groups[n]];
      EnqueueOneMore(db, workspace, groups[..n], groups[n], groups, now, ids + Lasts(groups[..n]));
    }
  }

  // ---- The invariant --------------------------------------------------------

  /** Job `j` answers for event `e`: it cannot be retired, nor its batch be acknowledged, before `e` is handed over. */
  ghost predicate AnswersFor(s: System, j: JobId, e: EventId)
    requires e in s.rows
  {
    var own := (HubOfRow(s.rows[e]), e);
    && j in s.db.jobs && Covers(s.db.jobs[j], e, s.rows[e])
    && (s.db.jobs[j].doneAt.Some? ==> own in s.handed)
    && (forall r :: r in s.runners && s.runners[r].job == j ==>
      && (s.runners[r].Holding? ==> e in s.runners[r].batch.events)
      && (s.runners[r].Acknowledged? ==> own in s.handed))
    && (j in s.offered ==> e in s.offered[j].events)
    && (j in s.acked ==> own in s.handed)
  }

  ghost predicate Answered(s: System, e: EventId)
    requires e in s.rows
  {
    exists j :: AnswersFor(s, j, e)
  }

  /** A batch holds committed events of one hub. */
  ghost predicate OneHub(rows: map<EventId, Row>, batch: Batch) {
    forall e :: e in batch.events ==> e in rows && HubOfRow(rows[e]) == batch.hub
  }

  ghost predicate HandedHome(s: System) {
    forall h, e :: (h, e) in s.handed ==> e in s.rows && h == HubOfRow(s.rows[e])
  }

  ghost predicate Tidy(s: System) {
    && Consistent(s.db) && HandedHome(s)
    && (forall r :: r in s.runners ==> IsPublish(s.db, s.runners[r].job))
    && (forall r :: r in s.runners && s.runners[r].Holding? ==>
      OneHub(s.rows, s.runners[r].batch) && s.runners[r].batch.hub == HubOfJob(s.db.jobs[s.runners[r].job]))
    && (forall j :: j in s.offered ==>
      IsPublish(s.db, j) && OneHub(s.rows, s.offered[j]) && s.offered[j].hub == HubOfJob(s.db.jobs[j]))
    && s.acked <= s.offered.Keys
  }

  function HubOfJob(job: Job): Hub {
    if job.payload.Range? then HubOf(job.workspace, job.payload.session) else WorkspaceHub(job.workspace)
  }

  ghost predicate AllAnswered(s: System) {
    forall e :: e in s.rows ==> Answered(s, e)
  }

  ghost predicate Inv(s: System) {
    Tidy(s) && AllAnswered(s)
  }

  predicate SameJob(before: Job, after: Job) {
    && after.workspace == before.workspace && after.kind == before.kind
    && after.key == before.key && after.payload == before.payload
  }

  /** What every step but a commit keeps of the job table: it retires no publish job outside `ids`. */
  ghost predicate Retires(db: Db, after: Db, ids: set<JobId>) {
    && (forall j :: j in db.jobs ==> j in after.jobs && SameJob(db.jobs[j], after.jobs[j]))
    && (forall j :: IsPublish(after, j) ==> j in db.jobs && (after.jobs[j].doneAt.None? || db.jobs[j].doneAt.Some? || j in ids))
  }

  lemma OneRow(db: Db, after: Db, id: JobId, job: Job, ids: set<JobId>)
    requires id in db.jobs && after.jobs == db.jobs[id := job] && SameJob(db.jobs[id], job)
    requires job.kind != Publish || job.doneAt.None? || job.doneAt == db.jobs[id].doneAt || id in ids
    ensures Retires(db, after, ids)
  {}

  lemma UnrelatedKeeps(db: Db, tx: Tx, now: Time)
    requires Consistent(db) && Unrelated(db, tx)
    ensures Consistent(Apply(db, tx, now)) && Retires(db, Apply(db, tx, now), {})
  {
    ApplyKeepsConsistent(db, tx, now);
    UnrelatedRetiresNone(db, tx, now);
  }

  lemma UnrelatedRetiresNone(db: Db, tx: Tx, now: Time)
    requires (forall id :: id in db.jobs ==> id < db.nextJob) && Unrelated(db, tx)
    ensures Retires(db, Apply(db, tx, now), {})
  {
    var after := Apply(db, tx, now);
    if !tx.TxEnqueue? && !tx.TxResume? {
      if tx.id in db.jobs {
        assert after.jobs == db.jobs[tx.id := after.jobs[tx.id]];
        OneRow(db, after, tx.id, after.jobs[tx.id], {});
      } else {
        assert after.jobs == db.jobs;
      }
    }
  }

  lemma FinishRetiresOne(db: Db, id: JobId, now: Time)
    ensures Retires(db, Finish(db, id, now), {id})
  {
    var after := Finish(db, id, now);
    if id in db.jobs {
      OneRow(db, after, id, after.jobs[id], {id});
    }
  }

  lemma RetiresThenRetires(db: Db, mid: Db, after: Db, a: set<JobId>, b: set<JobId>)
    requires Retires(db, mid, a) && Retires(mid, after, b)
    ensures Retires(db, after, a + b)
  {
    forall j | j in db.jobs ensures j in after.jobs && SameJob(db.jobs[j], after.jobs[j]) {
      assert SameJob(db.jobs[j], mid.jobs[j]);
    }
    forall j: JobId | IsPublish(after, j)
      ensures j in db.jobs && (after.jobs[j].doneAt.None? || db.jobs[j].doneAt.Some? || j in a + b)
    {
      assert SameJob(mid.jobs[j], after.jobs[j]) && IsPublish(mid, j);
    }
  }

  function Elements(ids: seq<JobId>): set<JobId> {
    set j | j in ids
  }

  lemma {:induction false} FinishAllRetires(db: Db, ids: seq<JobId>, now: Time)
    ensures Retires(db, FinishAll(db, ids, now), Elements(ids))
    decreases |ids|
  {
    if ids != [] {
      var n := |ids| - 1;
      FinishAllRetires(db, ids[..n], now);
      var mid := FinishAll(db, ids[..n], now);
      FinishRetiresOne(mid, ids[n], now);
      RetiresThenRetires(db, mid, Finish(mid, ids[n], now), Elements(ids[..n]), {ids[n]});
      assert ids == ids[..n] + [ids[n]];
      assert Elements(ids) == Elements(ids[..n]) + {ids[n]};
    }
  }

  // ---- Steps that change one part of the system -----------------------------

  lemma TableStepTidy(s: System, db: Db, ids: set<JobId>)
    requires Tidy(s) && Consistent(db) && Retires(s.db, db, ids)
    ensures Tidy(s.(db := db))
  {
    hide Covers, Consistent;
    forall j: JobId | IsPublish(db, j) ensures IsPublish(s.db, j) {
      assert SameJob(s.db.jobs[j], db.jobs[j]);
    }
  }

  /** A job is retired only once the events it answers for are handed over. */
  ghost predicate HandedFor(s: System, j: JobId) {
    forall e :: e in s.rows && AnswersFor(s, j, e) ==> (HubOfRow(s.rows[e]), e) in s.handed
  }

  lemma TableStepAnswers(s: System, db: Db, ids: set<JobId>, j: JobId, e: EventId)
    requires e in s.rows && AnswersFor(s, j, e) && Retires(s.db, db, ids) && (j in ids ==> HandedFor(s, j))
    ensures AnswersFor(s.(db := db), j, e)
  {
    assert SameJob(s.db.jobs[j], db.jobs[j]) && IsPublish(db, j);
  }

  lemma TableStep(s: System, db: Db, ids: set<JobId>)
    requires Inv(s) && Consistent(db) && Retires(s.db, db, ids)
    requires forall j :: j in ids && IsPublish(s.db, j) ==> HandedFor(s, j)
    ensures Inv(s.(db := db))
  {
    TableStepTidy(s, db, ids);
    forall e | e in s.rows ensures Answered(s.(db := db), e) {
      var j :| AnswersFor(s, j, e);
      assert IsPublish(s.db, j);
      TableStepAnswers(s, db, ids, j, e);
    }
  }

  lemma HandStepAnswers(s: System, batch: Batch, acked: set<JobId>, j: JobId, e: EventId)
    requires e in s.rows && AnswersFor(s, j, e) && OneHub(s.rows, batch)
    requires acked <= s.offered.Keys && (j in acked ==> j in s.acked || s.offered[j] == batch)
    ensures AnswersFor(s.(handed := s.handed + Handing(batch), acked := acked), j, e)
  {
    assert e in batch.events ==> (HubOfRow(s.rows[e]), e) in Handing(batch);
  }

  lemma HandStepTidy(s: System, batch: Batch, acked: set<JobId>)
    requires Tidy(s) && OneHub(s.rows, batch) && acked <= s.offered.Keys
    ensures Tidy(s.(handed := s.handed + Handing(batch), acked := acked))
  {}

  /** A step that hands over one batch. */
  lemma HandStep(s: System, batch: Batch, acked: set<JobId>)
    requires Inv(s) && OneHub(s.rows, batch)
    requires acked <= s.offered.Keys && forall j :: j in acked ==> j in s.acked || s.offered[j] == batch
    ensures Inv(s.(handed := s.handed + Handing(batch), acked := acked))
  {
    var t := s.(handed := s.handed + Handing(batch), acked := acked);
    HandStepTidy(s, batch, acked);
    forall e | e in s.rows ensures Answered(t, e) {
      var j :| AnswersFor(s, j, e);
      HandStepAnswers(s, batch, acked, j, e);
    }
  }

  ghost predicate RunnerKeeps(s: System, r: Runner) {
    && IsPublish(s.db, r.job)
    && (r.Holding? ==> OneHub(s.rows, r.batch) && r.batch.hub == HubOfJob(s.db.jobs[r.job]))
    && (r.Holding? ==> forall e :: e in s.rows && AnswersFor(s, r.job, e) ==> e in r.batch.events)
    && (r.Acknowledged? ==> HandedFor(s, r.job))
  }

  lemma RunnerStepTidy(s: System, r: nat, runner: Runner)
    requires Tidy(s) && RunnerKeeps(s, runner)
    ensures Tidy(s.(runners := s.runners[r := runner]))
  {
    var t := s.(runners := s.runners[r := runner]);
    forall q | q in t.runners
      ensures IsPublish(t.db, t.runners[q].job)
      ensures t.runners[q].Holding? ==>
        OneHub(t.rows, t.runners[q].batch) && t.runners[q].batch.hub == HubOfJob(t.db.jobs[t.runners[q].job])
    {
      assert q != r ==> t.runners[q] == s.runners[q];
    }
  }

  lemma RunnerStepAnswers(s: System, r: nat, runner: Runner, j: JobId, e: EventId)
    requires e in s.rows && AnswersFor(s, j, e) && RunnerKeeps(s, runner)
    ensures AnswersFor(s.(runners := s.runners[r := runner]), j, e)
  {}

  /** A step that moves one runner on. */
  lemma RunnerStep(s: System, r: nat, runner: Runner)
    requires Inv(s) && RunnerKeeps(s, runner)
    ensures Inv(s.(runners := s.runners[r := runner]))
  {
    var t := s.(runners := s.runners[r := runner]);
    RunnerStepTidy(s, r, runner);
    forall e | e in s.rows ensures Answered(t, e) {
      var j :| AnswersFor(s, j, e);
      RunnerStepAnswers(s, r, runner, j, e);
    }
  }

  lemma RunnerEnds(s: System, r: nat)
    requires Inv(s)
    ensures Inv(s.(runners := s.runners - {r}))
  {
    var t := s.(runners := s.runners - {r});
    forall e | e in t.rows ensures Answered(t, e) {
      var j :| AnswersFor(s, j, e);
      assert AnswersFor(t, j, e);
    }
  }

  // ---- Commits --------------------------------------------------------------

  function Ids(stamped: seq<Stamped>): set<EventId> {
    set k | 0 <= k < |stamped| :: stamped[k].id
  }

  lemma {:induction false} InsertKeys(rows: map<EventId, Row>, workspace: string, stamped: seq<Stamped>)
    ensures Insert(rows, workspace, stamped).Keys == rows.Keys + Ids(stamped)
    decreases |stamped|
  {
    if stamped != [] {
      var n := |stamped| - 1;
      InsertKeys(rows, workspace, stamped[..n]);
      assert stamped == stamped[..n] + [stamped[n]];
      assert Ids(stamped) == Ids(stamped[..n]) + {stamped[n].id};
    }
  }

  lemma {:induction false} InsertLeaves(rows: map<EventId, Row>, workspace: string, stamped: seq<Stamped>, e: EventId)
    requires e in rows && e !in Ids(stamped)
    ensures e in Insert(rows, workspace, stamped) && Insert(rows, workspace, stamped)[e] == rows[e]
    decreases |stamped|
  {
    if stamped != [] {
      var n := |stamped| - 1;
      assert stamped == stamped[..n] + [stamped[n]];
      assert Ids(stamped) == Ids(stamped[..n]) + {stamped[n].id};
      InsertLeaves(rows, workspace, stamped[..n], e);
    }
  }

  lemma {:induction false} InsertHas(rows: map<EventId, Row>, workspace: string, stamped: seq<Stamped>, k: nat)
    requires Increasing(stamped) && k < |stamped|
    ensures var after := Insert(rows, workspace, stamped);
      stamped[k].id in after && after[stamped[k].id] == Row(workspace, stamped[k].event)
    decreases |stamped|
  {
    var n := |stamped| - 1;
    if k < n { InsertHas(rows, workspace, stamped[..n], k); }
  }

  predicate OffersAt(offered: map<JobId, Batch>, workspace: string, p: Publication) {
    p.jobId in offered && offered[p.jobId] == BatchOf(workspace, p)
  }

  lemma {:induction false} OfferAdds(offered: map<JobId, Batch>, workspace: string, pubs: seq<Publication>, first: JobId)
    requires forall i :: 0 <= i < |pubs| ==> pubs[i].jobId == first + i
    requires forall j :: j in offered ==> j < first
    ensures var after := Offer(offered, workspace, pubs);
      && (forall j :: j in offered ==> j in after && after[j] == offered[j])
      && (forall j :: j in after ==> j in offered || first <= j < first + |pubs|)
      && (forall i :: 0 <= i < |pubs| ==> OffersAt(after, workspace, pubs[i]))
    decreases |pubs|
  {
    if pubs != [] {
      var n := |pubs| - 1;
      OfferAdds(offered, workspace, pubs[..n], first);
      var before, after := Offer(offered, workspace, pubs[..n]), Offer(offered, workspace, pubs);
      forall i | 0 <= i < |pubs| ensures OffersAt(after, workspace, pubs[i]) {
        if i < n {
          assert pubs[..n][i] == pubs[i];
          assert OffersAt(before, workspace, pubs[..n][i]);
          assert pubs[i].jobId == first + i && pubs[n].jobId == first + n;
        }
      }
    }
  }

  lemma LastIsOfStream(stamped: seq<Stamped>, groups: seq<Group>, i: nat)
    requires Partitions(groups, stamped) && i < |groups|
    ensures exists k :: 0 <= k < |stamped| && stamped[k].id == LastId(groups[i]) && stamped[k].event.session == groups[i].session
  {
    var g := groups[i];
    OfStreamIs(stamped, g.session);
    var x := g.rows[|g.rows| - 1];
    assert x in OfStream(stamped, g.session);
    var k :| 0 <= k < |stamped| && stamped[k] == x;
    assert stamped[k].id == LastId(g) && stamped[k].event.session == g.session;
  }

  lemma GroupsAreQueueable(stamped: seq<Stamped>, groups: seq<Group>, ids: set<EventId>)
    requires Partitions(groups, stamped) && Increasing(stamped)
    requires forall k :: 0 <= k < |stamped| ==> stamped[k].id !in ids
    ensures Queueable(groups, ids)
  {
    forall i | 0 <= i < |groups| ensures LastId(groups[i]) !in ids {
      LastIsOfStream(stamped, groups, i);
    }
    forall i, j | 0 <= i < j < |groups| ensures LastId(groups[i]) != LastId(groups[j]) {
      LastIsOfStream(stamped, groups, i);
      LastIsOfStream(stamped, groups, j);
      var k :| 0 <= k < |stamped| && stamped[k].id == LastId(groups[i]) && stamped[k].event.session == groups[i].session;
      var l :| 0 <= l < |stamped| && stamped[l].id == LastId(groups[j]) && stamped[l].event.session == groups[j].session;
      assert k != l;
    }
  }

  /** The group of a new event: its range covers the event. */
  lemma GroupCovers(stamped: seq<Stamped>, groups: seq<Group>, k: nat) returns (i: nat)
    requires Partitions(groups, stamped) && Increasing(stamped) && k < |stamped|
    ensures i < |groups| && groups[i].session == stamped[k].event.session
    ensures groups[i].rows[0].id <= stamped[k].id <= LastId(groups[i])
    ensures stamped[k] in groups[i].rows
  {
    var row := stamped[k];
    assert row in stamped;
    i :| 0 <= i < |groups| && groups[i].session == stamped[k].event.session;
    OfStreamIs(stamped, groups[i].session);
    OfStreamIncreasing(stamped, groups[i].session);
    assert stamped[k] in stamped;
    var m :| 0 <= m < |groups[i].rows| && groups[i].rows[m] == stamped[k];
  }

  /** The state after a commit, and how it relates to the one before. */
  ghost predicate Committed(s: System, workspace: string, stamped: seq<Stamped>, groups: seq<Group>, pubs: seq<Publication>, t: System) {
    && Increasing(stamped) && (forall k :: 0 <= k < |stamped| ==> stamped[k].id !in s.rows)
    && Partitions(groups, stamped)
    && Queued(s.db, workspace, groups, t.db, pubs) && Consistent(t.db)
    && t.rows == Insert(s.rows, workspace, stamped)
    && t.offered == Offer(s.offered, workspace, pubs)
    && t.handed == s.handed && t.runners == s.runners && t.acked == s.acked && t.now == s.now
  }

  lemma CommitIs(s: System, workspace: string, stamped: seq<Stamped>) returns (pubs: seq<Publication>)
    requires Consistent(s.db) && Named(s.db, s.rows.Keys)
    requires Increasing(stamped) && forall k :: 0 <= k < |stamped| ==> stamped[k].id !in s.rows
    ensures Partitions(GroupAll(stamped), stamped)
    ensures Committed(s, workspace, stamped, GroupAll(stamped), pubs, Commit(s, workspace, stamped))
  {
    GroupsPartition(stamped);
    var groups := GroupAll(stamped);
    GroupsAreQueueable(stamped, groups, s.rows.Keys);
    EveryGroupIsQueued(s.db, workspace, groups, s.now, s.rows.Keys);
    pubs := EnqueueGroups(s.db, workspace, groups, s.now).1;
  }

  lemma OldRows(s: System, workspace: string, stamped: seq<Stamped>, e: EventId)
    requires e in s.rows && forall k :: 0 <= k < |stamped| ==> stamped[k].id !in s.rows
    ensures e in Insert(s.rows, workspace, stamped) && Insert(s.rows, workspace, stamped)[e] == s.rows[e]
  {
    InsertLeaves(s.rows, workspace, stamped, e);
  }

  lemma CommitKeepsAnswers(s: System, w: string, stamped: seq<Stamped>, groups: seq<Group>, pubs: seq<Publication>, t: System, j: JobId, e: EventId)
    requires Tidy(s) && Committed(s, w, stamped, groups, pubs, t)
    requires e in s.rows && AnswersFor(s, j, e)
    ensures e in t.rows && AnswersFor(t, j, e)
  {
    OldRows(s, w, stamped, e);
    OfferAdds(s.offered, w, pubs, s.db.nextJob);
  }

  lemma NewJob(db: Db, w: string, groups: seq<Group>, after: Db, pubs: seq<Publication>, i: nat)
    requires i < |groups| && forall i :: 0 <= i < |groups| ==> groups[i].rows != []
    requires Queued(db, w, groups, after, pubs)
    ensures db.nextJob + i in after.jobs && Stands(after.jobs[db.nextJob + i], w, groups[i])
  {
    assert QueuedAt(after.jobs, db.nextJob + i, w, groups[i], pubs[i]);
  }

  lemma NewOffer(s: System, w: string, stamped: seq<Stamped>, groups: seq<Group>, pubs: seq<Publication>, t: System, i: nat)
    requires Tidy(s) && Committed(s, w, stamped, groups, pubs, t) && i < |groups|
    ensures var j := s.db.nextJob + i;
      j in t.offered && t.offered[j] == BatchOf(w, Publication(j, groups[i].session, groups[i].rows))
  {
    hide Tidy, Offer, Insert, Increasing, Stands, BatchOf, Consistent;
    PublicationIds(s, w, stamped, groups, pubs, t);
    OfferAdds(s.offered, w, pubs, s.db.nextJob);
    assert OffersAt(t.offered, w, pubs[i]);
    assert QueuedAt(t.db.jobs, s.db.nextJob + i, w, groups[i], pubs[i]);
  }

  lemma NobodyHasNewJobs(s: System, j: JobId)
    requires Tidy(s) && s.db.nextJob <= j
    ensures j !in s.acked && forall r :: r in s.runners ==> s.runners[r].job != j
  {
    forall r | r in s.runners ensures s.runners[r].job != j {
      assert IsPublish(s.db, s.runners[r].job);
    }
  }

  lemma NewGroupAnswers(s: System, w: string, stamped: seq<Stamped>, groups: seq<Group>, pubs: seq<Publication>, t: System, i: nat, x: Stamped)
    requires Tidy(s) && Committed(s, w, stamped, groups, pubs, t) && i < |groups|
    requires x.id in t.rows && t.rows[x.id] == Row(w, x.event)
    requires x in groups[i].rows && groups[i].session == x.event.session && groups[i].rows[0].id <= x.id <= LastId(groups[i])
    ensures Answered(t, x.id)
  {
    hide Tidy, Offer, Insert, Answered, BatchOf, Consistent;
    NewJob(s.db, w, groups, t.db, pubs, i);
    NewOffer(s, w, stamped, groups, pubs, t, i);
    NobodyHasNewJobs(s, s.db.nextJob + i);
    NewJobAnswers(t, s.db.nextJob + i, w, groups[i], x);
  }

  lemma NewEventAnswered(s: System, w: string, stamped: seq<Stamped>, groups: seq<Group>, pubs: seq<Publication>, t: System, k: nat)
    requires Tidy(s) && Committed(s, w, stamped, groups, pubs, t) && k < |stamped|
    ensures stamped[k].id in t.rows && Answered(t, stamped[k].id)
  {
    InsertHas(s.rows, w, stamped, k);
    var i := GroupCovers(stamped, groups, k);
    NewGroupAnswers(s, w, stamped, groups, pubs, t, i, stamped[k]);
  }

  lemma NewJobAnswers(t: System, j: JobId, w: string, g: Group, x: Stamped)
    requires x.id in t.rows && t.rows[x.id] == Row(w, x.event)
    requires g.rows != [] && x in g.rows && g.session == x.event.session && g.rows[0].id <= x.id <= LastId(g)
    requires j in t.db.jobs && Stands(t.db.jobs[j], w, g)
    requires j in t.offered && t.offered[j] == BatchOf(w, Publication(j, g.session, g.rows))
    requires j !in t.acked && forall r :: r in t.runners ==> t.runners[r].job != j
    ensures Answered(t, x.id)
  {
    var m :| 0 <= m < |g.rows| && g.rows[m] == x;
    assert g.rows[m].id == x.id;
    assert AnswersFor(t, j, x.id);
  }

  lemma NewBatchOneHub(s: System, w: string, stamped: seq<Stamped>, groups: seq<Group>, pubs: seq<Publication>, t: System, i: nat)
    requires Tidy(s) && Committed(s, w, stamped, groups, pubs, t) && i < |groups|
    ensures OneHub(t.rows, BatchOf(w, pubs[i]))
  {
    assert QueuedAt(t.db.jobs, s.db.nextJob + i, w, groups[i], pubs[i]);
    OfStreamIs(stamped, groups[i].session);
    var batch := BatchOf(w, pubs[i]);
    forall e | e in batch.events ensures e in t.rows && HubOfRow(t.rows[e]) == batch.hub {
      var m :| 0 <= m < |pubs[i].events| && pubs[i].events[m].id == e;
      assert pubs[i].events[m] in OfStream(stamped, groups[i].session);
      var k :| 0 <= k < |stamped| && stamped[k] == pubs[i].events[m];
      InsertHas(s.rows, w, stamped, k);
    }
  }

  lemma OldBatchOneHub(s: System, w: string, stamped: seq<Stamped>, batch: Batch)
    requires OneHub(s.rows, batch) && forall k :: 0 <= k < |stamped| ==> stamped[k].id !in s.rows
    ensures OneHub(Insert(s.rows, w, stamped), batch)
  {
    forall e | e in batch.events ensures e in Insert(s.rows, w, stamped) && HubOfRow(Insert(s.rows, w, stamped)[e]) == batch.hub {
      OldRows(s, w, stamped, e);
    }
  }

  lemma CommitNamed(s: System, w: string, stamped: seq<Stamped>)
    requires Consistent(s.db) && Named(s.db, s.rows.Keys)
    requires Increasing(stamped) && forall k :: 0 <= k < |stamped| ==> stamped[k].id !in s.rows
    ensures Partitions(GroupAll(stamped), stamped)
    ensures Named(Commit(s, w, stamped).db, Commit(s, w, stamped).rows.Keys)
  {
    var groups := GroupAll(stamped);
    GroupsPartition(stamped);
    GroupsAreQueueable(stamped, groups, s.rows.Keys);
    EveryGroupIsQueued(s.db, w, groups, s.now, s.rows.Keys);
    InsertKeys(s.rows, w, stamped);
    forall i | 0 <= i < |groups| ensures LastId(groups[i]) in Ids(stamped) {
      LastIsOfStream(stamped, groups, i);
    }
    assert s.rows.Keys + Lasts(groups) <= Commit(s, w, stamped).rows.Keys;
  }

  lemma OldOffer(s: System, w: string, stamped: seq<Stamped>, groups: seq<Group>, pubs: seq<Publication>, t: System, j: JobId)
    requires Tidy(s) && Committed(s, w, stamped, groups, pubs, t) && j in s.offered
    ensures IsPublish(t.db, j) && j in t.offered && OneHub(t.rows, t.offered[j]) && t.offered[j].hub == HubOfJob(t.db.jobs[j])
  {
    OfferAdds(s.offered, w, pubs, s.db.nextJob);
    assert IsPublish(s.db, j) && t.db.jobs[j] == s.db.jobs[j];
    OldBatchOneHub(s, w, stamped, s.offered[j]);
  }

  lemma OfferedAt(offered: map<JobId, Batch>, w: string, pubs: seq<Publication>, first: JobId, j: JobId) returns (i: nat)
    requires forall i :: 0 <= i < |pubs| ==> pubs[i].jobId == first + i
    requires forall j :: j in offered ==> j < first
    requires j in Offer(offered, w, pubs) && j !in offered
    ensures i < |pubs| && j == first + i && Offer(offered, w, pubs)[j] == BatchOf(w, pubs[i])
  {
    OfferAdds(offered, w, pubs, first);
    i := j - first;
    assert OffersAt(Offer(offered, w, pubs), w, pubs[i]);
  }

  lemma NewBatchOffered(s: System, w: string, stamped: seq<Stamped>, groups: seq<Group>, pubs: seq<Publication>, t: System, i: nat)
    requires Tidy(s) && Committed(s, w, stamped, groups, pubs, t) && i < |groups|
    requires s.db.nextJob + i in t.offered && t.offered[s.db.nextJob + i] == BatchOf(w, pubs[i])
    ensures var j := s.db.nextJob + i;
      IsPublish(t.db, j) && OneHub(t.rows, t.offered[j]) && t.offered[j].hub == HubOfJob(t.db.jobs[j])
  {
    NewJob(s.db, w, groups, t.db, pubs, i);
    NewBatchOneHub(s, w, stamped, groups, pubs, t, i);
    assert QueuedAt(t.db.jobs, s.db.nextJob + i, w, groups[i], pubs[i]);
  }

  lemma PublicationIds(s: System, w: string, stamped: seq<Stamped>, groups: seq<Group>, pubs: seq<Publication>, t: System)
    requires Tidy(s) && Committed(s, w, stamped, groups, pubs, t)
    ensures forall i :: 0 <= i < |pubs| ==> pubs[i].jobId == s.db.nextJob + i
    ensures forall j :: j in s.offered ==> j < s.db.nextJob
    ensures |pubs| == |groups|
  {
    hide Offer, Insert, Increasing, Stands, HandedHome, OneHub, HubOfJob;
    forall i | 0 <= i < |pubs| ensures pubs[i].jobId == s.db.nextJob + i {
      assert QueuedAt(t.db.jobs, s.db.nextJob + i, w, groups[i], pubs[i]);
    }
  }

  lemma NewBatchAt(s: System, w: string, stamped: seq<Stamped>, groups: seq<Group>, pubs: seq<Publication>, t: System, j: JobId)
    returns (i: nat)
    requires Tidy(s) && Committed(s, w, stamped, groups, pubs, t) && j in t.offered && j !in s.offered
    ensures i < |groups| && j == s.db.nextJob + i && t.offered[j] == BatchOf(w, pubs[i])
  {
    PublicationIds(s, w, stamped, groups, pubs, t);
    i := OfferedAt(s.offered, w, pubs, s.db.nextJob, j);
  }

  lemma CommitOffers(s: System, w: string, stamped: seq<Stamped>, groups: seq<Group>, pubs: seq<Publication>, t: System, j: JobId)
    requires Tidy(s) && Committed(s, w, stamped, groups, pubs, t) && j in t.offered
    ensures IsPublish(t.db, j) && OneHub(t.rows, t.offered[j]) && t.offered[j].hub == HubOfJob(t.db.jobs[j])
  {
    if j in s.offered {
      OldOffer(s, w, stamped, groups, pubs, t, j);
    } else {
      var i := NewBatchAt(s, w, stamped, groups, pubs, t, j);
      NewBatchOffered(s, w, stamped, groups, pubs, t, i);
    }
  }

  lemma CommitTidy(s: System, w: string, stamped: seq<Stamped>, groups: seq<Group>, pubs: seq<Publication>, t: System)
    requires Tidy(s) && Committed(s, w, stamped, groups, pubs, t)
    ensures Tidy(t)
  {
    OfferAdds(s.offered, w, pubs, s.db.nextJob);
    forall h, e | (h, e) in t.handed ensures e in t.rows && h == HubOfRow(t.rows[e]) {
      OldRows(s, w, stamped, e);
    }
    forall j | j in t.offered ensures IsPublish(t.db, j) && OneHub(t.rows, t.offered[j]) && t.offered[j].hub == HubOfJob(t.db.jobs[j]) {
      CommitOffers(s, w, stamped, groups, pubs, t, j);
    }
    forall r | r in t.runners
      ensures IsPublish(t.db, t.runners[r].job)
      ensures t.runners[r].Holding? ==>
        OneHub(t.rows, t.runners[r].batch) && t.runners[r].batch.hub == HubOfJob(t.db.jobs[t.runners[r].job])
    {
      assert IsPublish(s.db, s.runners[r].job);
      if t.runners[r].Holding? { OldBatchOneHub(s, w, stamped, s.runners[r].batch); }
    }
  }

  lemma CommitStep(s: System, workspace: string, stamped: seq<Stamped>)
    requires Inv(s) && Named(s.db, s.rows.Keys)
    requires Increasing(stamped) && forall k :: 0 <= k < |stamped| ==> stamped[k].id !in s.rows
    ensures Partitions(GroupAll(stamped), stamped) && Inv(Commit(s, workspace, stamped))
  {
    var pubs := CommitIs(s, workspace, stamped);
    var groups, t := GroupAll(stamped), Commit(s, workspace, stamped);
    CommitTidy(s, workspace, stamped, groups, pubs, t);
    InsertKeys(s.rows, workspace, stamped);
    forall e | e in t.rows ensures Answered(t, e) {
      if e in s.rows {
        var j :| AnswersFor(s, j, e);
        CommitKeepsAnswers(s, workspace, stamped, groups, pubs, t, j, e);
      } else {
        var k :| 0 <= k < |stamped| && stamped[k].id == e;
        NewEventAnswered(s, workspace, stamped, groups, pubs, t, k);
      }
    }
  }

  // ---- Every step -----------------------------------------------------------

  lemma RangeKeeps(s: System, id: JobId)
    requires Tidy(s) && IsPublish(s.db, id) && s.db.jobs[id].payload.Range?
    ensures RunnerKeeps(s, Holding(id, ReadRange(s.rows, s.db.jobs[id])))
  {}

  lemma HoldingIsHanded(s: System, r: nat)
    requires Inv(s) && r in s.runners && s.runners[r].Holding?
    ensures HandedFor(s.(handed := s.handed + Handing(s.runners[r].batch)), s.runners[r].job)
  {
    var t := s.(handed := s.handed + Handing(s.runners[r].batch));
    forall e | e in t.rows && AnswersFor(t, s.runners[r].job, e) ensures (HubOfRow(t.rows[e]), e) in t.handed {
      assert e in s.runners[r].batch.events;
    }
  }

  lemma AcknowledgedIsHanded(s: System, r: nat)
    requires r in s.runners && s.runners[r].Acknowledged?
    ensures HandedFor(s, s.runners[r].job)
  {}

  lemma RetireStep(s: System, db: Db, id: JobId)
    requires Inv(s) && Consistent(db) && Retires(s.db, db, {id}) && HandedFor(s, id)
    ensures Inv(s.(db := db))
  {
    TableStep(s, db, {id});
  }

  lemma FinishStep(s: System, r: nat)
    requires Inv(s) && r in s.runners && s.runners[r].Acknowledged?
    ensures Inv(s.(db := Finish(s.db, s.runners[r].job, s.now)))
  {
    var id := s.runners[r].job;
    var db := Finish(s.db, id, s.now);
    AcknowledgedIsHanded(s, r);
    FinishConsistent(s.db, id, s.now);
    FinishRetiresOne(s.db, id, s.now);
    RetireStep(s, db, id);
  }

  lemma FinishAndEndStep(s: System, r: nat)
    requires Inv(s) && Enabled(s, Finishes(r))
    ensures Inv(Next(s, Finishes(r)))
  {
    FinishStep(s, r);
    RunnerEnds(s.(db := Finish(s.db, s.runners[r].job, s.now)), r);
  }

  lemma FinishConsistent(db: Db, id: JobId, now: Time)
    requires Consistent(db)
    ensures Consistent(Finish(db, id, now))
  {
    ApplyKeepsConsistent(db, TxFinish(id), now);
  }

  lemma UnrelatedStep(s: System, tx: Tx)
    requires Inv(s) && Unrelated(s.db, tx)
    ensures Inv(s.(db := Apply(s.db, tx, s.now)))
  {
    UnrelatedKeeps(s.db, tx, s.now);
    TableStep(s, Apply(s.db, tx, s.now), {});
  }

  lemma BeginStep(s: System, r: nat, id: JobId)
    requires Inv(s) && Enabled(s, Begins(r, id))
    ensures Inv(Next(s, Begins(r, id)))
  {
    UnrelatedStep(s, TxClaim(id));
    RunnerStep(s.(db := Claim(s.db, id, s.now)), r, Starting(id));
  }

  lemma ReadStep(s: System, r: nat)
    requires Inv(s) && Enabled(s, Reads(r))
    ensures Inv(Next(s, Reads(r)))
  {
    RangeKeeps(s, s.runners[r].job);
    RunnerStep(s, r, Holding(s.runners[r].job, ReadRange(s.rows, s.db.jobs[s.runners[r].job])));
  }

  lemma PublishStep(s: System, r: nat)
    requires Inv(s) && Enabled(s, Publishes(r))
    ensures Inv(Next(s, Publishes(r)))
  {
    var t := s.(handed := s.handed + Handing(s.runners[r].batch));
    HandStep(s, s.runners[r].batch, s.acked);
    HoldingIsHanded(s, r);
    RunnerStep(t, r, Acknowledged(s.runners[r].job));
  }

  lemma FailStep(s: System, r: nat, error: string, attempts: nat, retryAfter: int)
    requires Inv(s) && Enabled(s, Fails(r, error, attempts, retryAfter))
    ensures Inv(Next(s, Fails(r, error, attempts, retryAfter)))
  {
    UnrelatedStep(s, TxFail(s.runners[r].job, error, attempts, retryAfter));
    RunnerEnds(s.(db := Fail(s.db, s.runners[r].job, error, attempts, retryAfter, s.now)), r);
  }

  lemma AckedIsHanded(s: System, j: JobId)
    requires j in s.acked
    ensures HandedFor(s, j)
  {}

  lemma FinishAllStep(s: System, ids: seq<JobId>)
    requires Inv(s) && Enabled(s, FinishesHandedOver(ids))
    ensures Inv(Next(s, FinishesHandedOver(ids)))
  {
    FinishAllKeepsConsistent(s.db, ids, s.now);
    FinishAllRetires(s.db, ids, s.now);
    forall j | j in Elements(ids) && IsPublish(s.db, j) ensures HandedFor(s, j) {
      AckedIsHanded(s, j);
    }
    TableStep(s, FinishAll(s.db, ids, s.now), Elements(ids));
  }

  lemma TickAnswers(s: System, now: Time, j: JobId, e: EventId)
    requires e in s.rows && AnswersFor(s, j, e)
    ensures AnswersFor(s.(now := now), j, e)
  {}

  lemma TickTidy(s: System, now: Time)
    requires Tidy(s)
    ensures Tidy(s.(now := now))
  {}

  lemma TickAllAnswered(s: System, now: Time)
    requires AllAnswered(s)
    ensures AllAnswered(s.(now := now))
  {
    forall e | e in s.rows ensures Answered(s.(now := now), e) {
      var j :| AnswersFor(s, j, e);
      TickAnswers(s, now, j, e);
    }
  }

  lemma TickStep(s: System, seconds: nat)
    requires Inv(s)
    ensures Inv(Next(s, Tick(seconds)))
  {
    hide Tidy, AllAnswered;
    TickTidy(s, s.now + seconds);
    TickAllAnswered(s, s.now + seconds);
  }

  lemma HandOverStep(s: System, id: JobId, acked: set<JobId>)
    requires Inv(s) && id in s.offered && (acked == s.acked || acked == s.acked + {id})
    ensures Inv(s.(handed := s.handed + Handing(s.offered[id]), acked := acked))
  {
    OfferedOneHub(s, id);
    HandStep(s, s.offered[id], acked);
  }

  lemma OfferedOneHub(s: System, id: JobId)
    requires Tidy(s) && id in s.offered
    ensures OneHub(s.rows, s.offered[id]) && s.acked <= s.offered.Keys
  {}

  lemma PublishUnheardStep(s: System, r: nat)
    requires Inv(s) && Enabled(s, PublishesUnheard(r))
    ensures Inv(Next(s, PublishesUnheard(r)))
  {
    HandStep(s, s.runners[r].batch, s.acked);
    assert Next(s, PublishesUnheard(r)) == s.(handed := s.handed + Handing(s.runners[r].batch), acked := s.acked);
  }

  lemma InvNext(s: System, step: Step)
    requires Inv(s) && Named(s.db, s.rows.Keys) && Enabled(s, step)
    ensures Inv(Next(s, step))
  {
    hide Inv, Named, Finish, Fail, Claim, FinishAll;
    match step {
      case Commits(workspace, events, ids) => CommitStep(s, workspace, Stamp(events, ids));
      case Begins(r, id) => BeginStep(s, r, id);
      case Reads(r) => ReadStep(s, r);
      case Publishes(r) => PublishStep(s, r);
      case PublishesUnheard(r) => PublishUnheardStep(s, r);
      case Finishes(r) => FinishAndEndStep(s, r);
      case FinishesUnheard(r) => FinishStep(s, r);
      case Fails(r, error, attempts, retryAfter) => FailStep(s, r, error, attempts, retryAfter);
      case Crashes(r) => RunnerEnds(s, r);
      case HandsOver(id) => HandOverStep(s, id, s.acked + {id});
      case HandsOverUnheard(id) => PlainHandOver(s, id);
      case FinishesHandedOver(ids) => FinishAllStep(s, ids);
      case Others(tx) => UnrelatedStep(s, tx);
      case Tick(seconds) => TickStep(s, seconds);
    }
  }

  lemma PlainHandOver(s: System, id: JobId)
    requires Inv(s) && id in s.offered
    ensures Inv(Next(s, HandsOverUnheard(id)))
  {
    HandOverStep(s, id, s.acked);
    assert Next(s, HandsOverUnheard(id)) == s.(handed := s.handed + Handing(s.offered[id]), acked := s.acked);
  }

  lemma TableNext(s: System, step: Step) returns (retired: set<JobId>)
    requires Consistent(s.db) && Enabled(s, step) && !step.Commits?
    ensures Next(s, step).rows == s.rows && Retires(s.db, Next(s, step).db, retired)
  {
    retired := {};
    match step {
      case Begins(r, id) => UnrelatedKeeps(s.db, TxClaim(id), s.now);
      case Finishes(r) => FinishRetiresOne(s.db, s.runners[r].job, s.now); retired := {s.runners[r].job};
      case FinishesUnheard(r) => FinishRetiresOne(s.db, s.runners[r].job, s.now); retired := {s.runners[r].job};
      case Fails(r, error, attempts, retryAfter) =>
        UnrelatedKeeps(s.db, TxFail(s.runners[r].job, error, attempts, retryAfter), s.now);
      case FinishesHandedOver(ids) => FinishAllRetires(s.db, ids, s.now); retired := Elements(ids);
      case Others(tx) => UnrelatedKeeps(s.db, tx, s.now);
      case _ =>
    }
  }

  lemma RetiringKeepsNames(db: Db, after: Db, retired: set<JobId>, ids: set<EventId>)
    requires Named(db, ids) && Retires(db, after, retired)
    ensures Named(after, ids)
  {
    forall j: JobId | IsPublish(after, j)
      ensures var p := after.jobs[j].payload;
        p.Range? && after.jobs[j].key == PublishKey(p.session, p.firstId, p.lastId) && p.lastId in ids
    {
      assert SameJob(db.jobs[j], after.jobs[j]) && IsPublish(db, j);
    }
  }

  lemma NamedNext(s: System, step: Step)
    requires Consistent(s.db) && Named(s.db, s.rows.Keys) && Enabled(s, step)
    ensures Named(Next(s, step).db, Next(s, step).rows.Keys)
  {
    if step.Commits? {
      CommitNamed(s, step.workspace, Stamp(step.events, step.ids));
    } else {
      var retired := TableNext(s, step);
      RetiringKeepsNames(s.db, Next(s, step).db, retired, s.rows.Keys);
    }
  }

  lemma {:induction false} ReachableInv(s: System, steps: seq<Step>)
    requires Reachable(s, steps)
    ensures Inv(s) && Named(s.db, s.rows.Keys)
    decreases |steps|
  {
    if steps != [] {
      var n := |steps| - 1;
      var before :| Reachable(before, steps[..n]) && Enabled(before, steps[n]) && s == Next(before, steps[n]);
      ReachableInv(before, steps[..n]);
      InvNext(before, steps[n]);
      NamedNext(before, steps[n]);
    }
  }

  // ---- What a run guarantees ------------------------------------------------

  /** The hub of a row's stream: its session's, or its workspace's when it has no session. */
  predicate OwnHub(hub: Hub, row: Row) {
    match hub
    case SessionHub(session) => row.event.session == Some(session)
    case WorkspaceHub(workspace) => row.event.session.None? && row.workspace == workspace
  }

  lemma HubsAreStreams(hub: Hub, row: Row)
    ensures hub == HubOfRow(row) <==> OwnHub(hub, row)
  {}

  /** Whatever reached a hub was committed, and the hub is its own stream's. */
  lemma OnlyItsOwnHub(s: System, steps: seq<Step>, hub: Hub, e: EventId)
    requires Reachable(s, steps) && (hub, e) in s.handed
    ensures e in s.rows && OwnHub(hub, s.rows[e])
  {
    ReachableInv(s, steps);
    HubsAreStreams(hub, s.rows[e]);
  }

  /** A committed event has reached its hub, or an unfinished job and its pointer still stand for it. */
  lemma NothingIsForgotten(s: System, steps: seq<Step>, e: EventId, hub: Hub)
    requires Reachable(s, steps) && e in s.rows && OwnHub(hub, s.rows[e])
    ensures (hub, e) in s.handed
      || exists j :: j in s.db.ready && j in s.db.jobs && Covers(s.db.jobs[j], e, s.rows[e]) && s.db.jobs[j].doneAt.None?
  {
    ReachableInv(s, steps);
    HubsAreStreams(hub, s.rows[e]);
    var j :| AnswersFor(s, j, e);
    if (hub, e) !in s.handed {
      assert j in s.db.ready && Covers(s.db.jobs[j], e, s.rows[e]);
    }
  }

  /** At least once: when every publish job is done, every committed event has reached its own hub and no other. */
  lemma AtLeastOnce(s: System, steps: seq<Step>)
    requires Reachable(s, steps)
    requires forall j :: IsPublish(s.db, j) ==> Done(s.db, j)
    ensures forall hub, e :: (hub, e) in s.handed <==> e in s.rows && OwnHub(hub, s.rows[e])
  {
    ReachableInv(s, steps);
    forall e | e in s.rows ensures (HubOfRow(s.rows[e]), e) in s.handed {
      var j :| AnswersFor(s, j, e);
      assert IsPublish(s.db, j);
    }
    forall hub, e ensures (hub, e) in s.handed <==> e in s.rows && OwnHub(hub, s.rows[e]) {
      if e in s.rows { HubsAreStreams(hub, s.rows[e]); }
    }
  }

  lemma InsertExactly(rows: map<EventId, Row>, workspace: string, events: seq<OutboxEvent>, ids: seq<EventId>, e: EventId, row: Row)
    requires |ids| == |events| && Drawn(rows, ids)
    ensures var after := Insert(rows, workspace, Stamp(events, ids));
      (e in after && after[e] == row) <==>
      (e in rows && rows[e] == row) || exists i :: 0 <= i < |ids| && ids[i] == e && row == Row(workspace, events[i])
  {
    hide Insert;
    var stamped := Stamp(events, ids);
    InsertKeys(rows, workspace, stamped);
    if i :| 0 <= i < |ids| && ids[i] == e {
      InsertHas(rows, workspace, stamped, i);
      assert stamped[i] == Stamped(ids[i], events[i]);
    } else {
      assert e !in Ids(stamped);
      if e in rows { InsertLeaves(rows, workspace, stamped, e); }
    }
  }

  /** A commit stores exactly its events, each under the id it was given and in its workspace. */
  lemma CommitStoresExactly(s: System, workspace: string, events: seq<OutboxEvent>, ids: seq<EventId>, e: EventId, row: Row)
    requires Enabled(s, Commits(workspace, events, ids))
    ensures var after := Next(s, Commits(workspace, events, ids));
      (e in after.rows && after.rows[e] == row) <==>
      (e in s.rows && s.rows[e] == row) || exists i :: 0 <= i < |ids| && ids[i] == e && row == Row(workspace, events[i])
  {
    hide Insert, EnqueueGroups, GroupAll, Offer;
    InsertExactly(s.rows, workspace, events, ids, e, row);
    CommitRows(s, workspace, events, ids);
  }

  lemma CommitRows(s: System, workspace: string, events: seq<OutboxEvent>, ids: seq<EventId>)
    requires Enabled(s, Commits(workspace, events, ids))
    ensures Next(s, Commits(workspace, events, ids)).rows == Insert(s.rows, workspace, Stamp(events, ids))
  {
    hide Insert, EnqueueGroups, Offer;
  }

  /** A runner reads exactly the committed events of its job's stream between its two ids, and hands nothing over yet. */
  lemma ReadsExactly(s: System, r: nat, e: EventId)
    requires Enabled(s, Reads(r)) && IsPublish(s.db, s.runners[r].job)
    ensures var after, job := Next(s, Reads(r)), s.db.jobs[s.runners[r].job];
      && r in after.runners && after.runners[r].Holding? && after.runners[r].job == s.runners[r].job
      && after.handed == s.handed && after.db == s.db && after.rows == s.rows
      && (e in after.runners[r].batch.events <==>
        && e in s.rows && job.payload.firstId <= e <= job.payload.lastId
        && s.rows[e].workspace == job.workspace && s.rows[e].event.session == job.payload.session)
  {}

  /** A call of a hub, heard or not, hands over exactly the batch it carries. */
  lemma PublishesExactly(s: System, r: nat, hub: Hub, e: EventId)
    requires Enabled(s, Publishes(r))
    ensures var batch := s.runners[r].batch;
      && ((hub, e) in Next(s, Publishes(r)).handed <==> (hub, e) in s.handed || (hub == batch.hub && e in batch.events))
      && Next(s, PublishesUnheard(r)).handed == Next(s, Publishes(r)).handed
      && Next(s, Publishes(r)).runners[r] == Acknowledged(s.runners[r].job)
      && Next(s, PublishesUnheard(r)).runners[r] == s.runners[r]
  {
    assert Handing(s.runners[r].batch) == set x | x in s.runners[r].batch.events :: (s.runners[r].batch.hub, x);
  }

  /** Nothing stands in the way of a commit: consecutive ids beyond those used will do. */
  lemma AnythingCommits(s: System, workspace: string, events: seq<OutboxEvent>, first: EventId)
    requires forall e :: e in s.rows ==> e < first
    ensures Enabled(s, Commits(workspace, events, seq(|events|, i => first + i)))
  {}
}
