/**
  The durable job table and its pointer table (apps/worker/src/jobs.ts:107-253,
  923-1022). Each function below is the effect of one transaction; `JobStore`
  performs them on stored rows.
 */
module Jobs {
  import opened Wrappers

  type JobId = nat
  type Time = int

  datatype Kind = Publish | MemberProvision | RunLaunch | OtherKind(name: string)

  datatype Payload =
    | Range(session: Option<string>, firstId: nat, lastId: nat)
    | Opaque(content: string)

  datatype Job = Job(
    workspace: string, kind: Kind, key: string, payload: Payload,
    attempts: nat, nextAt: Time, lockedUntil: Option<Time>, doneAt: Option<Time>, lastError: Option<string>)

  datatype Ready = Ready(workspace: string, nextAt: Time, paused: bool)

  datatype Db = Db(jobs: map<JobId, Job>, ready: map<JobId, Ready>, nextJob: JobId)

  const CLAIM_SECONDS := 120
  const PAUSED_ERROR := "member_provisioning_disabled"
  const ERROR_LIMIT := 1000

  function Clip(error: string): string {
    if |error| <= ERROR_LIMIT then error else error[..ERROR_LIMIT]
  }

  function Min(a: int, b: int): int { if a < b then a else b }
  function Max(a: int, b: int): int { if a < b then b else a }

  function Pow2(n: nat): (p: nat)
    ensures p >= 1
  {
    if n == 0 then 1 else 2 * Pow2(n - 1)
  }

  function Backoff(attempts: nat, retryAfter: int): int {
    Max(Min(3600, 30 * Pow2(Max(0, attempts - 1))), Min(3600, Max(0, retryAfter)))
  }

  // ---- Transactions ---------------------------------------------------------

  predicate Paused(db: Db, id: JobId) {
    id in db.ready && db.ready[id].paused
  }

  predicate Done(db: Db, id: JobId) {
    id in db.jobs && db.jobs[id].doneAt.Some?
  }

  predicate Claimable(db: Db, id: JobId, now: Time) {
    id in db.jobs && db.jobs[id].doneAt.None? && !Paused(db, id)
    && (db.jobs[id].lockedUntil.None? || db.jobs[id].lockedUntil.value < now)
  }

  function Claimed(job: Job, now: Time): Job {
    job.(lockedUntil := Some(now + CLAIM_SECONDS), attempts := job.attempts + 1,
         lastError := if job.lastError == Some(PAUSED_ERROR) then None else job.lastError)
  }

  function Claim(db: Db, id: JobId, now: Time): Db {
    if Claimable(db, id, now) then db.(jobs := db.jobs[id := Claimed(db.jobs[id], now)]) else db
  }

  predicate Due(db: Db, id: JobId, now: Time) {
    Claimable(db, id, now) && db.jobs[id].nextAt <= now
  }

  function Finish(db: Db, id: JobId, now: Time): Db {
    if id in db.jobs
    then Db(db.jobs[id := db.jobs[id].(doneAt := Some(now), lockedUntil := None)], db.ready - {id}, db.nextJob)
    else db.(ready := db.ready - {id})
  }

  function FinishFailed(db: Db, id: JobId, error: string, now: Time): Db {
    if id in db.jobs
    then Db(db.jobs[id := db.jobs[id].(doneAt := Some(now), lockedUntil := None, lastError := Some(Clip(error)))],
            db.ready - {id}, db.nextJob)
    else db.(ready := db.ready - {id})
  }

  function Fail(db: Db, id: JobId, error: string, attempts: nat, retryAfter: int, now: Time): Db {
    var next := now + Backoff(attempts, retryAfter);
    Db(if id in db.jobs
       then db.jobs[id := db.jobs[id].(lockedUntil := None, lastError := Some(Clip(error)), nextAt := next)]
       else db.jobs,
       if id in db.ready then db.ready[id := db.ready[id].(nextAt := next)] else db.ready,
       db.nextJob)
  }

  /** Pausing needs both rows; otherwise it throws and the transaction rolls back. */
  predicate CanPause(db: Db, id: JobId) {
    id in db.jobs && db.jobs[id].kind.MemberProvision? && db.jobs[id].doneAt.None? && id in db.ready
  }

  function Pause(db: Db, id: JobId): Db {
    if CanPause(db, id)
    then Db(db.jobs[id := db.jobs[id].(lockedUntil := None, lastError := Some(PAUSED_ERROR))],
            db.ready[id := db.ready[id].(paused := true)], db.nextJob)
    else db
  }

  function Resume(db: Db, now: Time): Db {
    db.(ready := map id | id in db.ready ::
      if db.ready[id].paused then db.ready[id].(paused := false, nextAt := now) else db.ready[id])
  }

  predicate HasKey(db: Db, kind: Kind, key: string) {
    exists id :: id in db.jobs && db.jobs[id].kind == kind && db.jobs[id].key == key
  }

  function Enqueue(db: Db, workspace: string, kind: Kind, key: string, payload: Payload, now: Time): (Db, Option<JobId>) {
    if HasKey(db, kind, key) then (db, None)
    else
      var id := db.nextJob;
      (Db(db.jobs[id := Job(workspace, kind, key, payload, 0, now, None, None, None)],
          if id in db.ready then db.ready else db.ready[id := Ready(workspace, now, false)], id + 1),
       Some(id))
  }

  function FinishAll(db: Db, ids: seq<JobId>, now: Time): Db {
    if ids == [] then db else Finish(FinishAll(db, ids[..|ids| - 1], now), ids[|ids| - 1], now)
  }

  /**
    A finished job put back to work: how a mailbox connection, a new assessment
    or a key check re-arms its own job (routes/outbound-email.ts:160-174,
    inbox-triage/service.ts:152-165, keys/reverify-queue.ts:25-45).
   */
  function Revive(db: Db, id: JobId, now: Time): Db {
    if Done(db, id)
    then Db(db.jobs[id := db.jobs[id].(doneAt := None, lockedUntil := None, lastError := None, nextAt := now)],
            db.ready[id := if id in db.ready then db.ready[id].(nextAt := now) else Ready(db.jobs[id].workspace, now, false)],
            db.nextJob)
    else db
  }

  // ---- What every transaction keeps -----------------------------------------

  ghost predicate UniqueKeys(db: Db) {
    forall a, b :: a in db.jobs && b in db.jobs && db.jobs[a].kind == db.jobs[b].kind && db.jobs[a].key == db.jobs[b].key ==> a == b
  }

  /** A pointer exists exactly while there is work to point at. */
  ghost predicate Pointed(db: Db) {
    && (forall id :: id in db.ready <==> id in db.jobs && db.jobs[id].doneAt.None?)
    && (forall id :: id in db.jobs ==> id < db.nextJob)
  }

  ghost predicate Consistent(db: Db) {
    Pointed(db) && UniqueKeys(db)
  }

  datatype Tx =
    | TxEnqueue(workspace: string, kind: Kind, key: string, payload: Payload)
    | TxClaim(id: JobId)
    | TxFinish(id: JobId)
    | TxFinishFailed(id: JobId, error: string)
    | TxFail(id: JobId, error: string, attempts: nat, retryAfter: int)
    | TxPause(id: JobId)
    | TxResume
    | TxRevive(id: JobId)

  function Apply(db: Db, tx: Tx, now: Time): Db {
    match tx
    case TxEnqueue(w, k, key, p) => Enqueue(db, w, k, key, p, now).0
    case TxClaim(id) => Claim(db, id, now)
    case TxFinish(id) => Finish(db, id, now)
    case TxFinishFailed(id, error) => FinishFailed(db, id, error, now)
    case TxFail(id, error, attempts, retryAfter) => Fail(db, id, error, attempts, retryAfter, now)
    case TxPause(id) => Pause(db, id)
    case TxResume => Resume(db, now)
    case TxRevive(id) => Revive(db, id, now)
  }

  /** The same jobs under the same kinds and keys. */
  ghost predicate SameKeys(db: Db, after: Db) {
    after.jobs.Keys == db.jobs.Keys && after.nextJob == db.nextJob
    && forall id :: id in db.jobs ==> after.jobs[id].kind == db.jobs[id].kind && after.jobs[id].key == db.jobs[id].key
  }

  lemma SameKeysStayUnique(db: Db, after: Db)
    requires UniqueKeys(db) && SameKeys(db, after)
    ensures UniqueKeys(after)
  {
    forall a, b | a in after.jobs && b in after.jobs
                  && after.jobs[a].kind == after.jobs[b].kind && after.jobs[a].key == after.jobs[b].key
      ensures a == b
    {
      assert a in db.jobs.Keys && b in db.jobs.Keys;
    }
  }

  lemma EnqueueKeepsUnique(db: Db, w: string, kind: Kind, key: string, payload: Payload, now: Time)
    requires Consistent(db)
    ensures UniqueKeys(Enqueue(db, w, kind, key, payload, now).0)
  {
    if !HasKey(db, kind, key) {
      forall id | id in db.jobs ensures db.jobs[id].kind != kind || db.jobs[id].key != key {}
    }
  }

  lemma OthersKeepKeys(db: Db, tx: Tx, now: Time)
    requires !tx.TxEnqueue?
    ensures SameKeys(db, Apply(db, tx, now))
  {}

  lemma ApplyKeepsPointed(db: Db, tx: Tx, now: Time)
    requires Pointed(db)
    ensures Pointed(Apply(db, tx, now))
  {}

  lemma ApplyKeepsUnique(db: Db, tx: Tx, now: Time)
    requires Consistent(db)
    ensures UniqueKeys(Apply(db, tx, now))
  {
    if tx.TxEnqueue? {
      EnqueueKeepsUnique(db, tx.workspace, tx.kind, tx.key, tx.payload, now);
    } else {
      OthersKeepKeys(db, tx, now);
      SameKeysStayUnique(db, Apply(db, tx, now));
    }
  }

  lemma ApplyKeepsConsistent(db: Db, tx: Tx, now: Time)
    requires Consistent(db)
    ensures Consistent(Apply(db, tx, now))
  {
    ApplyKeepsPointed(db, tx, now);
    ApplyKeepsUnique(db, tx, now);
  }

  lemma {:induction false} FinishAllKeepsConsistent(db: Db, ids: seq<JobId>, now: Time)
    requires Consistent(db)
    ensures Consistent(FinishAll(db, ids, now))
    decreases |ids|
  {
    if ids != [] {
      var n := |ids| - 1;
      FinishAllKeepsConsistent(db, ids[..n], now);
      ApplyKeepsConsistent(FinishAll(db, ids[..n], now), TxFinish(ids[n]), now);
    }
  }

  /** Any transactions, in any order, by anyone, at any times. */
  function ApplyAll(db: Db, log: seq<(Tx, Time)>): Db {
    if log == [] then db
    else
      var n := |log| - 1;
      Apply(ApplyAll(db, log[..n]), log[n].0, log[n].1)
  }

  const EMPTY := Db(map[], map[], 0)

  lemma {:induction false} AlwaysConsistent(log: seq<(Tx, Time)>)
    ensures Consistent(ApplyAll(EMPTY, log))
    decreases |log|
  {
    if log != [] {
      var n := |log| - 1;
      AlwaysConsistent(log[..n]);
      ApplyKeepsConsistent(ApplyAll(EMPTY, log[..n]), log[n].0, log[n].1);
    }
  }

  lemma StaysDone(db: Db, tx: Tx, now: Time, id: JobId)
    requires Done(db, id) && id < db.nextJob && tx != TxRevive(id)
    ensures var after := Apply(db, tx, now); Done(after, id) && after.jobs[id].attempts == db.jobs[id].attempts
  {}

  /** Only a revival brings a finished job back; late failures, pauses and finishes do not. */
  lemma {:induction false} DoneIsAbsorbing(db: Db, log: seq<(Tx, Time)>, id: JobId)
    requires Consistent(db) && Done(db, id)
    requires forall i :: 0 <= i < |log| ==> log[i].0 != TxRevive(id)
    ensures Done(ApplyAll(db, log), id) && ApplyAll(db, log).jobs[id].attempts == db.jobs[id].attempts
    ensures Consistent(ApplyAll(db, log)) && id !in ApplyAll(db, log).ready
    decreases |log|
  {
    if log != [] {
      var n := |log| - 1;
      var before := ApplyAll(db, log[..n]);
      DoneIsAbsorbing(db, log[..n], id);
      ApplyKeepsConsistent(before, log[n].0, log[n].1);
      StaysDone(before, log[n].0, log[n].1, id);
    }
  }

  ghost predicate HeldBack(db: Db, id: JobId, attempts: nat) {
    id in db.jobs && (Paused(db, id) || Done(db, id)) && db.jobs[id].attempts == attempts
  }

  lemma StaysHeldBack(db: Db, tx: Tx, now: Time, id: JobId, attempts: nat)
    requires Consistent(db) && HeldBack(db, id, attempts) && !tx.TxResume? && tx != TxRevive(id)
    ensures HeldBack(Apply(db, tx, now), id, attempts)
  {
    match tx {
      case TxEnqueue(_, _, _, _) => assert id < db.nextJob;
      case _ =>
    }
  }

  /** A paused job is never claimed until the pause is lifted, whatever stale workers do to it. */
  lemma {:induction false} PausedIsUnclaimable(db: Db, log: seq<(Tx, Time)>, id: JobId, now: Time)
    requires Consistent(db) && Paused(db, id)
    requires forall i :: 0 <= i < |log| ==> !log[i].0.TxResume? && log[i].0 != TxRevive(id)
    ensures var after := ApplyAll(db, log);
      Consistent(after) && HeldBack(after, id, db.jobs[id].attempts) && !Claimable(after, id, now)
    decreases |log|
  {
    if log != [] {
      var n := |log| - 1;
      var before := ApplyAll(db, log[..n]);
      PausedIsUnclaimable(db, log[..n], id, log[n].1);
      ApplyKeepsConsistent(before, log[n].0, log[n].1);
      StaysHeldBack(before, log[n].0, log[n].1, id, db.jobs[id].attempts);
    }
  }

  lemma {:induction false} Pow2Grows(a: nat, b: nat)
    requires a <= b
    ensures Pow2(a) <= Pow2(b)
    decreases b
  {
    if a < b { Pow2Grows(a, b - 1); }
  }

  /** Retries wait between half a minute and an hour, longer after more attempts, and at least what was asked. */
  lemma BackoffBounds(attempts: nat, more: nat, retryAfter: int)
    requires attempts <= more
    ensures 30 <= Backoff(attempts, retryAfter) <= 3600
    ensures Backoff(attempts, retryAfter) <= Backoff(more, retryAfter)
    ensures Backoff(attempts, retryAfter) >= Min(3600, retryAfter)
  {
    Pow2Grows(Max(0, attempts - 1), Max(0, more - 1));
  }

  // ---- The stored tables ----------------------------------------------------

  /**
    What running one claimed job came to. Unheard means that the commit landed
    and its answer was lost: the runner catches an error and fails the job.
   */
  datatype Outcome =
    | Completed
    | CompletedUnheard(error: string, failedAt: Time)
    | PausedOutcome
    | PausedUnheard(error: string, failedAt: Time)
    | Threw(error: string, retryAfter: int, retryable: bool)

  const PAUSE_LOST := "member provisioning pause lost its durable job pointer"

  function Settle(db: Db, job: Job, id: JobId, outcome: Outcome, now: Time): Db {
    match outcome
    case Completed => Finish(db, id, now)
    case CompletedUnheard(error, failedAt) => Fail(Finish(db, id, now), id, error, job.attempts, 0, failedAt)
    case PausedOutcome =>
      if CanPause(db, id) then Pause(db, id) else Fail(db, id, PAUSE_LOST, job.attempts, 0, now)
    case PausedUnheard(error, failedAt) =>
      if CanPause(db, id) then Fail(Pause(db, id), id, error, job.attempts, 0, failedAt)
      else Fail(db, id, PAUSE_LOST, job.attempts, 0, now)
    case Threw(error, retryAfter, retryable) =>
      if retryable then Fail(db, id, error, job.attempts, retryAfter, now) else FinishFailed(db, id, error, now)
  }

  /**
    How one row of a drain goes: what others commit before its claim and while it
    runs, when it is claimed and settled, and what it comes to.
   */
  datatype Play = Play(before: seq<(Tx, Time)>, claimAt: Time, during: seq<(Tx, Time)>, settleAt: Time, outcome: Outcome)

  datatype Turn = Turn(id: JobId, play: Play)

  /** The job can still be claimed when its turn comes. */
  predicate Met(db: Db, t: Turn) {
    Claimable(ApplyAll(db, t.play.before), t.id, t.play.claimAt)
  }

  function TakeTurn(db: Db, t: Turn): Db {
    var found := ApplyAll(db, t.play.before);
    if Claimable(found, t.id, t.play.claimAt)
    then
      var held := ApplyAll(Claim(found, t.id, t.play.claimAt), t.play.during);
      Settle(held, Claimed(found.jobs[t.id], t.play.claimAt), t.id, t.play.outcome, t.play.settleAt)
    else found
  }

  function Drain(db: Db, turns: seq<Turn>): Db {
    if turns == [] then db else TakeTurn(Drain(db, turns[..|turns| - 1]), turns[|turns| - 1])
  }

  function One(b: bool): nat { if b then 1 else 0 }

  function CompletedCount(db: Db, turns: seq<Turn>): nat {
    if turns == [] then 0
    else
      var n := |turns| - 1;
      CompletedCount(db, turns[..n]) + One(Met(Drain(db, turns[..n]), turns[n]) && turns[n].play.outcome.Completed?)
  }

  /** The rows a pass claimed and could not finish. */
  function UnfinishedCount(db: Db, turns: seq<Turn>): nat {
    if turns == [] then 0
    else
      var n := |turns| - 1;
      UnfinishedCount(db, turns[..n]) + One(Met(Drain(db, turns[..n]), turns[n]) && !turns[n].play.outcome.Completed?)
  }

  /** The rows a pass could not claim. */
  function UnclaimableCount(db: Db, turns: seq<Turn>): nat {
    if turns == [] then 0
    else
      var n := |turns| - 1;
      UnclaimableCount(db, turns[..n]) + One(!Met(Drain(db, turns[..n]), turns[n]))
  }

  /** The pointer rows the Cron's query may list. */
  predicate PointerDue(db: Db, id: JobId, now: Time) {
    id in db.ready && !db.ready[id].paused && db.ready[id].nextAt <= now
  }

  /** The answers the query may give: the earliest due pointers, in order, up to the limit. */
  ghost predicate DueListing(db: Db, rows: seq<JobId>, limit: nat, now: Time) {
    && |rows| <= limit
    && (forall i, j :: 0 <= i < j < |rows| ==> rows[i] != rows[j])
    && (forall i :: 0 <= i < |rows| ==> PointerDue(db, rows[i], now))
    && (forall i, j :: 0 <= i < j < |rows| ==> db.ready[rows[i]].nextAt <= db.ready[rows[j]].nextAt)
    && forall id :: PointerDue(db, id, now) && id !in rows ==>
      |rows| == limit && forall i :: 0 <= i < |rows| ==> db.ready[rows[i]].nextAt <= db.ready[id].nextAt
  }

  function Turns(rows: seq<JobId>, plays: nat -> Play): (turns: seq<Turn>)
    ensures |turns| == |rows| && forall i :: 0 <= i < |rows| ==> turns[i] == Turn(rows[i], plays(i))
  {
    seq(|rows|, i requires 0 <= i < |rows| => Turn(rows[i], plays(i)))
  }

  /** The earliest `rows` of the due pointers, in order; the others are `left`. */
  ghost predicate Picked(ready: map<JobId, Ready>, due: set<JobId>, left: set<JobId>, rows: seq<JobId>)
    requires due <= ready.Keys && left <= due
  {
    && (forall id :: id in due <==> id in left || id in rows)
    && (forall i :: 0 <= i < |rows| ==> rows[i] in due && rows[i] !in left)
    && (forall i, j :: 0 <= i < j < |rows| ==> rows[i] != rows[j] && ready[rows[i]].nextAt <= ready[rows[j]].nextAt)
    && forall i, id :: 0 <= i < |rows| && id in left ==> ready[rows[i]].nextAt <= ready[id].nextAt
  }

  lemma PickOne(ready: map<JobId, Ready>, due: set<JobId>, left: set<JobId>, rows: seq<JobId>, best: JobId)
    requires due <= ready.Keys && left <= due && Picked(ready, due, left, rows)
    requires best in left && forall id :: id in left ==> ready[best].nextAt <= ready[id].nextAt
    ensures Picked(ready, due, left - {best}, rows + [best])
  {}

  class JobStore {
    var jobs: map<JobId, Job>
    var ready: map<JobId, Ready>
    var nextJob: JobId

    function State(): Db
      reads this
    {
      Db(jobs, ready, nextJob)
    }

    constructor ()
      ensures State() == EMPTY
    {
      jobs, ready, nextJob := map[], map[], 0;
    }

    method EnqueueJob(workspace: string, kind: Kind, key: string, payload: Payload, now: Time) returns (id: Option<JobId>)
      modifies this
      ensures (State(), id) == Enqueue(old(State()), workspace, kind, key, payload, now)
    {
      if HasKey(State(), kind, key) { return None; }
      var created := nextJob;
      jobs := jobs[created := Job(workspace, kind, key, payload, 0, now, None, None, None)];
      if created !in ready { ready := ready[created := Ready(workspace, now, false)]; }
      nextJob := created + 1;
      return Some(created);
    }

    method ClaimJob(id: JobId, now: Time) returns (job: Option<Job>)
      modifies this
      ensures State() == Claim(old(State()), id, now)
      ensures job == if Claimable(old(State()), id, now) then Some(jobs[id]) else None
    {
      if !Claimable(State(), id, now) { return None; }
      jobs := jobs[id := Claimed(jobs[id], now)];
      return Some(jobs[id]);
    }

    /** The due job with the earliest time, if any is due. */
    method ClaimNextJob(now: Time) returns (claimed: Option<JobId>)
      modifies this
      ensures claimed.None? ==> State() == old(State()) && forall id :: !Due(old(State()), id, now)
      ensures claimed.Some? ==>
        Due(old(State()), claimed.value, now) && State() == Claim(old(State()), claimed.value, now)
        && forall id :: Due(old(State()), id, now) ==> old(jobs[claimed.value].nextAt) <= old(jobs)[id].nextAt
      // A job is due when it is not done, not paused, not locked and its time has come.
      ensures claimed.Some? ==> claimed.value in old(jobs) && var job := old(jobs)[claimed.value];
        && job.doneAt.None? && job.nextAt <= now && (job.lockedUntil.Some? ==> job.lockedUntil.value < now)
        && (claimed.value in ready ==> !ready[claimed.value].paused)
      ensures claimed.None? ==> forall id :: id in jobs ==>
        || jobs[id].doneAt.Some? || jobs[id].nextAt > now || (id in ready && ready[id].paused)
        || (jobs[id].lockedUntil.Some? && jobs[id].lockedUntil.value >= now)
    {
      var db := State();
      var left := set id | id in jobs && Due(db, id, now);
      if left == {} {
        assert forall id :: Due(db, id, now) ==> id in left;
        assert forall id :: id in jobs ==> !Due(db, id, now);
        return None;
      }
      var best :| best in left;
      ghost var due := left;
      left := left - {best};
      while left != {}
        invariant best in due && left <= due
        invariant forall id :: id in due - left ==> jobs[best].nextAt <= jobs[id].nextAt
        decreases |left|
      {
        var id :| id in left;
        if jobs[id].nextAt < jobs[best].nextAt { best := id; }
        left := left - {id};
      }
      assert forall id :: Due(db, id, now) ==> id in due;
      jobs := jobs[best := Claimed(jobs[best], now)];
      return Some(best);
    }

    method FinishJob(id: JobId, now: Time)
      modifies this
      ensures State() == Finish(old(State()), id, now)
    {
      if id in jobs { jobs := jobs[id := jobs[id].(doneAt := Some(now), lockedUntil := None)]; }
      ready := ready - {id};
    }

    method FinishFailedJob(id: JobId, error: string, now: Time)
      modifies this
      ensures State() == FinishFailed(old(State()), id, error, now)
    {
      if id in jobs {
        jobs := jobs[id := jobs[id].(doneAt := Some(now), lockedUntil := None, lastError := Some(Clip(error)))];
      }
      ready := ready - {id};
    }

    method FailJob(id: JobId, error: string, attempts: nat, retryAfter: int, now: Time)
      modifies this
      ensures State() == Fail(old(State()), id, error, attempts, retryAfter, now)
    {
      var next := now + Backoff(attempts, retryAfter);
      if id in jobs {
        jobs := jobs[id := jobs[id].(lockedUntil := None, lastError := Some(Clip(error)), nextAt := next)];
      }
      if id in ready { ready := ready[id := ready[id].(nextAt := next)]; }
    }

    /** Both rows change or neither does. */
    method PauseMemberProvisioningJob(id: JobId) returns (ok: bool)
      modifies this
      ensures ok == CanPause(old(State()), id)
      ensures State() == Pause(old(State()), id)
    {
      ok := id in jobs && jobs[id].kind.MemberProvision? && jobs[id].doneAt.None? && id in ready;
      if ok {
        jobs := jobs[id := jobs[id].(lockedUntil := None, lastError := Some(PAUSED_ERROR))];
        ready := ready[id := ready[id].(paused := true)];
      }
    }

    method FinishJobsAfterCommit(ids: seq<JobId>, now: Time)
      modifies this
      ensures State() == FinishAll(old(State()), ids, now)
    {
      for i := 0 to |ids|
        invariant State() == FinishAll(old(State()), ids[..i], now)
      {
        FinishJob(ids[i], now);
        assert ids[..i + 1][..i] == ids[..i];
      }
      assert ids[..|ids|] == ids;
    }

    /** What other connections commit meanwhile. */
    method Others(log: seq<(Tx, Time)>)
      modifies this
      ensures State() == ApplyAll(old(State()), log)
    {
      for i := 0 to |log|
        invariant State() == ApplyAll(old(State()), log[..i])
      {
        var db := Apply(State(), log[i].0, log[i].1);
        jobs, ready, nextJob := db.jobs, db.ready, db.nextJob;
        assert log[..i + 1][..i] == log[..i];
      }
      assert log[..|log|] == log;
    }

    /** Claim, run, finish or fail; true when the job was run to done and the answer was heard. */
    method ClaimRunFinish(t: Turn) returns (done: bool)
      modifies this
      ensures State() == TakeTurn(old(State()), t)
      ensures done == (Met(old(State()), t) && t.play.outcome.Completed?)
    {
      Others(t.play.before);
      var job := ClaimJob(t.id, t.play.claimAt);
      if job.None? { return false; }
      Others(t.play.during);
      done := SettleClaimed(job.value, t.id, t.play.outcome, t.play.settleAt);
    }

    method SettleClaimed(job: Job, id: JobId, outcome: Outcome, now: Time) returns (done: bool)
      modifies this
      ensures State() == Settle(old(State()), job, id, outcome, now)
      ensures done == outcome.Completed?
    {
      match outcome {
        case Completed =>
          FinishJob(id, now);
          return true;
        case CompletedUnheard(error, failedAt) =>
          FinishJob(id, now);
          FailJob(id, error, job.attempts, 0, failedAt);
          return false;
        case PausedOutcome =>
          var ok := PauseMemberProvisioningJob(id);
          if !ok { FailJob(id, PAUSE_LOST, job.attempts, 0, now); }
          return false;
        case PausedUnheard(error, failedAt) =>
          var ok := PauseMemberProvisioningJob(id);
          if ok {
            FailJob(id, error, job.attempts, 0, failedAt);
          } else {
            FailJob(id, PAUSE_LOST, job.attempts, 0, now);
          }
          return false;
        case Threw(error, retryAfter, retryable) =>
          if retryable {
            FailJob(id, error, job.attempts, retryAfter, now);
          } else {
            FinishFailedJob(id, error, now);
          }
          return false;
      }
    }

    method ResumePaused(now: Time)
      modifies this
      ensures State() == Resume(old(State()), now)
    {
      ready := map id | id in ready :: if ready[id].paused then ready[id].(paused := false, nextAt := now) else ready[id];
    }

    /** The Cron's query: the earliest due pointers that are not paused. */
    method DueRows(limit: nat, now: Time) returns (rows: seq<JobId>)
      ensures DueListing(State(), rows, limit, now)
      ensures forall id :: id in rows ==> id in ready && !ready[id].paused && ready[id].nextAt <= now
      ensures |rows| < limit ==> forall id :: id in ready && id !in rows ==> ready[id].paused || ready[id].nextAt > now
    {
      ghost var due := set id | id in ready && PointerDue(State(), id, now);
      var left := set id | id in ready && PointerDue(State(), id, now);
      rows := [];
      while |rows| < limit && left != {}
        invariant |rows| <= limit && left <= due && Picked(ready, due, left, rows)
        decreases |left|
      {
        var best := Earliest(left);
        PickOne(ready, due, left, rows, best);
        left := left - {best};
        rows := rows + [best];
      }
      assert forall id :: PointerDue(State(), id, now) ==> id in due;
    }

    method Earliest(rows: set<JobId>) returns (best: JobId)
      requires rows != {} && rows <= ready.Keys
      ensures best in rows && forall id :: id in rows ==> ready[best].nextAt <= ready[id].nextAt
    {
      best :| best in rows;
      var left := rows - {best};
      while left != {}
        invariant best in rows && left <= rows
        invariant forall id :: id in rows - left ==> ready[best].nextAt <= ready[id].nextAt
        decreases |left|
      {
        var id :| id in left;
        if ready[id].nextAt < ready[best].nextAt { best := id; }
        left := left - {id};
      }
    }

    /**
      The Cron's pass: lift the pauses when provisioning is enabled, list the due
      rows, take each in turn. A row that could not be claimed counts as failed.
     */
    method DrainJobs(enabled: bool, limit: nat, now: Time, plays: nat -> Play)
      returns (ghost rows: seq<JobId>, claimed: nat, done: nat, failed: nat)
      modifies this
      ensures var start := if enabled then Resume(old(State()), now) else old(State());
        && DueListing(start, rows, limit, now)
        && State() == Drain(start, Turns(rows, plays))
        && claimed == |rows| == done + failed
        && done == CompletedCount(start, Turns(rows, plays))
        && failed == UnfinishedCount(start, Turns(rows, plays)) + UnclaimableCount(start, Turns(rows, plays))
    {
      if enabled { ResumePaused(now); }
      var due := DueRows(limit, now);
      rows := due;
      done, failed := DrainRows(Turns(due, plays));
      claimed := |due|;
    }

    method DrainRows(turns: seq<Turn>) returns (done: nat, failed: nat)
      modifies this
      ensures State() == Drain(old(State()), turns)
      ensures done == CompletedCount(old(State()), turns) && done + failed == |turns|
      ensures failed == UnfinishedCount(old(State()), turns) + UnclaimableCount(old(State()), turns)
    {
      done, failed := 0, 0;
      for i := 0 to |turns|
        invariant State() == Drain(old(State()), turns[..i])
        invariant done == CompletedCount(old(State()), turns[..i]) && done + failed == i
        invariant failed == UnfinishedCount(old(State()), turns[..i]) + UnclaimableCount(old(State()), turns[..i])
      {
        var ok := ClaimRunFinish(turns[i]);
        if ok { done := done + 1; } else { failed := failed + 1; }
        assert turns[..i + 1][..i] == turns[..i];
      }
      assert turns[..|turns|] == turns;
    }
  }
}
