/**
  Runners holding leases: `claimRunFinish` from the request path and from the
  Cron, overlapping, crashing and outliving their claims
  (apps/worker/src/jobs.ts:88-211, 337-346, 923-1022).
 */
module JobLeases {
  import opened Wrappers
  import opened Jobs

  /** A runner between its claim and the end of its last transaction. */
  datatype Runner = Runner(job: JobId, claimedAt: Time, attempts: nat)

  datatype System = System(db: Db, now: Time, runners: map<nat, Runner>)
  {
    function With(db: Db): System { System(db, now, runners) }
    function End(db: Db, r: nat): System { System(db, now, runners - {r}) }
  }

  datatype Step =
    | Enqueues(workspace: string, kind: Kind, key: string, payload: Payload)
    | Claims(r: nat, id: JobId)
    | Finishes(r: nat)
    | FinishesUnheard(r: nat)   // the commit landed, the runner saw an error and goes on to fail the job
    | GivesUp(r: nat, error: string)
    | Fails(r: nat, error: string, retryAfter: int)
    | Pauses(r: nat)
    | PausesUnheard(r: nat)     // the same for a pause
    | Crashes(r: nat)
    | FinishedAfterCommit(ids: seq<JobId>)
    | Resumes
    | Revives(id: JobId)
    | Tick(seconds: nat)

  function Next(s: System, step: Step): System {
    match step
    case Enqueues(w, k, key, p) => s.With(Enqueue(s.db, w, k, key, p, s.now).0)
    case Claims(r, id) =>
      if r in s.runners || !Claimable(s.db, id, s.now) then s
      else System(Claim(s.db, id, s.now), s.now, s.runners[r := Runner(id, s.now, s.db.jobs[id].attempts + 1)])
    case Finishes(r) => if r in s.runners then s.End(Finish(s.db, s.runners[r].job, s.now), r) else s
    case FinishesUnheard(r) => if r in s.runners then s.With(Finish(s.db, s.runners[r].job, s.now)) else s
    case GivesUp(r, error) => if r in s.runners then s.End(FinishFailed(s.db, s.runners[r].job, error, s.now), r) else s
    case Fails(r, error, retryAfter) =>
      if r in s.runners then s.End(Fail(s.db, s.runners[r].job, error, s.runners[r].attempts, retryAfter, s.now), r) else s
    case Pauses(r) =>
      // A pause that throws leaves the runner to fail the job.
      if r in s.runners && CanPause(s.db, s.runners[r].job) then s.End(Pause(s.db, s.runners[r].job), r) else s
    case PausesUnheard(r) => if r in s.runners then s.With(Pause(s.db, s.runners[r].job)) else s
    case Crashes(r) => s.End(s.db, r)
    case FinishedAfterCommit(ids) => s.With(FinishAll(s.db, ids, s.now))
    case Resumes => s.With(Resume(s.db, s.now))
    case Revives(id) => s.With(Revive(s.db, id, s.now))
    case Tick(seconds) => System(s.db, s.now + seconds, s.runners)
  }

  function Run(s: System, steps: seq<Step>): System {
    if steps == [] then s else Next(Run(s, steps[..|steps| - 1]), steps[|steps| - 1])
  }

  predicate InLease(r: Runner, now: Time) {
    now <= r.claimedAt + CLAIM_SECONDS
  }

  predicate Idle(s: System, id: JobId) {
    forall r :: r in s.runners ==> s.runners[r].job != id
  }

  /** A job others may claim as soon as its lock is gone. */
  predicate Unsettled(db: Db, id: JobId) {
    id in db.jobs && db.jobs[id].doneAt.None? && !Paused(db, id)
  }

  /** What deployments may promise about their runners. */
  datatype Discipline = Discipline(endInsideLease: bool, reviveOnlyIdle: bool, resumeOnlyIdle: bool)

  /** No runner of an unsettled job is left past its lease. */
  predicate TickInsideLeases(s: System, seconds: nat) {
    forall r :: r in s.runners && Unsettled(s.db, s.runners[r].job) ==> InLease(s.runners[r], s.now + seconds)
  }

  /** No runner is left on a job whose pause is lifted. */
  predicate PausedAreIdle(s: System) {
    forall r :: r in s.runners ==> !Paused(s.db, s.runners[r].job)
  }

  predicate Allowed(d: Discipline, s: System, step: Step) {
    && (d.endInsideLease && step.Tick? ==> TickInsideLeases(s, step.seconds))
    && (d.reviveOnlyIdle && step.Revives? && Done(s.db, step.id) ==> Idle(s, step.id))
    && (d.resumeOnlyIdle && step.Resumes? ==> PausedAreIdle(s))
  }

  ghost predicate AllowedRun(d: Discipline, s: System, steps: seq<Step>) {
    forall i :: 0 <= i < |steps| ==> Allowed(d, Run(s, steps[..i]), steps[i])
  }

  const START := System(EMPTY, 0, map[])

  ghost predicate Exclusive(s: System) {
    forall a, b :: a in s.runners && b in s.runners && s.runners[a].job == s.runners[b].job ==> a == b
  }

  /** A running job that is unsettled is locked to the end of its runner's lease. */
  ghost predicate Locked(s: System) {
    forall r :: r in s.runners ==>
      var id := s.runners[r].job;
      id in s.db.jobs
      && (Unsettled(s.db, id) ==>
            InLease(s.runners[r], s.now) && s.db.jobs[id].lockedUntil == Some(s.runners[r].claimedAt + CLAIM_SECONDS))
  }

  ghost predicate PausedAreUnlocked(db: Db) {
    forall id :: id in db.jobs && Paused(db, id) ==> db.jobs[id].lockedUntil.None?
  }

  ghost predicate Inv(s: System) {
    Exclusive(s) && Locked(s) && PausedAreUnlocked(s.db) && Consistent(s.db)
  }

  const STRICT := Discipline(true, true, true)

  // ---- One runner a job -----------------------------------------------------

  /** The rest of the invariant, beside the consistency of the tables. */
  ghost predicate Safe(s: System) {
    Exclusive(s) && Locked(s) && PausedAreUnlocked(s.db)
  }

  lemma InvNext(s: System, step: Step)
    requires Inv(s) && Allowed(STRICT, s, step)
    ensures Inv(Next(s, step))
  {
    StepKeepsConsistent(s, step);
    match step {
      case Enqueues(w, k, key, p) => EnqueueKeepsSafe(s, w, k, key, p);
      case Claims(r, id) => ClaimKeepsSafe(s, r, id);
      case FinishedAfterCommit(ids) => FinishAllKeepsSafe(s, ids);
      case Resumes => ResumeKeepsSafe(s);
      case Revives(id) => ReviveKeepsSafe(s, id);
      case Tick(seconds) => TickKeepsSafe(s, seconds);
      case _ => EndKeepsSafe(s, step);
    }
  }

  /** The steps in which a runner records how its job went, or dies. */
  predicate Ends(step: Step) {
    step.Finishes? || step.FinishesUnheard? || step.GivesUp? || step.Fails? || step.Pauses? || step.PausesUnheard? || step.Crashes?
  }

  lemma EndKeepsSafe(s: System, step: Step)
    requires Inv(s) && Ends(step)
    ensures Safe(Next(s, step))
  {
    match step {
      case Finishes(r) => FinishKeepsSafe(s, r);
      case FinishesUnheard(r) => FinishKeepsSafe(s, r);
      case GivesUp(r, error) => GiveUpKeepsSafe(s, r, error);
      case Fails(r, error, retryAfter) => FailKeepsSafe(s, r, error, retryAfter);
      case Pauses(r) => PauseKeepsSafe(s, r);
      case PausesUnheard(r) => PauseUnheardKeepsSafe(s, r);
      case Crashes(r) => CrashKeepsSafe(s, r);
    }
  }

  lemma TickKeepsSafe(s: System, seconds: nat)
    requires Inv(s) && TickInsideLeases(s, seconds)
    ensures Safe(Next(s, Tick(seconds)))
  {}

  lemma CrashKeepsSafe(s: System, r: nat)
    requires Inv(s)
    ensures Safe(Next(s, Crashes(r)))
  {}

  lemma EnqueueKeepsSafe(s: System, w: string, k: Kind, key: string, p: Payload)
    requires Inv(s)
    ensures Safe(Next(s, Enqueues(w, k, key, p)))
  {}

  lemma ClaimableIsIdle(s: System, id: JobId)
    requires Inv(s) && Claimable(s.db, id, s.now)
    ensures Idle(s, id)
  {}

  /** Nothing but one job, and perhaps its runner's leaving, has changed. */
  ghost predicate TouchesOnly(s: System, t: System, id: JobId) {
    && t.now == s.now && t.db.jobs.Keys == s.db.jobs.Keys
    && (forall r :: r in t.runners ==> r in s.runners && t.runners[r] == s.runners[r])
    && (forall k :: k in s.db.jobs && k != id ==> t.db.jobs[k] == s.db.jobs[k] && Paused(t.db, k) == Paused(s.db, k))
  }

  lemma TouchKeepsSafe(s: System, t: System, id: JobId)
    requires Safe(s) && TouchesOnly(s, t, id)
    requires Unsettled(t.db, id) ==> Idle(t, id)
    requires id in t.db.jobs && Paused(t.db, id) ==> t.db.jobs[id].lockedUntil.None?
    ensures Safe(t)
  {
    forall r | r in t.runners ensures t.runners[r].job in t.db.jobs.Keys {
      assert t.runners[r].job in s.db.jobs.Keys;
    }
    forall k | k in t.db.jobs && Paused(t.db, k) ensures t.db.jobs[k].lockedUntil.None? {
      assert k in s.db.jobs.Keys;
    }
  }

  lemma ClaimKeepsSafe(s: System, r: nat, id: JobId)
    requires Inv(s)
    ensures Safe(Next(s, Claims(r, id)))
  {
    var mid := s.With(Claim(s.db, id, s.now));
    if r !in s.runners && Claimable(s.db, id, s.now) {
      ClaimableIsIdle(s, id);
      TouchKeepsSafe(s, mid, id);
      EnterKeepsSafe(mid, r, Runner(id, s.now, s.db.jobs[id].attempts + 1));
    }
  }

  lemma EnterKeepsSafe(s: System, r: nat, runner: Runner)
    requires Safe(s) && r !in s.runners && Idle(s, runner.job) && runner.job in s.db.jobs
    requires runner.claimedAt == s.now && s.db.jobs[runner.job].lockedUntil == Some(s.now + CLAIM_SECONDS)
    ensures Safe(System(s.db, s.now, s.runners[r := runner]))
  {}

  lemma AloneOnIts(s: System, r: nat)
    requires Exclusive(s) && r in s.runners
    ensures forall db :: Idle(s.End(db, r), s.runners[r].job)
  {}

  lemma FinishKeepsSafe(s: System, r: nat)
    requires Inv(s)
    ensures Safe(Next(s, Finishes(r))) && Safe(Next(s, FinishesUnheard(r)))
  {
    if r in s.runners {
      TouchKeepsSafe(s, Next(s, Finishes(r)), s.runners[r].job);
      TouchKeepsSafe(s, Next(s, FinishesUnheard(r)), s.runners[r].job);
    }
  }

  lemma GiveUpKeepsSafe(s: System, r: nat, error: string)
    requires Inv(s)
    ensures Safe(Next(s, GivesUp(r, error)))
  {
    if r in s.runners { TouchKeepsSafe(s, Next(s, GivesUp(r, error)), s.runners[r].job); }
  }

  lemma FailKeepsSafe(s: System, r: nat, error: string, retryAfter: int)
    requires Inv(s)
    ensures Safe(Next(s, Fails(r, error, retryAfter)))
  {
    if r in s.runners {
      AloneOnIts(s, r);
      TouchKeepsSafe(s, Next(s, Fails(r, error, retryAfter)), s.runners[r].job);
    }
  }

  lemma PauseKeepsSafe(s: System, r: nat)
    requires Inv(s)
    ensures Safe(Next(s, Pauses(r)))
  {
    if r in s.runners && CanPause(s.db, s.runners[r].job) { TouchKeepsSafe(s, Next(s, Pauses(r)), s.runners[r].job); }
  }

  lemma PauseUnheardKeepsSafe(s: System, r: nat)
    requires Inv(s)
    ensures Safe(Next(s, PausesUnheard(r)))
  {
    if r in s.runners && CanPause(s.db, s.runners[r].job) {
      TouchKeepsSafe(s, Next(s, PausesUnheard(r)), s.runners[r].job);
    }
  }

  lemma FinishOneKeepsSafe(s: System, id: JobId)
    requires Safe(s)
    ensures Safe(s.With(Finish(s.db, id, s.now)))
  {
    TouchKeepsSafe(s, s.With(Finish(s.db, id, s.now)), id);
  }

  lemma {:induction false} FinishAllKeepsSafe(s: System, ids: seq<JobId>)
    requires Safe(s)
    ensures Safe(s.With(FinishAll(s.db, ids, s.now)))
    decreases |ids|
  {
    if ids != [] {
      var n := |ids| - 1;
      FinishAllKeepsSafe(s, ids[..n]);
      FinishOneKeepsSafe(s.With(FinishAll(s.db, ids[..n], s.now)), ids[n]);
    }
  }

  lemma ResumeKeepsSafe(s: System)
    requires Inv(s) && PausedAreIdle(s)
    ensures Safe(Next(s, Resumes))
  {}

  lemma ReviveKeepsSafe(s: System, id: JobId)
    requires Inv(s) && (Done(s.db, id) ==> Idle(s, id))
    ensures Safe(Next(s, Revives(id)))
  {}

  lemma AllowedFront(d: Discipline, s: System, steps: seq<Step>)
    requires steps != [] && AllowedRun(d, s, steps)
    ensures var n := |steps| - 1; AllowedRun(d, s, steps[..n]) && Allowed(d, Run(s, steps[..n]), steps[n])
  {
    hide Allowed, Run;
    var n := |steps| - 1;
    var front := steps[..n];
    forall i | 0 <= i < n ensures Allowed(d, Run(s, front[..i]), front[i]) {
      assert front[..i] == steps[..i] && Allowed(d, Run(s, steps[..i]), steps[i]);
    }
  }

  lemma {:induction false} InvRun(s: System, steps: seq<Step>)
    requires Inv(s) && AllowedRun(STRICT, s, steps)
    ensures Inv(Run(s, steps))
    decreases |steps|
  {
    hide Inv, Allowed, Next;
    if steps != [] {
      var n := |steps| - 1;
      AllowedFront(STRICT, s, steps);
      InvRun(s, steps[..n]);
      InvNext(Run(s, steps[..n]), steps[n]);
    }
  }

  /** While the promises are kept, no job ever has two runners. */
  lemma {:induction false} OneRunnerPerJob(steps: seq<Step>)
    requires AllowedRun(STRICT, START, steps)
    ensures Exclusive(Run(START, steps))
  {
    InvRun(START, steps);
  }


  /** Runner steps are table transactions, so the tables stay consistent under any discipline. */
  lemma {:induction false} TablesStayConsistent(steps: seq<Step>)
    ensures Consistent(Run(START, steps).db)
    decreases |steps|
  {
    if steps != [] {
      var n := |steps| - 1;
      TablesStayConsistent(steps[..n]);
      StepKeepsConsistent(Run(START, steps[..n]), steps[n]);
    }
  }

  /** The transaction a runner's step commits, if it commits one. */
  function TxOf(s: System, step: Step): Option<Tx> {
    match step
    case Enqueues(w, k, key, p) => Some(TxEnqueue(w, k, key, p))
    case Claims(r, id) => if r in s.runners then None else Some(TxClaim(id))
    case Finishes(r) => if r in s.runners then Some(TxFinish(s.runners[r].job)) else None
    case FinishesUnheard(r) => if r in s.runners then Some(TxFinish(s.runners[r].job)) else None
    case GivesUp(r, error) => if r in s.runners then Some(TxFinishFailed(s.runners[r].job, error)) else None
    case Fails(r, error, retryAfter) =>
      if r in s.runners then Some(TxFail(s.runners[r].job, error, s.runners[r].attempts, retryAfter)) else None
    case Pauses(r) => if r in s.runners then Some(TxPause(s.runners[r].job)) else None
    case PausesUnheard(r) => if r in s.runners then Some(TxPause(s.runners[r].job)) else None
    case Resumes => Some(TxResume)
    case Revives(id) => Some(TxRevive(id))
    case _ => None
  }

  lemma StepIsATransaction(s: System, step: Step)
    requires !step.FinishedAfterCommit?
    ensures Next(s, step).db == match TxOf(s, step) { case None => s.db case Some(tx) => Apply(s.db, tx, s.now) }
  {}

  lemma StepKeepsConsistent(s: System, step: Step)
    requires Consistent(s.db)
    ensures Consistent(Next(s, step).db)
  {
    if step.FinishedAfterCommit? {
      FinishAllKeepsConsistent(s.db, step.ids, s.now);
    } else {
      StepIsATransaction(s, step);
      if TxOf(s, step).Some? { ApplyKeepsConsistent(s.db, TxOf(s, step).value, s.now); }
    }
  }
}
