/**
  What one turn of a job comes to, field by field: a claim, a run, and the
  settling of its outcome, when nobody else touches the tables meanwhile
  (apps/worker/src/jobs.ts:107-124, 152-210, 923-957).
 */
module JobTurns {
  import opened Wrappers
  import opened Jobs
  import opened Drains

  /** The wait after the n-th attempt: half a minute, doubled each time, an hour at most. */
  function Schedule(attempts: nat): int {
    if attempts <= 1 then 30
    else if attempts == 2 then 60
    else if attempts == 3 then 120
    else if attempts == 4 then 240
    else if attempts == 5 then 480
    else if attempts == 6 then 960
    else if attempts == 7 then 1920
    else 3600
  }

  /** The wait, with what the failure asked for honoured up to an hour. */
  function Wait(attempts: nat, asked: int): int {
    if asked <= Schedule(attempts) then Schedule(attempts) else if asked > 3600 then 3600 else asked
  }

  lemma PowersOfTwo()
    ensures Pow2(0) == 1 && Pow2(1) == 2 && Pow2(2) == 4 && Pow2(3) == 8
    ensures Pow2(4) == 16 && Pow2(5) == 32 && Pow2(6) == 64 && Pow2(7) == 128
  {
    assert Pow2(3) == 8;
    assert Pow2(6) == 64;
  }

  lemma BackoffIsWait(attempts: nat, asked: int)
    ensures Backoff(attempts, asked) == Wait(attempts, asked)
  {
    PowersOfTwo();
    if attempts >= 8 { Pow2Grows(7, attempts - 1); }
  }

  /** At most the first 1000 characters. */
  predicate Kept(stored: Option<string>, error: string) {
    stored.Some? && stored.value <= error
    && |stored.value| == if |error| <= 1000 then |error| else 1000
  }

  /** The claimed row, before it is settled: what the claim itself leaves. */
  ghost predicate SameRow(before: Job, after: Job) {
    after.workspace == before.workspace && after.kind == before.kind && after.key == before.key
    && after.payload == before.payload
  }

  /** A row nobody disturbs is claimed: tables consistent, nothing before the claim or during the run. */
  ghost predicate Taken(db: Db, t: Turn) {
    && Consistent(db) && t.play.before == [] && t.play.during == []
    && Claimable(db, t.id, t.play.claimAt)
  }

  ghost predicate Retried(db: Db, after: Db, id: JobId, due: Time) {
    && id in db.jobs && id in after.jobs && id in after.ready
    && SameRow(db.jobs[id], after.jobs[id]) && after.jobs[id].attempts == db.jobs[id].attempts + 1
    && after.jobs[id].doneAt.None? && after.jobs[id].lockedUntil.None? && !after.ready[id].paused
    && after.jobs[id].nextAt == due && after.ready[id].nextAt == due
  }

  ghost predicate Ended(db: Db, after: Db, id: JobId, at: Time) {
    && id in db.jobs && id in after.jobs && id !in after.ready
    && SameRow(db.jobs[id], after.jobs[id]) && after.jobs[id].attempts == db.jobs[id].attempts + 1
    && after.jobs[id].doneAt == Some(at) && after.jobs[id].lockedUntil.None?
  }

  ghost predicate OnHold(db: Db, after: Db, id: JobId) {
    && id in db.jobs && id in after.jobs && id in after.ready
    && SameRow(db.jobs[id], after.jobs[id]) && after.jobs[id].attempts == db.jobs[id].attempts + 1
    && after.jobs[id].doneAt.None? && after.jobs[id].lockedUntil.None? && after.ready[id].paused
  }

  /** A retryable throw puts the job back for a later attempt. */
  lemma RetryableThrowIsRetried(db: Db, t: Turn, error: string, asked: int)
    requires Taken(db, t) && t.play.outcome == Threw(error, asked, true)
    ensures var after, n := TakeTurn(db, t), db.jobs[t.id].attempts + 1;
      Retried(db, after, t.id, t.play.settleAt + Wait(n, asked)) && Kept(after.jobs[t.id].lastError, error)
  {
    BackoffIsWait(db.jobs[t.id].attempts + 1, asked);
  }

  /** A throw that must not be retried ends the job, and keeps its error. */
  lemma TerminalThrowEnds(db: Db, t: Turn, error: string, asked: int)
    requires Taken(db, t) && t.play.outcome == Threw(error, asked, false)
    ensures var after := TakeTurn(db, t);
      Ended(db, after, t.id, t.play.settleAt) && Kept(after.jobs[t.id].lastError, error)
  {}

  /** A completed job is done; an old pause is no longer its last error. */
  lemma CompletedEnds(db: Db, t: Turn)
    requires Taken(db, t) && t.play.outcome == Completed
    ensures var after := TakeTurn(db, t);
      Ended(db, after, t.id, t.play.settleAt) && after.jobs[t.id].lastError != Some("member_provisioning_disabled")
  {}

  /** A finish that landed unheard leaves it done as well, whatever the failure after it writes. */
  lemma UnheardFinishEnds(db: Db, t: Turn, error: string, failedAt: Time)
    requires Taken(db, t) && t.play.outcome == CompletedUnheard(error, failedAt)
    ensures var after := TakeTurn(db, t);
      Ended(db, after, t.id, t.play.settleAt) && Kept(after.jobs[t.id].lastError, error)
  {}

  /** A provisioning job that pauses is held back, undone. */
  lemma PauseHolds(db: Db, t: Turn)
    requires Taken(db, t) && t.play.outcome == PausedOutcome && db.jobs[t.id].kind.MemberProvision?
    ensures var after := TakeTurn(db, t);
      OnHold(db, after, t.id) && after.jobs[t.id].lastError == Some("member_provisioning_disabled")
      && after.ready[t.id].nextAt == db.ready[t.id].nextAt && after.jobs[t.id].nextAt == db.jobs[t.id].nextAt
  {}

  /** Unheard, it is held back too, with both due times moved by the failure. */
  lemma UnheardPauseHolds(db: Db, t: Turn, error: string, failedAt: Time)
    requires Taken(db, t) && t.play.outcome == PausedUnheard(error, failedAt) && db.jobs[t.id].kind.MemberProvision?
    ensures var after, due := TakeTurn(db, t), failedAt + Wait(db.jobs[t.id].attempts + 1, 0);
      OnHold(db, after, t.id) && Kept(after.jobs[t.id].lastError, error)
      && after.jobs[t.id].nextAt == due && after.ready[t.id].nextAt == due
  {
    BackoffIsWait(db.jobs[t.id].attempts + 1, 0);
  }

  /** Any other job that asks to pause fails to, and is retried. */
  lemma PauseOfAnotherKindIsRetried(db: Db, t: Turn)
    requires Taken(db, t) && !db.jobs[t.id].kind.MemberProvision?
    requires t.play.outcome.PausedOutcome? || t.play.outcome.PausedUnheard?
    ensures var n := db.jobs[t.id].attempts + 1;
      Retried(db, TakeTurn(db, t), t.id, t.play.settleAt + Wait(n, 0))
  {
    BackoffIsWait(db.jobs[t.id].attempts + 1, 0);
  }

  /** Whatever it comes to, a turn adds no job and leaves every other job's rows as they were. */
  lemma TurnTouchesItsJobOnly(db: Db, t: Turn, id: JobId)
    requires Taken(db, t) && id != t.id
    ensures var after := TakeTurn(db, t);
      && after.nextJob == db.nextJob
      && (id in after.jobs <==> id in db.jobs) && (id in db.jobs ==> after.jobs[id] == db.jobs[id])
      && (id in after.ready <==> id in db.ready) && (id in db.ready ==> after.ready[id] == db.ready[id])
  {
    hide TakeTurn;
    TurnTouches(db, t);
  }

  // ---- Claims and new jobs ----------------------------------------------------

  /** A claim locks the job for 120 seconds and counts the attempt; it can be claimed again exactly after that. */
  lemma ClaimLocks(db: Db, id: JobId, now: Time, later: Time)
    requires Claimable(db, id, now)
    ensures var after := Claim(db, id, now);
      && id in after.jobs && SameRow(db.jobs[id], after.jobs[id]) && after.jobs[id].attempts == db.jobs[id].attempts + 1
      && after.jobs[id].nextAt == db.jobs[id].nextAt && after.ready == db.ready
      && (Claimable(after, id, later) <==> later > now + 120)
  {}

  /** A new key makes a job that can be claimed at once; the same key again makes nothing. */
  lemma EnqueueOnce(db: Db, w: string, kind: Kind, key: string, payload: Payload, now: Time, again: Payload, later: Time)
    requires Consistent(db)
    ensures var (after, id) := Enqueue(db, w, kind, key, payload, now);
      && (id.Some? <==> forall j :: j in db.jobs ==> db.jobs[j].kind != kind || db.jobs[j].key != key)
      && (id.None? ==> after == db)
      && (id.Some? ==>
        && id.value !in db.jobs && id.value in after.jobs && Due(after, id.value, now) && PointerDue(after, id.value, now)
        && after.jobs[id.value].workspace == after.ready[id.value].workspace == w
        && after.jobs[id.value].kind == kind && after.jobs[id.value].key == key
        && after.jobs[id.value].payload == payload && after.jobs[id.value].attempts == 0
        && after.jobs - {id.value} == db.jobs && after.ready - {id.value} == db.ready
        && Enqueue(after, w, kind, key, again, later) == (after, None))
  {
    var (after, id) := Enqueue(db, w, kind, key, payload, now);
    if id.Some? {
      assert after.jobs[id.value].kind == kind && after.jobs[id.value].key == key;
      assert HasKey(after, kind, key);
    }
  }

  /** A resume makes exactly the paused jobs due, and pauses nothing. */
  lemma ResumeLifts(db: Db, now: Time, id: JobId)
    ensures var after := Resume(db, now);
      && after.jobs == db.jobs && !Paused(after, id) && after.ready.Keys == db.ready.Keys
      && (Paused(db, id) ==> after.ready[id].nextAt == now)
      && (id in db.ready && !Paused(db, id) ==> after.ready[id] == db.ready[id])
  {}

  /** A revival makes a finished job claimable and due, and changes no other. */
  lemma ReviveRearms(db: Db, id: JobId, now: Time)
    requires Consistent(db)
    ensures var after := Revive(db, id, now);
      && (Done(db, id) ==>
        && Due(after, id, now) && PointerDue(after, id, now) && SameRow(db.jobs[id], after.jobs[id])
        && after.jobs[id].attempts == db.jobs[id].attempts && after.jobs[id].lastError.None?
        && after.jobs - {id} == db.jobs - {id} && after.ready - {id} == db.ready)
      && (!Done(db, id) ==> after == db)
  {}

  /** Finishing a list ends exactly the listed jobs. */
  lemma {:induction false} FinishAllEnds(db: Db, ids: seq<JobId>, now: Time, id: JobId)
    ensures var after := FinishAll(db, ids, now);
      && after.jobs.Keys == db.jobs.Keys
      && (id in ids && id in db.jobs ==>
        after.jobs[id].doneAt == Some(now) && after.jobs[id].lockedUntil.None? && SameRow(db.jobs[id], after.jobs[id]))
      && (id in ids ==> id !in after.ready)
      && (id !in ids ==>
        && (id in db.jobs ==> after.jobs[id] == db.jobs[id])
        && (id in after.ready <==> id in db.ready) && (id in db.ready ==> after.ready[id] == db.ready[id]))
    decreases |ids|
  {
    if ids != [] {
      var n := |ids| - 1;
      FinishAllEnds(db, ids[..n], now, id);
      assert ids == ids[..n] + [ids[n]];
    }
  }
}
