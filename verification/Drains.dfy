/**
  What the Cron's pass keeps and what its counts mean
  (apps/worker/src/jobs.ts:923-957, 985-1024).
 */
module Drains {
  import opened Wrappers
  import opened Jobs

  // ---- A pass is made of transactions ----------------------------------------

  lemma {:induction false} OthersKeepConsistent(db: Db, log: seq<(Tx, Time)>)
    requires Consistent(db)
    ensures Consistent(ApplyAll(db, log))
    decreases |log|
  {
    if log != [] {
      var n := |log| - 1;
      OthersKeepConsistent(db, log[..n]);
      ApplyKeepsConsistent(ApplyAll(db, log[..n]), log[n].0, log[n].1);
    }
  }

  lemma TurnKeepsConsistent(db: Db, t: Turn)
    requires Consistent(db)
    ensures Consistent(TakeTurn(db, t))
  {
    var found := ApplyAll(db, t.play.before);
    OthersKeepConsistent(db, t.play.before);
    if Claimable(found, t.id, t.play.claimAt) {
      ApplyKeepsConsistent(found, TxClaim(t.id), t.play.claimAt);
      var mine := Claim(found, t.id, t.play.claimAt);
      OthersKeepConsistent(mine, t.play.during);
      var job := Claimed(found.jobs[t.id], t.play.claimAt);
      SettleKeepsConsistent(ApplyAll(mine, t.play.during), job, t.id, t.play.outcome, t.play.settleAt);
    }
  }

  lemma FinishKeepsConsistent(db: Db, id: JobId, now: Time)
    requires Consistent(db)
    ensures Consistent(Finish(db, id, now))
  {
    ApplyKeepsConsistent(db, TxFinish(id), now);
    assert Apply(db, TxFinish(id), now) == Finish(db, id, now);
  }

  lemma FinishFailedKeepsConsistent(db: Db, id: JobId, error: string, now: Time)
    requires Consistent(db)
    ensures Consistent(FinishFailed(db, id, error, now))
  {
    ApplyKeepsConsistent(db, TxFinishFailed(id, error), now);
    assert Apply(db, TxFinishFailed(id, error), now) == FinishFailed(db, id, error, now);
  }

  lemma FailKeepsConsistent(db: Db, id: JobId, error: string, attempts: nat, retryAfter: int, now: Time)
    requires Consistent(db)
    ensures Consistent(Fail(db, id, error, attempts, retryAfter, now))
  {
    var tx := TxFail(id, error, attempts, retryAfter);
    ApplyKeepsConsistent(db, tx, now);
    assert Apply(db, tx, now) == Fail(db, id, error, attempts, retryAfter, now);
  }

  lemma PauseKeepsConsistent(db: Db, id: JobId)
    requires Consistent(db)
    ensures Consistent(Pause(db, id))
  {
    ApplyKeepsConsistent(db, TxPause(id), 0);
    assert Apply(db, TxPause(id), 0) == Pause(db, id);
  }

  lemma SettleKeepsConsistent(db: Db, job: Job, id: JobId, outcome: Outcome, now: Time)
    requires Consistent(db)
    ensures Consistent(Settle(db, job, id, outcome, now))
  {
    match outcome {
      case Completed => FinishKeepsConsistent(db, id, now);
      case CompletedUnheard(error, failedAt) =>
        FinishKeepsConsistent(db, id, now);
        FailKeepsConsistent(Finish(db, id, now), id, error, job.attempts, 0, failedAt);
      case PausedOutcome =>
        PauseKeepsConsistent(db, id);
        FailKeepsConsistent(db, id, PAUSE_LOST, job.attempts, 0, now);
      case PausedUnheard(error, failedAt) =>
        PauseKeepsConsistent(db, id);
        FailKeepsConsistent(Pause(db, id), id, error, job.attempts, 0, failedAt);
        FailKeepsConsistent(db, id, PAUSE_LOST, job.attempts, 0, now);
      case Threw(error, retryAfter, retryable) =>
        FailKeepsConsistent(db, id, error, job.attempts, retryAfter, now);
        FinishFailedKeepsConsistent(db, id, error, now);
    }
  }

  /** A drain is made of the same transactions, so it keeps whatever they keep. */
  lemma {:induction false} DrainKeepsConsistent(db: Db, turns: seq<Turn>)
    requires Consistent(db)
    ensures Consistent(Drain(db, turns))
    decreases |turns|
  {
    if turns != [] {
      DrainKeepsConsistent(db, turns[..|turns| - 1]);
      TurnKeepsConsistent(Drain(db, turns[..|turns| - 1]), turns[|turns| - 1]);
    }
  }

  // ---- What `failed` counts ---------------------------------------------------

  /** What a pass returns as `failed`. */
  function FailedCount(db: Db, turns: seq<Turn>): nat {
    UnfinishedCount(db, turns) + UnclaimableCount(db, turns)
  }

  ghost predicate MetAt(db: Db, turns: seq<Turn>, i: nat)
    requires i < |turns|
  {
    Met(Drain(db, turns[..i]), turns[i])
  }

  ghost predicate AllMet(db: Db, turns: seq<Turn>) {
    forall i :: 0 <= i < |turns| ==> MetAt(db, turns, i)
  }

  lemma AllMetSplits(db: Db, turns: seq<Turn>)
    requires turns != []
    ensures var n := |turns| - 1; AllMet(db, turns) <==> AllMet(db, turns[..n]) && MetAt(db, turns, n)
  {
    var n := |turns| - 1;
    var front := turns[..n];
    assert forall i :: 0 <= i < n ==> front[..i] == turns[..i];
    assert forall i :: 0 <= i < n ==> MetAt(db, front, i) == MetAt(db, turns, i);
  }

  lemma {:induction false} NoneUnclaimable(db: Db, turns: seq<Turn>)
    ensures UnclaimableCount(db, turns) == 0 <==> AllMet(db, turns)
    decreases |turns|
  {
    if turns != [] {
      NoneUnclaimable(db, turns[..|turns| - 1]);
      AllMetSplits(db, turns);
    }
  }

  /**
    The documented meaning of `failed`, rows this pass claimed and could not
    finish, holds exactly when every row could still be claimed in its turn.
   */
  lemma FailedAsDocumentedExactly(db: Db, turns: seq<Turn>)
    ensures FailedCount(db, turns) == UnfinishedCount(db, turns) <==> AllMet(db, turns)
  {
    NoneUnclaimable(db, turns);
  }

  // ---- A pass nobody disturbs -------------------------------------------------

  predicate Undisturbed(turns: seq<Turn>) {
    forall i :: 0 <= i < |turns| ==> turns[i].play.before == [] && turns[i].play.during == []
  }

  /** Nothing but one job's two rows has changed. */
  ghost predicate OnlyTouches(db: Db, after: Db, id: JobId) {
    && after.nextJob == db.nextJob
    && forall k :: k != id ==>
      && (k in after.jobs <==> k in db.jobs) && (k in db.jobs ==> after.jobs[k] == db.jobs[k])
      && (k in after.ready <==> k in db.ready) && (k in db.ready ==> after.ready[k] == db.ready[k])
  }

  lemma ClaimTouches(db: Db, id: JobId, now: Time)
    ensures OnlyTouches(db, Claim(db, id, now), id)
  {}

  lemma FinishTouches(db: Db, id: JobId, error: string, now: Time)
    ensures OnlyTouches(db, Finish(db, id, now), id) && OnlyTouches(db, FinishFailed(db, id, error, now), id)
  {}

  lemma FailTouches(db: Db, id: JobId, error: string, attempts: nat, retryAfter: int, now: Time)
    ensures OnlyTouches(db, Fail(db, id, error, attempts, retryAfter, now), id)
  {}

  lemma PauseTouches(db: Db, id: JobId)
    ensures OnlyTouches(db, Pause(db, id), id)
  {}

  lemma TouchesTwice(a: Db, b: Db, c: Db, id: JobId)
    requires OnlyTouches(a, b, id) && OnlyTouches(b, c, id)
    ensures OnlyTouches(a, c, id)
  {}

  lemma SettleTouches(db: Db, job: Job, id: JobId, outcome: Outcome, now: Time)
    ensures OnlyTouches(db, Settle(db, job, id, outcome, now), id)
  {
    hide OnlyTouches, Finish, FinishFailed, Fail, Pause, CanPause;
    match outcome {
      case Completed => FinishTouches(db, id, "", now);
      case CompletedUnheard(error, failedAt) =>
        FinishTouches(db, id, "", now);
        FailTouches(Finish(db, id, now), id, error, job.attempts, 0, failedAt);
        TouchesTwice(db, Finish(db, id, now), Settle(db, job, id, outcome, now), id);
      case PausedOutcome =>
        PauseTouches(db, id);
        FailTouches(db, id, PAUSE_LOST, job.attempts, 0, now);
      case PausedUnheard(error, failedAt) =>
        PauseTouches(db, id);
        FailTouches(Pause(db, id), id, error, job.attempts, 0, failedAt);
        TouchesTwice(db, Pause(db, id), Fail(Pause(db, id), id, error, job.attempts, 0, failedAt), id);
        FailTouches(db, id, PAUSE_LOST, job.attempts, 0, now);
      case Threw(error, retryAfter, retryable) =>
        FailTouches(db, id, error, job.attempts, retryAfter, now);
        FinishTouches(db, id, error, now);
    }
  }

  lemma TurnTouches(db: Db, t: Turn)
    requires t.play.before == [] && t.play.during == []
    ensures OnlyTouches(db, TakeTurn(db, t), t.id)
  {
    hide Claim, Settle;
    if Claimable(db, t.id, t.play.claimAt) {
      var mine, job := Claim(db, t.id, t.play.claimAt), Claimed(db.jobs[t.id], t.play.claimAt);
      ClaimTouches(db, t.id, t.play.claimAt);
      SettleTouches(mine, job, t.id, t.play.outcome, t.play.settleAt);
      TouchesTwice(db, mine, TakeTurn(db, t), t.id);
    }
  }

  lemma TurnLeavesOthers(db: Db, t: Turn, id: JobId, now: Time)
    requires t.play.before == [] && t.play.during == [] && id != t.id
    ensures Claimable(TakeTurn(db, t), id, now) == Claimable(db, id, now)
  {
    hide TakeTurn;
    TurnTouches(db, t);
  }

  lemma {:induction false} DrainLeavesOthers(db: Db, turns: seq<Turn>, id: JobId, now: Time)
    requires Undisturbed(turns) && forall i :: 0 <= i < |turns| ==> turns[i].id != id
    ensures Claimable(Drain(db, turns), id, now) == Claimable(db, id, now)
    decreases |turns|
  {
    if turns != [] {
      var n := |turns| - 1;
      DrainLeavesOthers(db, turns[..n], id, now);
      TurnLeavesOthers(Drain(db, turns[..n]), turns[n], id, now);
    }
  }

  /** The lock another drainer left on a row, seen when the query ran. */
  predicate LockedAt(db: Db, id: JobId, now: Time) {
    id in db.jobs && db.jobs[id].lockedUntil.Some? && db.jobs[id].lockedUntil.value >= now
  }

  /**
    In a pass nobody disturbs, `failed` is as documented exactly when no listed
    row was already locked past the time of its turn when the query ran.
   */
  lemma UndisturbedFailedExactly(db: Db, rows: seq<JobId>, limit: nat, now: Time, plays: nat -> Play)
    requires Consistent(db) && DueListing(db, rows, limit, now) && Undisturbed(Turns(rows, plays))
    ensures var turns := Turns(rows, plays);
      FailedCount(db, turns) == UnfinishedCount(db, turns)
      <==> forall i :: 0 <= i < |rows| ==> !LockedAt(db, rows[i], plays(i).claimAt)
  {
    hide FailedCount, UnfinishedCount;
    var turns := Turns(rows, plays);
    FailedAsDocumentedExactly(db, turns);
    forall i | 0 <= i < |rows|
      ensures MetAt(db, turns, i) <==> !LockedAt(db, rows[i], plays(i).claimAt)
    {
      DrainLeavesOthers(db, turns[..i], rows[i], plays(i).claimAt);
      assert PointerDue(db, rows[i], now);
    }
  }

  const HELD_JOB := Job("w", RunLaunch, "k", Opaque(""), 1, 0, Some(120), None, None)
  const HELD_TABLES := Db(map[0 := HELD_JOB], map[0 := Ready("w", 0, false)], 1)

  function SoonDone(row: nat): Play {
    Play([], 60, [], 60, Completed)
  }

  /** One row another drainer holds: listed, never claimed, and counted as failed. */
  lemma HeldRowCountsAsFailed()
    ensures HELD_TABLES == ApplyAll(EMPTY, [(TxEnqueue("w", RunLaunch, "k", Opaque("")), 0), (TxClaim(0), 0)])
    ensures DueListing(HELD_TABLES, [0], 50, 60)
    ensures var turns := Turns([0], SoonDone);
      FailedCount(HELD_TABLES, turns) == 1 && UnfinishedCount(HELD_TABLES, turns) == CompletedCount(HELD_TABLES, turns) == 0
  {
    HeldTablesAreReached();
    var turns := Turns([0], SoonDone);
    assert turns == [Turn(0, SoonDone(0))];
    OneUnmet(HELD_TABLES, turns);
  }

  lemma OneUnmet(db: Db, turns: seq<Turn>)
    requires |turns| == 1 && !Met(db, turns[0])
    ensures UnclaimableCount(db, turns) == 1 && UnfinishedCount(db, turns) == CompletedCount(db, turns) == 0
  {
    assert turns[..0] == [];
  }

  lemma HeldTablesAreReached()
    ensures HELD_TABLES == ApplyAll(EMPTY, [(TxEnqueue("w", RunLaunch, "k", Opaque("")), 0), (TxClaim(0), 0)])
  {
    var log := [(TxEnqueue("w", RunLaunch, "k", Opaque("")), 0), (TxClaim(0), 0)];
    assert log[..1][..0] == log[..0] && |log[..0]| == 0;
    var queued := Db(map[0 := HELD_JOB.(attempts := 0, lockedUntil := None)], map[0 := Ready("w", 0, false)], 1);
    assert !HasKey(EMPTY, RunLaunch, "k");
    assert ApplyAll(EMPTY, log[..1]) == queued;
    assert Claim(queued, 0, 0) == HELD_TABLES;
  }

  // ---- The counts as numbers of rows ------------------------------------------

  /** Row `i` could be claimed when its turn came. */
  ghost predicate Taken(db: Db, turns: seq<Turn>, i: int) {
    && 0 <= i < |turns|
    && Claimable(ApplyAll(Drain(db, turns[..i]), turns[i].play.before), turns[i].id, turns[i].play.claimAt)
  }

  ghost predicate Finished(db: Db, turns: seq<Turn>, i: int) {
    Taken(db, turns, i) && turns[i].play.outcome == Completed
  }

  ghost function FinishedRows(db: Db, turns: seq<Turn>): set<int> {
    set i | 0 <= i < |turns| && Finished(db, turns, i)
  }

  ghost function UnfinishedRows(db: Db, turns: seq<Turn>): set<int> {
    set i | 0 <= i < |turns| && Taken(db, turns, i) && !Finished(db, turns, i)
  }

  ghost function UntakenRows(db: Db, turns: seq<Turn>): set<int> {
    set i | 0 <= i < |turns| && !Taken(db, turns, i)
  }

  lemma SameInFront(db: Db, turns: seq<Turn>, n: nat, i: int)
    requires n == |turns| - 1 && i != n
    ensures Taken(db, turns[..n], i) <==> Taken(db, turns, i)
    ensures Finished(db, turns[..n], i) <==> Finished(db, turns, i)
  {
    if 0 <= i < n { assert turns[..n][..i] == turns[..i]; }
  }

  lemma OneMore(all: set<int>, front: set<int>, n: int, b: bool)
    requires forall i :: i in all <==> i in front || (b && i == n)
    requires n !in front
    ensures |all| == |front| + One(b)
  {
    var more := if b then front + {n} else front;
    assert forall i :: i in all <==> i in more;
    assert all == more;
  }

  lemma FinishedNext(db: Db, turns: seq<Turn>, n: nat, front: seq<Turn>)
    requires n == |turns| - 1 && front == turns[..n]
    ensures |FinishedRows(db, turns)| == |FinishedRows(db, front)| + One(Finished(db, turns, n))
  {
    hide Taken, Finished;
    forall i ensures i in FinishedRows(db, turns) <==> i in FinishedRows(db, front) || (Finished(db, turns, n) && i == n) {
      if i != n { SameInFront(db, turns, n, i); }
    }
    OneMore(FinishedRows(db, turns), FinishedRows(db, front), n, Finished(db, turns, n));
  }

  lemma UnfinishedNext(db: Db, turns: seq<Turn>, n: nat, front: seq<Turn>)
    requires n == |turns| - 1 && front == turns[..n]
    ensures |UnfinishedRows(db, turns)| == |UnfinishedRows(db, front)| + One(Taken(db, turns, n) && !Finished(db, turns, n))
  {
    hide Taken, Finished;
    var left := Taken(db, turns, n) && !Finished(db, turns, n);
    forall i ensures i in UnfinishedRows(db, turns) <==> i in UnfinishedRows(db, front) || (left && i == n) {
      if i != n { SameInFront(db, turns, n, i); }
    }
    OneMore(UnfinishedRows(db, turns), UnfinishedRows(db, front), n, left);
  }

  lemma UntakenNext(db: Db, turns: seq<Turn>, n: nat, front: seq<Turn>)
    requires n == |turns| - 1 && front == turns[..n]
    ensures |UntakenRows(db, turns)| == |UntakenRows(db, front)| + One(!Taken(db, turns, n))
  {
    hide Taken, Finished;
    forall i ensures i in UntakenRows(db, turns) <==> i in UntakenRows(db, front) || (!Taken(db, turns, n) && i == n) {
      if i != n { SameInFront(db, turns, n, i); }
    }
    OneMore(UntakenRows(db, turns), UntakenRows(db, front), n, !Taken(db, turns, n));
  }

  lemma CountsNext(db: Db, turns: seq<Turn>, n: nat)
    requires n == |turns| - 1
    ensures CompletedCount(db, turns) == CompletedCount(db, turns[..n]) + One(Finished(db, turns, n))
    ensures UnfinishedCount(db, turns) == UnfinishedCount(db, turns[..n]) + One(Taken(db, turns, n) && !Finished(db, turns, n))
    ensures UnclaimableCount(db, turns) == UnclaimableCount(db, turns[..n]) + One(!Taken(db, turns, n))
  {
    hide Drain, ApplyAll, Claimable;
  }

  /** The counts are the numbers of the rows run to done, of those claimed and not finished, and of those no claim took. */
  lemma {:induction false} CountsExactly(db: Db, turns: seq<Turn>)
    ensures CompletedCount(db, turns) == |FinishedRows(db, turns)|
    ensures UnfinishedCount(db, turns) == |UnfinishedRows(db, turns)|
    ensures UnclaimableCount(db, turns) == |UntakenRows(db, turns)|
    decreases |turns|
  {
    if turns == [] {
      assert FinishedRows(db, turns) == {} && UnfinishedRows(db, turns) == {} && UntakenRows(db, turns) == {};
    } else {
      hide *;
      var n := |turns| - 1;
      CountsExactly(db, turns[..n]);
      CountsNext(db, turns, n);
      FinishedNext(db, turns, n, turns[..n]);
      UnfinishedNext(db, turns, n, turns[..n]);
      UntakenNext(db, turns, n, turns[..n]);
    }
  }
}
