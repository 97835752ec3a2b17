/**
  Why the promises of `JobLeases` are the right ones: in every reachable state
  the steps they forbid are exactly those after which two runners can share a job
  (apps/worker/src/jobs.ts:98-211, 923-999).
 */
module LeaseHazards {
  import opened FreshNames
  import opened Wrappers
  import opened Jobs
  import opened JobLeases

  // ---- Runs, one step longer --------------------------------------------------

  lemma Extend(d: Discipline, s: System, steps: seq<Step>, step: Step)
    requires AllowedRun(d, s, steps) && Allowed(d, Run(s, steps), step)
    ensures AllowedRun(d, s, steps + [step]) && Run(s, steps + [step]) == Next(Run(s, steps), step)
  {
    var longer := steps + [step];
    assert longer[..|steps|] == steps;
    forall i | 0 <= i < |longer| ensures Allowed(d, Run(s, longer[..i]), longer[i]) {
      if i < |steps| {
        assert longer[..i] == steps[..i];
        assert Allowed(d, Run(s, steps[..i]), steps[i]);
      }
    }
  }

  /** Claims, ends and crashes are allowed under every discipline. */
  predicate Free(step: Step) {
    !step.Tick? && !step.Revives? && !step.Resumes?
  }

  lemma OneStep(d: Discipline, s: System, step: Step)
    requires Allowed(d, s, step)
    ensures AllowedRun(d, s, [step]) && Run(s, [step]) == Next(s, step)
  {
    Extend(d, s, [], step);
    assert [] + [step] == [step];
  }

  lemma {:induction false} RunSplits(s: System, a: seq<Step>, b: seq<Step>)
    ensures Run(s, a + b) == Run(Run(s, a), b)
    decreases |b|
  {
    if b == [] {
      assert a + b == a;
    } else {
      assert (a + b)[..|a + b| - 1] == a + b[..|b| - 1];
      RunSplits(s, a, b[..|b| - 1]);
    }
  }

  // ---- From every reachable state ---------------------------------------------

  lemma ClaimSucceeds(s: System, r: nat, id: JobId)
    requires r !in s.runners && Claimable(s.db, id, s.now)
    ensures var t := Next(s, Claims(r, id));
      t.now == s.now && t.runners == s.runners[r := Runner(id, s.now, s.db.jobs[id].attempts + 1)]
      && id in t.db.jobs && t.db.jobs[id].doneAt.None? && !Paused(t.db, id)
  {}

  lemma FailUnlocks(s: System, r: nat, error: string)
    requires r in s.runners && s.runners[r].job in s.db.jobs
    requires s.db.jobs[s.runners[r].job].doneAt.None? && !Paused(s.db, s.runners[r].job)
    ensures var t := Next(s, Fails(r, error, 0));
      t.now == s.now && t.runners == s.runners - {r} && Claimable(t.db, s.runners[r].job, t.now)
  {}

  /**
    Wherever a runner's job has become claimable under it, three steps put two
    other runners on that job, both at the start of their own leases.
   */
  lemma LapsedLeaseIsShared(s: System, a: nat, b: nat, c: nat, error: string)
    requires a in s.runners && Claimable(s.db, s.runners[a].job, s.now)
    requires b !in s.runners && c !in s.runners && b != c
    ensures var id := s.runners[a].job;
      var t := Next(Next(Next(s, Claims(b, id)), Fails(a, error, 0)), Claims(c, id));
      t.runners == (s.runners[b := t.runners[b]] - {a})[c := t.runners[c]]
      && t.runners[b].job == t.runners[c].job == id && t.runners[b].claimedAt == t.runners[c].claimedAt == t.now
  {
    var id := s.runners[a].job;
    ClaimSucceeds(s, b, id);
    var s1 := Next(s, Claims(b, id));
    FailUnlocks(s1, a, error);
    var s2 := Next(s1, Fails(a, error, 0));
    ClaimSucceeds(s2, c, id);
  }

  /** A runner whose job is claimable shares it with whoever claims next. */
  lemma ClaimSharesIt(s: System, a: nat, b: nat)
    requires a in s.runners && Claimable(s.db, s.runners[a].job, s.now) && b !in s.runners
    ensures !Exclusive(Next(s, Claims(b, s.runners[a].job)))
  {
    ClaimSucceeds(s, b, s.runners[a].job);
    var t := Next(s, Claims(b, s.runners[a].job));
    assert a in t.runners && b in t.runners && t.runners[a].job == t.runners[b].job && a != b;
  }

  /** A revival under a runner whose finish landed: the next claim shares the job. */
  lemma EarlyRevivalIsShared(s: System, a: nat, b: nat)
    requires Inv(s) && a in s.runners && Done(s.db, s.runners[a].job) && b !in s.runners
    ensures var id := s.runners[a].job; var t := Next(s, Revives(id));
      Claimable(t.db, id, t.now) && !Exclusive(Next(t, Claims(b, id)))
  {
    ClaimSharesIt(Next(s, Revives(s.runners[a].job)), a, b);
  }

  /** A resume under a runner whose pause landed: the next claim shares the job. */
  lemma EarlyResumeIsShared(s: System, a: nat, b: nat)
    requires Inv(s) && a in s.runners && Paused(s.db, s.runners[a].job) && b !in s.runners
    ensures var id := s.runners[a].job; var t := Next(s, Resumes);
      Claimable(t.db, id, t.now) && !Exclusive(Next(t, Claims(b, id)))
  {
    ClaimSharesIt(Next(s, Resumes), a, b);
  }

  /** A clock that outruns a lease: the next claim shares the job. */
  lemma OutlivedLeaseIsShared(s: System, a: nat, b: nat, seconds: nat)
    requires Inv(s) && a in s.runners && Unsettled(s.db, s.runners[a].job) && !InLease(s.runners[a], s.now + seconds)
    requires b !in s.runners
    ensures var id := s.runners[a].job; var t := Next(s, Tick(seconds));
      Claimable(t.db, id, t.now) && !Exclusive(Next(t, Claims(b, id)))
  {
    ClaimSharesIt(Next(s, Tick(seconds)), a, b);
  }

  /** However runners that keep the promises go on, no job has two of them. */
  ghost predicate StaysExclusive(s: System) {
    forall steps :: AllowedRun(STRICT, s, steps) ==> Exclusive(Run(s, steps))
  }

  lemma SharedByAClaim(s: System, b: nat, id: JobId)
    requires !Exclusive(Next(s, Claims(b, id)))
    ensures !StaysExclusive(s)
  {
    OneStep(STRICT, s, Claims(b, id));
    assert AllowedRun(STRICT, s, [Claims(b, id)]);
  }

  lemma BrokenPromiseIsShared(s: System, step: Step)
    requires Inv(s) && !Allowed(STRICT, s, step)
    ensures exists b, id :: !Exclusive(Next(Next(s, step), Claims(b, id)))
  {
    var b := Unused(s.runners.Keys);
    match step {
      case Tick(seconds) =>
        var a :| a in s.runners && Unsettled(s.db, s.runners[a].job) && !InLease(s.runners[a], s.now + seconds);
        OutlivedLeaseIsShared(s, a, b, seconds);
      case Revives(id) =>
        var a :| a in s.runners && s.runners[a].job == id;
        EarlyRevivalIsShared(s, a, b);
      case Resumes =>
        var a :| a in s.runners && Paused(s.db, s.runners[a].job);
        EarlyResumeIsShared(s, a, b);
    }
  }

  /**
    After any run that keeps the promises, a step keeps them too exactly when no
    job can come to have two runners after it, so no promise asks too much.
   */
  lemma PromisesAreExact(before: seq<Step>, step: Step)
    requires AllowedRun(STRICT, START, before)
    ensures Allowed(STRICT, Run(START, before), step) <==> StaysExclusive(Next(Run(START, before), step))
  {
    var s := Run(START, before);
    InvRun(START, before);
    var t := Next(s, step);
    if Allowed(STRICT, s, step) {
      InvNext(s, step);
      forall steps | AllowedRun(STRICT, t, steps) ensures Exclusive(Run(t, steps)) {
        InvRun(t, steps);
      }
    } else {
      BrokenPromiseIsShared(s, step);
      var b, id :| !Exclusive(Next(t, Claims(b, id)));
      SharedByAClaim(t, b, id);
    }
  }

  // ---- Deployments that do not promise everything -----------------------------

  ghost predicate ExcludesAlways(d: Discipline) {
    forall steps :: AllowedRun(d, START, steps) ==> Exclusive(Run(START, steps))
  }

  predicate AllInLease(s: System) {
    forall r :: r in s.runners ==> InLease(s.runners[r], s.now)
  }

  function Queued(kind: Kind): System {
    System(Db(map[0 := Job("w", kind, "k", Opaque(""), 0, 0, None, None, None)], map[0 := Ready("w", 0, false)], 1), 0, map[])
  }

  /** One job, and runner 0 at the start of its lease. */
  function Held(kind: Kind): System {
    System(Db(map[0 := Job("w", kind, "k", Opaque(""), 1, 0, Some(120), None, None)], map[0 := Ready("w", 0, false)], 1), 0,
           map[0 := Runner(0, 0, 1)])
  }

  lemma Opening(kind: Kind)
    ensures Next(START, Enqueues("w", kind, "k", Opaque(""))) == Queued(kind)
    ensures Next(Queued(kind), Claims(0, 0)) == Held(kind)
  {
    assert !HasKey(EMPTY, kind, "k");
  }

  lemma HeldIsReached(d: Discipline, kind: Kind) returns (steps: seq<Step>)
    ensures AllowedRun(d, START, steps) && Run(START, steps) == Held(kind)
  {
    Opening(kind);
    OneStep(d, START, Enqueues("w", kind, "k", Opaque("")));
    steps := [Enqueues("w", kind, "k", Opaque(""))];
    Extend(d, START, steps, Claims(0, 0));
    steps := steps + [Claims(0, 0)];
  }

  /** Two free steps and a claim after a run that has reached `s`. */
  lemma ThreeMore(d: Discipline, steps: seq<Step>, s: System, a: Step, b: Step, c: Step) returns (longer: seq<Step>)
    requires AllowedRun(d, START, steps) && Run(START, steps) == s && Free(a) && Free(b) && Free(c)
    ensures AllowedRun(d, START, longer) && Run(START, longer) == Next(Next(Next(s, a), b), c)
  {
    Extend(d, START, steps, a);
    Extend(d, START, steps + [a], b);
    Extend(d, START, steps + [a] + [b], c);
    longer := steps + [a] + [b] + [c];
  }

  /**
    A runner past its lease fails the job it no longer holds, which clears the
    next holder's lock: two runners, both well inside their own leases, then share it.
   */
  lemma StaleFailSharesTheJob() returns (steps: seq<Step>)
    ensures AllowedRun(Discipline(false, true, true), START, steps)
    ensures !Exclusive(Run(START, steps)) && AllInLease(Run(START, steps))
  {
    var d := Discipline(false, true, true);
    steps := HeldIsReached(d, RunLaunch);
    Extend(d, START, steps, Tick(121));
    HeldRunsOut();
    steps := LateFailureShares(d, steps + [Tick(121)], Next(Held(RunLaunch), Tick(121)));
  }

  lemma HeldRunsOut()
    ensures var late := Next(Held(RunLaunch), Tick(121));
      late.runners.Keys == {0} && Claimable(late.db, late.runners[0].job, late.now)
  {}

  lemma LateFailureShares(d: Discipline, steps: seq<Step>, s: System) returns (longer: seq<Step>)
    requires AllowedRun(d, START, steps) && Run(START, steps) == s
    requires s.runners.Keys == {0} && Claimable(s.db, s.runners[0].job, s.now)
    ensures AllowedRun(d, START, longer)
    ensures !Exclusive(Run(START, longer)) && AllInLease(Run(START, longer))
  {
    var id := s.runners[0].job;
    LapsedLeaseIsShared(s, 0, 1, 2, "late");
    longer := ThreeMore(d, steps, s, Claims(1, id), Fails(0, "late", 0), Claims(2, id));
    SharedByTwo(Run(START, longer), 1, 2);
  }

  lemma SharedByTwo(s: System, b: nat, c: nat)
    requires b != c && s.runners.Keys == {b, c} && s.runners[b].job == s.runners[c].job
    requires s.runners[b].claimedAt == s.runners[c].claimedAt == s.now
    ensures !Exclusive(s) && AllInLease(s)
  {
    assert b in s.runners && c in s.runners;
  }

  /** Reviving a job whose runner has not ended yet also shares it. */
  lemma EarlyRevivalSharesTheJob() returns (steps: seq<Step>)
    ensures AllowedRun(Discipline(true, false, true), START, steps)
    ensures !Exclusive(Run(START, steps)) && AllInLease(Run(START, steps))
  {
    var d := Discipline(true, false, true);
    var held := Held(RunLaunch);
    steps := HeldIsReached(d, RunLaunch);
    var finished := Next(held, FinishesUnheard(0));
    Extend(d, START, steps, FinishesUnheard(0));
    steps := steps + [FinishesUnheard(0)];
    var revived := Next(finished, Revives(0));
    Extend(d, START, steps, Revives(0));
    steps := steps + [Revives(0)];
    RevivedUnderItsRunner(finished, revived);
    Extend(d, START, steps, Claims(1, 0));
    steps := steps + [Claims(1, 0)];
    BesideRunnerZero(revived);
  }

  lemma RevivedUnderItsRunner(finished: System, revived: System)
    requires finished == Next(Held(RunLaunch), FinishesUnheard(0)) && revived == Next(finished, Revives(0))
    ensures Claimable(revived.db, 0, 0) && revived.runners == map[0 := Runner(0, 0, 1)] && revived.now == 0
  {}

  lemma BesideRunnerZero(s: System)
    requires Claimable(s.db, 0, 0) && s.runners == map[0 := Runner(0, 0, 1)] && s.now == 0
    ensures var t := Next(s, Claims(1, 0)); !Exclusive(t) && AllInLease(t)
  {
    ClaimSucceeds(s, 1, 0);
    ClaimSharesIt(s, 0, 1);
  }

  /**
    So does a pause whose answer was lost, once the pause is lifted: its runner is
    still on the way to failing the job.
   */
  lemma UnheardPauseSharesTheJob() returns (steps: seq<Step>)
    ensures AllowedRun(Discipline(true, true, false), START, steps)
    ensures !Exclusive(Run(START, steps)) && AllInLease(Run(START, steps))
  {
    var d := Discipline(true, true, false);
    var held := Held(MemberProvision);
    steps := HeldIsReached(d, MemberProvision);
    var paused := Next(held, PausesUnheard(0));
    Extend(d, START, steps, PausesUnheard(0));
    steps := steps + [PausesUnheard(0)];
    var resumed := Next(paused, Resumes);
    Extend(d, START, steps, Resumes);
    steps := steps + [Resumes];
    ResumedUnderItsRunner(paused, resumed);
    Extend(d, START, steps, Claims(1, 0));
    steps := steps + [Claims(1, 0)];
    BesideRunnerZero(resumed);
  }

  lemma ResumedUnderItsRunner(paused: System, resumed: System)
    requires paused == Next(Held(MemberProvision), PausesUnheard(0)) && resumed == Next(paused, Resumes)
    ensures Claimable(resumed.db, 0, 0) && resumed.runners == map[0 := Runner(0, 0, 1)] && resumed.now == 0
  {}

  lemma LaxerAllowsMore(strict: Discipline, lax: Discipline, s: System, steps: seq<Step>)
    requires lax.endInsideLease ==> strict.endInsideLease
    requires lax.reviveOnlyIdle ==> strict.reviveOnlyIdle
    requires lax.resumeOnlyIdle ==> strict.resumeOnlyIdle
    requires AllowedRun(strict, s, steps)
    ensures AllowedRun(lax, s, steps)
  {
    forall i | 0 <= i < |steps| ensures Allowed(lax, Run(s, steps[..i]), steps[i]) {
      assert Allowed(strict, Run(s, steps[..i]), steps[i]);
    }
  }

  lemma SomePromiseIsMissing(d: Discipline) returns (steps: seq<Step>)
    requires d != STRICT
    ensures AllowedRun(d, START, steps) && !Exclusive(Run(START, steps))
  {
    if !d.endInsideLease {
      steps := StaleFailSharesTheJob();
      LaxerAllowsMore(Discipline(false, true, true), d, START, steps);
    } else if !d.reviveOnlyIdle {
      steps := EarlyRevivalSharesTheJob();
      LaxerAllowsMore(Discipline(true, false, true), d, START, steps);
    } else {
      steps := UnheardPauseSharesTheJob();
      LaxerAllowsMore(Discipline(true, true, false), d, START, steps);
    }
  }

  /** Mutual exclusion holds over all runs exactly when all three promises are kept. */
  lemma ExclusionExactly(d: Discipline)
    ensures ExcludesAlways(d) <==> d.endInsideLease && d.reviveOnlyIdle && d.resumeOnlyIdle
  {
    if d == STRICT {
      forall steps | AllowedRun(d, START, steps) ensures Exclusive(Run(START, steps)) {
        OneRunnerPerJob(steps);
      }
    } else {
      var steps := SomePromiseIsMissing(d);
      assert AllowedRun(d, START, steps) && !Exclusive(Run(START, steps));
    }
  }
}
