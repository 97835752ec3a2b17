/**
  Why the two exceptions of `Invitations` are the right ones: from every reachable
  state the steps they name are exactly those after which a second send can be
  accepted (apps/worker/src/jobs.ts:493-711).
 */
module InvitationHazards {
  import opened FreshNames
  import opened Wrappers
  import opened Invitations

  // ---- From every reachable state ---------------------------------------------

  /** However the world goes on, short of the two exceptions, at most one send is accepted. */
  ghost predicate StaysAtMostOnce(s: System) {
    forall steps :: AllowedRun(SAFE, s, steps) ==> Run(s, steps).accepted <= 1
  }

  lemma Prepend(world: World, s: System, step: Step, steps: seq<Step>)
    requires Allowed(world, s, step) && AllowedRun(world, Next(s, step), steps)
    ensures AllowedRun(world, s, [step] + steps) && Run(s, [step] + steps) == Run(Next(s, step), steps)
  {
    var longer := [step] + steps;
    assert Run(s, [step]) == Next(s, step) by { assert [step][..0] == []; }
    RunSplits(s, [step], steps);
    forall i | 0 <= i < |longer| ensures Allowed(world, Run(s, longer[..i]), longer[i]) {
      if i == 0 {
        assert longer[..0] == [];
      } else {
        assert longer[..i] == [step] + steps[..i - 1];
        RunSplits(s, [step], steps[..i - 1]);
        assert Allowed(world, Run(Next(s, step), steps[..i - 1]), steps[i - 1]);
      }
    }
  }

  lemma StaysOn(s: System, step: Step)
    requires StaysAtMostOnce(s) && Allowed(SAFE, s, step)
    ensures StaysAtMostOnce(Next(s, step)) && Next(s, step).accepted <= 1
  {
    var t := Next(s, step);
    forall steps | AllowedRun(SAFE, t, steps) ensures Run(t, steps).accepted <= 1 {
      Prepend(SAFE, s, step, steps);
    }
    assert AllowedRun(SAFE, t, []) && Run(t, []) == t;
  }

  lemma ClaimCalls(s: System, u: nat)
    requires s.row.Sendable() && u !in s.workers
    ensures Next(s, Claim(u, true)) == s.(row := s.row.(delivery := Sending, error := None)).To(u, Calling)
  {}

  /** A sendable row after an acceptance is sent again by the next claim. */
  lemma SendableIsResent(s: System, u: nat)
    requires s.row.Sendable() && s.accepted >= 1 && u !in s.workers
    ensures Next(Next(s, Claim(u, true)), CallAccepted(u, "again")).accepted >= 2
    ensures !StaysAtMostOnce(s)
  {
    ClaimCalls(s, u);
    if StaysAtMostOnce(s) {
      var s1 := Next(s, Claim(u, true));
      StaysOn(s, Claim(u, true));
      StaysOn(s1, CallAccepted(u, "again"));
      assert false;
    }
  }

  /** A sendable row beside a worker about to call: both calls may be accepted. */
  lemma SendableBesideACall(s: System, w: nat, u: nat)
    requires s.row.Sendable() && s.At(w, Calling) && u !in s.workers
    ensures !StaysAtMostOnce(s)
  {
    ClaimCalls(s, u);
    if StaysAtMostOnce(s) {
      var s1 := Next(s, Claim(u, true));
      var s2 := Next(s1, CallAccepted(u, "a"));
      StaysOn(s, Claim(u, true));
      StaysOn(s1, CallAccepted(u, "a"));
      StaysOn(s2, CallAccepted(w, "b"));
      assert false;
    }
  }

  /** A sendable row beside a retryable failure not yet written: writing it reopens the next send. */
  lemma SendableBesideARetry(s: System, w: nat, u: nat, v: nat)
    requires s.row.Sendable() && w in s.workers && s.workers[w].Answered? && Unspent(s.workers[w])
    requires !s.workers[w].failure.reason.Terminal()
    requires u !in s.workers && v !in s.workers && u != v
    ensures !StaysAtMostOnce(s)
  {
    ClaimCalls(s, u);
    if StaysAtMostOnce(s) {
      var s1 := Next(s, Claim(u, true));
      var s2 := Next(s1, WriteFailure(w));
      StaysOn(s, Claim(u, true));
      StaysOn(s1, WriteFailure(w));
      assert s2.row.Sendable() && s2.At(u, Calling);
      SendableBesideACall(s2, u, v);
    }
  }

  /** A claim that hides a send under way, or accepted, lets it be sent again. */
  lemma HiddenSendIsRepeated(s: System, step: Step)
    requires Inv(s) && HidesASend(s, step)
    ensures !StaysAtMostOnce(Next(s, step))
  {
    var t := Next(s, step);
    var u := Unused(s.workers.Keys);
    assert t.workers == s.workers && t.accepted == s.accepted && t.row.Sendable();
    if s.accepted >= 1 {
      SendableIsResent(t, u);
    } else {
      var w :| w in s.workers && Unspent(s.workers[w]);
      if s.workers[w].Calling? {
        SendableBesideACall(t, w, u);
      } else {
        SendableBesideARetry(t, w, u, u + 1);
      }
    }
  }

  /** A retryable error for a send that was accepted gets it sent again. */
  lemma AskedForAgainIsRepeated(s: System, step: Step)
    requires Inv(s) && AsksAgain(s, step)
    ensures !StaysAtMostOnce(Next(s, step))
  {
    var t := Next(s, step);
    RetryableIsNotTerminal(step.error);
    if StaysAtMostOnce(t) {
      StaysOn(t, WriteFailure(step.w));
      var t1 := Next(t, WriteFailure(step.w));
      assert WorkerInv(s, s.workers[step.w]);
      assert t1.row.Sendable() && t1.accepted == 1;
      var u := Unused(t1.workers.Keys);
      SendableIsResent(t1, u);
    }
  }

  /**
    After any run without the two exceptions, a step is one of them exactly when
    it makes a second accepted send possible.
   */
  lemma ExceptionsAreExact(s: System, before: seq<Step>, step: Step)
    requires Fresh(s) && AllowedRun(SAFE, s, before)
    ensures var t := Run(s, before);
      HidesASend(t, step) || AsksAgain(t, step) <==> !StaysAtMostOnce(Next(t, step))
  {
    InvRun(s, before);
    var t := Run(s, before);
    if HidesASend(t, step) {
      HiddenSendIsRepeated(t, step);
    } else if AsksAgain(t, step) {
      AskedForAgainIsRepeated(t, step);
    } else {
      InvNext(t, step);
      forall steps | AllowedRun(SAFE, Next(t, step), steps) ensures Run(Next(t, step), steps).accepted <= 1 {
        InvRun(Next(t, step), steps);
      }
    }
  }

  // ---- Worlds with an exception ------------------------------------------------

  ghost predicate SendsAtMostOnce(world: World) {
    forall s, steps :: Fresh(s) && AllowedRun(world, s, steps) ==> Run(s, steps).accepted <= 1
  }

  const START := System(Row(true, None, Queued, None), map[], 0)

  lemma Advance(world: World, steps: seq<Step>, n: nat, s: System, t: System)
    requires n < |steps| && Run(START, steps[..n]) == s && AllowedRun(world, START, steps[..n])
    requires Allowed(world, s, steps[n]) && Next(s, steps[n]) == t
    ensures Run(START, steps[..n + 1]) == t && AllowedRun(world, START, steps[..n + 1])
  {
    var front, longer := steps[..n], steps[..n + 1];
    assert longer[..n] == front;
    forall i | 0 <= i < n + 1 ensures Allowed(world, Run(START, longer[..i]), longer[i]) {
      assert longer[..i] == steps[..i];
      if i < n { assert front[..i] == steps[..i] && Allowed(world, Run(START, front[..i]), front[i]); }
    }
  }

  /** The runs below take five steps through four states to a fifth. */
  lemma FiveSteps(world: World, steps: seq<Step>, s1: System, s2: System, s3: System, s4: System, s5: System)
    requires |steps| == 5
    requires Allowed(world, START, steps[0]) && Next(START, steps[0]) == s1
    requires Allowed(world, s1, steps[1]) && Next(s1, steps[1]) == s2
    requires Allowed(world, s2, steps[2]) && Next(s2, steps[2]) == s3
    requires Allowed(world, s3, steps[3]) && Next(s3, steps[3]) == s4
    requires Allowed(world, s4, steps[4]) && Next(s4, steps[4]) == s5
    ensures AllowedRun(world, START, steps) && Run(START, steps) == s5
  {
    assert steps[..0] == [];
    Advance(world, steps, 0, START, s1);
    Advance(world, steps, 1, s1, s2);
    Advance(world, steps, 2, s2, s3);
    Advance(world, steps, 3, s3, s4);
    Advance(world, steps, 4, s4, s5);
    assert steps[..5] == steps;
  }

  /** A claim that finds the provider unconfigured reopens a send that is under way. */
  lemma UnconfiguredSendsTwice() returns (steps: seq<Step>)
    ensures AllowedRun(World(true, false), START, steps) && Run(START, steps).accepted == 2
  {
    steps := [Claim(0, true), CallAccepted(0, "a"), ClaimUnconfigured(1), Claim(2, true), CallAccepted(2, "b")];
    var s1 := System(Row(true, None, Sending, None), map[0 := Calling], 0);
    var s2 := System(Row(true, None, Sending, None), map[0 := Accepted("a")], 1);
    var s3 := System(Row(true, None, Failed, Some(NotConfigured)), map[0 := Accepted("a")], 1);
    var s4 := System(Row(true, None, Sending, None), map[0 := Accepted("a"), 2 := Calling], 1);
    FiveSteps(World(true, false), steps, s1, s2, s3, s4, Next(s4, steps[4]));
  }

  /** So does a retryable error, a 503 say, for a send the provider did accept. */
  lemma RetryableAfterAcceptingSendsTwice() returns (steps: seq<Step>)
    ensures AllowedRun(World(false, true), START, steps) && Run(START, steps).accepted == 2
  {
    var error := ProviderError(Some(Finite(503.0)), false);
    steps := [Claim(0, true), CallFailed(0, error, true), WriteFailure(0), Claim(1, true), CallAccepted(1, "b")];
    var s1 := System(Row(true, None, Sending, None), map[0 := Calling], 0);
    var s2 := System(Row(true, None, Sending, None), map[0 := Answered(Failure(Unavailable, 5, true))], 1);
    var s3 := System(Row(true, None, Failed, Some(Unavailable)), map[], 1);
    var s4 := System(Row(true, None, Sending, None), map[1 := Calling], 1);
    FiveSteps(World(false, true), steps, s1, s2, s3, s4, Next(s4, steps[4]));
  }

  lemma MoreIsAllowed(small: World, big: World, s: System, steps: seq<Step>)
    requires small.unconfiguredWhileSending ==> big.unconfiguredWhileSending
    requires small.retryableAfterAccepting ==> big.retryableAfterAccepting
    requires AllowedRun(small, s, steps)
    ensures AllowedRun(big, s, steps)
  {
    forall i | 0 <= i < |steps| ensures Allowed(big, Run(s, steps[..i]), steps[i]) {
      assert Allowed(small, Run(s, steps[..i]), steps[i]);
    }
  }

  /**
    Exactly when delivery is at most once over all runs: no claim may find the
    provider missing while a send is under way or was accepted unrecorded, and a
    retryable error must mean "not accepted".
   */
  lemma {:induction false} AtMostOnceExactly(world: World)
    ensures SendsAtMostOnce(world) <==> !world.unconfiguredWhileSending && !world.retryableAfterAccepting
  {
    if !world.unconfiguredWhileSending && !world.retryableAfterAccepting {
      forall s, steps | Fresh(s) && AllowedRun(world, s, steps) ensures Run(s, steps).accepted <= 1 {
        assert world == SAFE;
        AtMostOnce(s, steps);
      }
    } else {
      var steps: seq<Step>;
      if world.unconfiguredWhileSending {
        steps := UnconfiguredSendsTwice();
        MoreIsAllowed(World(true, false), world, START, steps);
      } else {
        steps := RetryableAfterAcceptingSendsTwice();
        MoreIsAllowed(World(false, true), world, START, steps);
      }
      assert Fresh(START) && AllowedRun(world, START, steps) && Run(START, steps).accepted == 2;
    }
  }
}
