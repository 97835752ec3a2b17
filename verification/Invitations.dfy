/**
  Invitation delivery: the send/resend branch of `runWorkosSync`
  (apps/worker/src/jobs.ts:493-711) with its failure classifier
  (apps/worker/src/ops/invitation-diagnostics.ts:211-236).

  Every transaction is one atomic step on the invitation row. Between steps any
  number of workers may be suspended, overtaken by others, or gone; the provider
  answers, refuses, or accepts and then fails to say so.
 */
module Invitations {
  import opened Wrappers

  datatype Delivery = NotRequired | Queued | Sending | Delivered | Failed

  datatype Reason =
    | OutcomeUnknown | Rejected | Unavailable | LocalCommitFailed | CapacityMissing | NotConfigured
  {
    /** The reasons a later claim refuses to send past (apps/worker/src/jobs.ts:562-568). */
    predicate Terminal() {
      OutcomeUnknown? || Rejected? || LocalCommitFailed? || CapacityMissing?
    }
  }

  datatype Row = Row(pending: bool, providerId: Option<string>, delivery: Delivery, error: Option<Reason>)
  {
    /** The next claim that finds capacity will call the provider. */
    predicate Sendable() {
      pending && providerId.None? && delivery != Sending
      && !(delivery == Failed && error.Some? && error.value.Terminal())
    }

    /** A terminal reason was recorded: no claim sends past it. */
    predicate Refused() {
      pending && providerId.None? && delivery == Failed && error.Some? && error.value.Terminal()
    }
  }

  // ---- The provider's errors ------------------------------------------------

  /** A JavaScript number, compared as `<=`, `>=`, `<` and `===` compare it. */
  datatype Number = Finite(value: real) | Infinite(negative: bool) | NaN
  {
    predicate AtMost(x: real) { (Finite? && value <= x) || (Infinite? && negative) }
    predicate AtLeast(x: real) { (Finite? && value >= x) || (Infinite? && !negative) }
    predicate Below(x: real) { (Finite? && value < x) || (Infinite? && negative) }
    predicate Is(x: real) { Finite? && value == x }
  }

  /** What the thrown value carries: an HTTP status if it is a number, and whether a code says invalid_grant. */
  datatype ProviderError = ProviderError(status: Option<Number>, invalidGrant: bool)

  datatype Failure = Failure(reason: Reason, retryAfterSeconds: nat, retryable: bool)

  function ClassifyWorkOS(e: ProviderError): (bool, nat) {
    var status := if e.status.Some? then e.status.value else Finite(0.0);
    if e.invalidGrant then (true, 0)
    else if status.Is(401.0) || status.Is(403.0) || status.Is(400.0) then (true, 0)
    else if status.Is(429.0) then (false, 30)
    else (false, 5)
  }

  function Classify(e: ProviderError): Failure {
    if e.status.None? || e.status.value.AtMost(0.0) then Failure(OutcomeUnknown, 0, false)
    else if e.status.value.AtLeast(400.0) && e.status.value.Below(500.0) && !e.status.value.Is(429.0)
    then Failure(Rejected, 0, false)
    else
      var (terminal, retryAfter) := ClassifyWorkOS(e);
      if terminal then Failure(Rejected, 0, false) else Failure(Unavailable, retryAfter, true)
  }

  /** Statuses in the 400s other than 429 are refusals; anything positive besides, NaN included, may pass. */
  predicate Passing(status: Number) {
    status.NaN? || status == Infinite(false)
    || (status.Finite? && status.value > 0.0 && (status.value < 400.0 || status.value == 429.0 || status.value >= 500.0))
  }

  /** A failure is retried exactly when its reason is not one a later claim refuses. */
  lemma RetryableIsNotTerminal(e: ProviderError)
    ensures Classify(e).retryable <==> !Classify(e).reason.Terminal()
    ensures Classify(e).retryable <==> e.status.Some? && Passing(e.status.value) && !e.invalidGrant
  {}

  /** No status, or none that is positive: nobody knows whether the send was accepted. */
  predicate Ambiguous(e: ProviderError) {
    e.status.None? || e.status.value == Infinite(true) || (e.status.value.Finite? && e.status.value.value <= 0.0)
  }

  /** The provider answered and said no: a status in the 400s other than 429, or an invalid grant beside another one. */
  predicate SaidNo(e: ProviderError) {
    !Ambiguous(e) && (e.invalidGrant || !Passing(e.status.value))
  }

  /** The reason, the wait and the retry that each kind of error comes to. */
  lemma ReasonsExactly(e: ProviderError)
    ensures Classify(e).reason == OutcomeUnknown <==> Ambiguous(e)
    ensures Classify(e).reason == Rejected <==> SaidNo(e)
    ensures Classify(e).reason == Unavailable <==> !Ambiguous(e) && !SaidNo(e)
    ensures Classify(e).retryable <==> !Ambiguous(e) && !SaidNo(e)
    ensures Classify(e).retryAfterSeconds ==
      if Ambiguous(e) || SaidNo(e) then 0 else if e.status.value == Finite(429.0) then 30 else 5
  {}

  // ---- The transactions -----------------------------------------------------

  datatype Decision = AlreadyResolved | Refuse(reason: Reason) | Deliver

  /** The row lock, the checks in their order, and the claim of the send (jobs.ts:533-604). */
  function Begin(row: Row, capacityCurrent: bool): (Row, Decision) {
    if !row.pending then (row, AlreadyResolved)
    else if row.providerId.Some? then (row.(delivery := Delivered, error := None), AlreadyResolved)
    else if row.delivery == Sending then (row, Refuse(OutcomeUnknown))
    else if row.delivery == Failed && row.error.Some? && row.error.value.Terminal() then (row, Refuse(row.error.value))
    else if !capacityCurrent then (row, Refuse(CapacityMissing))
    else (row.(delivery := Sending, error := None), Deliver)
  }

  function RecordFailure(row: Row, reason: Reason): Row {
    if row.pending then row.(delivery := Failed, error := Some(reason)) else row
  }

  function RecordDelivered(row: Row, id: string): Row {
    if row.pending then row.(providerId := Some(id), delivery := Delivered, error := None) else row
  }

  function RecordLocalCommitFailed(row: Row, id: string): Row {
    if row.pending then row.(providerId := Some(id), delivery := Failed, error := Some(LocalCommitFailed)) else row
  }

  function MarkUnconfigured(row: Row): Row {
    if row.pending && (row.delivery == Queued || row.delivery == Sending || row.delivery == NotRequired)
    then row.(delivery := Failed, error := Some(NotConfigured)) else row
  }

  /** Queueing a delivery for a row that has none (member-provisioning/service.ts:132-160). */
  function Enqueue(row: Row, organizationKnown: bool): Row {
    if row.pending && row.delivery == NotRequired
    then if organizationKnown then row.(delivery := Queued, error := None)
         else row.(delivery := Failed, error := Some(NotConfigured))
    else row
  }

  /** A delivery is queued for a waiting row once the organisation is known, and fails as unconfigured before. */
  lemma EnqueueSays(row: Row)
    requires row.pending && row.delivery == NotRequired
    ensures Enqueue(row, true).delivery == Queued && Enqueue(row, true).error == None
    ensures Enqueue(row, false).delivery == Failed && Enqueue(row, false).error == Some(NotConfigured)
  {}

  /** Accepted, withdrawn or resent: the row leaves `pending`. Expiry also fails an undelivered row. */
  function Leave(row: Row, expired: bool): Row {
    row.(pending := false, delivery := if expired && row.delivery != Delivered then Failed else row.delivery)
  }

  // ---- The row as it is stored ----------------------------------------------

  datatype Disposition = Finished | RetryLater(reason: Reason, retryAfterSeconds: nat) | GiveUp(reason: Reason)

  datatype CallOutcome = Accepts(id: string) | Fails(error: ProviderError)

  /**
    How recording an acceptance goes: the commit lands, or lands unheard, or is
    lost; after the last two the failure is recorded, unless that is lost as well.
   */
  datatype CommitOutcome = Landed | LandedUnheard(recorded: bool) | Lost(recorded: bool)

  function RecordAcceptance(row: Row, id: string, c: CommitOutcome): Row {
    var committed := if c.Lost? then row else RecordDelivered(row, id);
    if c.Landed? || !c.recorded then committed else RecordLocalCommitFailed(committed, id)
  }

  class InvitationRecord {
    var pending: bool
    var providerId: Option<string>
    var delivery: Delivery
    var error: Option<Reason>

    function State(): Row
      reads this
    {
      Row(pending, providerId, delivery, error)
    }

    method BeginDelivery(capacityCurrent: bool) returns (d: Decision)
      modifies this
      ensures (State(), d) == Begin(old(State()), capacityCurrent)
    {
      if !pending { return AlreadyResolved; }
      if providerId.Some? {
        delivery, error := Delivered, None;
        return AlreadyResolved;
      }
      if delivery == Sending { return Refuse(OutcomeUnknown); }
      if delivery == Failed && error.Some? && error.value.Terminal() { return Refuse(error.value); }
      if !capacityCurrent { return Refuse(CapacityMissing); }
      delivery, error := Sending, None;
      return Deliver;
    }

    method Fail(reason: Reason)
      modifies this
      ensures State() == RecordFailure(old(State()), reason)
    {
      if pending { delivery, error := Failed, Some(reason); }
    }

    method Settle(id: string, c: CommitOutcome)
      modifies this
      ensures State() == RecordAcceptance(old(State()), id, c)
    {
      if !pending { return; }
      if !c.Lost? { providerId, delivery, error := Some(id), Delivered, None; }
      if !c.Landed? && c.recorded { providerId, delivery, error := Some(id), Failed, Some(LocalCommitFailed); }
    }

    method LoseConfiguration()
      modifies this
      ensures State() == MarkUnconfigured(old(State()))
    {
      if pending && (delivery == Queued || delivery == Sending || delivery == NotRequired) {
        delivery, error := Failed, Some(NotConfigured);
      }
    }

    /**
      One undisturbed run of the branch: when the provider is called, what the job
      is told, and what the row says afterwards. Finished rows are settled,
      given-up rows are not sendable, retried rows are unless the provider was missing.
     */
    method RunDelivery(configured: bool, capacityCurrent: bool, outcome: CallOutcome, commit: CommitOutcome)
      returns (d: Disposition, called: bool)
      modifies this
      ensures called == (configured && old(State()).Sendable() && capacityCurrent)
      ensures d.Finished? ==> !pending || delivery == Delivered
      ensures d.GiveUp? ==> !State().Sendable() && d.reason.Terminal()
      ensures d.RetryLater? && configured ==> State().Sendable() && called && outcome.Fails?
      ensures called && outcome.Accepts? ==> !State().Sendable() && d.Finished? == commit.Landed?
      ensures pending == old(pending)
      // Without a provider the job retries, and the rows still to be sent or being sent say why.
      ensures !configured ==> d == RetryLater(NotConfigured, 0) && providerId == old(providerId)
      ensures !configured && old(pending) && old(delivery) != Delivered && old(delivery) != Failed ==>
        delivery == Failed && error == Some(NotConfigured)
      ensures !configured && !(old(pending) && old(delivery) != Delivered && old(delivery) != Failed) ==> State() == old(State())
      // A row that left pending is left alone; one that has its provider id reads as delivered.
      ensures configured && !old(pending) ==> d == Finished && State() == old(State())
      ensures configured && old(pending) && old(providerId).Some? ==>
        d == Finished && delivery == Delivered && error == None && providerId == old(providerId)
      // Refusals: the reason told is the reason recorded.
      ensures configured && old(pending) && old(providerId).None? && old(delivery) == Sending ==> d == GiveUp(OutcomeUnknown)
      ensures configured && old(State()).Refused() ==> d == GiveUp(old(error).value)
      ensures configured && old(State()).Sendable() && !capacityCurrent ==> d == GiveUp(CapacityMissing)
      ensures configured && old(pending) && old(providerId).None? && !called ==>
        d.GiveUp? && delivery == Failed && error == Some(d.reason) && providerId == None
      // The provider's failures, by the error's status.
      ensures called && outcome.Fails? ==> delivery == Failed && providerId == None
      ensures called && outcome.Fails? && Ambiguous(outcome.error) ==>
        d == GiveUp(OutcomeUnknown) && error == Some(OutcomeUnknown)
      ensures called && outcome.Fails? && SaidNo(outcome.error) ==> d == GiveUp(Rejected) && error == Some(Rejected)
      ensures called && outcome.Fails? && !Ambiguous(outcome.error) && !SaidNo(outcome.error) ==>
        d == RetryLater(Unavailable, if outcome.error.status.value == Finite(429.0) then 30 else 5) && error == Some(Unavailable)
      // Its acceptances, by how the commit went.
      ensures called && outcome.Accepts? && commit != Lost(false) ==> providerId == Some(outcome.id)
      ensures called && outcome.Accepts? && (commit.Landed? || commit == LandedUnheard(false)) ==>
        delivery == Delivered && error == None
      ensures called && outcome.Accepts? && !commit.Landed? ==> d == GiveUp(LocalCommitFailed)
      ensures called && outcome.Accepts? && !commit.Landed? && commit.recorded ==>
        delivery == Failed && error == Some(LocalCommitFailed)
      ensures called && outcome.Accepts? && commit == Lost(false) ==>
        delivery == Sending && error == None && providerId == None
    {
      called := false;
      if !configured {
        LoseConfiguration();
        return RetryLater(NotConfigured, 0), false;
      }
      var decision := BeginDelivery(capacityCurrent);
      match decision {
        case AlreadyResolved =>
          return Finished, false;
        case Refuse(reason) =>
          Fail(reason);
          return GiveUp(reason), false;
        case Deliver =>
          called := true;
          match outcome {
            case Fails(e) =>
              var failure := Classify(e);
              RetryableIsNotTerminal(e);
              ReasonsExactly(e);
              Fail(failure.reason);
              d := if failure.retryable then RetryLater(failure.reason, failure.retryAfterSeconds) else GiveUp(failure.reason);
            case Accepts(id) =>
              Settle(id, commit);
              d := if commit.Landed? then Finished else GiveUp(LocalCommitFailed);
          }
      }
    }
  }

  // ---- Overlapping, crashing and retried workers ----------------------------

  datatype Phase =
    | Refusing(reason: Reason)          // must still record why it will not send
    | Calling                           // holds the send, has not reached the provider
    | Answered(failure: Failure)        // the provider failed, not yet recorded
    | Accepted(id: string)              // the provider accepted, not yet recorded
    | Uncommitted(id: string)           // recording the acceptance threw once

  datatype System = System(row: Row, workers: map<nat, Phase>, accepted: nat)
  {
    function To(w: nat, phase: Phase): System { this.(workers := workers[w := phase]) }
    function Gone(w: nat): System { this.(workers := workers - {w}) }
    predicate At(w: nat, phase: Phase) { w in workers && workers[w] == phase }
  }

  datatype Step =
    | QueueDelivery(organizationKnown: bool)
    | LeavePending(expired: bool)
    | Claim(w: nat, capacityCurrent: bool)
    | ClaimUnconfigured(w: nat)
    | WriteRefusal(w: nat)
    | CallAccepted(w: nat, id: string)
    | CallFailed(w: nat, error: ProviderError, acceptedAnyway: bool)
    | WriteFailure(w: nat)
    | Commit(w: nat)
    | CommitThrows(w: nat)
    | CommitUnheard(w: nat)             // the commit landed and then threw
    | WriteCommitFailure(w: nat)
    | Crash(w: nat)

  /** A step that is not possible changes nothing. */
  function Next(s: System, step: Step): System {
    match step
    case QueueDelivery(known) => s.(row := Enqueue(s.row, known))
    case LeavePending(expired) => s.(row := Leave(s.row, expired))
    case Claim(w, capacityCurrent) =>
      if w in s.workers then s
      else
        var (row, decision) := Begin(s.row, capacityCurrent);
        var t := s.(row := row);
        match decision {
          case AlreadyResolved => t
          case Refuse(reason) => t.To(w, Refusing(reason))
          case Deliver => t.To(w, Calling)
        }
    case ClaimUnconfigured(w) => if w in s.workers then s else s.(row := MarkUnconfigured(s.row))
    case WriteRefusal(w) =>
      if w in s.workers && s.workers[w].Refusing?
      then s.(row := RecordFailure(s.row, s.workers[w].reason)).Gone(w) else s
    case CallAccepted(w, id) =>
      if s.At(w, Calling) then s.(accepted := s.accepted + 1).To(w, Accepted(id)) else s
    case CallFailed(w, error, acceptedAnyway) =>
      if s.At(w, Calling)
      then s.(accepted := s.accepted + if acceptedAnyway then 1 else 0).To(w, Answered(Classify(error))) else s
    case WriteFailure(w) =>
      if w in s.workers && s.workers[w].Answered?
      then s.(row := RecordFailure(s.row, s.workers[w].failure.reason)).Gone(w) else s
    case Commit(w) =>
      if w in s.workers && s.workers[w].Accepted?
      then s.(row := RecordDelivered(s.row, s.workers[w].id)).Gone(w) else s
    case CommitThrows(w) =>
      if w in s.workers && s.workers[w].Accepted? then s.To(w, Uncommitted(s.workers[w].id)) else s
    case CommitUnheard(w) =>
      if w in s.workers && s.workers[w].Accepted?
      then s.(row := RecordDelivered(s.row, s.workers[w].id)).To(w, Uncommitted(s.workers[w].id)) else s
    case WriteCommitFailure(w) =>
      if w in s.workers && s.workers[w].Uncommitted?
      then s.(row := RecordLocalCommitFailed(s.row, s.workers[w].id)).Gone(w) else s
    case Crash(w) => s.Gone(w)
  }

  function Run(s: System, steps: seq<Step>): System {
    if steps == [] then s else Next(Run(s, steps[..|steps| - 1]), steps[|steps| - 1])
  }

  /** The provider may still accept this worker's call, or the row may yet be told to retry it. */
  predicate Unspent(p: Phase) {
    p.Calling? || (p.Answered? && p.failure.retryable)
  }

  predicate Live(p: Phase) {
    Unspent(p) || p.Accepted? || p.Uncommitted?
  }

  /** A claim that finds no provider now hides a send that was accepted, or may yet be. */
  predicate HidesASend(s: System, step: Step) {
    step.ClaimUnconfigured? && step.w !in s.workers && s.row.pending && s.row.delivery == Sending
    && (s.accepted >= 1 || exists w :: w in s.workers && Unspent(s.workers[w]))
  }

  /** A send was accepted, and its error says that it may be sent again. */
  predicate AsksAgain(s: System, step: Step) {
    step.CallFailed? && step.acceptedAnyway && s.At(step.w, Calling) && s.row.pending && Classify(step.error).retryable
  }

  /** What the world around the protocol may do. */
  datatype World = World(unconfiguredWhileSending: bool, retryableAfterAccepting: bool)

  predicate Allowed(world: World, s: System, step: Step) {
    && (HidesASend(s, step) ==> world.unconfiguredWhileSending)
    && (AsksAgain(s, step) ==> world.retryableAfterAccepting)
  }

  ghost predicate AllowedRun(world: World, s: System, steps: seq<Step>) {
    forall i :: 0 <= i < |steps| ==> Allowed(world, Run(s, steps[..i]), steps[i])
  }

  /** A pending invitation that no one has tried to deliver. */
  predicate Fresh(s: System) {
    s.row.pending && s.row.providerId.None? && (s.row.delivery == NotRequired || s.row.delivery == Queued)
    && s.workers == map[] && s.accepted == 0
  }

  ghost predicate WorkerInv(s: System, p: Phase) {
    && (p.Calling? ==> s.accepted == 0)
    && (p.Answered? && p.failure.retryable && s.row.pending ==> s.accepted == 0)
    && (p.Accepted? || p.Uncommitted? ==> s.accepted == 1)
    && (p.Refusing? ==> p.reason.Terminal())
    && (p.Answered? ==> (p.failure.retryable <==> !p.failure.reason.Terminal()))
  }

  ghost predicate RowInv(s: System) {
    && s.accepted <= 1
    && (s.row.Sendable() ==> s.accepted == 0)
    && (s.row.providerId.Some? ==> s.accepted == 1 && s.row.delivery != Sending)
    && (s.row.delivery == Delivered ==> s.row.providerId.Some?)
  }

  ghost predicate Inv(s: System) {
    && RowInv(s)
    && (forall w :: w in s.workers ==> WorkerInv(s, s.workers[w]))
    && (s.row.Sendable() ==> forall w :: w in s.workers ==> !Live(s.workers[w]))
    && (forall v, w :: v in s.workers && w in s.workers && Live(s.workers[v]) && Live(s.workers[w]) ==> v == w)
  }

  const SAFE := World(false, false)

  lemma InvNext(s: System, step: Step)
    requires Inv(s) && Allowed(SAFE, s, step)
    ensures Inv(Next(s, step))
    ensures s.accepted <= Next(s, step).accepted
  {
    match step {
      case Claim(w, capacityCurrent) => ClaimKeeps(s, w, capacityCurrent);
      case CallFailed(w, error, acceptedAnyway) => CallFailedKeeps(s, w, error, acceptedAnyway);
      case _ =>
    }
  }

  lemma ClaimKeeps(s: System, w: nat, capacityCurrent: bool)
    requires Inv(s)
    ensures Inv(Next(s, Claim(w, capacityCurrent)))
  {}

  lemma CallFailedKeeps(s: System, w: nat, error: ProviderError, acceptedAnyway: bool)
    requires Inv(s) && Allowed(SAFE, s, CallFailed(w, error, acceptedAnyway))
    ensures Inv(Next(s, CallFailed(w, error, acceptedAnyway)))
  {
    RetryableIsNotTerminal(error);
  }

  lemma AllowedFront(world: World, s: System, steps: seq<Step>)
    requires steps != [] && AllowedRun(world, s, steps)
    ensures var n := |steps| - 1; AllowedRun(world, s, steps[..n]) && Allowed(world, Run(s, steps[..n]), steps[n])
  {
    hide Allowed, Run;
    var n := |steps| - 1;
    var front := steps[..n];
    forall i | 0 <= i < n ensures Allowed(world, Run(s, front[..i]), front[i]) {
      assert front[..i] == steps[..i] && Allowed(world, Run(s, steps[..i]), steps[i]);
    }
  }

  lemma {:induction false} InvRun(s: System, steps: seq<Step>)
    requires Inv(s) && AllowedRun(SAFE, s, steps)
    ensures Inv(Run(s, steps)) && s.accepted <= Run(s, steps).accepted
    decreases |steps|
  {
    hide Inv, Allowed;
    if steps != [] {
      var n := |steps| - 1;
      AllowedFront(SAFE, s, steps);
      InvRun(s, steps[..n]);
      InvNext(Run(s, steps[..n]), steps[n]);
    }
  }

  /** However workers overlap, crash and retry, the provider accepts at most one send. */
  lemma {:induction false} AtMostOnce(s: System, steps: seq<Step>)
    requires Fresh(s) && AllowedRun(SAFE, s, steps)
    ensures Run(s, steps).accepted <= 1
  {
    InvRun(s, steps);
  }

  lemma {:induction false} RunSplits(s: System, a: seq<Step>, b: seq<Step>)
    ensures Run(s, a + b) == Run(Run(s, a), b)
    decreases |b|
  {
    if b == [] {
      assert a + b == a;
    } else {
      assert (a + b)[..|a + b| - 1] == a + b[..|b| - 1];
      RunSplits(s, a, b[..|b| - 1]);
    }
  }

  /**
    After an acceptance, whoever crashed and whatever was recorded, no later claim
    gets to call the provider; the row it meets is settled, sending, or failed for
    a terminal reason.
   */
  lemma {:induction false} NothingSendsPastAnAcceptance(s: System, before: seq<Step>, after: seq<Step>, w: nat, capacityCurrent: bool)
    requires Fresh(s) && AllowedRun(SAFE, s, before + after)
    requires Run(s, before).accepted == 1
    ensures var t := Run(s, before + after);
      t.accepted == 1 && !t.row.Sendable()
      && (w !in t.workers ==> !Next(t, Claim(w, capacityCurrent)).At(w, Calling))
  {
    var steps := before + after;
    forall i | 0 <= i < |before| ensures Allowed(SAFE, Run(s, before[..i]), before[i]) {
      assert before[..i] == steps[..i] && Allowed(SAFE, Run(s, steps[..i]), steps[i]);
    }
    InvRun(s, before);
    InvRun(s, steps);
    RunSplits(s, before, after);
    var m := Run(s, before);
    forall i | 0 <= i < |after| ensures Allowed(SAFE, Run(m, after[..i]), after[i]) {
      RunSplits(s, before, after[..i]);
      assert steps[..|before| + i] == before + after[..i];
      assert Allowed(SAFE, Run(s, steps[..|before| + i]), steps[|before| + i]);
    }
    InvRun(m, after);
  }

  /** `delivered` is never claimed without an accepted send behind it. */
  lemma {:induction false} DeliveredMeansAccepted(s: System, steps: seq<Step>)
    requires Fresh(s) && AllowedRun(SAFE, s, steps)
    ensures Run(s, steps).row.delivery == Delivered ==> Run(s, steps).accepted == 1
  {
    InvRun(s, steps);
  }
}
