/**
  The native readiness latch: one state shared by the initializer, request,
  tool and provider threads
  (runtime/hermes/enterprise_bridge/runtime_policy.py:107-176, 252-279;
  runtime/hermes/enterprise_bridge/cloud_managed.py:289-298, 455-578).
 */
module PolicyLatch {
  import opened Wrappers

  datatype Source = PreflightGrant | EnterpriseAssignment | UnknownSource(name: string)

  datatype Route = Route(provider: string, baseUrl: string, apiKey: string, apiMode: string)

  /** What the agent object carries; a missing or empty attribute reads as "". */
  datatype Agent = Agent(provider: Option<string>, baseUrl: Option<string>, apiKey: Option<string>, apiMode: Option<string>)

  function OrEmpty(s: Option<string>): string {
    if s.Some? then s.value else ""
  }

  function WithoutSlashes(s: string): string {
    if s != "" && s[|s| - 1] == '/' then WithoutSlashes(s[..|s| - 1]) else s
  }

  function RouteOf(a: Agent): Route {
    Route(OrEmpty(a.provider), WithoutSlashes(OrEmpty(a.baseUrl)), OrEmpty(a.apiKey), OrEmpty(a.apiMode))
  }

  // ---- The binding phase ----------------------------------------------------

  function AdvancePhase(current: Source, observed: Source): Result<Source, string> {
    if current.EnterpriseAssignment? then
      if !observed.EnterpriseAssignment? then Err("Managed Enterprise assignment binding regressed to preflight")
      else Ok(current)
    else if current.PreflightGrant? && (observed.PreflightGrant? || observed.EnterpriseAssignment?) then Ok(observed)
    else Err("Managed Enterprise binding lifecycle is invalid")
  }

  /** A whole history of observations, checked one by one. */
  function AdvanceAll(start: Source, observed: seq<Source>): Result<Source, string> {
    if observed == [] then Ok(start)
    else
      var before := AdvanceAll(start, observed[..|observed| - 1]);
      if before.Err? then before else AdvancePhase(before.value, observed[|observed| - 1])
  }

  /** At most one promotion, and no way back. */
  ghost predicate OnePromotion(history: seq<Source>) {
    && (forall i :: 0 <= i < |history| ==> !history[i].UnknownSource?)
    && (forall i, j :: 0 <= i < j < |history| && history[i].EnterpriseAssignment? ==> history[j].EnterpriseAssignment?)
  }

  lemma PromotesOneMore(front: seq<Source>, last: Source)
    requires front != [] && !front[|front| - 1].UnknownSource?
    ensures OnePromotion(front + [last]) <==> OnePromotion(front) && AdvancePhase(front[|front| - 1], last).Ok?
  {
    var all, n := front + [last], |front|;
    assert all[n] == last && all[n - 1] == front[n - 1];
    if OnePromotion(all) {
      forall i | 0 <= i < n ensures !front[i].UnknownSource? { assert front[i] == all[i]; }
      forall i, j | 0 <= i < j < n && front[i].EnterpriseAssignment? ensures front[j].EnterpriseAssignment? {
        assert front[i] == all[i] && front[j] == all[j];
      }
    }
  }

  /** A history of checks passes exactly when it promotes at most once and never returns. */
  lemma {:induction false} PhaseAcceptsExactly(start: Source, observed: seq<Source>)
    requires !start.UnknownSource?
    ensures AdvanceAll(start, observed).Ok? <==> OnePromotion([start] + observed)
    ensures AdvanceAll(start, observed).Ok? ==> AdvanceAll(start, observed).value == ([start] + observed)[|observed|]
    decreases |observed|
  {
    if observed != [] {
      var n := |observed| - 1;
      var front := [start] + observed[..n];
      PhaseAcceptsExactly(start, observed[..n]);
      assert [start] + observed == front + [observed[n]];
      if OnePromotion(front) {
        PromotesOneMore(front, observed[n]);
      } else if OnePromotion([start] + observed) {
        PrefixPromotes(front, observed[n]);
      }
    }
  }

  lemma PrefixPromotes(front: seq<Source>, last: Source)
    requires OnePromotion(front + [last])
    ensures OnePromotion(front)
  {
    var all := front + [last];
    forall i | 0 <= i < |front| ensures !front[i].UnknownSource? { assert front[i] == all[i]; }
    forall i, j | 0 <= i < j < |front| && front[i].EnterpriseAssignment? ensures front[j].EnterpriseAssignment? {
      assert front[i] == all[i] && front[j] == all[j];
    }
  }

  // ---- The latch ------------------------------------------------------------

  datatype Latch = Latch(
    ready: bool, error: string, digest: Option<string>, validator: bool, binding: Option<Route>,
    phase: Source,      // the phase the validator closure captured
    unlinkTried: bool)  // removing the readiness file was tried; an error in it is ignored

  /** What one check reads while it holds the lock, whether or not a removed file is really gone. */
  datatype Observation = Observation(
    file: Option<string>,    // the readiness file's digest, unless it is missing or a symlink
    sameBinding: bool,       // the authenticated assignment equals the one bound at start
    source: Source,
    localTrouble: Option<string>)  // the first later check that raises

  const ERROR_LIMIT := 500

  function Clip(error: string): string {
    if |error| <= ERROR_LIMIT then error else error[..ERROR_LIMIT]
  }

  function Closed(): Latch {
    Latch(false, "native readiness validation has not completed", None, false, None, UnknownSource(""), false)
  }

  function MarkReady(l: Latch, digest: string, source: Source, binding: Option<Route>): Latch {
    Latch(true, "", Some(digest), true, binding, source, l.unlinkTried)
  }

  function MarkFailed(l: Latch, error: string): Latch {
    Latch(false, Clip(error), None, false, None, l.phase, true)
  }

  /** The validator's own run: the phase it leaves, and what it raises. */
  function Validate(phase: Source, o: Observation): (Source, Option<string>) {
    if !o.sameBinding then (phase, Some("Authenticated Enterprise role binding changed after readiness"))
    else
      var next := AdvancePhase(phase, o.source);
      if next.Err? then (phase, Some(next.error)) else (next.value, o.localTrouble)
  }

  predicate Armed(l: Latch) {
    l.ready && l.validator && l.digest.Some?
  }

  function EnsureCurrent(l: Latch, o: Observation): (Latch, bool) {
    if !Armed(l) then (l, false)
    else if o.file.None? then (MarkFailed(l, "native readiness file is unavailable"), false)
    else if o.file != l.digest then (MarkFailed(l, "native readiness file changed after validation"), false)
    else
      var (phase, trouble) := Validate(l.phase, o);
      if trouble.Some? then (MarkFailed(l.(phase := phase), trouble.value), false) else (l.(phase := phase), true)
  }

  /** The second lock of a provider check. */
  function CheckRoute(l: Latch, a: Agent): (Latch, bool) {
    if l.binding.None? then (MarkFailed(l, "managed provider binding is unavailable"), false)
    else if RouteOf(a) != l.binding.value then (MarkFailed(l, "effective provider route differs from managed binding"), false)
    else (l, true)
  }

  /** A provider check that nothing interrupts. */
  function EnsureProvider(l: Latch, o: Observation, a: Agent): (Latch, bool) {
    var (mid, ok) := EnsureCurrent(l, o);
    if !ok then (mid, false) else CheckRoute(mid, a)
  }

  predicate Shut(l: Latch) {
    !l.ready && l.binding.None? && l.digest.None? && !l.validator && l.unlinkTried
  }

  lemma MarkFailedShuts(l: Latch, error: string)
    ensures Shut(MarkFailed(l, error))
  {}

  predicate Current(l: Latch, o: Observation) {
    Armed(l) && o.file == l.digest && o.sameBinding && AdvancePhase(l.phase, o.source).Ok? && o.localTrouble.None?
  }

  lemma CurrentExactly(l: Latch, o: Observation)
    ensures EnsureCurrent(l, o).1 <==> Current(l, o)
    ensures EnsureCurrent(l, o).1 ==> EnsureCurrent(l, o).0 == l.(phase := o.source)
    ensures !EnsureCurrent(l, o).1 ==> EnsureCurrent(l, o).0 == l || (Armed(l) && Shut(EnsureCurrent(l, o).0))
    ensures !EnsureCurrent(l, o).1 && Armed(l) ==> Shut(EnsureCurrent(l, o).0)
  {
    if Armed(l) && o.file == l.digest {
      var (phase, trouble) := Validate(l.phase, o);
      if trouble.Some? { MarkFailedShuts(l.(phase := phase), trouble.value); }
    }
  }

  /** What admits a provider call, and that a refusal by an armed latch shuts it. */
  lemma AdmitsExactly(l: Latch, o: Observation, a: Agent)
    ensures EnsureProvider(l, o, a).1 <==> Current(l, o) && l.binding == Some(RouteOf(a))
    ensures !EnsureProvider(l, o, a).1 && Armed(l) ==> Shut(EnsureProvider(l, o, a).0)
    ensures !Armed(l) ==> EnsureProvider(l, o, a) == (l, false)
  {
    CurrentExactly(l, o);
  }

  class NativePolicyState {
    var ready: bool
    var error: string
    var digest: Option<string>
    var validator: bool
    var binding: Option<Route>
    var phase: Source
    var unlinkTried: bool

    function State(): Latch
      reads this
    {
      Latch(ready, error, digest, validator, binding, phase, unlinkTried)
    }

    constructor ()
      ensures State() == Closed()
    {
      ready, error := false, "native readiness validation has not completed";
      digest, validator, binding, phase, unlinkTried := None, false, None, UnknownSource(""), false;
    }

    method SetReady(newDigest: string, source: Source, providerBinding: Option<Route>)
      modifies this
      ensures State() == MarkReady(old(State()), newDigest, source, providerBinding)
    {
      digest, validator, binding, phase := Some(newDigest), true, providerBinding, source;
      error := "";
      ready := true;
    }

    method SetFailed(e: string)
      modifies this
      ensures State() == MarkFailed(old(State()), e)
    {
      ready := false;
      error := Clip(e);
      digest, validator, binding := None, false, None;
      unlinkTried := true;
    }

    method EnsureCurrentNow(o: Observation) returns (ok: bool)
      modifies this
      ensures (State(), ok) == EnsureCurrent(old(State()), o)
    {
      if !ready || !validator || digest.None? { return false; }
      if o.file.None? {
        SetFailed("native readiness file is unavailable");
        return false;
      }
      if o.file != digest {
        SetFailed("native readiness file changed after validation");
        return false;
      }
      if !o.sameBinding {
        SetFailed("Authenticated Enterprise role binding changed after readiness");
        return false;
      }
      var next := AdvancePhase(phase, o.source);
      if next.Err? {
        SetFailed(next.error);
        return false;
      }
      phase := next.value;
      if o.localTrouble.Some? {
        SetFailed(o.localTrouble.value);
        return false;
      }
      return true;
    }

    method CheckRouteNow(a: Agent) returns (ok: bool)
      modifies this
      ensures (State(), ok) == CheckRoute(old(State()), a)
    {
      if binding.None? {
        SetFailed("managed provider binding is unavailable");
        return false;
      }
      if RouteOf(a) != binding.value {
        SetFailed("effective provider route differs from managed binding");
        return false;
      }
      return true;
    }

    /** Both locks with nothing in between; the runs below let anything happen in between. */
    method EnsureProviderCurrent(o: Observation, a: Agent) returns (ok: bool)
      modifies this
      ensures (State(), ok) == EnsureProvider(old(State()), o, a)
    {
      ok := EnsureCurrentNow(o);
      if ok { ok := CheckRouteNow(a); }
    }
  }

  // ---- Threads --------------------------------------------------------------

  type Thread = nat

  /** What the threads did to the latch, in lock order. */
  datatype Entry =
    | Opened(source: Source)
    | Validated(thread: Thread, source: Source)            // a first check that passed; tools and requests go ahead on it
    | Called(thread: Thread, validation: nat, route: Route)   // a provider call admitted, and where its first check stands in the log
    | Failed

  datatype Initializer = Starting | Marked | Ended

  datatype System = System(latch: Latch, initializer: Initializer, between: map<Thread, nat>, log: seq<Entry>)

  datatype Step =
    | Initialize(digest: string, source: Source, binding: Route)
    | InitializerFails(error: string)
    | Check(t: Thread, o: Observation)           // health, run and tool guards
    | FirstCheck(t: Thread, o: Observation)      // a provider call's first lock
    | SecondCheck(t: Thread, a: Agent)           // and its second
    | Abandon(t: Thread)

  function Checked(s: System, t: Thread, o: Observation, provider: bool): System {
    var (latch, ok) := EnsureCurrent(s.latch, o);
    s.(latch := latch,
       between := if ok && provider then s.between[t := |s.log|] else s.between,
       log := if ok then s.log + [Validated(t, o.source)] else if Armed(s.latch) then s.log + [Failed] else s.log)
  }

  function Next(s: System, step: Step): System {
    match step
    case Initialize(digest, source, binding) =>
      if s.initializer != Starting then s
      else s.(latch := MarkReady(s.latch, digest, source, Some(binding)), initializer := Marked, log := s.log + [Opened(source)])
    case InitializerFails(error) =>
      if s.initializer == Ended then s
      else s.(latch := MarkFailed(s.latch, error), initializer := Ended, log := s.log + [Failed])
    case Check(t, o) => Checked(s, t, o, false)
    case FirstCheck(t, o) => if t in s.between then s else Checked(s, t, o, true)
    case SecondCheck(t, a) =>
      if t !in s.between then s
      else
        var (latch, ok) := CheckRoute(s.latch, a);
        s.(latch := latch, between := s.between - {t},
           log := s.log + [if ok then Called(t, s.between[t], RouteOf(a)) else Failed])
    case Abandon(t) => s.(between := s.between - {t})
  }

  function Run(steps: seq<Step>): System {
    if steps == [] then System(Closed(), Starting, map[], []) else Next(Run(steps[..|steps| - 1]), steps[|steps| - 1])
  }

  predicate Sees(e: Entry, source: Source) {
    (e.Opened? || e.Validated?) && e.source == source
  }

  /** Whatever follows a failure is a failure. */
  ghost predicate FailedForGood(log: seq<Entry>) {
    forall i, j :: 0 <= i < j < |log| && log[i].Failed? ==> log[j].Failed?
  }

  /** No validation after a sighted assignment accepts a preflight grant. */
  ghost predicate NeverRegresses(log: seq<Entry>) {
    forall i, j :: 0 <= i < j < |log| && Sees(log[i], EnterpriseAssignment) && log[j].Validated? ==> log[j].source == EnterpriseAssignment
  }

  ghost predicate CallsAreValidated(log: seq<Entry>) {
    forall j :: 0 <= j < |log| && log[j].Called? ==> log[j].validation < j && ValidatedBy(log[log[j].validation], log[j].thread)
  }

  predicate ValidatedBy(e: Entry, t: Thread) {
    e.Validated? && e.thread == t
  }

  ghost predicate Unfailed(log: seq<Entry>) {
    forall i :: 0 <= i < |log| ==> !log[i].Failed?
  }

  ghost predicate Sighted(log: seq<Entry>) {
    exists i :: 0 <= i < |log| && Sees(log[i], EnterpriseAssignment)
  }

  ghost predicate LogOk(log: seq<Entry>) {
    FailedForGood(log) && NeverRegresses(log) && CallsAreValidated(log)
  }

  ghost predicate Inv(s: System) {
    && LogOk(s.log)
    && (s.latch.binding.Some? ==> s.latch.ready)
    && (s.latch.ready ==> s.initializer == Marked && Unfailed(s.log))
    && (s.initializer == Starting ==> s.log == [] && s.latch == Closed())
    && (s.latch.ready && Sighted(s.log) ==> s.latch.phase == EnterpriseAssignment)
    && (forall t :: t in s.between ==> s.between[t] < |s.log| && ValidatedBy(s.log[s.between[t]], t))
  }

  lemma GrowsOk(log: seq<Entry>, e: Entry)
    requires LogOk(log)
    requires e.Failed? || Unfailed(log)
    requires e.Validated? && Sighted(log) ==> e.source == EnterpriseAssignment
    requires e.Called? ==> e.validation < |log| && ValidatedBy(log[e.validation], e.thread)
    ensures LogOk(log + [e])
    ensures !e.Failed? ==> Unfailed(log + [e])
    ensures Sighted(log + [e]) <==> Sighted(log) || Sees(e, EnterpriseAssignment)
  {
    var all := log + [e];
    forall j | 0 <= j < |all| && all[j].Called? ensures all[j].validation < j && ValidatedBy(all[all[j].validation], all[j].thread) {
      if j < |log| { assert all[j] == log[j]; }
    }
    forall i, j | 0 <= i < j < |all| && Sees(all[i], EnterpriseAssignment) && all[j].Validated? ensures all[j].source == EnterpriseAssignment {
      assert all[i] == log[i];
    }
    forall i, j | 0 <= i < j < |all| && all[i].Failed? ensures all[j].Failed? {
      assert all[i] == log[i];
    }
    if Sighted(log) {
      var i :| 0 <= i < |log| && Sees(log[i], EnterpriseAssignment);
      assert all[i] == log[i];
    }
    if Sees(e, EnterpriseAssignment) { assert all[|log|] == e; }
    if Sighted(all) {
      var i :| 0 <= i < |all| && Sees(all[i], EnterpriseAssignment);
      assert i < |log| ==> all[i] == log[i];
    }
  }

  lemma ValidatedKeeps(s: System, t: Thread, source: Source, provider: bool)
    requires Inv(s) && s.latch.ready && (provider ==> t !in s.between)
    requires s.latch.phase == EnterpriseAssignment ==> source == EnterpriseAssignment
    ensures Inv(s.(latch := s.latch.(phase := source), between := if provider then s.between[t := |s.log|] else s.between,
                   log := s.log + [Validated(t, source)]))
  {
    GrowsOk(s.log, Validated(t, source));
  }

  lemma ShutKeeps(s: System, latch: Latch, between: map<Thread, nat>)
    requires Inv(s) && Shut(latch) && s.initializer != Starting
    requires forall t :: t in between ==> t in s.between && between[t] == s.between[t]
    ensures Inv(s.(latch := latch, between := between, log := s.log + [Failed]))
  {
    GrowsOk(s.log, Failed);
  }

  lemma CheckedKeeps(s: System, t: Thread, o: Observation, provider: bool)
    requires Inv(s) && (provider ==> t !in s.between)
    ensures Inv(Checked(s, t, o, provider))
  {
    hide Inv, EnsureCurrent, AdvancePhase;
    CurrentExactly(s.latch, o);
    if s.latch.ready { ArmedIsMarked(s); }
    var (latch, ok) := EnsureCurrent(s.latch, o);
    if ok {
      NoWayBack(s.latch.phase, o.source);
      ValidatedKeeps(s, t, o.source, provider);
    } else if Armed(s.latch) {
      ShutKeeps(s, latch, s.between);
    }
  }

  lemma ArmedIsMarked(s: System)
    requires Inv(s) && s.latch.ready
    ensures s.initializer == Marked
  {}

  lemma NoWayBack(phase: Source, source: Source)
    requires AdvancePhase(phase, source).Ok?
    ensures phase == EnterpriseAssignment ==> source == EnterpriseAssignment
  {}

  lemma RouteExactly(l: Latch, a: Agent)
    ensures CheckRoute(l, a).1 <==> l.binding == Some(RouteOf(a))
    ensures CheckRoute(l, a).1 ==> CheckRoute(l, a).0 == l
    ensures !CheckRoute(l, a).1 ==> Shut(CheckRoute(l, a).0)
  {}

  lemma BetweenIsStarted(s: System, t: Thread)
    requires Inv(s) && t in s.between
    ensures s.initializer != Starting
  {}

  lemma SecondCheckKeeps(s: System, t: Thread, a: Agent)
    requires Inv(s) && t in s.between
    ensures Inv(Next(s, SecondCheck(t, a)))
  {
    hide Inv, CheckRoute, RouteOf;
    RouteExactly(s.latch, a);
    BetweenIsStarted(s, t);
    var (latch, ok) := CheckRoute(s.latch, a);
    if ok {
      CalledKeeps(s, t, RouteOf(a));
    } else {
      ShutKeeps(s, latch, s.between - {t});
    }
  }

  lemma CalledKeeps(s: System, t: Thread, route: Route)
    requires Inv(s) && t in s.between && s.latch.binding.Some?
    ensures Inv(s.(between := s.between - {t}, log := s.log + [Called(t, s.between[t], route)]))
  {
    GrowsOk(s.log, Called(t, s.between[t], route));
  }

  lemma InvNext(s: System, step: Step)
    requires Inv(s)
    ensures Inv(Next(s, step))
  {
    match step {
      case Initialize(_, source, _) => if s.initializer == Starting { GrowsOk(s.log, Opened(source)); }
      case InitializerFails(_) => GrowsOk(s.log, Failed);
      case Check(t, o) => CheckedKeeps(s, t, o, false);
      case FirstCheck(t, o) => if t !in s.between { CheckedKeeps(s, t, o, true); }
      case SecondCheck(t, a) => if t in s.between { SecondCheckKeeps(s, t, a); }
      case Abandon(_) =>
    }
  }

  lemma {:induction false} InvRun(steps: seq<Step>)
    ensures Inv(Run(steps))
    decreases |steps|
  {
    if steps != [] {
      InvRun(steps[..|steps| - 1]);
      InvNext(Run(steps[..|steps| - 1]), steps[|steps| - 1]);
    }
  }

  // ---- What every interleaving keeps ----------------------------------------

  lemma StepLogGrows(s: System, step: Step)
    ensures s.log <= Next(s, step).log
  {}

  lemma {:induction false} LogGrows(steps: seq<Step>, n: nat)
    requires n <= |steps|
    ensures Run(steps[..n]).log <= Run(steps).log
    decreases |steps|
  {
    hide Next;
    if n == |steps| {
      assert steps[..n] == steps;
    } else {
      var front := steps[..|steps| - 1];
      assert front[..n] == steps[..n];
      LogGrows(front, n);
      StepLogGrows(Run(front), steps[|steps| - 1]);
    }
  }

  /** A provider call passes its second lock only while the latch is ready and the route is the bound one. */
  lemma CalledOnlyWhenReady(steps: seq<Step>, t: Thread, a: Agent)
    requires t in Run(steps).between && CheckRoute(Run(steps).latch, a).1
    ensures Run(steps).latch.ready && Run(steps).latch.binding == Some(RouteOf(a))
  {
    InvRun(steps);
  }

  /** After the first failure nothing is admitted again, whatever the threads do. */
  lemma FailsClosed(steps: seq<Step>, n: nat, o: Observation, a: Agent)
    requires n <= |steps| && Failed in Run(steps[..n]).log
    ensures !EnsureCurrent(Run(steps).latch, o).1 && !CheckRoute(Run(steps).latch, a).1
    ensures var before := |Run(steps[..n]).log|;
      forall j :: before <= j < |Run(steps).log| ==> Run(steps).log[j] == Failed
  {
    LogGrows(steps, n);
    InvRun(steps);
    var early, log := Run(steps[..n]).log, Run(steps).log;
    var i :| 0 <= i < |early| && early[i] == Failed;
    assert log[i] == early[i];
  }

  ghost predicate PreflightCall(log: seq<Entry>, j: nat) {
    && j < |log| && log[j].Called? && log[j].validation < |log|
    && Sees(log[log[j].validation], PreflightGrant)
  }

  /** A call admitted after an assignment was sighted, on a check that saw a preflight grant. */
  ghost predicate LatePreflightCall(log: seq<Entry>) {
    exists k, j :: 0 <= k < j < |log| && Sees(log[k], EnterpriseAssignment) && PreflightCall(log, j)
  }

  /** A sighting between the two locks of such a call. */
  ghost predicate SplitCall(log: seq<Entry>) {
    exists k, j :: 0 <= k < j < |log| && Sees(log[k], EnterpriseAssignment) && PreflightCall(log, j) && log[j].validation < k
  }

  lemma SightedAfterwards(log: seq<Entry>, k: nat, v: nat)
    requires NeverRegresses(log) && k < |log| && v < |log|
    requires Sees(log[k], EnterpriseAssignment) && log[v].Validated? && log[v].source == PreflightGrant
    ensures v < k
  {}

  /** Checks never go back to preflight; a call does so exactly when the sighting fell between its two locks. */
  lemma LateCallsAreSplit(steps: seq<Step>)
    ensures NeverRegresses(Run(steps).log)
    ensures LatePreflightCall(Run(steps).log) <==> SplitCall(Run(steps).log)
  {
    InvRun(steps);
    var log := Run(steps).log;
    if LatePreflightCall(log) {
      var k, j :| 0 <= k < j < |log| && Sees(log[k], EnterpriseAssignment) && PreflightCall(log, j);
      var v := log[j].validation;
      assert ValidatedBy(log[v], log[j].thread);
      SightedAfterwards(log, k, v);
      assert SplitCall(log);
    }
  }

  const ROUTE := Route("custom", "https://e/model/v1", "k", "chat_completions")
  const AGENT := Agent(Some("custom"), Some("https://e/model/v1"), Some("k"), Some("chat_completions"))

  function Seen(source: Source): Observation {
    Observation(Some("d"), true, source, None)
  }

  lemma RunNext(steps: seq<Step>, n: nat)
    requires n < |steps|
    ensures Run(steps[..n + 1]) == Next(Run(steps[..n]), steps[n])
  {
    assert steps[..n + 1][..n] == steps[..n];
  }

  /** The window is real: one thread validates on preflight, another sights the assignment, the first is then admitted. */
  lemma SplitCallsHappen() returns (steps: seq<Step>)
    ensures SplitCall(Run(steps).log)
  {
    hide EnsureCurrent, CheckRoute, RouteOf, Checked;
    steps := [Initialize("d", PreflightGrant, ROUTE), FirstCheck(0, Seen(PreflightGrant)),
              Check(1, Seen(EnterpriseAssignment)), SecondCheck(0, AGENT)];
    assert steps[..0] == [];
    RunNext(steps, 0);
    RunNext(steps, 1);
    RunNext(steps, 2);
    RunNext(steps, 3);
    assert steps[..4] == steps;
    PassesCurrent(Run(steps[..1]), 0, PreflightGrant, true);
    PassesCurrent(Run(steps[..2]), 1, EnterpriseAssignment, false);
    PassesRoute(Run(steps[..3]));
    var log := Run(steps).log;
    assert log == [Opened(PreflightGrant), Validated(0, PreflightGrant), Validated(1, EnterpriseAssignment), Called(0, 1, ROUTE)];
    assert Sees(log[2], EnterpriseAssignment) && PreflightCall(log, 3);
  }

  lemma PassesCurrent(s: System, t: Thread, source: Source, provider: bool)
    requires Armed(s.latch) && s.latch.digest == Some("d") && AdvancePhase(s.latch.phase, source) == Ok(source)
    ensures Checked(s, t, Seen(source), provider) ==
      s.(latch := s.latch.(phase := source), between := if provider then s.between[t := |s.log|] else s.between,
         log := s.log + [Validated(t, source)])
  {
    CurrentExactly(s.latch, Seen(source));
  }

  lemma PassesRoute(s: System)
    requires s.latch.binding == Some(ROUTE)
    ensures CheckRoute(s.latch, AGENT) == (s.latch, true) && RouteOf(AGENT) == ROUTE
  {
    NoSlashToDrop("https://e/model/v1");
  }

  lemma NoSlashToDrop(s: string)
    requires s != "" && s[|s| - 1] != '/'
    ensures WithoutSlashes(s) == s
  {}
}
