/**
  What a run log must look like, said about the whole log with no state, and the
  proof that the validator's one pass reports exactly the departures from it.
 */
module RunLogSpec {
  import opened Wrappers
  import opened RunLog

  ghost predicate HasBody(events: seq<Event>, i: int, b: Body) {
    0 <= i < |events| && events[i].Parsed? && events[i].body == b
  }

  ghost predicate IsStatusOf(events: seq<Event>, i: int, r: RunId) {
    0 <= i < |events| && events[i].Parsed? && events[i].body.StatusIs? && events[i].body.run == r
  }

  ghost predicate Records(events: seq<Event>, i: int, g: GuidanceId) {
    0 <= i < |events| && events[i].Parsed? && events[i].body.Appended?
    && events[i].body.isGuidance && events[i].body.message == g
  }

  ghost predicate StartedIn(events: seq<Event>, r: RunId) {
    exists i :: HasBody(events, i, Started(r))
  }

  ghost predicate RecordedIn(events: seq<Event>, known: set<GuidanceId>, g: GuidanceId) {
    g in known || exists i :: Records(events, i, g)
  }

  /** The last status event of the run says `status`. */
  ghost predicate LastStatusIs(events: seq<Event>, r: RunId, status: Status) {
    exists i :: HasBody(events, i, StatusIs(r, status)) && forall k :: i < k ==> !IsStatusOf(events, k, r)
  }

  /** Some final of the turn has no reset of the turn after it. */
  ghost predicate FinalStands(events: seq<Event>, r: RunId, turn: nat) {
    exists i :: HasBody(events, i, Final(r, turn)) && forall k :: i < k ==> !HasBody(events, k, Reset(r, turn))
  }

  ghost predicate StreamedIn(events: seq<Event>, r: RunId, turn: nat) {
    exists i :: HasBody(events, i, Delta(r, turn))
  }

  ghost predicate IdNotBelow(events: seq<Event>, i: int, id: nat) {
    0 <= i < |events| && events[i].Parsed? && events[i].id >= id
  }

  ghost predicate SomeIdNotBelow(events: seq<Event>, id: nat) {
    exists i :: IdNotBelow(events, i, id)
  }

  /** Row `e`, arriving after the log `before`, breaks `rule`. */
  ghost predicate Breaks(before: seq<Event>, known: set<GuidanceId>, e: Event, rule: Rule) {
    if e.Malformed? then rule == Schema
    else match rule
      case Schema => false
      case MonotonicId => SomeIdNotBelow(before, e.id)
      case EventBeforeStart => e.body.Stepped? && !StartedIn(before, e.body.run)
      case StepAfterStopped =>
        e.body.Stepped? && exists s: Status :: s.Terminal() && LastStatusIs(before, e.body.run, s)
      case StatusAfterTerminal =>
        e.body.StatusIs?
        && exists s: Status :: s.Terminal() && s != e.body.status && LastStatusIs(before, e.body.run, s)
      case GuidanceBeforeRecord => e.body.GuidanceApplied? && !RecordedIn(before, known, e.body.guidance)
      case DeltaAfterFinal => e.body.Delta? && FinalStands(before, e.body.run, e.body.turn)
      case DuplicateFinal => e.body.Final? && FinalStands(before, e.body.run, e.body.turn)
  }

  // ---- The state means what the log says ------------------------------------

  ghost predicate RunMeaning(events: seq<Event>, run: RunState, r: RunId) {
    && (run.started <==> StartedIn(events, r))
    && (forall s: Status :: run.status == Some(s) <==> LastStatusIs(events, r, s))
    && (forall t: nat :: t in run.finals <==> FinalStands(events, r, t))
    && run.finalizedTurns == run.finals
    && (forall t: nat :: t in run.deltaTurns <==> StreamedIn(events, r, t))
  }

  ghost predicate Meaning(events: seq<Event>, known: set<GuidanceId>, s: State) {
    && (forall id: nat :: SomeIdNotBelow(events, id) <==> s.lastId.Some? && id <= s.lastId.value)
    && (forall g :: g in s.guidance <==> RecordedIn(events, known, g))
    && (forall r :: RunMeaning(events, s.RunOf(r), r))
  }

  lemma {:induction false} StartedAppend(before: seq<Event>, e: Event, r: RunId)
    ensures StartedIn(before + [e], r) <==> StartedIn(before, r) || (e.Parsed? && e.body == Started(r))
  {
    var events := before + [e];
    forall i | HasBody(before, i, Started(r)) ensures HasBody(events, i, Started(r)) {}
    if e.Parsed? && e.body == Started(r) { assert HasBody(events, |before|, Started(r)); }
    if i :| HasBody(events, i, Started(r)) { assert i == |before| || HasBody(before, i, Started(r)); }
  }

  lemma {:induction false} StreamedAppend(before: seq<Event>, e: Event, r: RunId, t: nat)
    ensures StreamedIn(before + [e], r, t) <==> StreamedIn(before, r, t) || (e.Parsed? && e.body == Delta(r, t))
  {
    var events := before + [e];
    forall i | HasBody(before, i, Delta(r, t)) ensures HasBody(events, i, Delta(r, t)) {}
    if e.Parsed? && e.body == Delta(r, t) { assert HasBody(events, |before|, Delta(r, t)); }
    if i :| HasBody(events, i, Delta(r, t)) { assert i == |before| || HasBody(before, i, Delta(r, t)); }
  }

  lemma {:induction false} StatusAppend(before: seq<Event>, e: Event, r: RunId, s: Status)
    ensures LastStatusIs(before + [e], r, s) <==>
      if e.Parsed? && e.body.StatusIs? && e.body.run == r then e.body.status == s else LastStatusIs(before, r, s)
  {
    var events, n := before + [e], |before|;
    if IsStatusOf(events, n, r) {
      if e.body.status == s { assert HasBody(events, n, StatusIs(r, s)); }
      if i :| HasBody(events, i, StatusIs(r, s)) && forall k :: i < k ==> !IsStatusOf(events, k, r) {
        assert i >= n;
      }
    } else {
      if i :| HasBody(before, i, StatusIs(r, s)) && forall k :: i < k ==> !IsStatusOf(before, k, r) {
        assert HasBody(events, i, StatusIs(r, s));
        forall k | i < k ensures !IsStatusOf(events, k, r) { assert !IsStatusOf(before, k, r); }
      }
      if i :| HasBody(events, i, StatusIs(r, s)) && forall k :: i < k ==> !IsStatusOf(events, k, r) {
        assert HasBody(before, i, StatusIs(r, s));
        forall k | i < k ensures !IsStatusOf(before, k, r) { assert !IsStatusOf(events, k, r); }
      }
    }
  }

  lemma {:induction false} FinalAppend(before: seq<Event>, e: Event, r: RunId, t: nat)
    ensures FinalStands(before + [e], r, t) <==>
      if e.Parsed? && e.body == Final(r, t) then true
      else if e.Parsed? && e.body == Reset(r, t) then false
      else FinalStands(before, r, t)
  {
    var events, n := before + [e], |before|;
    if e.Parsed? && e.body == Final(r, t) {
      assert HasBody(events, n, Final(r, t));
    } else if e.Parsed? && e.body == Reset(r, t) {
      assert HasBody(events, n, Reset(r, t));
    } else {
      if i :| HasBody(before, i, Final(r, t)) && forall k :: i < k ==> !HasBody(before, k, Reset(r, t)) {
        assert HasBody(events, i, Final(r, t));
        forall k | i < k ensures !HasBody(events, k, Reset(r, t)) { assert !HasBody(before, k, Reset(r, t)); }
      }
      if i :| HasBody(events, i, Final(r, t)) && forall k :: i < k ==> !HasBody(events, k, Reset(r, t)) {
        assert HasBody(before, i, Final(r, t));
        forall k | i < k ensures !HasBody(before, k, Reset(r, t)) { assert !HasBody(events, k, Reset(r, t)); }
      }
    }
  }

  lemma {:induction false} RecordedAppend(before: seq<Event>, known: set<GuidanceId>, e: Event, g: GuidanceId)
    ensures RecordedIn(before + [e], known, g) <==>
      RecordedIn(before, known, g) || (e.Parsed? && e.body.Appended? && e.body.isGuidance && e.body.message == g)
  {
    var events := before + [e];
    forall i | Records(before, i, g) ensures Records(events, i, g) {}
    assert Records(events, |before|, g) <==>
      e.Parsed? && e.body.Appended? && e.body.isGuidance && e.body.message == g;
    if i :| Records(events, i, g) { assert i == |before| || Records(before, i, g); }
  }

  lemma {:induction false} IdAppend(before: seq<Event>, e: Event, id: nat)
    ensures SomeIdNotBelow(before + [e], id) <==> SomeIdNotBelow(before, id) || (e.Parsed? && e.id >= id)
  {
    var events := before + [e];
    forall i | IdNotBelow(before, i, id) ensures IdNotBelow(events, i, id) {}
    assert IdNotBelow(events, |before|, id) <==> e.Parsed? && e.id >= id;
    if i :| IdNotBelow(events, i, id) { assert i == |before| || IdNotBelow(before, i, id); }
  }

  lemma {:induction false} StateMeansLog(events: seq<Event>, known: set<GuidanceId>)
    ensures Meaning(events, known, StateAfter(events, known))
    decreases |events|
  {
    var s := StateAfter(events, known);
    if events != [] {
      var before, e := events[..|events| - 1], events[|events| - 1];
      assert events == before + [e];
      var s0 := StateAfter(before, known);
      StateMeansLog(before, known);
      forall id: nat ensures SomeIdNotBelow(events, id) <==> s.lastId.Some? && id <= s.lastId.value {
        IdAppend(before, e, id);
      }
      forall g ensures g in s.guidance <==> RecordedIn(events, known, g) { RecordedAppend(before, known, e, g); }
      forall r ensures RunMeaning(events, s.RunOf(r), r) {
        assert RunMeaning(before, s0.RunOf(r), r);
        RunStep(before, known, e, r);
      }
    }
  }

  lemma {:induction false} RunStep(before: seq<Event>, known: set<GuidanceId>, e: Event, r: RunId)
    requires RunMeaning(before, StateAfter(before, known).RunOf(r), r)
    ensures RunMeaning(before + [e], Step(StateAfter(before, known), e).RunOf(r), r)
  {
    var events := before + [e];
    var s := Step(StateAfter(before, known), e);
    StartedAppend(before, e, r);
    forall st: Status ensures s.RunOf(r).status == Some(st) <==> LastStatusIs(events, r, st) {
      StatusAppend(before, e, r, st);
    }
    forall t: nat ensures t in s.RunOf(r).finals <==> FinalStands(events, r, t) { FinalAppend(before, e, r, t); }
    forall t: nat ensures t in s.RunOf(r).deltaTurns <==> StreamedIn(events, r, t) { StreamedAppend(before, e, r, t); }
  }

  // ---- Reports are exactly the broken rules ---------------------------------

  ghost function When(broken: bool, rule: Rule): seq<Rule> {
    if broken then [rule] else []
  }

  ghost function BrokenRules(before: seq<Event>, known: set<GuidanceId>, e: Event): seq<Rule> {
    When(Breaks(before, known, e, Schema), Schema)
    + When(Breaks(before, known, e, MonotonicId), MonotonicId)
    + When(Breaks(before, known, e, EventBeforeStart), EventBeforeStart)
    + When(Breaks(before, known, e, StepAfterStopped), StepAfterStopped)
    + When(Breaks(before, known, e, StatusAfterTerminal), StatusAfterTerminal)
    + When(Breaks(before, known, e, GuidanceBeforeRecord), GuidanceBeforeRecord)
    + When(Breaks(before, known, e, DeltaAfterFinal), DeltaAfterFinal)
    + When(Breaks(before, known, e, DuplicateFinal), DuplicateFinal)
  }

  ghost function ExpectedReports(events: seq<Event>, known: set<GuidanceId>): seq<Violation> {
    if events == [] then []
    else
      var n := |events| - 1;
      ExpectedReports(events[..n], known) + At(n, events[n], BrokenRules(events[..n], known, events[n]))
  }

  lemma FoundInStep(before: seq<Event>, known: set<GuidanceId>, s: State, b: Body)
    requires Meaning(before, known, s) && b.Stepped?
    ensures FoundInBody(s, b) ==
      When(!StartedIn(before, b.run), EventBeforeStart)
      + When(exists t: Status :: t.Terminal() && LastStatusIs(before, b.run, t), StepAfterStopped)
  {
    assert RunMeaning(before, s.RunOf(b.run), b.run);
    if s.RunOf(b.run).status.Some? { assert LastStatusIs(before, b.run, s.RunOf(b.run).status.value); }
  }

  lemma FoundInStatus(before: seq<Event>, known: set<GuidanceId>, s: State, b: Body)
    requires Meaning(before, known, s) && b.StatusIs?
    ensures FoundInBody(s, b) ==
      When(exists t: Status :: t.Terminal() && t != b.status && LastStatusIs(before, b.run, t), StatusAfterTerminal)
  {
    assert RunMeaning(before, s.RunOf(b.run), b.run);
    if s.RunOf(b.run).status.Some? { assert LastStatusIs(before, b.run, s.RunOf(b.run).status.value); }
  }

  lemma FoundInTurn(before: seq<Event>, known: set<GuidanceId>, s: State, b: Body)
    requires Meaning(before, known, s) && (b.Delta? || b.Final?)
    ensures FoundInBody(s, b) == When(FinalStands(before, b.run, b.turn), if b.Delta? then DeltaAfterFinal else DuplicateFinal)
  {
    assert RunMeaning(before, s.RunOf(b.run), b.run);
  }

  lemma MonotonicFound(before: seq<Event>, known: set<GuidanceId>, s: State, e: Event)
    requires Meaning(before, known, s) && e.Parsed?
    ensures Found(s, e) == When(SomeIdNotBelow(before, e.id), MonotonicId) + FoundInBody(s, e.body)
  {}

  lemma StepIsBroken(before: seq<Event>, known: set<GuidanceId>, s: State, e: Event)
    requires Meaning(before, known, s) && e.Parsed? && e.body.Stepped?
    ensures Found(s, e) == BrokenRules(before, known, e)
  {
    MonotonicFound(before, known, s, e);
    FoundInStep(before, known, s, e.body);
  }

  lemma StatusIsBroken(before: seq<Event>, known: set<GuidanceId>, s: State, e: Event)
    requires Meaning(before, known, s) && e.Parsed? && e.body.StatusIs?
    ensures Found(s, e) == BrokenRules(before, known, e)
  {
    MonotonicFound(before, known, s, e);
    FoundInStatus(before, known, s, e.body);
  }

  lemma TurnIsBroken(before: seq<Event>, known: set<GuidanceId>, s: State, e: Event)
    requires Meaning(before, known, s) && e.Parsed? && (e.body.Delta? || e.body.Final?)
    ensures Found(s, e) == BrokenRules(before, known, e)
  {
    MonotonicFound(before, known, s, e);
    FoundInTurn(before, known, s, e.body);
  }

  lemma GuidanceIsBroken(before: seq<Event>, known: set<GuidanceId>, s: State, e: Event)
    requires Meaning(before, known, s) && e.Parsed? && e.body.GuidanceApplied?
    ensures Found(s, e) == BrokenRules(before, known, e)
  {
    MonotonicFound(before, known, s, e);
  }

  lemma OthersAreBroken(before: seq<Event>, known: set<GuidanceId>, s: State, e: Event)
    requires Meaning(before, known, s)
    requires e.Malformed? || e.body.Started? || e.body.Appended? || e.body.Reset? || e.body.Unchecked?
    ensures Found(s, e) == BrokenRules(before, known, e)
  {
    if e.Parsed? { MonotonicFound(before, known, s, e); }
  }

  lemma FoundIsBroken(before: seq<Event>, known: set<GuidanceId>, e: Event)
    ensures Found(StateAfter(before, known), e) == BrokenRules(before, known, e)
  {
    var s := StateAfter(before, known);
    StateMeansLog(before, known);
    if e.Malformed? {
      OthersAreBroken(before, known, s, e);
    } else {
      match e.body {
        case Stepped(_) => StepIsBroken(before, known, s, e);
        case StatusIs(_, _) => StatusIsBroken(before, known, s, e);
        case Delta(_, _) => TurnIsBroken(before, known, s, e);
        case Final(_, _) => TurnIsBroken(before, known, s, e);
        case GuidanceApplied(_, _) => GuidanceIsBroken(before, known, s, e);
        case _ => OthersAreBroken(before, known, s, e);
      }
    }
  }

  /** The reports, their order and their multiplicity are fixed by the stateless rules. */
  lemma {:induction false} ReportsAreExact(events: seq<Event>, known: set<GuidanceId>)
    ensures Reported(events, known) == ExpectedReports(events, known)
    decreases |events|
  {
    if events != [] {
      var n := |events| - 1;
      ReportsAreExact(events[..n], known);
      FoundIsBroken(events[..n], known, events[n]);
    }
  }

  // ---- Turns that streamed and never finished -------------------------------

  ghost predicate Distinct<T>(xs: seq<T>) {
    forall i, j :: 0 <= i < j < |xs| ==> xs[i] != xs[j]
  }

  ghost predicate Tidy(s: State) {
    && Distinct(s.order)
    && (forall r :: r in s.order <==> r in s.runs)
    && (forall r :: r in s.runs ==> Distinct(s.runs[r].deltaTurns))
  }

  lemma TidyWith(s: State, r: RunId, run: RunState)
    requires Tidy(s) && Distinct(run.deltaTurns)
    ensures Tidy(s.With(r, run))
  {
    forall q ensures q in s.With(r, run).order <==> q in s.With(r, run).runs {}
  }

  lemma InsertDistinct(turns: seq<nat>, t: nat)
    requires Distinct(turns)
    ensures Distinct(Insert(turns, t))
  {}

  lemma {:induction false} StateIsTidy(events: seq<Event>, known: set<GuidanceId>)
    ensures Tidy(StateAfter(events, known))
    decreases |events|
  {
    if events != [] {
      var e := events[|events| - 1];
      var s0 := StateAfter(events[..|events| - 1], known);
      StateIsTidy(events[..|events| - 1], known);
      if e.Parsed? && !e.body.GuidanceApplied? && !e.body.Appended? && !e.body.Unchecked? {
        var r := e.body.run;
        var after := StepBody(s0, e.body).runs[r];
        assert Distinct(s0.RunOf(r).deltaTurns);
        if e.body.Delta? { InsertDistinct(s0.RunOf(r).deltaTurns, e.body.turn); }
        TidyWith(s0, r, after);
        assert StepBody(s0, e.body) == s0.With(r, after);
      }
    }
  }

  lemma {:induction false} MissingInIs(r: RunId, run: RunState, turns: seq<nat>)
    requires Distinct(turns)
    ensures Distinct(MissingIn(r, run, turns))
    ensures forall v :: v in MissingIn(r, run, turns) <==>
      v.MissingFinal? && v.run == r && v.turn in turns && v.turn !in run.finals
    decreases |turns|
  {
    if turns != [] {
      var n := |turns| - 1;
      MissingInIs(r, run, turns[..n]);
      assert turns == turns[..n] + [turns[n]];
      assert turns[n] !in turns[..n];
    }
  }

  lemma {:induction false} MissingIs(s: State, order: seq<RunId>)
    requires Distinct(order) && forall r :: r in s.runs ==> Distinct(s.runs[r].deltaTurns)
    ensures Distinct(Missing(s, order))
    ensures forall v :: v in Missing(s, order) <==>
      v.MissingFinal? && v.run in order && v.turn in s.RunOf(v.run).deltaTurns && v.turn !in s.RunOf(v.run).finals
    decreases |order|
  {
    if order != [] {
      var n := |order| - 1;
      MissingIs(s, order[..n]);
      MissingInIs(order[n], s.RunOf(order[n]), s.RunOf(order[n]).deltaTurns);
      assert order == order[..n] + [order[n]];
      assert order[n] !in order[..n];
    }
  }

  /** One report per turn that streamed and has no standing final, and no other. */
  lemma {:induction false} MissingIsExact(events: seq<Event>, known: set<GuidanceId>)
    ensures var s := StateAfter(events, known);
      Distinct(Missing(s, s.order))
      && forall v :: v in Missing(s, s.order) <==>
        v.MissingFinal? && StreamedIn(events, v.run, v.turn) && !FinalStands(events, v.run, v.turn)
  {
    var s := StateAfter(events, known);
    StateIsTidy(events, known);
    StateMeansLog(events, known);
    MissingIs(s, s.order);
    forall v: Violation | v.MissingFinal?
      ensures v in Missing(s, s.order) <==>
        StreamedIn(events, v.run, v.turn) && !FinalStands(events, v.run, v.turn)
    {
      assert RunMeaning(events, s.RunOf(v.run), v.run);
    }
  }

  // ---- A valid log, in pairs of rows ----------------------------------------

  ghost predicate IdsIncrease(events: seq<Event>) {
    forall i, j :: 0 <= i < j < |events| && events[i].Parsed? && events[j].Parsed? ==> events[i].id < events[j].id
  }

  ghost predicate AllParsed(events: seq<Event>) {
    forall i :: 0 <= i < |events| ==> events[i].Parsed?
  }

  ghost predicate StepsFollowStart(events: seq<Event>) {
    forall j, r :: HasBody(events, j, Stepped(r)) ==> exists i :: i < j && HasBody(events, i, Started(r))
  }

  /** Nothing steps, and no other status appears, anywhere after a terminal status. */
  ghost predicate TerminalIsFinal(events: seq<Event>) {
    forall i, j, r, s: Status :: i < j && s.Terminal() && HasBody(events, i, StatusIs(r, s)) ==>
      !HasBody(events, j, Stepped(r)) && (IsStatusOf(events, j, r) ==> HasBody(events, j, StatusIs(r, s)))
  }

  ghost predicate ResetBetween(events: seq<Event>, i: int, j: int, r: RunId, turn: nat) {
    exists k :: i < k < j && HasBody(events, k, Reset(r, turn))
  }

  /** A turn that has its final gets neither text nor a final again without a reset between. */
  ghost predicate OneFinalPerTurn(events: seq<Event>) {
    forall i, j, r, t: nat ::
      (i < j && HasBody(events, i, Final(r, t)) && (HasBody(events, j, Final(r, t)) || HasBody(events, j, Delta(r, t))))
      ==> ResetBetween(events, i, j, r, t)
  }

  ghost predicate GuidanceIsRecorded(events: seq<Event>, known: set<GuidanceId>) {
    forall j, r, g :: HasBody(events, j, GuidanceApplied(r, g)) ==>
      g in known || exists i :: i < j && Records(events, i, g)
  }

  ghost predicate StreamedTurnsFinish(events: seq<Event>) {
    forall i, r, t: nat :: HasBody(events, i, Delta(r, t)) ==> FinalStands(events, r, t)
  }

  ghost predicate WellFormed(events: seq<Event>, requireFinalPerTurn: bool, known: set<GuidanceId>) {
    && AllParsed(events) && IdsIncrease(events)
    && StepsFollowStart(events) && TerminalIsFinal(events)
    && OneFinalPerTurn(events) && GuidanceIsRecorded(events, known)
    && (requireFinalPerTurn ==> StreamedTurnsFinish(events))
  }

  /** No row breaks a rule on arrival. */
  ghost predicate RowsHold(events: seq<Event>, known: set<GuidanceId>) {
    forall n, rule :: 0 <= n < |events| ==> !Breaks(events[..n], known, events[n], rule)
  }

  lemma ReportedLast(events: seq<Event>, known: set<GuidanceId>)
    requires events != []
    ensures var n := |events| - 1;
      Reported(events, known) == [] <==>
      Reported(events[..n], known) == [] && Found(StateAfter(events[..n], known), events[n]) == []
  {}

  lemma {:induction false} NoReportsIffRowsHold(events: seq<Event>, known: set<GuidanceId>)
    ensures Reported(events, known) == [] <==> RowsHold(events, known)
    decreases |events|
  {
    if events != [] {
      var n := |events| - 1;
      NoReportsIffRowsHold(events[..n], known);
      ReportedLast(events, known);
      FoundNothing(events[..n], known, events[n]);
      RowsHoldLast(events, known);
    }
  }

  lemma FoundNothing(before: seq<Event>, known: set<GuidanceId>, e: Event)
    ensures Found(StateAfter(before, known), e) == [] <==> Unbroken(before, known, e)
  {
    FoundIsBroken(before, known, e);
  }

  ghost predicate Unbroken(before: seq<Event>, known: set<GuidanceId>, e: Event) {
    forall rule :: !Breaks(before, known, e, rule)
  }

  lemma RowsHoldLast(events: seq<Event>, known: set<GuidanceId>)
    requires events != []
    ensures var n := |events| - 1;
      RowsHold(events, known) <==> RowsHold(events[..n], known) && Unbroken(events[..n], known, events[n])
  {
    var n := |events| - 1;
    var before := events[..n];
    assert forall k :: 0 <= k < n ==> before[..k] == events[..k] && before[k] == events[k];
    if RowsHold(events, known) {
      forall k, rule | 0 <= k < n ensures !Breaks(before[..k], known, before[k], rule) {
        assert !Breaks(events[..k], known, events[k], rule);
      }
    }
    if RowsHold(before, known) && Unbroken(before, known, events[n]) {
      forall k, rule | 0 <= k < |events| ensures !Breaks(events[..k], known, events[k], rule) {
        if k < n { assert !Breaks(before[..k], known, before[k], rule); }
      }
    }
  }

  lemma InPrefix(events: seq<Event>, n: nat)
    requires n <= |events|
    ensures forall i, b :: HasBody(events[..n], i, b) <==> i < n && HasBody(events, i, b)
    ensures forall i, r :: IsStatusOf(events[..n], i, r) <==> i < n && IsStatusOf(events, i, r)
    ensures forall i, g :: Records(events[..n], i, g) <==> i < n && Records(events, i, g)
    ensures forall i, id :: IdNotBelow(events[..n], i, id) <==> i < n && IdNotBelow(events, i, id)
  {}

  lemma {:induction false} TerminalStays(events: seq<Event>, known: set<GuidanceId>, i: int, n: nat, r: RunId, s: Status)
    requires RowsHold(events, known) && i < n <= |events|
    requires s.Terminal() && HasBody(events, i, StatusIs(r, s))
    ensures LastStatusIs(events[..n], r, s)
    decreases n
  {
    InPrefix(events, n);
    if n == i + 1 {
      assert HasBody(events[..n], i, StatusIs(r, s));
    } else {
      TerminalStays(events, known, i, n - 1, r, s);
      assert events[..n] == events[..n - 1] + [events[n - 1]];
      StatusAppend(events[..n - 1], events[n - 1], r, s);
      assert !Breaks(events[..n - 1], known, events[n - 1], StatusAfterTerminal);
    }
  }

  lemma {:induction false} FinalStaysOpen(events: seq<Event>, i: int, n: nat, r: RunId, t: nat)
    requires i < n <= |events| && HasBody(events, i, Final(r, t)) && !ResetBetween(events, i, n, r, t)
    ensures FinalStands(events[..n], r, t)
  {
    InPrefix(events, n);
    assert HasBody(events[..n], i, Final(r, t));
  }

  lemma {:induction false} RowsHoldMeansWellFormed(events: seq<Event>, known: set<GuidanceId>)
    requires RowsHold(events, known)
    ensures WellFormed(events, false, known)
  {
    forall i | 0 <= i < |events| ensures events[i].Parsed? { assert !Breaks(events[..i], known, events[i], Schema); }
    forall i, j | 0 <= i < j < |events| && events[i].Parsed? && events[j].Parsed? ensures events[i].id < events[j].id {
      InPrefix(events, j);
      assert !Breaks(events[..j], known, events[j], MonotonicId);
      assert !IdNotBelow(events[..j], i, events[j].id);
    }
    forall j, r | HasBody(events, j, Stepped(r)) ensures exists i :: i < j && HasBody(events, i, Started(r)) {
      InPrefix(events, j);
      assert !Breaks(events[..j], known, events[j], EventBeforeStart);
    }
    forall i, j, r, s: Status | i < j && s.Terminal() && HasBody(events, i, StatusIs(r, s))
      ensures !HasBody(events, j, Stepped(r)) && (IsStatusOf(events, j, r) ==> HasBody(events, j, StatusIs(r, s)))
    {
      if j < |events| {
        TerminalStays(events, known, i, j, r, s);
        assert !Breaks(events[..j], known, events[j], StepAfterStopped);
        assert !Breaks(events[..j], known, events[j], StatusAfterTerminal);
      }
    }
    forall i, j, r, t: nat | i < j && HasBody(events, i, Final(r, t))
      && (HasBody(events, j, Final(r, t)) || HasBody(events, j, Delta(r, t)))
      ensures ResetBetween(events, i, j, r, t)
    {
      assert !Breaks(events[..j], known, events[j], DuplicateFinal);
      assert !Breaks(events[..j], known, events[j], DeltaAfterFinal);
      if !ResetBetween(events, i, j, r, t) { FinalStaysOpen(events, i, j, r, t); }
    }
    forall j, r, g | HasBody(events, j, GuidanceApplied(r, g))
      ensures g in known || exists i :: i < j && Records(events, i, g)
    {
      InPrefix(events, j);
      assert !Breaks(events[..j], known, events[j], GuidanceBeforeRecord);
    }
  }

  lemma {:induction false} RowHolds(events: seq<Event>, known: set<GuidanceId>, n: nat, rule: Rule)
    requires WellFormed(events, false, known) && n < |events|
    ensures !Breaks(events[..n], known, events[n], rule)
  {
    var before, e := events[..n], events[n];
    InPrefix(events, n);
    assert HasBody(events, n, e.body);
    forall i ensures !IdNotBelow(before, i, e.id) {}
    match e.body {
      case Stepped(r) =>
        var i :| i < n && HasBody(events, i, Started(r));
        assert HasBody(before, i, Started(r));
        forall i, s: Status | s.Terminal() ensures !HasBody(before, i, StatusIs(r, s)) {
          assert HasBody(before, i, StatusIs(r, s)) ==> HasBody(events, i, StatusIs(r, s));
        }
      case StatusIs(r, status) =>
        forall i, s: Status | s.Terminal() && s != status ensures !HasBody(before, i, StatusIs(r, s)) {
          assert HasBody(before, i, StatusIs(r, s)) ==> HasBody(events, i, StatusIs(r, s));
          assert !HasBody(events, n, Stepped(r));
        }
      case GuidanceApplied(r, g) =>
        assert g in known || exists i :: i < n && Records(events, i, g);
        forall i | i < n && Records(events, i, g) ensures Records(before, i, g) {}
      case Delta(r, t) => FinalNeedsReset(events, n, r, t);
      case Final(r, t) => FinalNeedsReset(events, n, r, t);
      case _ =>
    }
  }

  lemma {:induction false} WellFormedMeansRowsHold(events: seq<Event>, known: set<GuidanceId>)
    requires WellFormed(events, false, known)
    ensures RowsHold(events, known)
  {
    forall n, rule | 0 <= n < |events| ensures !Breaks(events[..n], known, events[n], rule) {
      RowHolds(events, known, n, rule);
    }
  }

  lemma {:induction false} FinalNeedsReset(events: seq<Event>, n: nat, r: RunId, t: nat)
    requires OneFinalPerTurn(events) && n < |events|
    requires HasBody(events, n, Final(r, t)) || HasBody(events, n, Delta(r, t))
    ensures !FinalStands(events[..n], r, t)
  {
    InPrefix(events, n);
    forall i | HasBody(events[..n], i, Final(r, t))
      ensures exists k :: i < k && HasBody(events[..n], k, Reset(r, t))
    {
      assert HasBody(events, i, Final(r, t)) && ResetBetween(events, i, n, r, t);
      var k :| i < k < n && HasBody(events, k, Reset(r, t));
      assert HasBody(events[..n], k, Reset(r, t));
    }
  }

  /** The one-pass validator accepts exactly the well-formed logs. */
  lemma {:induction false} ValidIffWellFormed(events: seq<Event>, requireFinalPerTurn: bool, known: set<GuidanceId>)
    ensures Valid(events, requireFinalPerTurn, known) <==> WellFormed(events, requireFinalPerTurn, known)
  {
    NoReportsIffRowsHold(events, known);
    if RowsHold(events, known) { RowsHoldMeansWellFormed(events, known); }
    if WellFormed(events, false, known) { WellFormedMeansRowsHold(events, known); }
    MissingIsExact(events, known);
    var s := StateAfter(events, known);
    var missing := Missing(s, s.order);
    assert missing == [] <==> forall v :: v !in missing by { if missing != [] { assert missing[0] in missing; } }
    if missing == [] {
      forall i, r, t: nat | HasBody(events, i, Delta(r, t)) ensures FinalStands(events, r, t) {
        assert MissingFinal(r, t) !in missing && StreamedIn(events, r, t);
      }
    }
    if StreamedTurnsFinish(events) {
      forall v ensures v !in missing {}
    }
  }
}
