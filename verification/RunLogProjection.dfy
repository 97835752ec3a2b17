/**
  Runs do not interfere: what the validator reports about one run of an
  interleaved log is what it reports about that run's own rows.

  Two slices of a log are compared with the whole. `Project` keeps a run's rows
  and every recorded message. The nightly validator
  (apps/worker/src/ops/validator.ts) reads the rows whose payload names the run:
  it drops messages that other runs, or no run, recorded, and it keeps rows that
  name the run and fail the schema.
 */
module RunLogProjection {
  import opened Wrappers
  import opened RunLog
  import opened RunLogSpec

  predicate IsScoped(b: Body) {
    !b.Appended? && !b.Unchecked?
  }

  predicate Keeps(e: Event, r: RunId, ownMessagesOnly: bool) {
    match e
    case Malformed(owner) => ownMessagesOnly && owner == Some(r)
    case Parsed(_, Appended(_, _, owner)) => !ownMessagesOnly || owner == Some(r)
    case Parsed(_, Unchecked(owner)) => owner == Some(r)
    case Parsed(_, body) => body.run == r
  }

  function Slice(events: seq<Event>, r: RunId, ownMessagesOnly: bool): seq<Event> {
    if events == [] then []
    else
      var n := |events| - 1;
      Slice(events[..n], r, ownMessagesOnly) + if Keeps(events[n], r, ownMessagesOnly) then [events[n]] else []
  }

  function Project(events: seq<Event>, r: RunId): seq<Event> {
    Slice(events, r, false)
  }

  function NightlySlice(events: seq<Event>, r: RunId): seq<Event> {
    Slice(events, r, true)
  }

  predicate IsOf(e: Event, r: RunId) {
    e.Parsed? && IsScoped(e.body) && e.body.run == r
  }

  predicate RunRule(rule: Rule) {
    rule != Schema && rule != MonotonicId
  }

  /** The entries about run `r`, each row numbered by its place in the run's own projection. */
  function About(events: seq<Event>, r: RunId, reports: seq<Violation>): seq<Violation> {
    if reports == [] then []
    else
      var n := |reports| - 1;
      var v := reports[n];
      About(events, r, reports[..n])
      + match v
        case MissingFinal(run, _) => if run == r then [v] else []
        case AtRow(i, id, rule) =>
          if i < |events| && IsOf(events[i], r) && RunRule(rule) then [AtRow(|Project(events[..i], r)|, id, rule)]
          else []
  }

  lemma {:induction false} AboutConcat(events: seq<Event>, r: RunId, a: seq<Violation>, b: seq<Violation>)
    ensures About(events, r, a + b) == About(events, r, a) + About(events, r, b)
    decreases |b|
  {
    if b == [] {
      assert a + b == a;
    } else {
      var n := |b| - 1;
      AboutConcat(events, r, a, b[..n]);
      assert (a + b)[..|a + b| - 1] == a + b[..n];
    }
  }

  /** A longer log does not change what was said about earlier rows. */
  lemma {:induction false} AboutPrefix(events: seq<Event>, n: nat, r: RunId, reports: seq<Violation>)
    requires n <= |events|
    requires forall v :: v in reports && v.AtRow? ==> v.index < n
    ensures About(events, r, reports) == About(events[..n], r, reports)
    decreases |reports|
  {
    if reports != [] {
      var k := |reports| - 1;
      AboutPrefix(events, n, r, reports[..k]);
      if reports[k].AtRow? {
        assert reports[k] in reports;
        assert events[..n][..reports[k].index] == events[..reports[k].index];
      }
    }
  }

  lemma {:induction false} ReportedRows(events: seq<Event>, known: set<GuidanceId>)
    ensures forall v :: v in Reported(events, known) ==> v.AtRow? && v.index < |events|
    decreases |events|
  {
    if events != [] { ReportedRows(events[..|events| - 1], known); }
  }

  lemma {:induction false} SliceSubset(events: seq<Event>, r: RunId, own: bool)
    ensures forall e :: e in Slice(events, r, own) ==> e in events && Keeps(e, r, own)
    decreases |events|
  {
    if events != [] { SliceSubset(events[..|events| - 1], r, own); }
  }

  lemma StepRunOf(s: State, e: Event, r: RunId)
    ensures !IsOf(e, r) ==> Step(s, e).RunOf(r) == s.RunOf(r)
    ensures forall t: State :: IsOf(e, r) && t.RunOf(r) == s.RunOf(r) ==> Step(t, e).RunOf(r) == Step(s, e).RunOf(r)
  {}

  lemma StepGuidance(s: State, e: Event)
    ensures Step(s, e).guidance ==
      s.guidance + if e.Parsed? && e.body.Appended? && e.body.isGuidance then {e.body.message} else {}
  {}

  /** Slicing keeps the state of the run; only a full projection keeps all recorded guidance. */
  lemma {:induction false} SameRunState(events: seq<Event>, r: RunId, own: bool, known: set<GuidanceId>)
    ensures StateAfter(Slice(events, r, own), known).RunOf(r) == StateAfter(events, known).RunOf(r)
    ensures StateAfter(Slice(events, r, own), known).guidance <= StateAfter(events, known).guidance
    ensures !own ==> StateAfter(Slice(events, r, own), known).guidance == StateAfter(events, known).guidance
    decreases |events|
  {
    if events != [] {
      var n := |events| - 1;
      var e, slice := events[n], Slice(events[..n], r, own);
      SameRunState(events[..n], r, own, known);
      var s, t := StateAfter(events[..n], known), StateAfter(slice, known);
      StepRunOf(s, e, r);
      StepGuidance(s, e);
      StepGuidance(t, e);
      if Keeps(e, r, own) {
        assert (slice + [e])[..|slice|] == slice;
        assert StateAfter(slice + [e], known) == Step(t, e);
        StepRunOf(t, e, r);
      } else {
        assert slice + [] == slice;
      }
    }
  }

  lemma SameFindings(s: State, t: State, b: Body)
    requires IsScoped(b) && s.RunOf(b.run) == t.RunOf(b.run)
    requires b.GuidanceApplied? ==> (b.guidance in s.guidance <==> b.guidance in t.guidance)
    ensures FoundInBody(s, b) == FoundInBody(t, b)
  {}

  /** The reports one row adds about run `r`. */
  lemma {:induction false} AboutOneRow(events: seq<Event>, r: RunId, n: nat, rules: seq<Rule>)
    requires n < |events|
    ensures !IsOf(events[n], r) ==> About(events, r, At(n, events[n], rules)) == []
    ensures (forall k :: 0 <= k < |rules| ==> !RunRule(rules[k])) ==> About(events, r, At(n, events[n], rules)) == []
    ensures IsOf(events[n], r) && (forall k :: 0 <= k < |rules| ==> RunRule(rules[k])) ==>
      About(events, r, At(n, events[n], rules)) == At(|Project(events[..n], r)|, events[n], rules)
    decreases |rules|
  {
    if rules != [] {
      var k := |rules| - 1;
      AboutOneRow(events, r, n, rules[..k]);
      assert At(n, events[n], rules)[..k] == At(n, events[n], rules[..k]);
    }
  }

  lemma RunRulesInBody(s: State, b: Body)
    ensures forall k :: 0 <= k < |FoundInBody(s, b)| ==> RunRule(FoundInBody(s, b)[k])
  {}

  lemma AtConcat(n: nat, e: Event, a: seq<Rule>, b: seq<Rule>)
    ensures At(n, e, a + b) == At(n, e, a) + At(n, e, b)
  {}

  lemma {:induction false} AboutFound(events: seq<Event>, r: RunId, n: nat, s: State)
    requires n < |events|
    ensures About(events, r, At(n, events[n], Found(s, events[n]))) ==
      if IsOf(events[n], r)
      then At(|Project(events[..n], r)|, events[n], FoundInBody(s, events[n].body))
      else []
  {
    var e := events[n];
    if e.Malformed? {
      AboutOneRow(events, r, n, [Schema]);
    } else {
      var mono := if s.lastId.Some? && e.id <= s.lastId.value then [MonotonicId] else [];
      var rules := FoundInBody(s, e.body);
      AtConcat(n, e, mono, rules);
      AboutConcat(events, r, At(n, e, mono), At(n, e, rules));
      AboutOneRow(events, r, n, mono);
      AboutOneRow(events, r, n, rules);
      RunRulesInBody(s, e.body);
    }
  }

  lemma {:induction false} AboutLast(events: seq<Event>, r: RunId, known: set<GuidanceId>)
    requires events != []
    ensures var n := |events| - 1;
      About(events, r, Reported(events, known)) ==
      About(events[..n], r, Reported(events[..n], known))
      + if IsOf(events[n], r)
        then At(|Project(events[..n], r)|, events[n], FoundInBody(StateAfter(events[..n], known), events[n].body))
        else []
  {
    var n := |events| - 1;
    var before := events[..n];
    var s := StateAfter(before, known);
    ReportedRows(before, known);
    AboutPrefix(events, n, r, Reported(before, known));
    AboutConcat(events, r, Reported(before, known), At(n, events[n], Found(s, events[n])));
    AboutFound(events, r, n, s);
  }

  lemma {:induction false} AboutMissing(events: seq<Event>, r: RunId, s: State, order: seq<RunId>)
    requires Distinct(order)
    ensures About(events, r, Missing(s, order)) ==
      if r in order then MissingIn(r, s.RunOf(r), s.RunOf(r).deltaTurns) else []
    decreases |order|
  {
    if order != [] {
      var n := |order| - 1;
      AboutMissing(events, r, s, order[..n]);
      assert order == order[..n] + [order[n]];
      AboutConcat(events, r, Missing(s, order[..n]), MissingIn(order[n], s.RunOf(order[n]), s.RunOf(order[n]).deltaTurns));
      AboutMissingIn(events, r, order[n], s.RunOf(order[n]), s.RunOf(order[n]).deltaTurns);
    }
  }

  lemma {:induction false} AboutMissingIn(events: seq<Event>, r: RunId, q: RunId, run: RunState, turns: seq<nat>)
    ensures About(events, r, MissingIn(q, run, turns)) == if q == r then MissingIn(q, run, turns) else []
    decreases |turns|
  {
    if turns != [] {
      var n := |turns| - 1;
      AboutMissingIn(events, r, q, run, turns[..n]);
      AboutConcat(events, r, MissingIn(q, run, turns[..n]), if turns[n] in run.finals then [] else [MissingFinal(q, turns[n])]);
      assert [MissingFinal(q, turns[n])][..0] == [];
    }
  }

  lemma {:induction false} ReportedAboutRun(events: seq<Event>, r: RunId, known: set<GuidanceId>)
    ensures About(events, r, Reported(events, known)) ==
      About(Project(events, r), r, Reported(Project(events, r), known))
    ensures Project(Project(events, r), r) == Project(events, r)
    decreases |events|
  {
    if events != [] {
      var n := |events| - 1;
      var before, e := events[..n], events[n];
      var slice := Project(before, r);
      ReportedAboutRun(before, r, known);
      AboutLast(events, r, known);
      if Keeps(e, r, false) {
        assert (slice + [e])[..|slice|] == slice;
        AboutLast(slice + [e], r, known);
        if IsOf(e, r) {
          SameRunState(before, r, false, known);
          SameFindings(StateAfter(before, known), StateAfter(slice, known), e.body);
        }
      } else {
        assert slice + [] == slice;
      }
    }
  }

  /** The reports about a run, with their order, are those of the run's own projection. */
  lemma {:induction false} RunsDoNotInterfere(events: seq<Event>, r: RunId, requireFinal: bool, known: set<GuidanceId>)
    ensures About(events, r, Violations(events, requireFinal, known)) ==
      About(Project(events, r), r, Violations(Project(events, r), requireFinal, known))
  {
    var p := Project(events, r);
    var s, t := StateAfter(events, known), StateAfter(p, known);
    ReportedAboutRun(events, r, known);
    SameRunState(events, r, false, known);
    StateIsTidy(events, known);
    StateIsTidy(p, known);
    AboutMissing(events, r, s, s.order);
    AboutMissing(p, r, t, t.order);
    AboutConcat(events, r, Reported(events, known), if requireFinal then Missing(s, s.order) else []);
    AboutConcat(p, r, Reported(p, known), if requireFinal then Missing(t, t.order) else []);
  }

  // ---- Validity splits over the runs ----------------------------------------

  lemma {:induction false} SliceIdsIncrease(events: seq<Event>, r: RunId, own: bool)
    requires IdsIncrease(events)
    ensures IdsIncrease(Slice(events, r, own))
    decreases |events|
  {
    if events != [] {
      var n := |events| - 1;
      var before := events[..n];
      assert IdsIncrease(before) by {
        forall i, j | 0 <= i < j < n && before[i].Parsed? && before[j].Parsed? ensures before[i].id < before[j].id {
          assert events[i].id < events[j].id;
        }
      }
      SliceIdsIncrease(before, r, own);
      SliceSubset(before, r, own);
      var slice := Slice(before, r, own);
      if Keeps(events[n], r, own) {
        forall i | 0 <= i < |slice| && slice[i].Parsed? && events[n].Parsed? ensures slice[i].id < events[n].id {
          assert slice[i] in before;
          var k :| 0 <= k < n && before[k] == slice[i];
          assert events[k] == slice[i];
        }
      }
    }
  }

  lemma {:induction false} RowFound(events: seq<Event>, known: set<GuidanceId>, n: nat)
    requires n < |events|
    ensures Found(StateAfter(events[..n], known), events[n]) == [] <==>
      events[n].Parsed? && !SomeIdNotBelow(events[..n], events[n].id)
      && FoundInBody(StateAfter(events[..n], known), events[n].body) == []
  {
    StateMeansLog(events[..n], known);
  }

  lemma {:induction false} IdsIncreaseAppend(before: seq<Event>, e: Event)
    requires AllParsed(before)
    ensures AllParsed(before + [e]) && IdsIncrease(before + [e]) <==>
      IdsIncrease(before) && e.Parsed? && !SomeIdNotBelow(before, e.id)
  {
    var events, n := before + [e], |before|;
    if AllParsed(events) && IdsIncrease(events) {
      forall i, j | 0 <= i < j < n ensures before[i].id < before[j].id {
        assert events[i].id < events[j].id;
      }
      assert events[n] == e;
      forall i | 0 <= i < n ensures !IdNotBelow(before, i, e.id) {
        assert events[i].id < events[n].id;
      }
    }
    if IdsIncrease(before) && e.Parsed? && !SomeIdNotBelow(before, e.id) {
      forall i | 0 <= i < n ensures before[i].id < e.id { assert !IdNotBelow(before, i, e.id); }
    }
  }

  /** No row of the log names the run and fails the schema. */
  predicate SoundRowsOf(events: seq<Event>, r: RunId) {
    forall i :: 0 <= i < |events| ==> events[i] != Malformed(Some(r))
  }

  lemma {:induction false} SliceParses(events: seq<Event>, r: RunId, own: bool)
    ensures AllParsed(Slice(events, r, own)) <==> (own ==> SoundRowsOf(events, r))
    decreases |events|
  {
    if events != [] {
      var n := |events| - 1;
      SliceParses(events[..n], r, own);
      AllParsedLast(Slice(events[..n], r, own), events[n]);
      assert Slice(events[..n], r, own) + [] == Slice(events[..n], r, own);
      assert SoundRowsOf(events, r) <==> SoundRowsOf(events[..n], r) && events[n] != Malformed(Some(r));
    }
  }

  lemma AllParsedLast(before: seq<Event>, e: Event)
    ensures AllParsed(before + [e]) <==> AllParsed(before) && e.Parsed?
  {
    assert (before + [e])[|before|] == e;
    assert forall i :: 0 <= i < |before| ==> (before + [e])[i] == before[i];
  }

  ghost predicate QuietAboutRuns(events: seq<Event>, known: set<GuidanceId>) {
    forall r :: About(events, r, Reported(events, known)) == []
  }

  lemma {:induction false} NoReportsSplit(events: seq<Event>, known: set<GuidanceId>)
    ensures Reported(events, known) == [] <==>
      AllParsed(events) && IdsIncrease(events) && QuietAboutRuns(events, known)
    decreases |events|
  {
    if events != [] {
      var n := |events| - 1;
      var before, e := events[..n], events[n];
      assert events == before + [e];
      NoReportsSplit(before, known);
      RowFound(events, known, n);
      if AllParsed(before) { IdsIncreaseAppend(before, e); }
      forall r ensures About(events, r, Reported(events, known)) == [] <==>
        About(before, r, Reported(before, known)) == []
        && (IsOf(e, r) ==> FoundInBody(StateAfter(before, known), e.body) == [])
      {
        AboutLast(events, r, known);
      }
      if AllParsed(events) { assert AllParsed(before); }
      if e.Parsed? && IsScoped(e.body) { assert IsOf(e, e.body.run); }
    }
  }

  lemma {:induction false} SliceIsQuietAboutOthers(events: seq<Event>, r: RunId, own: bool, q: RunId, known: set<GuidanceId>)
    requires q != r && forall e :: e in events ==> Keeps(e, r, own)
    ensures About(events, q, Reported(events, known)) == []
    ensures StateAfter(events, known).RunOf(q) == NEW_RUN
    decreases |events|
  {
    if events != [] {
      var n := |events| - 1;
      assert events[n] in events;
      SliceIsQuietAboutOthers(events[..n], r, own, q, known);
      AboutLast(events, q, known);
    }
  }

  lemma {:induction false} NoMissingSplit(s: State, order: seq<RunId>)
    ensures Missing(s, order) == [] <==>
      forall r :: r in order ==> MissingIn(r, s.RunOf(r), s.RunOf(r).deltaTurns) == []
    decreases |order|
  {
    if order != [] {
      var n := |order| - 1;
      NoMissingSplit(s, order[..n]);
      assert order == order[..n] + [order[n]];
    }
  }

  ghost predicate Finished(s: State, r: RunId) {
    MissingIn(r, s.RunOf(r), s.RunOf(r).deltaTurns) == []
  }

  lemma {:induction false} AllFinished(events: seq<Event>, known: set<GuidanceId>)
    ensures var s := StateAfter(events, known);
      Missing(s, s.order) == [] <==> forall r :: Finished(s, r)
  {
    var s := StateAfter(events, known);
    StateIsTidy(events, known);
    NoMissingSplit(s, s.order);
    if Missing(s, s.order) == [] {
      forall r ensures Finished(s, r) { assert r !in s.runs ==> s.RunOf(r) == NEW_RUN; }
    }
    if forall r :: Finished(s, r) {
      forall r | r in s.order ensures MissingIn(r, s.RunOf(r), s.RunOf(r).deltaTurns) == [] { assert Finished(s, r); }
    }
  }

  lemma {:induction false} SliceValid(events: seq<Event>, r: RunId, own: bool, requireFinal: bool, known: set<GuidanceId>)
    requires IdsIncrease(events)
    ensures var p := Slice(events, r, own);
      Valid(p, requireFinal, known) <==>
      (own ==> SoundRowsOf(events, r))
      && About(p, r, Reported(p, known)) == [] && (requireFinal ==> Finished(StateAfter(p, known), r))
  {
    var p := Slice(events, r, own);
    SliceIdsIncrease(events, r, own);
    SliceParses(events, r, own);
    SliceSubset(events, r, own);
    NoReportsSplit(p, known);
    AllFinished(p, known);
    forall q | q != r ensures About(p, q, Reported(p, known)) == [] && Finished(StateAfter(p, known), q) {
      SliceIsQuietAboutOthers(p, r, own, q, known);
    }
  }

  /** A log is valid exactly when its ids increase and every run's projection is valid. */
  lemma {:induction false} ValidIffEveryProjectionIs(events: seq<Event>, requireFinal: bool, known: set<GuidanceId>)
    ensures Valid(events, requireFinal, known) <==>
      AllParsed(events) && IdsIncrease(events)
      && forall r :: Valid(Project(events, r), requireFinal, known)
  {
    var s := StateAfter(events, known);
    NoReportsSplit(events, known);
    AllFinished(events, known);
    if IdsIncrease(events) {
      forall r ensures Valid(Project(events, r), requireFinal, known) <==>
        About(events, r, Reported(events, known)) == [] && (requireFinal ==> Finished(s, r))
      {
        SliceValid(events, r, false, requireFinal, known);
        ReportedAboutRun(events, r, known);
        SameRunState(events, r, false, known);
      }
      if forall r :: Valid(Project(events, r), requireFinal, known) {
        forall r ensures About(events, r, Reported(events, known)) == [] && (requireFinal ==> Finished(s, r)) {
          assert Valid(Project(events, r), requireFinal, known);
        }
      }
    }
  }

  // ---- The nightly validator's slice ----------------------------------------

  ghost predicate RecordsFor(events: seq<Event>, i: int, g: GuidanceId, r: RunId) {
    Records(events, i, g) && events[i].body.owner == Some(r)
  }

  ghost predicate RecordedFor(events: seq<Event>, known: set<GuidanceId>, g: GuidanceId, r: RunId) {
    g in known || exists i :: RecordsFor(events, i, g, r)
  }

  /** Guidance the run applied was recorded by a message that names the run. */
  ghost predicate OwnGuidance(events: seq<Event>, known: set<GuidanceId>, r: RunId) {
    forall j, g :: HasBody(events, j, GuidanceApplied(r, g)) ==> RecordedFor(events[..j], known, g, r)
  }

  lemma {:induction false} NightlyGuidance(events: seq<Event>, r: RunId, known: set<GuidanceId>, g: GuidanceId)
    ensures g in StateAfter(NightlySlice(events, r), known).guidance <==> RecordedFor(events, known, g, r)
    decreases |events|
  {
    if events != [] {
      var n := |events| - 1;
      var before, e, slice := events[..n], events[n], NightlySlice(events[..n], r);
      NightlyGuidance(before, r, known, g);
      if Keeps(e, r, true) {
        assert (slice + [e])[..|slice|] == slice;
        StepGuidance(StateAfter(slice, known), e);
      } else {
        assert slice + [] == slice;
      }
      forall i | RecordsFor(before, i, g, r) ensures RecordsFor(events, i, g, r) {}
      forall i | RecordsFor(events, i, g, r) && i < n ensures RecordsFor(before, i, g, r) {}
      assert RecordsFor(events, n, g, r) <==>
        e.Parsed? && e.body.Appended? && e.body.isGuidance && e.body.message == g && e.body.owner == Some(r);
    }
  }

  lemma {:induction false} OwnGuidanceLast(events: seq<Event>, known: set<GuidanceId>, r: RunId)
    requires events != []
    ensures var n := |events| - 1;
      OwnGuidance(events, known, r) <==>
      OwnGuidance(events[..n], known, r)
      && (IsOf(events[n], r) && events[n].body.GuidanceApplied? ==>
          RecordedFor(events[..n], known, events[n].body.guidance, r))
  {
    var n := |events| - 1;
    var before := events[..n];
    assert forall j :: 0 <= j < n ==> before[..j] == events[..j];
    if OwnGuidance(events, known, r) {
      forall j, g | HasBody(before, j, GuidanceApplied(r, g)) ensures RecordedFor(before[..j], known, g, r) {
        assert HasBody(events, j, GuidanceApplied(r, g));
      }
      if IsOf(events[n], r) && events[n].body.GuidanceApplied? {
        assert HasBody(events, n, GuidanceApplied(r, events[n].body.guidance));
      }
    }
    if OwnGuidance(before, known, r)
      && (IsOf(events[n], r) && events[n].body.GuidanceApplied? ==> RecordedFor(before, known, events[n].body.guidance, r))
    {
      forall j, g | HasBody(events, j, GuidanceApplied(r, g)) ensures RecordedFor(events[..j], known, g, r) {
        if j < n { assert HasBody(before, j, GuidanceApplied(r, g)); }
      }
    }
  }

  lemma RecordedForIsRecorded(events: seq<Event>, r: RunId, known: set<GuidanceId>, g: GuidanceId)
    requires RecordedFor(events, known, g, r)
    ensures g in StateAfter(events, known).guidance
  {
    StateMeansLog(events, known);
  }

  /** What an event of the run adds to the reports of the log and of the run's nightly slice. */
  lemma NightlyStep(before: seq<Event>, e: Event, r: RunId, known: set<GuidanceId>)
    requires IsOf(e, r)
    ensures FoundInBody(StateAfter(NightlySlice(before, r), known), e.body) == [] <==>
      FoundInBody(StateAfter(before, known), e.body) == []
      && (e.body.GuidanceApplied? ==> RecordedFor(before, known, e.body.guidance, r))
  {
    if e.body.GuidanceApplied? {
      NightlyGuidance(before, r, known, e.body.guidance);
      if RecordedFor(before, known, e.body.guidance, r) { RecordedForIsRecorded(before, r, known, e.body.guidance); }
    } else {
      SameRunState(before, r, true, known);
      SameFindings(StateAfter(before, known), StateAfter(NightlySlice(before, r), known), e.body);
    }
  }

  lemma NightlySliceLast(events: seq<Event>, r: RunId, known: set<GuidanceId>)
    requires events != []
    ensures var n := |events| - 1;
      var slice := NightlySlice(events[..n], r);
      About(NightlySlice(events, r), r, Reported(NightlySlice(events, r), known)) == [] <==>
        About(slice, r, Reported(slice, known)) == []
        && (IsOf(events[n], r) ==> FoundInBody(StateAfter(slice, known), events[n].body) == [])
  {
    var n := |events| - 1;
    var e, slice := events[n], NightlySlice(events[..n], r);
    if Keeps(e, r, true) {
      assert (slice + [e])[..|slice|] == slice;
      AboutLast(slice + [e], r, known);
    } else {
      assert slice + [] == slice;
    }
  }

  lemma {:induction false} NightlyReports(events: seq<Event>, r: RunId, known: set<GuidanceId>)
    ensures var p := NightlySlice(events, r);
      About(p, r, Reported(p, known)) == [] <==>
      About(events, r, Reported(events, known)) == [] && OwnGuidance(events, known, r)
    decreases |events|
  {
    if events != [] {
      var n := |events| - 1;
      NightlyReports(events[..n], r, known);
      NightlySliceLast(events, r, known);
      AboutLast(events, r, known);
      OwnGuidanceLast(events, known, r);
      if IsOf(events[n], r) { NightlyStep(events[..n], events[n], r, known); }
    }
  }

  /**
    The nightly slice of a run is accepted exactly when the run's projection is,
    no row that names the run fails the schema, and no guidance the run applied
    was recorded under another run or under none.
   */
  lemma {:induction false} NightlySliceIsExact(events: seq<Event>, r: RunId, requireFinal: bool, known: set<GuidanceId>)
    requires IdsIncrease(events)
    ensures Valid(NightlySlice(events, r), requireFinal, known) <==>
      Valid(Project(events, r), requireFinal, known) && SoundRowsOf(events, r) && OwnGuidance(events, known, r)
  {
    SliceValid(events, r, true, requireFinal, known);
    SliceValid(events, r, false, requireFinal, known);
    NightlyReports(events, r, known);
    ReportedAboutRun(events, r, known);
    SameRunState(events, r, true, known);
    SameRunState(events, r, false, known);
  }

  /** A sound log the nightly validator flags: the guidance message names no run. */
  lemma {:induction false} NightlySliceRejectsSoundLog(r: RunId, g: GuidanceId)
    ensures var events := [Parsed(1, Started(r)), Parsed(2, Appended(g, true, None)), Parsed(3, GuidanceApplied(r, g))];
      Valid(events, false, {}) && !Valid(NightlySlice(events, r), false, {})
  {
    var events := [Parsed(1, Started(r)), Parsed(2, Appended(g, true, None)), Parsed(3, GuidanceApplied(r, g))];
    assert HasBody(events, 2, GuidanceApplied(r, g));
    assert Records(events, 1, g);
    assert WellFormed(events, false, {}) by {
      forall j, q, h | HasBody(events, j, GuidanceApplied(q, h)) ensures exists i :: i < j && Records(events, i, h) {
        assert 1 < j && Records(events, 1, h);
      }
    }
    ValidIffWellFormed(events, false, {});
    assert !OwnGuidance(events, {}, r) by {
      assert HasBody(events, 2, GuidanceApplied(r, g));
      forall i ensures !RecordsFor(events[..2], i, g, r) {}
      assert !RecordedFor(events[..2], {}, g, r);
    }
    NightlySliceIsExact(events, r, false, {});
  }

  lemma TwoRowSlices(a: Event, b: Event, r: RunId, own: bool)
    ensures Slice([a, b], r, own) == (if Keeps(a, r, own) then [a] else []) + (if Keeps(b, r, own) then [b] else [])
  {
    var front := [a];
    assert [a, b][..1] == front && front[..0] == [];
    assert Slice(front, r, own) == if Keeps(a, r, own) then [a] else [];
    assert Slice([a, b], r, own) == Slice(front, r, own) + if Keeps(b, r, own) then [b] else [];
  }

  lemma StartAloneIsValid(r: RunId)
    ensures Valid([Parsed(1, Started(r))], false, {})
  {
    var events := [Parsed(1, Started(r))];
    assert events[..0] == [];
    assert StateAfter(events[..0], {}) == Initial({});
    assert Found(Initial({}), events[0]) == [];
    assert At(0, events[0], []) == [];
    assert Reported(events[..0], {}) == [];
    assert Reported(events, {}) == Reported(events[..0], {}) + At(0, events[0], Found(Initial({}), events[0]));
  }

  /** A row that names the run and fails the schema is the nightly run's to report, and no projection's. */
  lemma NightlySliceSeesMalformedRows(r: RunId)
    ensures var events := [Parsed(1, Started(r)), Malformed(Some(r))];
      Valid(Project(events, r), false, {}) && OwnGuidance(events, {}, r) && !Valid(NightlySlice(events, r), false, {})
  {
    var start, broken := Parsed(1, Started(r)), Malformed(Some(r));
    var events := [start, broken];
    TwoRowSlices(start, broken, r, false);
    assert Project(events, r) == [start];
    StartAloneIsValid(r);
    assert forall j, g :: !HasBody(events, j, GuidanceApplied(r, g));
    NightlySliceIsExact(events, r, false, {});
    assert events[1] == broken;
  }
}
