/**
  The run-log validator (packages/shared/src/run-log.ts): one pass over an
  interleaved log of many runs, keeping a little state per run.

  `Step` and `Found` are the transition and the report of one iteration, and the
  method `ValidateRunLog` is the loop. What the state and the reports *mean* in
  terms of the whole log is stated, without any state, in module RunLogSpec.
 */
module RunLog {
  import opened Wrappers

  type RunId = string
  type GuidanceId = string

  datatype Status = Working | Waiting | Stopping | Stopped | Error | Completed
  {
    predicate Terminal() { Stopped? || Error? || Completed? }
  }

  /** What a parsed row says, keeping only the payload fields the rules read. */
  datatype Body =
    | Started(run: RunId)
    | Stepped(run: RunId)
    | StatusIs(run: RunId, status: Status)
    | GuidanceApplied(run: RunId, guidance: GuidanceId)
    | Appended(message: GuidanceId, isGuidance: bool, owner: Option<RunId>)
    | Delta(run: RunId, turn: nat)
    | Reset(run: RunId, turn: nat)
    | Final(run: RunId, turn: nat)
    | Unchecked(owner: Option<RunId>)

  /** A row either fails the schema, and then may still name a run, or carries a numeric stream id. */
  datatype Event = Malformed(owner: Option<RunId>) | Parsed(id: nat, body: Body)

  datatype Rule =
    | Schema | MonotonicId | EventBeforeStart | StepAfterStopped | StatusAfterTerminal
    | GuidanceBeforeRecord | DeltaAfterFinal | DuplicateFinal

  datatype Violation =
    | AtRow(index: nat, id: Option<nat>, rule: Rule)
    | MissingFinal(run: RunId, turn: nat)

  /** JavaScript sets iterate in insertion order, which orders the end-of-log reports. */
  datatype RunState = RunState(
    started: bool,
    status: Option<Status>,
    finals: set<nat>,
    deltaTurns: seq<nat>,
    finalizedTurns: set<nat>)

  const NEW_RUN := RunState(false, None, {}, [], {})

  datatype State = State(
    lastId: Option<nat>,
    guidance: set<GuidanceId>,
    runs: map<RunId, RunState>,
    order: seq<RunId>)
  {
    function RunOf(r: RunId): RunState {
      if r in runs then runs[r] else NEW_RUN
    }

    function With(r: RunId, run: RunState): State {
      State(lastId, guidance, runs[r := run], if r in runs then order else order + [r])
    }
  }

  function Initial(known: set<GuidanceId>): State {
    State(None, known, map[], [])
  }

  function Insert(turns: seq<nat>, turn: nat): seq<nat> {
    if turn in turns then turns else turns + [turn]
  }

  function NextId(lastId: Option<nat>, id: nat): Option<nat> {
    if lastId.None? || id > lastId.value then Some(id) else lastId
  }

  function StepBody(s: State, b: Body): State {
    match b
    case Started(r) => s.With(r, s.RunOf(r).(started := true))
    case Stepped(r) => s.With(r, s.RunOf(r))
    case StatusIs(r, status) => s.With(r, s.RunOf(r).(status := Some(status)))
    case GuidanceApplied(_, _) => s
    case Appended(m, isGuidance, _) => if isGuidance then s.(guidance := s.guidance + {m}) else s
    case Delta(r, t) => s.With(r, s.RunOf(r).(deltaTurns := Insert(s.RunOf(r).deltaTurns, t)))
    case Reset(r, t) =>
      var run := s.RunOf(r);
      s.With(r, run.(finals := run.finals - {t}, finalizedTurns := run.finalizedTurns - {t}))
    case Final(r, t) =>
      var run := s.RunOf(r);
      s.With(r, run.(finals := run.finals + {t}, finalizedTurns := run.finalizedTurns + {t}))
    case Unchecked(_) => s
  }

  function Step(s: State, e: Event): State {
    if e.Malformed? then s else StepBody(s, e.body).(lastId := NextId(s.lastId, e.id))
  }

  function FoundInBody(s: State, b: Body): seq<Rule> {
    match b
    case Stepped(r) =>
      (if s.RunOf(r).started then [] else [EventBeforeStart])
      + (if s.RunOf(r).status.Some? && s.RunOf(r).status.value.Terminal() then [StepAfterStopped] else [])
    case StatusIs(r, status) =>
      var before := s.RunOf(r).status;
      if before.Some? && before.value.Terminal() && status != before.value then [StatusAfterTerminal] else []
    case GuidanceApplied(_, g) => if g in s.guidance then [] else [GuidanceBeforeRecord]
    case Delta(r, t) => if t in s.RunOf(r).finalizedTurns then [DeltaAfterFinal] else []
    case Final(r, t) => if t in s.RunOf(r).finals then [DuplicateFinal] else []
    case _ => []
  }

  function Found(s: State, e: Event): seq<Rule> {
    if e.Malformed? then [Schema]
    else (if s.lastId.Some? && e.id <= s.lastId.value then [MonotonicId] else []) + FoundInBody(s, e.body)
  }

  /** The rules broken at one row, as report entries in the order they were found. */
  function At(index: nat, e: Event, rules: seq<Rule>): (r: seq<Violation>)
    ensures |r| == |rules|
    ensures forall k :: 0 <= k < |r| ==>
      r[k] == AtRow(index, if e.Malformed? then None else Some(e.id), rules[k])
  {
    seq(|rules|, k requires 0 <= k < |rules| =>
      AtRow(index, if e.Malformed? then None else Some(e.id), rules[k]))
  }

  function StateAfter(events: seq<Event>, known: set<GuidanceId>): State {
    if events == [] then Initial(known)
    else Step(StateAfter(events[..|events| - 1], known), events[|events| - 1])
  }

  function Reported(events: seq<Event>, known: set<GuidanceId>): seq<Violation> {
    if events == [] then []
    else
      var n := |events| - 1;
      Reported(events[..n], known) + At(n, events[n], Found(StateAfter(events[..n], known), events[n]))
  }

  function MissingIn(r: RunId, run: RunState, turns: seq<nat>): seq<Violation> {
    if turns == [] then []
    else
      var n := |turns| - 1;
      MissingIn(r, run, turns[..n]) + if turns[n] in run.finals then [] else [MissingFinal(r, turns[n])]
  }

  function Missing(s: State, order: seq<RunId>): seq<Violation> {
    if order == [] then []
    else
      var r := order[|order| - 1];
      Missing(s, order[..|order| - 1]) + MissingIn(r, s.RunOf(r), s.RunOf(r).deltaTurns)
  }

  /** Everything the validator reports, in its order. */
  function Violations(events: seq<Event>, requireFinalPerTurn: bool, known: set<GuidanceId>): seq<Violation> {
    var s := StateAfter(events, known);
    Reported(events, known) + if requireFinalPerTurn then Missing(s, s.order) else []
  }

  predicate Valid(events: seq<Event>, requireFinalPerTurn: bool, known: set<GuidanceId>) {
    Violations(events, requireFinalPerTurn, known) == []
  }

  datatype Summary = Summary(finals: set<nat>, status: Option<Status>)

  /** The body of the walk: one run-scoped event against its run's state. */
  method CheckRun(run: RunState, b: Body) returns (after: RunState, broken: seq<Rule>)
    requires !b.GuidanceApplied? && !b.Appended? && !b.Unchecked?
    ensures forall s: State :: s.RunOf(b.run) == run ==>
      StepBody(s, b) == s.With(b.run, after) && FoundInBody(s, b) == broken
  {
    after, broken := run, [];
    match b {
      case Started(_) =>
        after := run.(started := true);
      case Stepped(_) =>
        if !run.started { broken := broken + [EventBeforeStart]; }
        if run.status.Some? && run.status.value.Terminal() { broken := broken + [StepAfterStopped]; }
      case StatusIs(_, status) =>
        if run.status.Some? && run.status.value.Terminal() && status != run.status.value {
          broken := broken + [StatusAfterTerminal];
        }
        after := run.(status := Some(status));
      case Delta(_, t) =>
        after := run.(deltaTurns := Insert(run.deltaTurns, t));
        if t in run.finalizedTurns { broken := broken + [DeltaAfterFinal]; }
      case Reset(_, t) =>
        after := run.(finals := run.finals - {t}, finalizedTurns := run.finalizedTurns - {t});
      case Final(_, t) =>
        if t in run.finals { broken := broken + [DuplicateFinal]; }
        after := run.(finals := run.finals + {t}, finalizedTurns := run.finalizedTurns + {t});
    }
  }

  /** The end of the log: every turn that streamed must have a final. */
  method ReportMissing(runs: map<RunId, RunState>, order: seq<RunId>, ghost s: State)
    returns (violations: seq<Violation>)
    requires runs == s.runs && forall k :: 0 <= k < |order| ==> order[k] in runs
    ensures violations == Missing(s, order)
  {
    violations := [];
    for i := 0 to |order|
      invariant violations == Missing(s, order[..i])
    {
      var r := order[i];
      var run := runs[r];
      assert order[..i + 1][..i] == order[..i];
      ghost var soFar := violations;
      for k := 0 to |run.deltaTurns|
        invariant violations == soFar + MissingIn(r, run, run.deltaTurns[..k])
      {
        assert run.deltaTurns[..k + 1][..k] == run.deltaTurns[..k];
        if run.deltaTurns[k] !in run.finals {
          violations := violations + [MissingFinal(r, run.deltaTurns[k])];
        }
      }
      assert run.deltaTurns[..|run.deltaTurns|] == run.deltaTurns;
    }
    assert order[..|order|] == order;
  }

  method ValidateRunLog(events: seq<Event>, requireFinalPerTurn: bool, known: set<GuidanceId>)
    returns (ok: bool, violations: seq<Violation>, summary: map<RunId, Summary>)
    ensures violations == Violations(events, requireFinalPerTurn, known)
    ensures ok == Valid(events, requireFinalPerTurn, known)
    ensures var s := StateAfter(events, known);
      summary == map r | r in s.runs :: Summary(s.runs[r].finals, s.runs[r].status)
  {
    violations := [];
    var runs: map<RunId, RunState>, order: seq<RunId> := map[], [];
    var guidance := known;
    var lastId: Option<nat> := None;
    for i := 0 to |events|
      invariant State(lastId, guidance, runs, order) == StateAfter(events[..i], known)
      invariant violations == Reported(events[..i], known)
      invariant forall k :: 0 <= k < |order| ==> order[k] in runs
    {
      var e := events[i];
      ghost var before := State(lastId, guidance, runs, order);
      assert events[..i + 1][..i] == events[..i];
      var broken: seq<Rule> := [];
      if e.Malformed? {
        broken := [Schema];
      } else {
        if lastId.Some? && e.id <= lastId.value { broken := [MonotonicId]; }
        lastId := NextId(lastId, e.id);
        if e.body.GuidanceApplied? {
          if e.body.guidance !in guidance { broken := broken + [GuidanceBeforeRecord]; }
        } else if e.body.Appended? {
          if e.body.isGuidance { guidance := guidance + {e.body.message}; }
        } else if !e.body.Unchecked? {
          var r := e.body.run;
          var after, found := CheckRun(if r in runs then runs[r] else NEW_RUN, e.body);
          assert before.RunOf(r) == if r in before.runs then before.runs[r] else NEW_RUN;
          runs, order := runs[r := after], if r in runs then order else order + [r];
          broken := broken + found;
        }
      }
      assert broken == Found(before, e);
      violations := violations + At(i, e, broken);
    }
    assert events[..|events|] == events;
    if requireFinalPerTurn {
      var missing := ReportMissing(runs, order, StateAfter(events, known));
      violations := violations + missing;
    }
    summary := map r | r in runs :: Summary(runs[r].finals, runs[r].status);
    ok := violations == [];
  }
}
