/**
  The deterministic mock event stream (packages/shared/src/mock-stream.ts), and
  the proof that what it emits, however its runs are strung together, is a log
  the run-log validator accepts.
 */
module MockStream {
  import opened Wrappers
  import opened RunLog
  import opened RunLogSpec
  import opened RunLogProjection

  datatype Scenario = RunsToCompletion | Stops | StepRetry | Waits | ErrorRetryable | ProposesRequest

  datatype Row = Row(event: Event, at: int)

  datatype GeneratorError = IdTooLong

  /** Stream ids are at most 19 decimal digits (packages/shared/src/events.ts:30). */
  const ID_LIMIT := 10_000_000_000_000_000_000

  const TICK_MS := 250

  /** What each scenario says, in order. */
  function Bodies(scenario: Scenario, r: RunId): seq<Body> {
    var opening := [Started(r), Unchecked(Some(r)), Stepped(r)];
    match scenario
    case Stops => opening + [StatusIs(r, Stopping), Stepped(r), StatusIs(r, Stopped)]
    case ErrorRetryable => opening + [StatusIs(r, Error)]
    case RunsToCompletion =>
      opening + [Stepped(r), Stepped(r), Reset(r, 0), Delta(r, 0), Delta(r, 0), Stepped(r),
                 Final(r, 0), StatusIs(r, Completed)]
    case StepRetry =>
      opening + [Stepped(r), Stepped(r), Reset(r, 0), Delta(r, 0), Reset(r, 0), Delta(r, 0), Delta(r, 0), Stepped(r),
                 Final(r, 0), StatusIs(r, Completed)]
    case Waits =>
      opening + [Stepped(r), Stepped(r), Reset(r, 0), Delta(r, 0), Delta(r, 0), Stepped(r),
                 Final(r, 0), StatusIs(r, Waiting)]
    case ProposesRequest =>
      opening + [Stepped(r), Stepped(r), Reset(r, 0), Delta(r, 0), Delta(r, 0), Stepped(r),
                 Unchecked(Some(r)), Final(r, 0), StatusIs(r, Completed), Unchecked(Some(r))]
  }

  function Rows(first: nat, startedAt: int, bodies: seq<Body>): seq<Row> {
    seq(|bodies|, i requires 0 <= i < |bodies| => Row(Parsed(first + i, bodies[i]), startedAt + TICK_MS * i))
  }

  function EventsOf(first: nat, bodies: seq<Body>): seq<Event> {
    seq(|bodies|, i requires 0 <= i < |bodies| => Parsed(first + i, bodies[i]))
  }

  function EventsIn(rows: seq<Row>): seq<Event> {
    seq(|rows|, i requires 0 <= i < |rows| => rows[i].event)
  }

  /** The stream under construction: the next id, the next timestamp, and what was pushed. */
  class Builder {
    var id: nat
    var at: int
    var events: seq<Row>

    constructor (firstId: nat, startedAt: int)
      ensures id == firstId && at == startedAt && events == []
    {
      id, at, events := firstId, startedAt, [];
    }

    /** Parsing rejects an id of more than 19 digits, and then nothing is appended. */
    method Push(body: Body) returns (ok: bool)
      modifies this
      ensures ok == (old(id) < ID_LIMIT)
      ensures ok ==> id == old(id) + 1 && at == old(at) + TICK_MS && events == old(events) + [Row(Parsed(old(id), body), old(at))]
      ensures !ok ==> id == old(id) && at == old(at) && events == old(events)
    {
      ok := id < ID_LIMIT;
      if ok {
        events := events + [Row(Parsed(id, body), at)];
        id := id + 1;
        at := at + TICK_MS;
      }
    }

    /** A straight run of pushes; it stops at the first rejected row. */
    method PushAll(bodies: seq<Body>, ghost first: nat, ghost startedAt: int, ghost done: seq<Body>) returns (ok: bool)
      requires id == first + |done| && at == startedAt + TICK_MS * |done|
      requires first + |done| <= ID_LIMIT && events == Rows(first, startedAt, done)
      modifies this
      ensures ok == (first + |done| + |bodies| <= ID_LIMIT)
      ensures ok ==> id == first + |done + bodies| && at == startedAt + TICK_MS * |done + bodies|
      ensures ok ==> events == Rows(first, startedAt, done + bodies)
    {
      ok := true;
      for i := 0 to |bodies|
        invariant ok && first + |done| + i <= ID_LIMIT
        invariant id == first + |done| + i && at == startedAt + TICK_MS * (|done| + i)
        invariant events == Rows(first, startedAt, done + bodies[..i])
      {
        ok := Push(bodies[i]);
        if !ok { return; }
        assert done + bodies[..i + 1] == done + bodies[..i] + [bodies[i]];
      }
      assert done + bodies[..|bodies|] == done + bodies;
    }
  }

  function Opening(r: RunId): seq<Body> {
    [Started(r), Unchecked(Some(r)), Stepped(r)]
  }

  /** The turn every other scenario streams. */
  function Turn(scenario: Scenario, r: RunId): seq<Body> {
    [Stepped(r), Stepped(r)]
    + (if scenario.StepRetry? then [Reset(r, 0), Delta(r, 0)] else [])
    + [Reset(r, 0), Delta(r, 0), Delta(r, 0), Stepped(r)]
  }

  /** The end of such a turn, and of the run. */
  function Ending(scenario: Scenario, r: RunId): seq<Body> {
    (if scenario.ProposesRequest? then [Unchecked(Some(r))] else []) + [Final(r, 0)]
    + if scenario.Waits? then [StatusIs(r, Waiting)]
      else [StatusIs(r, Completed)] + if scenario.ProposesRequest? then [Unchecked(Some(r))] else []
  }

  lemma BodiesInParts(scenario: Scenario, r: RunId)
    ensures Bodies(scenario, r) ==
      if scenario.Stops? then Opening(r) + [StatusIs(r, Stopping), Stepped(r), StatusIs(r, Stopped)]
      else if scenario.ErrorRetryable? then Opening(r) + [StatusIs(r, Error)]
      else Opening(r) + Turn(scenario, r) + Ending(scenario, r)
  {}

  /** What emitting a run comes to: its rows, or a refusal when an id would outgrow 19 digits. */
  function Emitted(bodies: seq<Body>, firstId: nat, startedAt: int): Result<seq<Row>, GeneratorError> {
    if firstId + |bodies| <= ID_LIMIT then Ok(Rows(firstId, startedAt, bodies)) else Err(IdTooLong)
  }

  method MockRunStream(scenario: Scenario, r: RunId, firstId: nat, startedAt: int)
    returns (result: Result<seq<Row>, GeneratorError>)
    ensures result == Emitted(Bodies(scenario, r), firstId, startedAt)
  {
    BodiesInParts(scenario, r);
    if firstId > ID_LIMIT { return Err(IdTooLong); }
    var b := new Builder(firstId, startedAt);
    var opening, turn := Opening(r), Turn(scenario, r);
    var ok := b.PushAll(opening, firstId, startedAt, []);
    assert [] + opening == opening;
    if !ok { return Err(IdTooLong); }
    if scenario.Stops? {
      ok := b.PushAll([StatusIs(r, Stopping), Stepped(r), StatusIs(r, Stopped)], firstId, startedAt, opening);
    } else if scenario.ErrorRetryable? {
      ok := b.PushAll([StatusIs(r, Error)], firstId, startedAt, opening);
    } else {
      ok := b.PushAll(turn, firstId, startedAt, opening);
      if !ok { return Err(IdTooLong); }
      ok := b.PushAll(Ending(scenario, r), firstId, startedAt, opening + turn);
    }
    result := if ok then Ok(b.events) else Err(IdTooLong);
  }

  lemma RowsCarryEvents(first: nat, startedAt: int, bodies: seq<Body>)
    ensures EventsIn(Rows(first, startedAt, bodies)) == EventsOf(first, bodies)
  {}

  // ---- What is emitted is a valid log ---------------------------------------

  datatype Plan = Plan(scenario: Scenario, run: RunId)

  function BodiesOf(plans: seq<Plan>): (lists: seq<seq<Body>>)
    ensures |lists| == |plans|
  {
    seq(|plans|, i requires 0 <= i < |plans| => Bodies(plans[i].scenario, plans[i].run))
  }

  /** The logs of several runs, end to end, under consecutive ids. */
  function LogOf(lists: seq<seq<Body>>, first: nat): seq<Event> {
    if lists == [] then []
    else
      var n := |lists| - 1;
      var before := LogOf(lists[..n], first);
      before + EventsOf(first + |before|, lists[n])
  }

  function MockLog(plans: seq<Plan>, first: nat): seq<Event> {
    LogOf(BodiesOf(plans), first)
  }

  lemma MockLogLast(plans: seq<Plan>, first: nat, bodies: seq<Body>)
    requires plans != [] && bodies == BodiesOf(plans)[|plans| - 1]
    ensures var before := MockLog(plans[..|plans| - 1], first);
      MockLog(plans, first) == before + EventsOf(first + |before|, bodies)
  {
    assert BodiesOf(plans)[..|plans| - 1] == BodiesOf(plans[..|plans| - 1]);
  }

  predicate DistinctRuns(plans: seq<Plan>) {
    forall i, j :: 0 <= i < j < |plans| ==> plans[i].run != plans[j].run
  }

  /**
    A run that starts first, streams turn 0 before a final at `f` (or never, when
    `f` is 0), and is silent after the row `z` that alone may be terminal.
   */
  ghost predicate Shape(bodies: seq<Body>, r: RunId, f: nat, z: nat) {
    && f <= z < |bodies| && bodies[0] == Started(r)
    && (f > 0 ==> bodies[f] == Final(r, 0))
    && forall i :: 0 < i < |bodies| ==>
      match bodies[i]
      case Started(_) => false
      case Stepped(q) => q == r && i <= z
      case StatusIs(q, s) => q == r && i <= z && (s.Terminal() ==> i == z)
      case Delta(q, t) => q == r && t == 0 && i < f
      case Reset(q, t) => q == r && t == 0 && i < f
      case Final(q, t) => q == r && t == 0 && i == f
      case Unchecked(q) => q == Some(r)
      case _ => false
  }

  lemma ShapeOrder(bodies: seq<Body>, r: RunId, f: nat, z: nat, first: nat)
    requires Shape(bodies, r, f, z)
    ensures var events := EventsOf(first, bodies);
      AllParsed(events) && IdsIncrease(events) && StepsFollowStart(events) && TerminalIsFinal(events)
      && GuidanceIsRecorded(events, {})
  {
    var events := EventsOf(first, bodies);
    forall j, q | HasBody(events, j, Stepped(q)) ensures exists i :: i < j && HasBody(events, i, Started(q)) {
      assert HasBody(events, 0, Started(r));
    }
    forall i, q, s: Status | HasBody(events, i, StatusIs(q, s)) && s.Terminal() ensures i == z {
      assert bodies[i] == StatusIs(q, s);
    }
    forall j, q | z < j ensures !HasBody(events, j, Stepped(q)) && !IsStatusOf(events, j, q) {}
  }

  lemma {:induction false} ShapeIsWellFormed(bodies: seq<Body>, r: RunId, f: nat, z: nat, first: nat)
    requires Shape(bodies, r, f, z)
    ensures WellFormed(EventsOf(first, bodies), true, {})
  {
    var events := EventsOf(first, bodies);
    ShapeOrder(bodies, r, f, z, first);
    forall i, q, t: nat | HasBody(events, i, Delta(q, t)) ensures FinalStands(events, q, t) {
      assert bodies[i] == Delta(q, t);
      assert HasBody(events, f, Final(r, 0));
      forall k | f < k ensures !HasBody(events, k, Reset(r, 0)) {}
    }
    forall i, j, q, t: nat | i < j && HasBody(events, i, Final(q, t))
      ensures !HasBody(events, j, Final(q, t)) && !HasBody(events, j, Delta(q, t)) {}
  }

  lemma ScenarioShape(scenario: Scenario, r: RunId) returns (f: nat, z: nat)
    ensures Shape(Bodies(scenario, r), r, f, z)
  {
    match scenario
    case Stops => f, z := 0, 5;
    case ErrorRetryable => f, z := 0, 3;
    case RunsToCompletion => f, z := 9, 10;
    case StepRetry => f, z := 11, 12;
    case Waits => f, z := 9, 10;
    case ProposesRequest => f, z := 10, 11;
  }

  lemma {:induction false} LogRows(lists: seq<seq<Body>>, first: nat)
    ensures forall i :: 0 <= i < |LogOf(lists, first)| ==>
      LogOf(lists, first)[i].Parsed? && LogOf(lists, first)[i].id == first + i
    decreases |lists|
  {
    if lists != [] { LogRows(lists[..|lists| - 1], first); }
  }

  lemma {:induction false} SliceConcat(a: seq<Event>, b: seq<Event>, r: RunId)
    ensures Project(a + b, r) == Project(a, r) + Project(b, r)
    decreases |b|
  {
    if b == [] {
      assert a + b == a;
    } else {
      var n := |b| - 1;
      SliceConcat(a, b[..n], r);
      assert (a + b)[..|a + b| - 1] == a + b[..n];
    }
  }

  lemma {:induction false} ProjectAll(events: seq<Event>, q: RunId, r: RunId)
    requires forall e :: e in events ==> Keeps(e, q, false) && !e.body.Appended?
    ensures Project(events, r) == if r == q then events else []
    decreases |events|
  {
    if events != [] {
      var n := |events| - 1;
      assert events[n] in events && events == events[..n] + [events[n]];
      ProjectAll(events[..n], q, r);
    }
  }

  lemma AllAboutRun(p: Plan, bodies: seq<Body>, from: nat)
    requires bodies == Bodies(p.scenario, p.run)
    ensures forall e :: e in EventsOf(from, bodies) ==> Keeps(e, p.run, false) && !e.body.Appended?
  {
    var f, z := ScenarioShape(p.scenario, p.run);
  }

  lemma ProjectTail(before: seq<Event>, last: seq<Event>, q: RunId, r: RunId)
    requires forall e :: e in last ==> Keeps(e, q, false) && !e.body.Appended?
    ensures Project(before + last, r) == Project(before, r) + if r == q then last else []
  {
    SliceConcat(before, last, r);
    ProjectAll(last, q, r);
  }

  ghost predicate IsSegment(events: seq<Event>, bodies: seq<Body>) {
    exists from :: events == EventsOf(from, bodies)
  }

  lemma MockLogTail(plans: seq<Plan>, first: nat, r: RunId, bodies: seq<Body>)
    requires plans != [] && bodies == BodiesOf(plans)[|plans| - 1]
    ensures var n := |plans| - 1;
      var before := Project(MockLog(plans[..n], first), r);
      plans[n].run != r ==> Project(MockLog(plans, first), r) == before
    ensures var n := |plans| - 1;
      var before := Project(MockLog(plans[..n], first), r);
      plans[n].run == r && before == [] ==> IsSegment(Project(MockLog(plans, first), r), bodies)
  {
    var n := |plans| - 1;
    var before := MockLog(plans[..n], first);
    MockLogLast(plans, first, bodies);
    AllAboutRun(plans[n], bodies, first + |before|);
    TailProjects(before, first + |before|, plans[n].run, r, bodies);
  }

  lemma TailProjects(before: seq<Event>, from: nat, q: RunId, r: RunId, bodies: seq<Body>)
    requires forall e :: e in EventsOf(from, bodies) ==> Keeps(e, q, false) && !e.body.Appended?
    ensures var log, p := before + EventsOf(from, bodies), Project(before, r);
      (q != r ==> Project(log, r) == p) && (q == r && p == [] ==> IsSegment(Project(log, r), bodies))
  {
    var last := EventsOf(from, bodies);
    ProjectTail(before, last, q, r);
    assert Project(before, r) + [] == Project(before, r);
    assert [] + last == last;
  }

  lemma {:induction false} NoSuchRun(plans: seq<Plan>, first: nat, r: RunId)
    requires forall i :: 0 <= i < |plans| ==> plans[i].run != r
    ensures Project(MockLog(plans, first), r) == []
    decreases |plans|
  {
    if plans != [] {
      MockLogTail(plans, first, r, BodiesOf(plans)[|plans| - 1]);
      NoSuchRun(plans[..|plans| - 1], first, r);
    }
  }

  /** The projection onto a planned run is that run's own stream. */
  lemma {:induction false} MockProjection(plans: seq<Plan>, first: nat, i: nat)
    requires DistinctRuns(plans) && i < |plans|
    ensures IsSegment(Project(MockLog(plans, first), plans[i].run), BodiesOf(plans)[i])
    decreases |plans|
  {
    var n := |plans| - 1;
    MockLogTail(plans, first, plans[i].run, BodiesOf(plans)[n]);
    assert BodiesOf(plans)[..n] == BodiesOf(plans[..n]);
    if i == n {
      NoSuchRun(plans[..n], first, plans[i].run);
    } else {
      MockProjection(plans[..n], first, i);
    }
  }

  /**
    However mock runs with distinct ids are strung together under consecutive
    stream ids, the validator accepts the log, and every turn that streamed has
    its final.
   */
  lemma {:induction false} MockLogsAreValid(plans: seq<Plan>, first: nat)
    requires DistinctRuns(plans)
    ensures Valid(MockLog(plans, first), true, {})
  {
    var events := MockLog(plans, first);
    LogRows(BodiesOf(plans), first);
    forall r ensures Valid(Project(events, r), true, {}) {
      if i :| 0 <= i < |plans| && plans[i].run == r {
        MockProjection(plans, first, i);
        var from :| Project(events, r) == EventsOf(from, Bodies(plans[i].scenario, r));
        var f, z := ScenarioShape(plans[i].scenario, r);
        ShapeIsWellFormed(Bodies(plans[i].scenario, r), r, f, z, from);
        ValidIffWellFormed(Project(events, r), true, {});
      } else {
        NoSuchRun(plans, first, r);
      }
    }
    ValidIffEveryProjectionIs(events, true, {});
  }

  // ---- The generated rows are those logs --------------------------------------

  /** The streams of several runs end to end, each under the ids that follow the last, if all are emitted. */
  function Streams(lists: seq<seq<Body>>, starts: seq<int>, first: nat): Result<seq<Row>, GeneratorError>
    requires |starts| == |lists|
  {
    if lists == [] then Ok([])
    else
      var n := |lists| - 1;
      match Streams(lists[..n], starts[..n], first)
      case Err(e) => Err(e)
      case Ok(rows) =>
        match Emitted(lists[n], first + |rows|, starts[n])
        case Err(e) => Err(e)
        case Ok(more) => Ok(rows + more)
  }

  lemma OneStreamMore(rows: seq<Row>, before: seq<Event>, from: nat, startedAt: int, bodies: seq<Body>)
    requires EventsIn(rows) == before
    ensures |rows| == |before| && EventsIn(rows + Rows(from, startedAt, bodies)) == before + EventsOf(from, bodies)
  {
    RowsCarryEvents(from, startedAt, bodies);
    assert |EventsIn(rows)| == |rows|;
  }

  lemma {:induction false} StreamsAreLogs(lists: seq<seq<Body>>, starts: seq<int>, first: nat)
    requires |starts| == |lists| && first <= ID_LIMIT
    ensures var result := Streams(lists, starts, first);
      (result.Ok? <==> first + |LogOf(lists, first)| <= ID_LIMIT)
      && (result.Ok? ==> EventsIn(result.value) == LogOf(lists, first))
    decreases |lists|
  {
    if lists != [] {
      var n := |lists| - 1;
      StreamsAreLogs(lists[..n], starts[..n], first);
      var front, before := Streams(lists[..n], starts[..n], first), LogOf(lists[..n], first);
      if front.Ok? { OneStreamMore(front.value, before, first + |before|, starts[n], lists[n]); }
    }
  }

  /**
    The streams of any list of runs with distinct ids, generated under consecutive
    stream ids, are all emitted exactly when those ids stay within 19 digits, and
    the rows end to end are then a log the validator accepts with a final for
    every turn that streamed.
   */
  lemma GeneratedLogsAreValid(plans: seq<Plan>, starts: seq<int>, first: nat)
    requires DistinctRuns(plans) && |starts| == |plans| && first <= ID_LIMIT
    ensures var result := Streams(BodiesOf(plans), starts, first);
      (result.Ok? <==> first + |MockLog(plans, first)| <= ID_LIMIT)
      && (result.Ok? ==> Valid(EventsIn(result.value), true, {}))
  {
    StreamsAreLogs(BodiesOf(plans), starts, first);
    MockLogsAreValid(plans, first);
  }

  // ---- What each scenario promises --------------------------------------------

  predicate Says(bodies: seq<Body>, i: int, body: Body) {
    0 <= i < |bodies| && bodies[i] == body
  }

  /** The last status is `status`, no row of the run's stepping follows it, and only Stop puts another before it. */
  ghost predicate EndsIn(bodies: seq<Body>, r: RunId, z: int, status: Status) {
    && Says(bodies, z, StatusIs(r, status))
    && (forall i :: z < i < |bodies| ==> bodies[i].Unchecked?)
    && (forall i, s: Status :: Says(bodies, i, StatusIs(r, s)) && i != z ==> status == Stopped && s == Stopping && i < z)
  }

  /** One final, and between the last reset and it exactly two deltas. */
  ghost predicate TextOnce(bodies: seq<Body>, r: RunId, reset: int, f: int) {
    && Says(bodies, reset, Reset(r, 0)) && Says(bodies, f, Final(r, 0)) && reset < f
    && (forall i :: Says(bodies, i, Final(r, 0)) ==> i == f)
    && (forall i :: Says(bodies, i, Reset(r, 0)) ==> i <= reset)
    && (forall i :: Says(bodies, i, Delta(r, 0)) && i > reset ==> i == reset + 1 || i == reset + 2)
    && Says(bodies, reset + 1, Delta(r, 0)) && Says(bodies, reset + 2, Delta(r, 0))
  }

  ghost predicate Silent(bodies: seq<Body>) {
    forall i :: 0 <= i < |bodies| ==> !bodies[i].Delta? && !bodies[i].Reset? && !bodies[i].Final?
  }

  /** A first attempt streamed something and was superseded. */
  ghost predicate Superseded(bodies: seq<Body>, r: RunId, reset: int) {
    exists i :: i < reset && Says(bodies, i, Delta(r, 0))
  }

  /**
    A stop or a provider error ends without text, any other with its text once,
    after a superseded attempt only in the retry.
   */
  ghost predicate AsDocumented(scenario: Scenario, r: RunId, reset: int, f: int, z: int) {
    var bodies := Bodies(scenario, r);
    && Says(bodies, 0, Started(r)) && Says(bodies, 2, Stepped(r))
    && EndsIn(bodies, r, z, match scenario
        case Stops => Stopped
        case ErrorRetryable => Error
        case Waits => Waiting
        case _ => Completed)
    && (if scenario.Stops? || scenario.ErrorRetryable? then Silent(bodies) else TextOnce(bodies, r, reset, f) && f < z)
    && (scenario.StepRetry? <==> Superseded(bodies, r, reset))
    && (z < |bodies| - 1 <==> scenario.ProposesRequest?)
  }

  lemma StopAsDocumented(r: RunId)
    ensures AsDocumented(Stops, r, 0, 0, 5)
  {}

  lemma ErrorAsDocumented(r: RunId)
    ensures AsDocumented(ErrorRetryable, r, 0, 0, 3)
  {}

  lemma CompletionAsDocumented(r: RunId)
    ensures AsDocumented(RunsToCompletion, r, 5, 9, 10)
  {}

  lemma WaitAsDocumented(r: RunId)
    ensures AsDocumented(Waits, r, 5, 9, 10)
  {}

  lemma ProposalAsDocumented(r: RunId)
    ensures AsDocumented(ProposesRequest, r, 5, 10, 11)
  {}

  lemma RetryAsDocumented(r: RunId)
    ensures AsDocumented(StepRetry, r, 7, 11, 12)
  {
    assert Says(Bodies(StepRetry, r), 6, Delta(r, 0));
  }

  lemma ScenariosAsDocumented(scenario: Scenario, r: RunId) returns (reset: int, f: int, z: int)
    ensures AsDocumented(scenario, r, reset, f, z)
  {
    hide AsDocumented;
    match scenario
    case Stops => reset, f, z := 0, 0, 5; StopAsDocumented(r);
    case ErrorRetryable => reset, f, z := 0, 0, 3; ErrorAsDocumented(r);
    case RunsToCompletion => reset, f, z := 5, 9, 10; CompletionAsDocumented(r);
    case Waits => reset, f, z := 5, 9, 10; WaitAsDocumented(r);
    case ProposesRequest => reset, f, z := 5, 10, 11; ProposalAsDocumented(r);
    case StepRetry => reset, f, z := 7, 11, 12; RetryAsDocumented(r);
  }

  /** Distinct run ids matter: the same run completed twice is rejected. */
  lemma {:induction false} RepeatedRunIsRejected(r: RunId, first: nat)
    ensures !Valid(MockLog([Plan(RunsToCompletion, r), Plan(RunsToCompletion, r)], first), true, {})
  {
    var plans := [Plan(RunsToCompletion, r), Plan(RunsToCompletion, r)];
    assert plans[..1] == [Plan(RunsToCompletion, r)] && plans[..1][..0] == [];
    var bodies := Bodies(RunsToCompletion, r);
    var events := MockLog(plans, first);
    MockLogLast(plans, first, bodies);
    MockLogLast(plans[..1], first, bodies);
    assert HasBody(events, 10, StatusIs(r, Completed)) && HasBody(events, 13, Stepped(r));
    ValidIffWellFormed(events, true, {});
  }
}
