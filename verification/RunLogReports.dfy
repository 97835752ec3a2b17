/**
  What the validator's report list holds, entry by entry and in which order, and
  what its summary says (packages/shared/src/run-log.ts:84-228).
 */
module RunLogReports {
  import opened Wrappers
  import opened RunLog
  import opened RunLogSpec

  // ---- Entries about rows -----------------------------------------------------

  function IdOf(e: Event): Option<nat> {
    match e
    case Malformed(_) => None
    case Parsed(id, _) => Some(id)
  }

  lemma AtHolds(n: nat, e: Event, rules: seq<Rule>, i: nat, id: Option<nat>, rule: Rule)
    ensures AtRow(i, id, rule) in At(n, e, rules) <==> i == n && id == IdOf(e) && rule in rules
  {
    if i == n && id == IdOf(e) && rule in rules {
      var k :| 0 <= k < |rules| && rules[k] == rule;
      assert At(n, e, rules)[k] == AtRow(i, id, rule);
    }
  }

  /** A row is reported under a rule, with its place and id, exactly when it breaks the rule. */
  lemma {:induction false} ReportedExactly(events: seq<Event>, known: set<GuidanceId>, i: nat, id: Option<nat>, rule: Rule)
    ensures AtRow(i, id, rule) in Reported(events, known) <==>
      i < |events| && id == IdOf(events[i]) && Breaks(events[..i], known, events[i], rule)
    decreases |events|
  {
    hide Breaks, Found, BrokenRules, At;
    if events != [] {
      var n := |events| - 1;
      var before, e := events[..n], events[n];
      ReportedExactly(before, known, i, id, rule);
      FoundIsBroken(before, known, e);
      BrokenInOrder(before, known, e);
      AtHolds(n, e, BrokenRules(before, known, e), i, id, rule);
      if i < n { assert before[..i] == events[..i]; }
    }
  }

  function Rank(rule: Rule): nat {
    match rule
    case Schema => 0
    case MonotonicId => 1
    case EventBeforeStart => 2
    case StepAfterStopped => 3
    case StatusAfterTerminal => 4
    case GuidanceBeforeRecord => 5
    case DeltaAfterFinal => 6
    case DuplicateFinal => 7
  }

  ghost predicate Ranked(rules: seq<Rule>) {
    forall j, k :: 0 <= j < k < |rules| ==> Rank(rules[j]) < Rank(rules[k])
  }

  lemma WhenRanked(rules: seq<Rule>, broken: bool, rule: Rule)
    requires Ranked(rules) && forall k :: 0 <= k < |rules| ==> Rank(rules[k]) < Rank(rule)
    ensures var longer := rules + When(broken, rule);
      && Ranked(longer) && (forall k :: 0 <= k < |longer| ==> Rank(longer[k]) <= Rank(rule))
      && forall q :: q in longer <==> q in rules || (broken && q == rule)
  {}

  /** The first four rules of the walk, as far as they are broken. */
  ghost function FirstFour(a: bool, b: bool, c: bool, d: bool): seq<Rule> {
    When(a, Schema) + When(b, MonotonicId) + When(c, EventBeforeStart) + When(d, StepAfterStopped)
  }

  lemma FirstFourRanked(a: bool, b: bool, c: bool, d: bool)
    ensures var rules := FirstFour(a, b, c, d);
      && Ranked(rules) && (forall k :: 0 <= k < |rules| ==> Rank(rules[k]) <= Rank(StepAfterStopped))
      && forall q :: q in rules <==>
        (a && q == Schema) || (b && q == MonotonicId) || (c && q == EventBeforeStart) || (d && q == StepAfterStopped)
  {
    hide When, Ranked;
    NothingRanked();
    WhenRanked([], a, Schema);
    assert [] + When(a, Schema) == When(a, Schema);
    WhenRanked(When(a, Schema), b, MonotonicId);
    WhenRanked(When(a, Schema) + When(b, MonotonicId), c, EventBeforeStart);
    WhenRanked(When(a, Schema) + When(b, MonotonicId) + When(c, EventBeforeStart), d, StepAfterStopped);
  }

  ghost function LastFour(front: seq<Rule>, a: bool, b: bool, c: bool, d: bool): seq<Rule> {
    front + When(a, StatusAfterTerminal) + When(b, GuidanceBeforeRecord) + When(c, DeltaAfterFinal) + When(d, DuplicateFinal)
  }

  lemma LastFourRanked(front: seq<Rule>, a: bool, b: bool, c: bool, d: bool)
    requires Ranked(front) && forall k :: 0 <= k < |front| ==> Rank(front[k]) <= Rank(StepAfterStopped)
    ensures var rules := LastFour(front, a, b, c, d);
      && Ranked(rules)
      && forall q :: q in rules <==>
        || q in front || (a && q == StatusAfterTerminal) || (b && q == GuidanceBeforeRecord)
        || (c && q == DeltaAfterFinal) || (d && q == DuplicateFinal)
  {
    hide When, Ranked;
    var r1 := front + When(a, StatusAfterTerminal);
    WhenRanked(front, a, StatusAfterTerminal);
    var r2 := r1 + When(b, GuidanceBeforeRecord);
    WhenRanked(r1, b, GuidanceBeforeRecord);
    var r3 := r2 + When(c, DeltaAfterFinal);
    WhenRanked(r2, c, DeltaAfterFinal);
    WhenRanked(r3, d, DuplicateFinal);
  }

  lemma BrokenIs(before: seq<Event>, known: set<GuidanceId>, e: Event)
    ensures BrokenRules(before, known, e) == LastFour(
      FirstFour(Breaks(before, known, e, Schema), Breaks(before, known, e, MonotonicId),
                Breaks(before, known, e, EventBeforeStart), Breaks(before, known, e, StepAfterStopped)),
      Breaks(before, known, e, StatusAfterTerminal), Breaks(before, known, e, GuidanceBeforeRecord),
      Breaks(before, known, e, DeltaAfterFinal), Breaks(before, known, e, DuplicateFinal))
  {
    hide Breaks, When;
  }

  lemma BrokenInOrder(before: seq<Event>, known: set<GuidanceId>, e: Event)
    ensures Ranked(BrokenRules(before, known, e))
    ensures forall rule :: rule in BrokenRules(before, known, e) <==> Breaks(before, known, e, rule)
  {
    hide Breaks, When, Ranked, BrokenRules, FirstFour, LastFour;
    var a, b := Breaks(before, known, e, Schema), Breaks(before, known, e, MonotonicId);
    var c, d := Breaks(before, known, e, EventBeforeStart), Breaks(before, known, e, StepAfterStopped);
    FirstFourRanked(a, b, c, d);
    LastFourRanked(FirstFour(a, b, c, d), Breaks(before, known, e, StatusAfterTerminal),
                   Breaks(before, known, e, GuidanceBeforeRecord), Breaks(before, known, e, DeltaAfterFinal),
                   Breaks(before, known, e, DuplicateFinal));
    BrokenIs(before, known, e);
    forall rule ensures rule in BrokenRules(before, known, e) <==> Breaks(before, known, e, rule) {
      OneOfEight(rule);
    }
  }

  lemma OneOfEight(rule: Rule)
    ensures rule == Schema || rule == MonotonicId || rule == EventBeforeStart || rule == StepAfterStopped
      || rule == StatusAfterTerminal || rule == GuidanceBeforeRecord || rule == DeltaAfterFinal || rule == DuplicateFinal
  {}

  lemma NothingRanked()
    ensures Ranked([])
  {}

  /** Row entries come by row, and within a row by the order of the rules in the walk. */
  ghost predicate Earlier(v: Violation, w: Violation) {
    v.AtRow? && w.AtRow? && (v.index < w.index || (v.index == w.index && Rank(v.rule) < Rank(w.rule)))
  }

  lemma {:induction false} ReportedInOrder(events: seq<Event>, known: set<GuidanceId>)
    ensures forall k :: 0 <= k < |Reported(events, known)| ==>
      Reported(events, known)[k].AtRow? && Reported(events, known)[k].index < |events|
    ensures forall j, k :: 0 <= j < k < |Reported(events, known)| ==>
      Earlier(Reported(events, known)[j], Reported(events, known)[k])
    decreases |events|
  {
    hide Breaks, Found, BrokenRules;
    if events != [] {
      var n := |events| - 1;
      ReportedInOrder(events[..n], known);
      FoundIsBroken(events[..n], known, events[n]);
      BrokenInOrder(events[..n], known, events[n]);
    }
  }

  // ---- Order of first appearance ----------------------------------------------

  /** The marks in the order in which each first appears. */
  function Appear<T(==)>(marks: seq<Option<T>>): seq<T> {
    if marks == [] then []
    else
      var n := |marks| - 1;
      var front := Appear(marks[..n]);
      if marks[n].Some? && marks[n].value !in front then front + [marks[n].value] else front
  }

  /** `a` is seen at a place up to which `b` is not. */
  ghost predicate SeenBefore<T>(marks: seq<Option<T>>, a: T, b: T) {
    exists k :: 0 <= k < |marks| && marks[k] == Some(a) && Some(b) !in marks[..k + 1]
  }

  lemma SeenBeforeLonger<T>(front: seq<Option<T>>, last: Option<T>, a: T, b: T)
    requires SeenBefore(front, a, b)
    ensures SeenBefore(front + [last], a, b)
  {
    var all := front + [last];
    var k :| 0 <= k < |front| && front[k] == Some(a) && Some(b) !in front[..k + 1];
    assert all[k] == Some(a) && all[..k + 1] == front[..k + 1];
  }

  lemma NewIsLast<T>(front: seq<Option<T>>, a: T, b: T)
    requires Some(a) in front && Some(b) !in front
    ensures SeenBefore(front + [Some(b)], a, b)
  {
    var all := front + [Some(b)];
    var k :| 0 <= k < |front| && front[k] == Some(a);
    assert all[k] == Some(a) && all[..k + 1] == front[..k + 1];
  }

  lemma {:induction false} AppearHas<T>(marks: seq<Option<T>>, x: T)
    ensures x in Appear(marks) <==> Some(x) in marks
    decreases |marks|
  {
    if marks != [] {
      var n := |marks| - 1;
      AppearHas(marks[..n], x);
      assert marks == marks[..n] + [marks[n]];
    }
  }

  lemma {:induction false} AppearsInOrder<T>(marks: seq<Option<T>>)
    ensures forall i, j :: 0 <= i < j < |Appear(marks)| ==> SeenBefore(marks, Appear(marks)[i], Appear(marks)[j])
    decreases |marks|
  {
    hide SeenBefore;
    if marks != [] {
      var n := |marks| - 1;
      var front, last := marks[..n], marks[n];
      var seen := Appear(front);
      AppearsInOrder(front);
      assert marks == front + [last];
      forall i, j | 0 <= i < j < |Appear(marks)| ensures SeenBefore(marks, Appear(marks)[i], Appear(marks)[j]) {
        assert Appear(marks)[i] == seen[i];
        if j < |seen| {
          SeenBeforeLonger(front, last, seen[i], seen[j]);
        } else {
          assert last == Some(Appear(marks)[j]) && Appear(marks)[j] !in seen;
          AppearHas(front, seen[i]);
          AppearHas(front, Appear(marks)[j]);
          NewIsLast(front, seen[i], Appear(marks)[j]);
        }
      }
    }
  }

  /** The run whose state a row touches. */
  function RunMark(e: Event): Option<RunId> {
    match e
    case Malformed(_) => None
    case Parsed(_, GuidanceApplied(_, _)) => None
    case Parsed(_, Appended(_, _, _)) => None
    case Parsed(_, Unchecked(_)) => None
    case Parsed(_, body) => Some(body.run)
  }

  /** The turn of the run a row streams to. */
  function TurnMark(e: Event, r: RunId): Option<nat> {
    match e
    case Parsed(_, Delta(q, t)) => if q == r then Some(t) else None
    case _ => None
  }

  function RunMarks(events: seq<Event>): (marks: seq<Option<RunId>>)
    ensures |marks| == |events| && forall i :: 0 <= i < |events| ==> marks[i] == RunMark(events[i])
  {
    seq(|events|, i requires 0 <= i < |events| => RunMark(events[i]))
  }

  function TurnMarks(events: seq<Event>, r: RunId): (marks: seq<Option<nat>>)
    ensures |marks| == |events| && forall i :: 0 <= i < |events| ==> marks[i] == TurnMark(events[i], r)
  {
    seq(|events|, i requires 0 <= i < |events| => TurnMark(events[i], r))
  }

  lemma StepOrder(s: State, e: Event, r: RunId)
    requires forall q :: q in s.order <==> q in s.runs
    ensures Step(s, e).order ==
      (if RunMark(e).Some? && RunMark(e).value !in s.order then s.order + [RunMark(e).value] else s.order)
    ensures Step(s, e).RunOf(r).deltaTurns ==
      (if TurnMark(e, r).Some? && TurnMark(e, r).value !in s.RunOf(r).deltaTurns
       then s.RunOf(r).deltaTurns + [TurnMark(e, r).value] else s.RunOf(r).deltaTurns)
  {}

  lemma AppearNext<T>(front: seq<Option<T>>, last: Option<T>)
    ensures Appear(front + [last]) ==
      if last.Some? && last.value !in Appear(front) then Appear(front) + [last.value] else Appear(front)
  {
    assert (front + [last])[..|front|] == front;
  }

  lemma RunsNext(events: seq<Event>, n: nat, s: State, r: RunId)
    requires n == |events| - 1
    requires forall q :: q in s.order <==> q in s.runs
    requires s.order == Appear(RunMarks(events[..n]))
    ensures Step(s, events[n]).order == Appear(RunMarks(events))
  {
    hide Step, Appear, RunMark;
    StepOrder(s, events[n], r);
    var front := RunMarks(events[..n]);
    assert RunMarks(events) == front + [RunMark(events[n])];
    AppearNext(front, RunMark(events[n]));
  }

  lemma TurnsNext(events: seq<Event>, n: nat, s: State, r: RunId)
    requires n == |events| - 1
    requires forall q :: q in s.order <==> q in s.runs
    requires s.RunOf(r).deltaTurns == Appear(TurnMarks(events[..n], r))
    ensures Step(s, events[n]).RunOf(r).deltaTurns == Appear(TurnMarks(events, r))
  {
    hide Step, Appear, TurnMark;
    StepOrder(s, events[n], r);
    var front := TurnMarks(events[..n], r);
    assert TurnMarks(events, r) == front + [TurnMark(events[n], r)];
    AppearNext(front, TurnMark(events[n], r));
  }

  /** Runs, and the turns of a run, are kept in the order in which the log first shows them. */
  lemma {:induction false} KeptInOrder(events: seq<Event>, known: set<GuidanceId>, r: RunId)
    ensures StateAfter(events, known).order == Appear(RunMarks(events))
    ensures StateAfter(events, known).RunOf(r).deltaTurns == Appear(TurnMarks(events, r))
    decreases |events|
  {
    hide Step;
    if events != [] {
      hide RunMarks, TurnMarks, Appear;
      var n := |events| - 1;
      KeptInOrder(events[..n], known, r);
      StateIsTidy(events[..n], known);
      RunsNext(events, n, StateAfter(events[..n], known), r);
      TurnsNext(events, n, StateAfter(events[..n], known), r);
    }
  }

  // ---- Entries about turns ----------------------------------------------------

  /** Missing finals come by run, then by turn, each in the order of first appearance. */
  ghost predicate ShownBefore(events: seq<Event>, v: Violation, w: Violation) {
    && v.MissingFinal? && w.MissingFinal?
    && (if v.run == w.run then SeenBefore(TurnMarks(events, v.run), v.turn, w.turn)
        else SeenBefore(RunMarks(events), v.run, w.run))
  }

  ghost predicate TurnsOf(vs: seq<Violation>, r: RunId, turns: seq<nat>) {
    forall k :: 0 <= k < |vs| ==> vs[k].MissingFinal? && vs[k].run == r && vs[k].turn in turns
  }

  ghost predicate InTurn(vs: seq<Violation>, marks: seq<Option<nat>>) {
    && (forall k :: 0 <= k < |vs| ==> vs[k].MissingFinal?)
    && forall i, j :: 0 <= i < j < |vs| ==> SeenBefore(marks, vs[i].turn, vs[j].turn)
  }

  lemma {:induction false} MissingInOrderOf(r: RunId, run: RunState, turns: seq<nat>, marks: seq<Option<nat>>)
    requires forall i, j :: 0 <= i < j < |turns| ==> SeenBefore(marks, turns[i], turns[j])
    ensures TurnsOf(MissingIn(r, run, turns), r, turns) && InTurn(MissingIn(r, run, turns), marks)
    decreases |turns|
  {
    hide SeenBefore;
    if turns != [] {
      var n := |turns| - 1;
      MissingInOrderOf(r, run, turns[..n], marks);
      var front := MissingIn(r, run, turns[..n]);
      forall i | 0 <= i < |front| ensures front[i].turn in turns && SeenBefore(marks, front[i].turn, turns[n]) {
        var k :| 0 <= k < n && turns[..n][k] == front[i].turn;
        assert turns[k] == front[i].turn;
      }
    }
  }

  ghost predicate RunsAmong(vs: seq<Violation>, order: seq<RunId>) {
    forall k :: 0 <= k < |vs| ==> vs[k].MissingFinal? && vs[k].run in order
  }

  ghost predicate InOrder(events: seq<Event>, vs: seq<Violation>) {
    forall i, j :: 0 <= i < j < |vs| ==> ShownBefore(events, vs[i], vs[j])
  }

  lemma BothInOrder(events: seq<Event>, front: seq<Violation>, last: seq<Violation>, r: RunId, turns: seq<nat>)
    requires InOrder(events, front) && TurnsOf(last, r, turns) && InTurn(last, TurnMarks(events, r))
    requires forall i :: 0 <= i < |front| ==>
      front[i].MissingFinal? && front[i].run != r && SeenBefore(RunMarks(events), front[i].run, r)
    ensures InOrder(events, front + last)
  {
    hide SeenBefore;
  }

  lemma OtherRuns(events: seq<Event>, front: seq<Violation>, order: seq<RunId>, n: nat)
    requires n == |order| - 1 && RunsAmong(front, order[..n])
    requires forall i, j :: 0 <= i < j < |order| ==> SeenBefore(RunMarks(events), order[i], order[j]) && order[i] != order[j]
    ensures forall i :: 0 <= i < |front| ==>
      front[i].MissingFinal? && front[i].run != order[n] && SeenBefore(RunMarks(events), front[i].run, order[n])
  {
    hide SeenBefore;
    forall i | 0 <= i < |front|
      ensures front[i].MissingFinal? && front[i].run != order[n] && SeenBefore(RunMarks(events), front[i].run, order[n])
    {
      var k :| 0 <= k < n && order[..n][k] == front[i].run;
      assert order[k] == front[i].run;
    }
  }

  lemma AllAmong(front: seq<Violation>, last: seq<Violation>, order: seq<RunId>, n: nat, turns: seq<nat>)
    requires n == |order| - 1 && RunsAmong(front, order[..n]) && TurnsOf(last, order[n], turns)
    ensures RunsAmong(front + last, order)
  {}

  lemma {:induction false} MissingBy(events: seq<Event>, known: set<GuidanceId>, s: State, order: seq<RunId>)
    requires s == StateAfter(events, known)
    requires forall i, j :: 0 <= i < j < |order| ==> SeenBefore(RunMarks(events), order[i], order[j]) && order[i] != order[j]
    ensures RunsAmong(Missing(s, order), order) && InOrder(events, Missing(s, order))
    decreases |order|
  {
    hide SeenBefore, Appear, InOrder, InTurn, TurnsOf, MissingIn, RunMarks, TurnMarks, StateAfter;
    if order == [] {
      NothingInOrder(events);
    } else {
      var n := |order| - 1;
      var r := order[n];
      var turns := s.RunOf(r).deltaTurns;
      MissingBy(events, known, s, order[..n]);
      KeptInOrder(events, known, r);
      AppearsInOrder(TurnMarks(events, r));
      MissingInOrderOf(r, s.RunOf(r), turns, TurnMarks(events, r));
      var front, last := Missing(s, order[..n]), MissingIn(r, s.RunOf(r), turns);
      OtherRuns(events, front, order, n);
      AllAmong(front, last, order, n, turns);
      BothInOrder(events, front, last, r, turns);
    }
  }

  lemma NothingInOrder(events: seq<Event>)
    ensures InOrder(events, [])
  {}

  lemma MissingInOrder(events: seq<Event>, known: set<GuidanceId>)
    ensures var s := StateAfter(events, known);
      var vs := Missing(s, s.order);
      forall i, j :: 0 <= i < j < |vs| ==> ShownBefore(events, vs[i], vs[j])
  {
    hide SeenBefore, Appear, ShownBefore;
    var s := StateAfter(events, known);
    KeptInOrder(events, known, "");
    AppearsInOrder(RunMarks(events));
    StateIsTidy(events, known);
    MissingBy(events, known, s, s.order);
  }

  // ---- The summary ------------------------------------------------------------

  /** Each run the log touches, with its standing finals and its last status. */
  lemma SummaryExactly(events: seq<Event>, known: set<GuidanceId>, r: RunId)
    ensures var s := StateAfter(events, known);
      && (r in s.runs <==> exists i :: 0 <= i < |events| && RunMark(events[i]) == Some(r))
      && (r in s.runs ==>
        && (forall t: nat :: t in s.runs[r].finals <==> FinalStands(events, r, t))
        && (forall status :: s.runs[r].status == Some(status) <==> LastStatusIs(events, r, status)))
  {
    hide Appear;
    var s := StateAfter(events, known);
    KeptInOrder(events, known, r);
    AppearHas(RunMarks(events), r);
    StateIsTidy(events, known);
    StateMeansLog(events, known);
    assert RunMeaning(events, s.RunOf(r), r);
    assert Some(r) in RunMarks(events) <==> exists i :: 0 <= i < |events| && RunMark(events[i]) == Some(r) by {
      assert forall i :: 0 <= i < |events| ==> RunMarks(events)[i] == RunMark(events[i]);
    }
  }

  // ---- The end of a run, by name ----------------------------------------------

  /** After a run stopped, failed or completed, and after no other status, its steps are reported. */
  lemma StepAfterEndExactly(before: seq<Event>, known: set<GuidanceId>, id: nat, r: RunId)
    ensures Breaks(before, known, Parsed(id, Stepped(r)), StepAfterStopped) <==>
      LastStatusIs(before, r, Stopped) || LastStatusIs(before, r, Error) || LastStatusIs(before, r, Completed)
  {
    hide LastStatusIs;
  }
}
