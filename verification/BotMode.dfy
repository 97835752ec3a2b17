/**
  The Bot Mode message line: its printer, and its parser by one regular
  expression (packages/shared/src/partner-workflow.ts:10-42). Text is a string
  of code points, as the expression's `u` flag reads it.
 */
module BotMode {
  import opened Wrappers
  import opened RegexMatch
  import opened Texts

  datatype Message = Message(display: Text, profile: Option<Text>, body: Text)

  const ROBOT := 0x1F916
  const COLON := 58
  const OPEN := 40
  const SPACE := 32
  const DISPLAY_EXCLUDES: seq<int> := [COLON, 10, OPEN]

  const HEAD: Text := Codes("Message from ")
  const LEGACY_HEAD: Text := Codes("[Message from agent '")
  const LEGACY_TAIL: Text := Codes("']")
  const AT: Text := Codes("(@")
  const CLOSE: Text := Codes(")")

  // ---- Trimming and lengths -------------------------------------------------

  /** Where the white space starting at `i` ends. */
  function RunEnd(text: Text, i: nat): (e: nat)
    requires i <= |text|
    ensures All(text, i, e, White) && (e == |text| || !Space(text[e]))
    decreases |text| - i
  {
    if i < |text| && Space(text[i]) then RunEnd(text, i + 1) else i
  }

  function TrimStart(t: Text): Text {
    t[RunEnd(t, 0)..]
  }

  function TrimEnd(t: Text): (r: Text)
    ensures r <= t && (r == [] || !Space(r[|r| - 1]))
  {
    if t != [] && Space(t[|t| - 1]) then TrimEnd(t[..|t| - 1]) else t
  }

  function Trim(t: Text): Text {
    TrimEnd(TrimStart(t))
  }

  predicate Trimmed(t: Text) {
    t == [] || (!Space(t[0]) && !Space(t[|t| - 1]))
  }

  lemma TrimTrims(t: Text)
    ensures Trimmed(Trim(t))
    ensures Trimmed(t) ==> Trim(t) == t
  {
    var s := TrimStart(t);
    assert Trim(t) <= s;
  }

  /** JavaScript's `length`: code points above the basic plane take two units. */
  function Units(t: Text): (n: nat)
    ensures |t| <= n
  {
    if t == [] then 0 else Units(t[..|t| - 1]) + if t[|t| - 1] >= 0x10000 then 2 else 1
  }

  predicate AllIn(t: Text, k: CharClass) {
    forall i :: 0 <= i < |t| ==> In(t[i], k)
  }

  // ---- The printer ----------------------------------------------------------

  predicate DisplayOk(d: Text) {
    1 <= Units(d) <= 64 && AllIn(d, Except(DISPLAY_EXCLUDES))
  }

  predicate ProfileOk(p: Text) {
    1 <= |p| <= 64 && In(p[0], LowerOrDigit) && AllIn(p, LowerDigitDash)
  }

  predicate BodyOk(b: Text) {
    1 <= Units(b) <= 8000
  }

  function FromClose(body: Text): Text {
    CLOSE + ([COLON] + ([SPACE] + body))
  }

  function FromProfile(profile: Text, body: Text): Text {
    [SPACE] + (AT + (profile + FromClose(body)))
  }

  function Line(display: Text, profile: Text, body: Text): Text {
    HEAD + ([ROBOT, SPACE] + (display + FromProfile(profile, body)))
  }

  /** Refused input throws. */
  function Format(display: Text, profile: Text, body: Text): Result<Text, string> {
    if !DisplayOk(Trim(display)) then Err("display")
    else if !ProfileOk(profile) then Err("profile")
    else if !BodyOk(body) then Err("body")
    else Ok(Line(Trim(display), profile, body))
  }

  // ---- The pattern ----------------------------------------------------------

  // Marks: 2-3 the display, 4-5 the profile, 6-7 the legacy display, 8-9 the body.

  function Star(k: CharClass, n: nat): Item {
    Repeat(k, 0, n, true)
  }

  function Body(n: nat): seq<Item> {
    [Mark(8)] + ([Star(Anything, n)] + [Mark(9)])
  }

  function Colon(n: nat): seq<Item> {
    [Literal([COLON])] + ([Star(White, n)] + Body(n))
  }

  function Profile(n: nat): seq<Item> {
    [Star(White, n)] + ([Literal(AT)] + ([Mark(4)] + ([Repeat(LowerOrDigit, 1, 1, true)]
      + ([Repeat(LowerDigitDash, 0, 63, true)] + ([Mark(5)] + [Literal(CLOSE)])))))
  }

  function AfterDisplay(n: nat): seq<Item> {
    [Mark(3)] + ([Optional(Profile(n))] + Colon(n))
  }

  function Display(n: nat): seq<Item> {
    [Mark(2)] + ([Repeat(Except(DISPLAY_EXCLUDES), 1, 64, false)] + AfterDisplay(n))
  }

  function Robot(n: nat): seq<Item> {
    [Repeat(Exactly(ROBOT), 1, 1, true)] + [Star(White, n)]
  }

  function Modern(n: nat): seq<Item> {
    [Literal(HEAD)] + ([Optional(Robot(n))] + Display(n))
  }

  function Legacy(n: nat): seq<Item> {
    [Literal(LEGACY_HEAD)] + ([Mark(6)] + ([Repeat(Except([39]), 1, 64, true)] + ([Mark(7)]
      + ([Literal(LEGACY_TAIL)] + ([Star(White, n)] + Body(n))))))
  }

  /** Both alternatives, each with the body that follows them; `n` stands for no bound. */
  function Pattern(n: nat): seq<Item> {
    [Either(Modern(n), Legacy(n))]
  }

  function Captured(text: Text, marks: Marks, a: nat, b: nat): Option<Text> {
    if a in marks && b in marks && marks[a] <= marks[b] <= |text| then Some(text[marks[a]..marks[b]]) else None
  }

  function Or<T>(o: Option<T>, other: T): T {
    if o.Some? then o.value else other
  }

  function MessageOf(text: Text, marks: Marks): Message {
    var modern := Captured(text, marks, 2, 3);
    Message(Trim(if modern.Some? then modern.value else Or(Captured(text, marks, 6, 7), [])),
            Captured(text, marks, 4, 5),
            Or(Captured(text, marks, 8, 9), []))
  }

  function Parse(text: Text): Option<Message> {
    var marks := Match(Pattern(|text|), text, 0, map[]);
    if marks.None? then None else Some(MessageOf(text, marks.value))
  }

  // ---- The parts of the pattern ---------------------------------------------

  function WithBody(text: Text, marks: Marks, i: nat): Marks {
    marks[8 := i][9 := |text|]
  }

  /** The body takes whatever is left. */
  lemma BodyMatches(text: Text, i: nat, marks: Marks)
    requires i <= |text|
    ensures Match(Body(|text|), text, i, marks) == Some(WithBody(text, marks, i))
  {
    var n, end := |text|, [Mark(9)];
    MarkStep(8, [Star(Anything, n)] + end, text, i, marks);
    MarkStep(9, [], text, n, marks[8 := i]);
    assert end == [Mark(9)] + [];
    GreedyTakesRun(Anything, n, end, text, i, n, marks[8 := i]);
  }

  /** White space before the body is not part of it. */
  lemma GapMatches(text: Text, i: nat, marks: Marks)
    requires i <= |text|
    ensures Match([Star(White, |text|)] + Body(|text|), text, i, marks) == Some(WithBody(text, marks, RunEnd(text, i)))
  {
    var e := RunEnd(text, i);
    BodyMatches(text, e, marks);
    GreedyTakesRun(White, |text|, Body(|text|), text, i, e, marks);
  }

  lemma ColonMatches(text: Text, i: nat, marks: Marks)
    requires i <= |text|
    ensures Match(Colon(|text|), text, i, marks)
      == if i < |text| && text[i] == COLON then Some(WithBody(text, marks, RunEnd(text, i + 1))) else None
  {
    LiteralStep([COLON], [Star(White, |text|)] + Body(|text|), text, i, marks);
    if i < |text| {
      assert text[i..i + 1] == [text[i]];
      GapMatches(text, i + 1, marks);
    }
  }

  // ---- Parsing what was printed ---------------------------------------------

  /** Where a text reads as white space, "(@", a profile and ")". */
  ghost predicate ProfileStands(text: Text, i: nat, p0: nat, p1: nat) {
    && i + 2 <= p0 < p1 < |text| && p1 - p0 <= 64
    && All(text, i, p0 - 2, White) && StandsAt(AT, text, p0 - 2)
    && In(text[p0], LowerOrDigit) && All(text, p0, p1, LowerDigitDash) && StandsAt(CLOSE, text, p1)
  }

  function ProfileTail(n: nat): seq<Item> {
    [Repeat(LowerOrDigit, 1, 1, true)] + ([Repeat(LowerDigitDash, 0, 63, true)] + ([Mark(5)] + ([Literal(CLOSE)] + Colon(n))))
  }

  lemma ProfileNests(n: nat)
    ensures Profile(n) + Colon(n) == [Star(White, n)] + ([Literal(AT)] + ([Mark(4)] + ProfileTail(n)))
  {}

  lemma ProfileTailMatches(text: Text, p0: nat, p1: nat, marks: Marks)
    requires p0 < p1 < |text| && p1 - p0 <= 64
    requires In(text[p0], LowerOrDigit) && All(text, p0, p1, LowerDigitDash) && StandsAt(CLOSE, text, p1)
    requires p1 + 1 < |text| && text[p1 + 1] == COLON
    ensures Match(ProfileTail(|text|), text, p0, marks) == Some(WithBody(text, marks[5 := p1], RunEnd(text, p1 + 2)))
  {
    var n := |text|;
    var closing := [Literal(CLOSE)] + Colon(n);
    ColonMatches(text, p1 + 1, marks[5 := p1]);
    LiteralStep(CLOSE, Colon(n), text, p1, marks[5 := p1]);
    MarkStep(5, closing, text, p1, marks);
    assert text[p1] == 41 by { assert text[p1..p1 + 1][0] == CLOSE[0]; }
    GreedyTakesRun(LowerDigitDash, 63, [Mark(5)] + closing, text, p0 + 1, p1, marks);
    OneChar(LowerOrDigit, [Repeat(LowerDigitDash, 0, 63, true)] + ([Mark(5)] + closing), text, p0, marks);
  }

  lemma ProfileMatches(text: Text, i: nat, p0: nat, p1: nat, marks: Marks)
    requires ProfileStands(text, i, p0, p1) && p1 + 1 < |text| && text[p1 + 1] == COLON
    ensures Match(Profile(|text|) + Colon(|text|), text, i, marks)
      == Some(WithBody(text, marks[4 := p0][5 := p1], RunEnd(text, p1 + 2)))
  {
    var n := |text|;
    var rest := [Literal(AT)] + ([Mark(4)] + ProfileTail(n));
    ProfileNests(n);
    ProfileTailMatches(text, p0, p1, marks[4 := p0]);
    MarkStep(4, ProfileTail(n), text, p0, marks);
    LiteralStep(AT, [Mark(4)] + ProfileTail(n), text, p0 - 2, marks);
    assert text[p0 - 2] == OPEN by { assert text[p0 - 2..p0][0] == AT[0]; }
    GreedyTakesRun(White, n, rest, text, i, p0 - 2, marks);
  }

  ghost predicate OpensAfterWhite(text: Text, i: nat) {
    exists e :: i <= e < |text| && All(text, i, e, White) && text[e] == OPEN
  }

  /** A profile can only start at a "(" right after white space. */
  lemma ProfileNeedsOpen(text: Text, i: nat, marks: Marks)
    requires i <= |text|
    ensures Match(Profile(|text|) + Colon(|text|), text, i, marks).Some? ==> OpensAfterWhite(text, i)
  {
    var n := |text|;
    var rest := [Literal(AT)] + ([Mark(4)] + ProfileTail(n));
    ProfileNests(n);
    if Match([Star(White, n)] + rest, text, i, marks).Some? {
      var e := RepeatStopsSomewhere(Star(White, n), rest, text, i, marks);
      LiteralStep(AT, [Mark(4)] + ProfileTail(n), text, e, marks);
      assert text[e] == text[e..e + 2][0];
    }
  }

  lemma WhiteStopsBefore(text: Text, i: nat, e: nat, d1: nat)
    requires i < d1 <= |text| && All(text, i, e, White) && !Space(text[d1 - 1])
    ensures e < d1
  {}

  lemma NoOpenInside(text: Text, i: nat, d1: nat)
    requires i < d1 <= |text| && All(text, i, d1, Except(DISPLAY_EXCLUDES)) && !Space(text[d1 - 1])
    ensures !OpensAfterWhite(text, i)
  {
    assert OPEN in DISPLAY_EXCLUDES;
    forall e | i <= e < |text| && All(text, i, e, White) ensures text[e] != OPEN {
      WhiteStopsBefore(text, i, e, d1);
      assert In(text[e], Except(DISPLAY_EXCLUDES));
    }
  }

  /** Inside a display no continuation matches. */
  lemma NotInsideDisplay(text: Text, i: nat, d1: nat, marks: Marks)
    requires i < d1 <= |text| && All(text, i, d1, Except(DISPLAY_EXCLUDES)) && !Space(text[d1 - 1])
    ensures Match(AfterDisplay(|text|), text, i, marks).None?
  {
    var n := |text|;
    var m := marks[3 := i];
    MarkStep(3, [Optional(Profile(n))] + Colon(n), text, i, marks);
    OptionalStep(Profile(n), Colon(n), text, i, m);
    ColonMatches(text, i, m);
    assert In(text[i], Except(DISPLAY_EXCLUDES)) && COLON in DISPLAY_EXCLUDES;
    ProfileNeedsOpen(text, i, m);
    NoOpenInside(text, i, d1);
  }

  /** A printed line: where its parts stand. */
  ghost predicate Printed(text: Text, d0: nat, d1: nat, p1: nat) {
    && StandsAt(HEAD, text, 0) && d0 == |HEAD| + 2 < d1 && d1 - d0 <= 64 && d1 + 3 < p1 && p1 + 1 < |text|
    && text[|HEAD|] == ROBOT && text[|HEAD| + 1] == SPACE
    && All(text, d0, d1, Except(DISPLAY_EXCLUDES)) && !Space(text[d0]) && !Space(text[d1 - 1])
    && ProfileStands(text, d1, d1 + 3, p1) && text[p1 + 1] == COLON
  }

  function PrintedMarks(text: Text, d0: nat, d1: nat, p1: nat): Marks
    requires p1 + 2 <= |text|
  {
    WithBody(text, map[2 := d0, 3 := d1, 4 := d1 + 3, 5 := p1], RunEnd(text, p1 + 2))
  }

  lemma DisplayMatches(text: Text, d0: nat, d1: nat, p1: nat)
    requires Printed(text, d0, d1, p1)
    ensures Match(Display(|text|), text, d0, map[]) == Some(PrintedMarks(text, d0, d1, p1))
  {
    var n, k := |text|, Except(DISPLAY_EXCLUDES);
    var m: Marks := map[2 := d0];
    ProfileMatches(text, d1, d1 + 3, p1, m[3 := d1]);
    OptionalStep(Profile(n), Colon(n), text, d1, m[3 := d1]);
    MarkStep(3, [Optional(Profile(n))] + Colon(n), text, d1, m);
    assert m[3 := d1][4 := d1 + 3][5 := p1] == map[2 := d0, 3 := d1, 4 := d1 + 3, 5 := p1];
    forall j | d0 + 1 <= j < d1 ensures Match(AfterDisplay(n), text, j, m).None? {
      NotInsideDisplay(text, j, d1, m);
    }
    LazyStopsFirst(k, 63, AfterDisplay(n), text, d0 + 1, d1, m);
    RepeatStep(Repeat(k, 1, 64, false), AfterDisplay(n), text, d0, m);
    MarkStep(2, [Repeat(k, 1, 64, false)] + AfterDisplay(n), text, d0, map[]);
    assert map[][2 := d0] == m;
  }

  lemma RobotNests(n: nat)
    ensures Robot(n) + Display(n) == [Repeat(Exactly(ROBOT), 1, 1, true)] + ([Star(White, n)] + Display(n))
    ensures Modern(n) + [] == Modern(n) && Legacy(n) + [] == Legacy(n)
  {}

  lemma RobotGapMatches(text: Text, d0: nat, d1: nat, p1: nat)
    requires Printed(text, d0, d1, p1)
    ensures Match([Star(White, |text|)] + Display(|text|), text, |HEAD| + 1, map[]) == Some(PrintedMarks(text, d0, d1, p1))
  {
    DisplayMatches(text, d0, d1, p1);
    OneSpaceTaken(text, |HEAD| + 1, Display(|text|), map[]);
  }

  lemma OneSpaceTaken(text: Text, i: nat, rest: seq<Item>, marks: Marks)
    requires i + 1 < |text| && Space(text[i]) && !Space(text[i + 1]) && Match(rest, text, i + 1, marks).Some?
    ensures Match([Star(White, |text|)] + rest, text, i, marks) == Match(rest, text, i + 1, marks)
  {
    GreedyTakesRun(White, |text|, rest, text, i, i + 1, marks);
  }

  lemma RobotMatches(text: Text, d0: nat, d1: nat, p1: nat)
    requires Printed(text, d0, d1, p1)
    ensures Match([Optional(Robot(|text|))] + Display(|text|), text, |HEAD|, map[]) == Some(PrintedMarks(text, d0, d1, p1))
  {
    var n, h := |text|, |HEAD|;
    RobotGapMatches(text, d0, d1, p1);
    RobotTaken(text, h, Display(n), map[]);
    OptionalStep(Robot(n), Display(n), text, h, map[]);
  }

  lemma RobotTaken(text: Text, h: nat, rest: seq<Item>, marks: Marks)
    requires h < |text| && text[h] == ROBOT
    ensures Match(Robot(|text|) + rest, text, h, marks) == Match([Star(White, |text|)] + rest, text, h + 1, marks)
  {
    OneChar(Exactly(ROBOT), [Star(White, |text|)] + rest, text, h, marks);
    assert Robot(|text|) + rest == [Repeat(Exactly(ROBOT), 1, 1, true)] + ([Star(White, |text|)] + rest);
  }

  lemma PatternIs(text: Text)
    ensures var n := |text|;
      var modern := if StandsAt(HEAD, text, 0) then Match([Optional(Robot(n))] + Display(n), text, |HEAD|, map[]) else None;
      Match(Pattern(n), text, 0, map[]) == if modern.Some? then modern else Match(Legacy(n), text, 0, map[])
  {
    var n := |text|;
    RobotNests(n);
    LiteralStep(HEAD, [Optional(Robot(n))] + Display(n), text, 0, map[]);
    EitherStep(Modern(n), Legacy(n), [], text, 0, map[]);
    assert Pattern(n) == [Either(Modern(n), Legacy(n))] + [];
  }

  lemma PrintedMatches(text: Text, d0: nat, d1: nat, p1: nat)
    requires Printed(text, d0, d1, p1)
    ensures Match(Pattern(|text|), text, 0, map[]) == Some(PrintedMarks(text, d0, d1, p1))
  {
    RobotMatches(text, d0, d1, p1);
    PatternIs(text);
  }

  // ---- Round trip -----------------------------------------------------------

  lemma {:induction false} RunEndIs(text: Text, i: nat, e: nat)
    requires i <= |text| && All(text, i, e, White) && (e == |text| || !Space(text[e]))
    ensures RunEnd(text, i) == e
    decreases e - i
  {
    if i < e { RunEndIs(text, i + 1, e); }
  }

  /** `piece` stands at `i`, and `rest` is all that follows it. */
  ghost predicate Leads(text: Text, i: nat, piece: Text, rest: Text) {
    i <= |text| && text[i..] == piece + rest
  }

  lemma Peel(text: Text, i: nat, piece: Text, rest: Text)
    requires Leads(text, i, piece, rest)
    ensures StandsAt(piece, text, i) && i + |piece| <= |text| && text[i + |piece|..] == rest
    ensures forall j :: i <= j < i + |piece| ==> text[j] == piece[j - i]
  {
    assert text[i..i + |piece|] == (piece + rest)[..|piece|];
    assert text[i + |piece|..] == (piece + rest)[|piece|..];
    forall j | i <= j < i + |piece| ensures text[j] == piece[j - i] {
      assert text[j] == text[i..][j - i];
    }
  }

  lemma PeelAll(text: Text, i: nat, piece: Text, rest: Text, k: CharClass)
    requires Leads(text, i, piece, rest) && AllIn(piece, k)
    ensures All(text, i, i + |piece|, k)
  {
    Peel(text, i, piece, rest);
  }

  lemma LineHead(display: Text, profile: Text, body: Text)
    ensures var text, h := Line(display, profile, body), |HEAD|;
      StandsAt(HEAD, text, 0) && h + 2 <= |text| && text[h] == ROBOT && text[h + 1] == SPACE
      && Leads(text, h + 2, display, FromProfile(profile, body))
  {
    var text, h := Line(display, profile, body), |HEAD|;
    var rest := [ROBOT, SPACE] + (display + FromProfile(profile, body));
    assert text[0..] == text;
    Peel(text, 0, HEAD, rest);
    Peel(text, h, [ROBOT, SPACE], display + FromProfile(profile, body));
  }

  lemma DisplayStands(text: Text, d0: nat, display: Text, rest: Text)
    requires Leads(text, d0, display, rest) && display != [] && AllIn(display, Except(DISPLAY_EXCLUDES)) && Trimmed(display)
    ensures var d1 := d0 + |display|;
      d1 <= |text| && text[d0..d1] == display && All(text, d0, d1, Except(DISPLAY_EXCLUDES))
      && !Space(text[d0]) && !Space(text[d1 - 1]) && text[d1..] == rest
  {
    Peel(text, d0, display, rest);
    PeelAll(text, d0, display, rest, Except(DISPLAY_EXCLUDES));
  }

  lemma ProfileLaid(text: Text, d1: nat, profile: Text, body: Text)
    requires d1 <= |text| && text[d1..] == FromProfile(profile, body) && ProfileOk(profile)
    ensures var p1 := d1 + 3 + |profile|;
      ProfileStands(text, d1, d1 + 3, p1) && text[d1 + 3..p1] == profile && text[p1..] == FromClose(body)
  {
    var rest := FromClose(body);
    PeelAll(text, d1, [SPACE], AT + (profile + rest), White);
    Peel(text, d1, [SPACE], AT + (profile + rest));
    Peel(text, d1 + 1, AT, profile + rest);
    Peel(text, d1 + 3, profile, rest);
    PeelAll(text, d1 + 3, profile, rest, LowerDigitDash);
    Peel(text, d1 + 3 + |profile|, CLOSE, [COLON] + ([SPACE] + body));
  }

  lemma CloseLaid(text: Text, p1: nat, body: Text)
    requires p1 <= |text| && text[p1..] == FromClose(body)
    ensures p1 + 3 <= |text| && text[p1 + 1] == COLON && text[p1 + 2] == SPACE && text[p1 + 3..] == body
  {
    Peel(text, p1, CLOSE, [COLON] + ([SPACE] + body));
    Peel(text, p1 + 1, [COLON], [SPACE] + body);
    Peel(text, p1 + 2, [SPACE], body);
  }

  /** The white space after the colon and the body's own is one run. */
  lemma BodyGap(text: Text, c: nat, body: Text)
    requires c + 2 <= |text| && text[c + 1] == SPACE && text[c + 2..] == body
    ensures text[RunEnd(text, c + 1)..] == TrimStart(body)
  {
    var k := RunEnd(body, 0);
    var e := c + 2 + k;
    forall j | c + 1 <= j < e ensures In(text[j], White) {
      if j > c + 1 { assert text[j] == body[j - c - 2]; }
    }
    assert k < |body| ==> text[e] == body[k];
    RunEndIs(text, c + 1, e);
  }

  lemma PrintedMessage(text: Text, d0: nat, d1: nat, p1: nat, d: Text, profile: Text, body: Text)
    requires Printed(text, d0, d1, p1)
    requires text[d0..d1] == d && text[d1 + 3..p1] == profile && text[RunEnd(text, p1 + 2)..] == body
    ensures Parse(text) == Some(Message(Trim(d), Some(profile), body))
  {
    PrintedMatches(text, d0, d1, p1);
    MarkedMessage(text, d0, d1, p1, d, profile, body);
  }

  lemma MarkedMessage(text: Text, d0: nat, d1: nat, p1: nat, d: Text, profile: Text, body: Text)
    requires d0 <= d1 && d1 + 3 <= p1 && p1 + 2 <= |text|
    requires text[d0..d1] == d && text[d1 + 3..p1] == profile && text[RunEnd(text, p1 + 2)..] == body
    ensures MessageOf(text, PrintedMarks(text, d0, d1, p1)) == Message(Trim(d), Some(profile), body)
  {
    var marks := PrintedMarks(text, d0, d1, p1);
    assert Captured(text, marks, 2, 3) == Some(text[d0..d1]);
    assert Captured(text, marks, 4, 5) == Some(text[d1 + 3..p1]);
    assert Captured(text, marks, 8, 9) == Some(text[RunEnd(text, p1 + 2)..|text|]);
    assert text[RunEnd(text, p1 + 2)..|text|] == text[RunEnd(text, p1 + 2)..];
  }

  /** A text whose parts lie as the printer lays them. */
  ghost predicate LaidOut(text: Text, d: Text, profile: Text, body: Text, d1: nat, p1: nat) {
    && Printed(text, |HEAD| + 2, d1, p1) && p1 + 3 <= |text| && text[p1 + 2] == SPACE
    && text[|HEAD| + 2..d1] == d && text[d1 + 3..p1] == profile && text[p1 + 3..] == body
  }

  lemma PartsLieOut(text: Text, d: Text, profile: Text, body: Text)
    requires d != [] && |d| <= 64 && AllIn(d, Except(DISPLAY_EXCLUDES)) && Trimmed(d) && ProfileOk(profile)
    requires StandsAt(HEAD, text, 0) && |HEAD| + 2 <= |text| && text[|HEAD|] == ROBOT && text[|HEAD| + 1] == SPACE
    requires Leads(text, |HEAD| + 2, d, FromProfile(profile, body))
    ensures LaidOut(text, d, profile, body, |HEAD| + 2 + |d|, |HEAD| + 5 + |d| + |profile|)
  {
    hide AllIn, In, Trimmed, FromProfile, Space;
    var d0 := |HEAD| + 2;
    DisplayStands(text, d0, d, FromProfile(profile, body));
    ProfileLaid(text, d0 + |d|, profile, body);
    CloseLaid(text, d0 + |d| + 3 + |profile|, body);
  }

  lemma LineIsLaidOut(d: Text, profile: Text, body: Text)
    requires d != [] && |d| <= 64 && AllIn(d, Except(DISPLAY_EXCLUDES)) && Trimmed(d) && ProfileOk(profile)
    ensures LaidOut(Line(d, profile, body), d, profile, body, |HEAD| + 2 + |d|, |HEAD| + 5 + |d| + |profile|)
  {
    LineHead(d, profile, body);
    PartsLieOut(Line(d, profile, body), d, profile, body);
  }

  lemma LaidOutBody(text: Text, d: Text, profile: Text, body: Text, d1: nat, p1: nat)
    requires LaidOut(text, d, profile, body, d1, p1)
    ensures p1 + 2 <= |text| && text[RunEnd(text, p1 + 2)..] == TrimStart(body)
  {
    BodyGap(text, p1 + 1, body);
  }

  lemma LaidOutParses(text: Text, d: Text, profile: Text, body: Text, d1: nat, p1: nat)
    requires LaidOut(text, d, profile, body, d1, p1)
    ensures Parse(text) == Some(Message(Trim(d), Some(profile), TrimStart(body)))
  {
    LaidOutBody(text, d, profile, body, d1, p1);
    PrintedMessage(text, |HEAD| + 2, d1, p1, d, profile, TrimStart(body));
  }

  lemma AcceptedDisplay(display: Text)
    requires DisplayOk(Trim(display))
    ensures var d := Trim(display);
      d != [] && |d| <= 64 && AllIn(d, Except(DISPLAY_EXCLUDES)) && Trimmed(d) && Trim(d) == d
  {
    TrimTrims(display);
    TrimTrims(Trim(display));
    assert Units([]) == 0;
  }

  /** Every line the printer accepts reads back: the trimmed display, the profile, the body less its leading white space. */
  lemma FormatParses(display: Text, profile: Text, body: Text)
    requires Format(display, profile, body).Ok?
    ensures Parse(Format(display, profile, body).value) == Some(Message(Trim(display), Some(profile), TrimStart(body)))
  {
    var d := Trim(display);
    AcceptedDisplay(display);
    LineIsLaidOut(d, profile, body);
    LaidOutParses(Line(d, profile, body), d, profile, body, |HEAD| + 2 + |d|, |HEAD| + 5 + |d| + |profile|);
  }

  lemma SameLine(d: Text, p: Text, b: Text, b': Text)
    requires Line(d, p, b) == Line(d, p, b')
    ensures b == b'
  {
    var front := HEAD + [ROBOT, SPACE] + d + [SPACE] + AT + p + CLOSE + [COLON] + [SPACE];
    assert Line(d, p, b) == front + b && Line(d, p, b') == front + b';
    assert (front + b)[|front|..] == b && (front + b')[|front|..] == b';
  }

  /** Two accepted inputs share a line only if they share the trimmed display, the profile and the whole body. */
  lemma SameLineSameMessage(d: Text, p: Text, b: Text, d': Text, p': Text, b': Text)
    requires Format(d, p, b).Ok? && Format(d, p, b) == Format(d', p', b')
    ensures Trim(d) == Trim(d') && p == p' && b == b'
  {
    FormatParses(d, p, b);
    FormatParses(d', p', b');
    SameLine(Trim(d), p, b, b');
  }
}
