/**
  The language the Bot Mode parser accepts, stated without matching
  (packages/shared/src/partner-workflow.ts:12-16, 33-42), and that every parsed
  message is read off one of its decompositions.
 */
module BotModeGrammar {
  import opened Wrappers
  import opened BotMode
  import opened RegexMatch
  import opened Texts

  const QUOTE := 39

  datatype Reading =
    | Named(robot: Option<Text>, display: Text, profile: Option<(Text, Text)>, gap: Text, body: Text)
    | Quoted(display: Text, gap: Text, body: Text)

  function RobotText(robot: Option<Text>): Text {
    if robot.Some? then [ROBOT] + robot.value else []
  }

  /** White space, then the handle in parentheses. */
  function ProfileText(profile: Option<(Text, Text)>): Text {
    if profile.Some? then profile.value.0 + (AT + (profile.value.1 + CLOSE)) else []
  }

  function WriteOut(r: Reading): Text {
    match r
    case Named(robot, display, profile, gap, body) =>
      HEAD + (RobotText(robot) + (display + (ProfileText(profile) + ([COLON] + (gap + body)))))
    case Quoted(display, gap, body) => LEGACY_HEAD + (display + (LEGACY_TAIL + (gap + body)))
  }

  predicate Legal(r: Reading) {
    && 1 <= |r.display| <= 64 && AllIn(r.gap, White)
    && match r
       case Named(robot, display, profile, _, _) =>
         && (robot.Some? ==> AllIn(robot.value, White))
         && AllIn(display, Except(DISPLAY_EXCLUDES))
         && (profile.Some? ==> AllIn(profile.value.0, White) && ProfileOk(profile.value.1))
       case Quoted(display, _, _) => AllIn(display, Except([QUOTE]))
  }

  function MessageIn(r: Reading): Message {
    Message(Trim(r.display), if r.Named? && r.profile.Some? then Some(r.profile.value.1) else None, r.body)
  }

  /** Not beginning with white space. */
  predicate Bare(t: Text) {
    t == [] || !Space(t[0])
  }

  // ---- What first-match leaves untried --------------------------------------

  /** No stop of the robot's white space after `d0` leaves a display to match. */
  ghost predicate NoDisplayLater(text: Text, h: nat, d0: nat) {
    forall f :: d0 < f && All(text, h + 1, f, White) ==> Match(Display(|text|), text, f, map[]).None?
  }

  ghost predicate EndMatches(text: Text, d0: nat, f: nat) {
    Match(AfterDisplay(|text|), text, f, map[][2 := d0]).Some?
  }

  /** No stop of the display before `d1` leaves its end to match. */
  ghost predicate NoEndEarlier(text: Text, d0: nat, d1: nat) {
    forall f :: d0 < f < d1 ==> !EndMatches(text, d0, f)
  }

  /** Everything first-match tried before the reading it chose had failed. */
  ghost predicate OthersFailed(text: Text, r: Reading) {
    Bare(r.body)
    && (r.Named? ==>
      var h := |HEAD|;
      var d0 := h + |RobotText(r.robot)|;
      && (r.robot.None? ==> Match(Robot(|text|) + Display(|text|), text, h, map[]).None?)
      && (r.robot.Some? ==> NoDisplayLater(text, h, d0))
      && NoEndEarlier(text, d0, d0 + |r.display|))
  }

  // ---- Reading a match back, part by part -----------------------------------

  lemma Slice(text: Text, i: nat, e: nat, k: CharClass)
    requires i <= |text| && All(text, i, e, k)
    ensures text[i..] == text[i..e] + text[e..] && AllIn(text[i..e], k)
  {
    forall j | 0 <= j < e - i ensures In(text[i..e][j], k) { assert text[i..e][j] == text[i + j]; }
  }

  lemma StandingSlice(s: Text, text: Text, i: nat)
    requires i <= |text| && StandsAt(s, text, i)
    ensures text[i..] == s + text[i + |s|..]
  {
    assert text[i..] == text[i..i + |s|] + text[i + |s|..];
  }

  lemma ColonReads(text: Text, i: nat, marks: Marks) returns (e: nat)
    requires i <= |text| && Match(Colon(|text|), text, i, marks).Some?
    ensures i < e <= |text| && text[i..] == [COLON] + (text[i + 1..e] + text[e..])
    ensures AllIn(text[i + 1..e], White) && Bare(text[e..])
    ensures Match(Colon(|text|), text, i, marks) == Some(WithBody(text, marks, e))
  {
    ColonMatches(text, i, marks);
    e := RunEnd(text, i + 1);
    Slice(text, i + 1, e, White);
    assert text[i..] == [text[i]] + text[i + 1..];
  }

  lemma CloseReads(text: Text, p1: nat, marks: Marks)
    requires p1 <= |text| && Match([Mark(5)] + ([Literal(CLOSE)] + Colon(|text|)), text, p1, marks).Some?
    ensures p1 < |text| && text[p1..] == CLOSE + text[p1 + 1..]
    ensures Match([Mark(5)] + ([Literal(CLOSE)] + Colon(|text|)), text, p1, marks)
      == Match(Colon(|text|), text, p1 + 1, marks[5 := p1])
  {
    MarkStep(5, [Literal(CLOSE)] + Colon(|text|), text, p1, marks);
    LiteralStep(CLOSE, Colon(|text|), text, p1, marks[5 := p1]);
    StandingSlice(CLOSE, text, p1);
  }

  lemma HandleReads(text: Text, p0: nat, marks: Marks) returns (p1: nat)
    requires p0 <= |text| && Match(ProfileTail(|text|), text, p0, marks).Some?
    ensures p0 < p1 < |text| && ProfileOk(text[p0..p1]) && text[p0..] == text[p0..p1] + (CLOSE + text[p1 + 1..])
    ensures Match(ProfileTail(|text|), text, p0, marks) == Match(Colon(|text|), text, p1 + 1, marks[5 := p1])
  {
    var after := [Mark(5)] + ([Literal(CLOSE)] + Colon(|text|));
    OneChar(LowerOrDigit, [Repeat(LowerDigitDash, 0, 63, true)] + after, text, p0, marks);
    p1 := RepeatStopsSomewhere(Repeat(LowerDigitDash, 0, 63, true), after, text, p0 + 1, marks);
    CloseReads(text, p1, marks);
    Slice(text, p0, p1, LowerDigitDash);
    assert text[p0..p1][0] == text[p0];
  }

  lemma ProfileReads(text: Text, i: nat, marks: Marks) returns (q: nat, p1: nat)
    requires i <= |text| && Match(Profile(|text|) + Colon(|text|), text, i, marks).Some?
    ensures i <= q && q + 2 < p1 < |text| && AllIn(text[i..q], White) && ProfileOk(text[q + 2..p1])
    ensures text[i..] == ProfileText(Some((text[i..q], text[q + 2..p1]))) + text[p1 + 1..]
    ensures Match(Profile(|text|) + Colon(|text|), text, i, marks)
      == Match(Colon(|text|), text, p1 + 1, marks[4 := q + 2][5 := p1])
  {
    var n := |text|;
    var rest := [Literal(AT)] + ([Mark(4)] + ProfileTail(n));
    ProfileNests(n);
    q := RepeatStopsSomewhere(Star(White, n), rest, text, i, marks);
    LiteralStep(AT, [Mark(4)] + ProfileTail(n), text, q, marks);
    MarkStep(4, ProfileTail(n), text, q + 2, marks);
    p1 := HandleReads(text, q + 2, marks[4 := q + 2]);
    Slice(text, i, q, White);
    StandingSlice(AT, text, q);
    ProfileSpells(text[i..q], text[q + 2..p1], text[p1 + 1..]);
  }

  lemma ProfileSpells(ws: Text, p: Text, after: Text)
    ensures ws + (AT + (p + (CLOSE + after))) == ProfileText(Some((ws, p))) + after
  {}

  /** What stands after the display, and the marks it leaves. */
  datatype Tail = Tail(profile: Option<(Text, Text)>, p0: nat, p1: nat, gap: Text, e: nat)

  function TailMarks(text: Text, marks: Marks, t: Tail): Marks {
    WithBody(text, if t.profile.Some? then marks[4 := t.p0][5 := t.p1] else marks, t.e)
  }

  ghost predicate TailReads(text: Text, d1: nat, t: Tail) {
    && d1 <= t.e <= |text| && AllIn(t.gap, White) && Bare(text[t.e..])
    && text[d1..] == ProfileText(t.profile) + ([COLON] + (t.gap + text[t.e..]))
    && (t.profile.Some? ==>
      && AllIn(t.profile.value.0, White) && ProfileOk(t.profile.value.1)
      && t.p0 <= t.p1 <= |text| && text[t.p0..t.p1] == t.profile.value.1)
  }

  lemma AfterDisplayReads(text: Text, d1: nat, marks: Marks) returns (t: Tail)
    requires d1 <= |text| && Match(AfterDisplay(|text|), text, d1, marks).Some?
    ensures TailReads(text, d1, t)
    ensures Match(AfterDisplay(|text|), text, d1, marks) == Some(TailMarks(text, marks[3 := d1], t))
  {
    var n, m := |text|, marks[3 := d1];
    MarkStep(3, [Optional(Profile(n))] + Colon(n), text, d1, marks);
    OptionalStep(Profile(n), Colon(n), text, d1, m);
    if Match(Profile(n) + Colon(n), text, d1, m).Some? {
      t := WithProfileReads(text, d1, m);
    } else {
      t := WithoutProfileReads(text, d1, m);
    }
  }

  lemma TailIsRead(text: Text, d1: nat, t: Tail, after: Text)
    requires d1 <= t.e <= |text| && AllIn(t.gap, White) && Bare(text[t.e..])
    requires text[d1..] == ProfileText(t.profile) + after && after == [COLON] + (t.gap + text[t.e..])
    requires t.profile.Some? ==>
      AllIn(t.profile.value.0, White) && ProfileOk(t.profile.value.1)
      && t.p0 <= t.p1 <= |text| && text[t.p0..t.p1] == t.profile.value.1
    ensures TailReads(text, d1, t)
  {}

  lemma TailMarksAre(text: Text, m: Marks, t: Tail)
    requires t.profile.Some?
    ensures TailMarks(text, m, t) == WithBody(text, m[4 := t.p0][5 := t.p1], t.e)
  {}

  lemma WithProfileReads(text: Text, d1: nat, m: Marks) returns (t: Tail)
    requires d1 <= |text| && Match(Profile(|text|) + Colon(|text|), text, d1, m).Some?
    ensures TailReads(text, d1, t)
    ensures Match(Profile(|text|) + Colon(|text|), text, d1, m) == Some(TailMarks(text, m, t))
  {
    hide *;
    var q, p1 := ProfileReads(text, d1, m);
    var ws, p, after := text[d1..q], text[q + 2..p1], text[p1 + 1..];
    var e := ColonReads(text, p1 + 1, m[4 := q + 2][5 := p1]);
    t := Tail(Some((ws, p)), q + 2, p1, text[p1 + 2..e], e);
    TailIsRead(text, d1, t, after);
    TailMarksAre(text, m, t);
  }

  lemma WithoutProfileReads(text: Text, d1: nat, m: Marks) returns (t: Tail)
    requires d1 <= |text| && Match(Colon(|text|), text, d1, m).Some?
    ensures TailReads(text, d1, t) && Match(Colon(|text|), text, d1, m) == Some(TailMarks(text, m, t))
  {
    var e := ColonReads(text, d1, m);
    t := Tail(None, 0, 0, text[d1 + 1..e], e);
    assert ProfileText(None) + text[d1..] == text[d1..];
  }

  lemma DisplayReads(text: Text, d0: nat) returns (d1: nat, t: Tail)
    requires d0 <= |text| && Match(Display(|text|), text, d0, map[]).Some?
    ensures d0 < d1 <= |text| && d1 - d0 <= 64 && AllIn(text[d0..d1], Except(DISPLAY_EXCLUDES))
    ensures text[d0..] == text[d0..d1] + text[d1..] && TailReads(text, d1, t) && NoEndEarlier(text, d0, d1)
    ensures Match(Display(|text|), text, d0, map[]) == Some(TailMarks(text, map[2 := d0, 3 := d1], t))
  {
    var n, k := |text|, Except(DISPLAY_EXCLUDES);
    MarkStep(2, [Repeat(k, 1, 64, false)] + AfterDisplay(n), text, d0, map[]);
    var m: Marks := map[][2 := d0];
    d1 := RepeatChooses(Repeat(k, 1, 64, false), AfterDisplay(n), text, d0, m);
    t := AfterDisplayReads(text, d1, m);
    Slice(text, d0, d1, k);
    assert m[3 := d1] == map[2 := d0, 3 := d1];
  }

  lemma NamedMessage(text: Text, d0: nat, d1: nat, t: Tail, robot: Option<Text>)
    requires d0 <= d1 <= |text| && TailReads(text, d1, t)
    ensures MessageOf(text, TailMarks(text, map[2 := d0, 3 := d1], t))
      == MessageIn(Named(robot, text[d0..d1], t.profile, t.gap, text[t.e..]))
  {
    var marks := TailMarks(text, map[2 := d0, 3 := d1], t);
    assert Captured(text, marks, 2, 3) == Some(text[d0..d1]);
    assert Captured(text, marks, 8, 9) == Some(text[t.e..|text|]) && text[t.e..|text|] == text[t.e..];
    assert Captured(text, marks, 4, 5) == if t.profile.Some? then Some(text[t.p0..t.p1]) else None;
  }

  lemma RobotReads(text: Text, h: nat) returns (robot: Option<Text>, d0: nat)
    requires h <= |text| && Match([Optional(Robot(|text|))] + Display(|text|), text, h, map[]).Some?
    ensures h <= d0 <= |text| && text[h..] == RobotText(robot) + text[d0..] && (robot.Some? ==> AllIn(robot.value, White))
    ensures Match([Optional(Robot(|text|))] + Display(|text|), text, h, map[]) == Match(Display(|text|), text, d0, map[])
    ensures robot.None? ==> Match(Robot(|text|) + Display(|text|), text, h, map[]).None?
    ensures robot.Some? ==> NoDisplayLater(text, h, d0)
  {
    var n := |text|;
    OptionalStep(Robot(n), Display(n), text, h, map[]);
    if Match(Robot(n) + Display(n), text, h, map[]).Some? {
      RobotNests(n);
      OneChar(Exactly(ROBOT), [Star(White, n)] + Display(n), text, h, map[]);
      d0 := RepeatChooses(Star(White, n), Display(n), text, h + 1, map[]);
      Slice(text, h + 1, d0, White);
      robot := Some(text[h + 1..d0]);
      assert text[h..] == [ROBOT] + text[h + 1..];
      assert [ROBOT] + (text[h + 1..d0] + text[d0..]) == RobotText(robot) + text[d0..];
    } else {
      robot, d0 := None, h;
      assert RobotText(None) + text[h..] == text[h..];
    }
  }

  lemma AfterRobotReads(text: Text, robot: Option<Text>, d0: nat) returns (r: Reading)
    requires StandsAt(HEAD, text, 0) && |HEAD| <= d0 <= |text| && text[|HEAD|..] == RobotText(robot) + text[d0..]
    requires robot.Some? ==> AllIn(robot.value, White)
    requires Match(Display(|text|), text, d0, map[]).Some?
    ensures r.Named? && r.robot == robot && Legal(r) && WriteOut(r) == text && Bare(r.body)
    ensures NoEndEarlier(text, d0, d0 + |r.display|)
    ensures MessageOf(text, Match(Display(|text|), text, d0, map[]).value) == MessageIn(r)
  {
    var d1, t := DisplayReads(text, d0);
    var display, tail, shown := text[d0..d1], text[d1..], text[d0..];
    NamedMessage(text, d0, d1, t, robot);
    r := Named(robot, display, t.profile, t.gap, text[t.e..]);
    NamedSpells(text, robot, display, tail, shown, r);
  }

  /** A match of the first alternative. */
  lemma NamedReads(text: Text) returns (r: Reading)
    requires StandsAt(HEAD, text, 0) && Match([Optional(Robot(|text|))] + Display(|text|), text, |HEAD|, map[]).Some?
    ensures r.Named? && Legal(r) && WriteOut(r) == text && OthersFailed(text, r)
    ensures MessageOf(text, Match([Optional(Robot(|text|))] + Display(|text|), text, |HEAD|, map[]).value) == MessageIn(r)
  {
    var robot, d0 := RobotReads(text, |HEAD|);
    r := AfterRobotReads(text, robot, d0);
    RobotEnds(text, robot, d0);
  }

  lemma RobotEnds(text: Text, robot: Option<Text>, d0: nat)
    requires |HEAD| <= d0 <= |text| && text[|HEAD|..] == RobotText(robot) + text[d0..]
    ensures d0 == |HEAD| + |RobotText(robot)|
  {
    assert |text[|HEAD|..]| == |RobotText(robot)| + |text[d0..]|;
  }

  lemma NamedSpells(text: Text, robot: Option<Text>, display: Text, tail: Text, shown: Text, r: Reading)
    requires StandsAt(HEAD, text, 0) && text[|HEAD|..] == RobotText(robot) + shown && shown == display + tail
    requires r.Named? && r.robot == robot && r.display == display
    requires tail == ProfileText(r.profile) + ([COLON] + (r.gap + r.body))
    ensures WriteOut(r) == text
  {
    StandingSlice(HEAD, text, 0);
    assert text[0..] == text;
  }

  lemma QuotedReads(text: Text) returns (r: Reading)
    requires Match(Legacy(|text|), text, 0, map[]).Some?
    ensures r.Quoted? && Legal(r) && WriteOut(r) == text && OthersFailed(text, r)
    ensures MessageOf(text, Match(Legacy(|text|), text, 0, map[]).value) == MessageIn(r)
  {
    var n, h, k := |text|, |LEGACY_HEAD|, Except([QUOTE]);
    var closing := [Literal(LEGACY_TAIL)] + ([Star(White, n)] + Body(n));
    LiteralStep(LEGACY_HEAD, [Mark(6)] + ([Repeat(k, 1, 64, true)] + ([Mark(7)] + closing)), text, 0, map[]);
    MarkStep(6, [Repeat(k, 1, 64, true)] + ([Mark(7)] + closing), text, h, map[]);
    var m: Marks := map[][6 := h];
    var d1 := RepeatStopsSomewhere(Repeat(k, 1, 64, true), [Mark(7)] + closing, text, h, m);
    MarkStep(7, closing, text, d1, m);
    r := QuotedTail(text, h, d1, m[7 := d1]);
    Slice(text, h, d1, k);
    StandingSlice(LEGACY_HEAD, text, 0);
    assert text[0..] == text;
  }

  lemma QuotedTail(text: Text, h: nat, d1: nat, marks: Marks) returns (r: Reading)
    requires h <= d1 <= |text| && marks == map[][6 := h][7 := d1]
    requires Match([Literal(LEGACY_TAIL)] + ([Star(White, |text|)] + Body(|text|)), text, d1, marks).Some?
    ensures r.Quoted? && r.display == text[h..d1] && AllIn(r.gap, White) && text[d1..] == LEGACY_TAIL + (r.gap + r.body)
    ensures Bare(r.body)
    ensures MessageOf(text, Match([Literal(LEGACY_TAIL)] + ([Star(White, |text|)] + Body(|text|)), text, d1, marks).value) == MessageIn(r)
  {
    var g := d1 + 2;
    LiteralStep(LEGACY_TAIL, [Star(White, |text|)] + Body(|text|), text, d1, marks);
    StandingSlice(LEGACY_TAIL, text, d1);
    GapMatches(text, g, marks);
    var e := RunEnd(text, g);
    Slice(text, g, e, White);
    r := Quoted(text[h..d1], text[g..e], text[e..]);
    QuotedMessage(text, h, d1, e, r.gap);
  }

  lemma QuotedMessage(text: Text, h: nat, d1: nat, e: nat, gap: Text)
    requires h <= d1 <= |text| && e <= |text|
    ensures MessageOf(text, WithBody(text, map[][6 := h][7 := d1], e)) == MessageIn(Quoted(text[h..d1], gap, text[e..]))
  {
    var found := WithBody(text, map[][6 := h][7 := d1], e);
    assert Captured(text, found, 2, 3) == None && Captured(text, found, 4, 5) == None;
    assert Captured(text, found, 6, 7) == Some(text[h..d1]);
    assert Captured(text, found, 8, 9) == Some(text[e..|text|]) && text[e..|text|] == text[e..];
  }

  /** A parsed message is read off a legal decomposition of the whole text. */
  lemma ParsedIsRead(text: Text) returns (r: Reading)
    requires Parse(text).Some?
    ensures Legal(r) && WriteOut(r) == text && Parse(text) == Some(MessageIn(r)) && OthersFailed(text, r)
  {
    PatternIs(text);
    var n := |text|;
    if StandsAt(HEAD, text, 0) && Match([Optional(Robot(n))] + Display(n), text, |HEAD|, map[]).Some? {
      r := NamedReads(text);
    } else {
      r := QuotedReads(text);
    }
  }

  // ---- Every decomposition is found -----------------------------------------

  lemma ColonFinds(text: Text, i: nat, rest: Text, marks: Marks)
    requires Leads(text, i, [COLON], rest)
    ensures Match(Colon(|text|), text, i, marks).Some?
  {
    Peel(text, i, [COLON], rest);
    ColonMatches(text, i, marks);
  }

  lemma CloseFinds(text: Text, p1: nat, rest: Text, marks: Marks)
    requires Leads(text, p1, CLOSE, [COLON] + rest)
    ensures Match([Mark(5)] + ([Literal(CLOSE)] + Colon(|text|)), text, p1, marks).Some?
  {
    Peel(text, p1, CLOSE, [COLON] + rest);
    ColonFinds(text, p1 + 1, rest, marks[5 := p1]);
    LiteralStep(CLOSE, Colon(|text|), text, p1, marks[5 := p1]);
    MarkStep(5, [Literal(CLOSE)] + Colon(|text|), text, p1, marks);
  }

  lemma HandleFinds(text: Text, p0: nat, p: Text, rest: Text, marks: Marks)
    requires ProfileOk(p) && Leads(text, p0, p, CLOSE + ([COLON] + rest))
    ensures Match(ProfileTail(|text|), text, p0, marks).Some?
  {
    var p1, after := p0 + |p|, [Mark(5)] + ([Literal(CLOSE)] + Colon(|text|));
    Peel(text, p0, p, CLOSE + ([COLON] + rest));
    PeelAll(text, p0, p, CLOSE + ([COLON] + rest), LowerDigitDash);
    CloseFinds(text, p1, rest, marks);
    RepeatFinds(Repeat(LowerDigitDash, 0, 63, true), after, text, p0 + 1, p1, marks);
    OneChar(LowerOrDigit, [Repeat(LowerDigitDash, 0, 63, true)] + after, text, p0, marks);
  }

  lemma ProfileFinds(text: Text, i: nat, ws: Text, p: Text, rest: Text, marks: Marks)
    requires AllIn(ws, White) && ProfileOk(p) && Leads(text, i, ws, AT + (p + (CLOSE + ([COLON] + rest))))
    ensures Match(Profile(|text|) + Colon(|text|), text, i, marks).Some?
  {
    var n, q := |text|, i + |ws|;
    ProfileNests(n);
    Peel(text, i, ws, AT + (p + (CLOSE + ([COLON] + rest))));
    PeelAll(text, i, ws, AT + (p + (CLOSE + ([COLON] + rest))), White);
    Peel(text, q, AT, p + (CLOSE + ([COLON] + rest)));
    HandleFinds(text, q + 2, p, rest, marks[4 := q + 2]);
    MarkStep(4, ProfileTail(n), text, q + 2, marks);
    LiteralStep(AT, [Mark(4)] + ProfileTail(n), text, q, marks);
    RepeatFinds(Star(White, n), [Literal(AT)] + ([Mark(4)] + ProfileTail(n)), text, i, q, marks);
  }

  lemma AfterDisplayFinds(text: Text, d1: nat, profile: Option<(Text, Text)>, rest: Text, marks: Marks)
    requires profile.Some? ==> AllIn(profile.value.0, White) && ProfileOk(profile.value.1)
    requires Leads(text, d1, ProfileText(profile), [COLON] + rest)
    ensures Match(AfterDisplay(|text|), text, d1, marks).Some?
  {
    var n, m := |text|, marks[3 := d1];
    MarkStep(3, [Optional(Profile(n))] + Colon(n), text, d1, marks);
    OptionalStep(Profile(n), Colon(n), text, d1, m);
    if profile.Some? {
      var ws, p := profile.value.0, profile.value.1;
      assert ProfileText(profile) + ([COLON] + rest) == ws + (AT + (p + (CLOSE + ([COLON] + rest))));
      ProfileFinds(text, d1, ws, p, rest, m);
    } else {
      assert ProfileText(None) + ([COLON] + rest) == [COLON] + rest;
      ColonFinds(text, d1, rest, m);
    }
  }

  lemma DisplayFinds(text: Text, d0: nat, d: Text, profile: Option<(Text, Text)>, rest: Text)
    requires 1 <= |d| <= 64 && AllIn(d, Except(DISPLAY_EXCLUDES))
    requires profile.Some? ==> AllIn(profile.value.0, White) && ProfileOk(profile.value.1)
    requires Leads(text, d0, d, ProfileText(profile) + ([COLON] + rest))
    ensures Match(Display(|text|), text, d0, map[]).Some?
  {
    var n, d1, k := |text|, d0 + |d|, Except(DISPLAY_EXCLUDES);
    var m: Marks := map[][2 := d0];
    Peel(text, d0, d, ProfileText(profile) + ([COLON] + rest));
    PeelAll(text, d0, d, ProfileText(profile) + ([COLON] + rest), k);
    AfterDisplayFinds(text, d1, profile, rest, m);
    RepeatFinds(Repeat(k, 1, 64, false), AfterDisplay(n), text, d0, d1, m);
    MarkStep(2, [Repeat(k, 1, 64, false)] + AfterDisplay(n), text, d0, map[]);
  }

  lemma RobotItselfFinds(text: Text, h: nat, ws: Text, rest: Text)
    requires AllIn(ws, White) && Leads(text, h, [ROBOT], ws + rest)
    requires Match(Display(|text|), text, h + 1 + |ws|, map[]).Some?
    ensures Match(Robot(|text|) + Display(|text|), text, h, map[]).Some?
  {
    var n := |text|;
    RobotNests(n);
    Peel(text, h, [ROBOT], ws + rest);
    PeelAll(text, h + 1, ws, rest, White);
    RepeatFinds(Star(White, n), Display(n), text, h + 1, h + 1 + |ws|, map[]);
    OneChar(Exactly(ROBOT), [Star(White, n)] + Display(n), text, h, map[]);
  }

  lemma RobotFinds(text: Text, h: nat, robot: Option<Text>, rest: Text)
    requires (robot.Some? ==> AllIn(robot.value, White)) && Leads(text, h, RobotText(robot), rest)
    requires Match(Display(|text|), text, h + |RobotText(robot)|, map[]).Some?
    ensures Match([Optional(Robot(|text|))] + Display(|text|), text, h, map[]).Some?
  {
    hide Match;
    OptionalStep(Robot(|text|), Display(|text|), text, h, map[]);
    if robot.Some? {
      assert [ROBOT] + robot.value + rest == [ROBOT] + (robot.value + rest);
      RobotItselfFinds(text, h, robot.value, rest);
    }
  }

  function TailText(r: Reading): Text
    requires r.Named?
  {
    ProfileText(r.profile) + ([COLON] + (r.gap + r.body))
  }

  /** Where the parts of a decomposition stand. */
  lemma PartsStand(text: Text, r: Reading)
    requires r.Named? && WriteOut(r) == text
    ensures var h, d0 := |HEAD|, |HEAD| + |RobotText(r.robot)|;
      && StandsAt(HEAD, text, 0) && Leads(text, h, RobotText(r.robot), r.display + TailText(r))
      && Leads(text, d0, r.display, TailText(r)) && Leads(text, d0 + |r.display|, ProfileText(r.profile), [COLON] + (r.gap + r.body))
  {
    hide RobotText, ProfileText;
    assert text[0..] == text;
    Peel(text, 0, HEAD, RobotText(r.robot) + (r.display + TailText(r)));
    Peel(text, |HEAD|, RobotText(r.robot), r.display + TailText(r));
    Peel(text, |HEAD| + |RobotText(r.robot)|, r.display, TailText(r));
  }

  lemma NamedFinds(r: Reading)
    requires r.Named? && Legal(r)
    ensures Parse(WriteOut(r)).Some?
  {
    hide Match, WriteOut, RobotText, ProfileText, AllIn, Leads;
    var text, h := WriteOut(r), |HEAD|;
    PartsStand(text, r);
    DisplayFinds(text, h + |RobotText(r.robot)|, r.display, r.profile, r.gap + r.body);
    RobotFinds(text, h, r.robot, r.display + TailText(r));
    PatternIs(text);
  }

  lemma QuotedTailFinds(text: Text, d1: nat, rest: Text, marks: Marks)
    requires Leads(text, d1, LEGACY_TAIL, rest)
    ensures Match([Literal(LEGACY_TAIL)] + ([Star(White, |text|)] + Body(|text|)), text, d1, marks).Some?
  {
    Peel(text, d1, LEGACY_TAIL, rest);
    GapMatches(text, d1 + 2, marks);
    LiteralStep(LEGACY_TAIL, [Star(White, |text|)] + Body(|text|), text, d1, marks);
  }

  lemma QuotedDisplayFinds(text: Text, h: nat, d: Text, rest: Text, closing: seq<Item>, marks: Marks)
    requires 1 <= |d| <= 64 && AllIn(d, Except([QUOTE])) && Leads(text, h, d, rest)
    requires Match(closing, text, h + |d|, marks[6 := h][7 := h + |d|]).Some?
    ensures Match([Mark(6)] + ([Repeat(Except([QUOTE]), 1, 64, true)] + ([Mark(7)] + closing)), text, h, marks).Some?
  {
    var k, m := Except([QUOTE]), marks[6 := h];
    PeelAll(text, h, d, rest, k);
    MarkStep(7, closing, text, h + |d|, m);
    RepeatFinds(Repeat(k, 1, 64, true), [Mark(7)] + closing, text, h, h + |d|, m);
    MarkStep(6, [Repeat(k, 1, 64, true)] + ([Mark(7)] + closing), text, h, marks);
  }

  function LegacyRest(n: nat): seq<Item> {
    [Mark(6)] + ([Repeat(Except([QUOTE]), 1, 64, true)] + ([Mark(7)] + ([Literal(LEGACY_TAIL)] + ([Star(White, n)] + Body(n)))))
  }

  lemma LegacyRestFinds(text: Text, h: nat, d: Text, rest: Text)
    requires 1 <= |d| <= 64 && AllIn(d, Except([QUOTE])) && Leads(text, h, d, LEGACY_TAIL + rest)
    ensures Match(LegacyRest(|text|), text, h, map[]).Some?
  {
    var closing := [Literal(LEGACY_TAIL)] + ([Star(White, |text|)] + Body(|text|));
    Peel(text, h, d, LEGACY_TAIL + rest);
    QuotedTailFinds(text, h + |d|, rest, map[][6 := h][7 := h + |d|]);
    QuotedDisplayFinds(text, h, d, LEGACY_TAIL + rest, closing, map[]);
  }

  lemma LegacyFinds(text: Text, d: Text, rest: Text)
    requires 1 <= |d| <= 64 && AllIn(d, Except([QUOTE])) && text == LEGACY_HEAD + (d + (LEGACY_TAIL + rest))
    ensures Match(Legacy(|text|), text, 0, map[]).Some?
  {
    assert text[0..] == text;
    Peel(text, 0, LEGACY_HEAD, d + (LEGACY_TAIL + rest));
    LegacyRestFinds(text, |LEGACY_HEAD|, d, rest);
    LiteralStep(LEGACY_HEAD, LegacyRest(|text|), text, 0, map[]);
  }

  lemma QuotedFinds(r: Reading)
    requires r.Quoted? && Legal(r)
    ensures Parse(WriteOut(r)).Some?
  {
    LegacyFinds(WriteOut(r), r.display, r.gap + r.body);
    PatternIs(WriteOut(r));
  }

  /** The parser accepts exactly the texts with a legal decomposition. */
  lemma ParsesExactly(text: Text)
    ensures Parse(text).Some? <==> exists r :: Legal(r) && WriteOut(r) == text
  {
    if Parse(text).Some? {
      var r := ParsedIsRead(text);
    }
    forall r | Legal(r) && WriteOut(r) == text ensures Parse(text).Some? {
      if r.Named? { NamedFinds(r); } else { QuotedFinds(r); }
    }
  }
}
