/**
  Which decomposition the Bot Mode parser reads when a text has several
  (packages/shared/src/partner-workflow.ts:16, 33-42): the first in the order in
  which the expression tries them, stated without matching.
 */
module BotModeFirst {
  import opened Wrappers
  import opened BotMode
  import opened BotModeGrammar
  import opened RegexMatch
  import opened Texts

  /**
    The order: a robot before none, with more of the white space after it; then
    the shorter display; then more white space before the body. Profiles need no
    rule, because the display fixes them.
   */
  predicate Before(r: Reading, q: Reading) {
    match (r, q)
    case (Named(rr, rd, _, rg, _), Named(qr, qd, _, qg, _)) =>
      || (rr.Some? && (qr.None? || |rr.value| > |qr.value|))
      || (rr == qr && |rd| < |qd|)
      || (rr == qr && rd == qd && |rg| > |qg|)
    case (Quoted(rd, rg, _), Quoted(qd, qg, _)) => rd == qd && |rg| > |qg|
    case _ => false
  }

  /** No legal decomposition of the text comes before this one. */
  ghost predicate FirstReading(text: Text, r: Reading) {
    Legal(r) && WriteOut(r) == text && forall q :: Legal(q) && WriteOut(q) == text ==> q == r || Before(r, q)
  }

  // ---- Parts that the text fixes ----------------------------------------------

  predicate Stops(t: Text, k: CharClass) {
    t != [] && !In(t[0], k)
  }

  lemma PrefixFixed(a: Text, x: Text, b: Text, y: Text)
    requires a + x == b + y && |a| == |b|
    ensures a == b && x == y
  {
    assert (a + x)[..|a|] == a && (a + x)[|a|..] == x && (b + y)[..|b|] == b && (b + y)[|b|..] == y;
  }

  /** A run of one class ends where the first character of another stands. */
  lemma SpanFixed(a: Text, x: Text, b: Text, y: Text, k: CharClass)
    requires AllIn(a, k) && AllIn(b, k) && Stops(x, k) && Stops(y, k) && a + x == b + y
    ensures a == b && x == y
  {
    var t := a + x;
    assert t[|a|] == x[0] && forall i :: 0 <= i < |a| ==> t[i] == a[i];
    assert t == b + y;
    assert t[|b|] == y[0] && forall i :: 0 <= i < |b| ==> t[i] == b[i];
    PrefixFixed(a, x, b, y);
  }

  /** The white space before a body that does not begin with any. */
  lemma GapFixed(gap: Text, body: Text, g: Text, b: Text)
    requires AllIn(gap, White) && AllIn(g, White) && Bare(body) && gap + body == g + b
    ensures |g| <= |gap| && (|g| == |gap| ==> g == gap && b == body)
  {
    var t := gap + body;
    assert body != [] ==> t[|gap|] == body[0];
    assert t == g + b;
    assert forall i :: 0 <= i < |g| ==> t[i] == g[i];
    if |g| == |gap| { PrefixFixed(gap, body, g, b); }
  }

  lemma ProfileParts(profile: Option<(Text, Text)>, rest: Text)
    requires profile.Some?
    ensures ProfileText(profile) + ([COLON] + rest)
      == profile.value.0 + (AT + (profile.value.1 + (CLOSE + ([COLON] + rest))))
  {
    var ws, p := profile.value.0, profile.value.1;
    assert ws + (AT + (p + CLOSE)) + ([COLON] + rest) == ws + (AT + (p + (CLOSE + ([COLON] + rest))));
  }

  predicate ProfileLegal(profile: Option<(Text, Text)>) {
    profile.Some? ==> AllIn(profile.value.0, White) && ProfileOk(profile.value.1)
  }

  lemma ProfileStart(profile: Option<(Text, Text)>, rest: Text)
    requires ProfileLegal(profile) && profile.Some?
    ensures (ProfileText(profile) + ([COLON] + rest))[0] != COLON
  {
    ProfileParts(profile, rest);
    var t := profile.value.0 + (AT + (profile.value.1 + (CLOSE + ([COLON] + rest))));
    assert t[0] == if profile.value.0 != [] then profile.value.0[0] else AT[0];
  }

  lemma NoProfileAtColon(profile: Option<(Text, Text)>, rest: Text, x: Text)
    requires ProfileLegal(profile) && ProfileText(profile) + ([COLON] + rest) == [COLON] + x
    ensures profile.None?
  {
    assert ([COLON] + x)[0] == COLON;
    if profile.Some? { ProfileStart(profile, rest); }
  }

  lemma BothProfilesFixed(a: (Text, Text), x: Text, b: (Text, Text), y: Text)
    requires ProfileLegal(Some(a)) && ProfileLegal(Some(b))
    requires ProfileText(Some(a)) + ([COLON] + x) == ProfileText(Some(b)) + ([COLON] + y)
    ensures a == b && x == y
  {
    ProfileParts(Some(a), x);
    ProfileParts(Some(b), y);
    var ra, rb := CLOSE + ([COLON] + x), CLOSE + ([COLON] + y);
    SpanFixed(a.0, AT + (a.1 + ra), b.0, AT + (b.1 + rb), White);
    PrefixFixed(AT, a.1 + ra, AT, b.1 + rb);
    SpanFixed(a.1, ra, b.1, rb, LowerDigitDash);
    PrefixFixed(CLOSE, [COLON] + x, CLOSE, [COLON] + y);
    PrefixFixed([COLON], x, [COLON], y);
  }

  lemma ProfileFixed(a: Option<(Text, Text)>, x: Text, b: Option<(Text, Text)>, y: Text)
    requires ProfileLegal(a) && ProfileLegal(b)
    requires ProfileText(a) + ([COLON] + x) == ProfileText(b) + ([COLON] + y)
    ensures a == b && x == y
  {
    if a.None? {
      assert ProfileText(None) + ([COLON] + x) == [COLON] + x;
      NoProfileAtColon(b, y, x);
      assert ProfileText(None) + ([COLON] + y) == [COLON] + y;
      PrefixFixed([COLON], x, [COLON], y);
    } else if b.None? {
      assert ProfileText(None) + ([COLON] + y) == [COLON] + y;
      NoProfileAtColon(a, x, y);
    } else {
      BothProfilesFixed(a.value, x, b.value, y);
    }
  }

  // ---- A later decomposition is a later try -----------------------------------

  lemma DisplayMatchesThere(text: Text, q: Reading)
    requires q.Named? && Legal(q) && WriteOut(q) == text
    ensures Match(Display(|text|), text, |HEAD| + |RobotText(q.robot)|, map[]).Some?
  {
    PartsStand(text, q);
    DisplayFinds(text, |HEAD| + |RobotText(q.robot)|, q.display, q.profile, q.gap + q.body);
  }

  lemma RobotStands(text: Text, q: Reading)
    requires q.Named? && Legal(q) && WriteOut(q) == text && q.robot.Some?
    ensures Leads(text, |HEAD|, [ROBOT], q.robot.value + (q.display + TailText(q)))
    ensures All(text, |HEAD| + 1, |HEAD| + 1 + |q.robot.value|, White)
  {
    var h, rest := |HEAD|, q.display + TailText(q);
    PartsStand(text, q);
    assert RobotText(q.robot) + rest == [ROBOT] + (q.robot.value + rest);
    Peel(text, h, [ROBOT], q.robot.value + rest);
    PeelAll(text, h + 1, q.robot.value, rest, White);
  }

  lemma RobotMatchesThere(text: Text, q: Reading)
    requires q.Named? && Legal(q) && WriteOut(q) == text && q.robot.Some?
    ensures Match(Robot(|text|) + Display(|text|), text, |HEAD|, map[]).Some?
    ensures All(text, |HEAD| + 1, |HEAD| + |RobotText(q.robot)|, White)
  {
    RobotStands(text, q);
    DisplayMatchesThere(text, q);
    RobotItselfFinds(text, |HEAD|, q.robot.value, q.display + TailText(q));
  }

  lemma EndMatchesThere(text: Text, q: Reading)
    requires q.Named? && Legal(q) && WriteOut(q) == text
    ensures var d0 := |HEAD| + |RobotText(q.robot)|; EndMatches(text, d0, d0 + |q.display|)
  {
    var d0 := |HEAD| + |RobotText(q.robot)|;
    PartsStand(text, q);
    AfterDisplayFinds(text, d0 + |q.display|, q.profile, q.gap + q.body, map[][2 := d0]);
  }

  lemma SameRobot(text: Text, r: Reading, q: Reading)
    requires r.Named? && q.Named? && WriteOut(r) == WriteOut(q) == text
    requires r.robot.Some? == q.robot.Some? && (r.robot.Some? ==> |r.robot.value| == |q.robot.value|)
    ensures r.robot == q.robot && r.display + TailText(r) == q.display + TailText(q)
  {
    PartsStand(text, r);
    PartsStand(text, q);
    PrefixFixed(RobotText(r.robot), r.display + TailText(r), RobotText(q.robot), q.display + TailText(q));
    if r.robot.Some? { PrefixFixed([ROBOT], r.robot.value, [ROBOT], q.robot.value); }
  }

  lemma SameDisplay(text: Text, r: Reading, q: Reading)
    requires r.Named? && q.Named? && Legal(r) && Legal(q) && Bare(r.body)
    requires r.robot == q.robot && r.display + TailText(r) == q.display + TailText(q) && |r.display| == |q.display|
    ensures q == r || Before(r, q)
  {
    PrefixFixed(r.display, TailText(r), q.display, TailText(q));
    ProfileFixed(r.profile, r.gap + r.body, q.profile, q.gap + q.body);
    GapFixed(r.gap, r.body, q.gap, q.body);
  }

  lemma NamedIsFirst(text: Text, r: Reading, q: Reading)
    requires r.Named? && Legal(r) && WriteOut(r) == text && OthersFailed(text, r)
    requires q.Named? && Legal(q) && WriteOut(q) == text
    ensures q == r || Before(r, q)
  {
    hide OthersFailed, Legal, WriteOut, EndMatches;
    RobotIsMost(text, r, q);
    if !Before(r, q) {
      SameRobot(text, r, q);
      DisplayIsLeast(text, r, q);
      BareBody(text, r);
      SameDisplay(text, r, q);
    }
  }

  lemma BareBody(text: Text, r: Reading)
    requires OthersFailed(text, r)
    ensures Bare(r.body)
  {}

  /** With a robot there to be read, it is read, and with no less white space. */
  lemma RobotIsMost(text: Text, r: Reading, q: Reading)
    requires r.Named? && OthersFailed(text, r)
    requires q.Named? && Legal(q) && WriteOut(q) == text
    ensures q.robot.Some? ==> r.robot.Some? && |q.robot.value| <= |r.robot.value|
  {
    hide Match, Legal, WriteOut;
    if q.robot.Some? {
      RobotMatchesThere(text, q);
      DisplayMatchesThere(text, q);
    }
  }

  lemma DisplayIsLeast(text: Text, r: Reading, q: Reading)
    requires r.Named? && OthersFailed(text, r)
    requires q.Named? && Legal(q) && WriteOut(q) == text && r.robot == q.robot
    ensures |r.display| <= |q.display|
  {
    hide EndMatches, WriteOut;
    EndMatchesThere(text, q);
  }

  lemma QuotedIsFirst(text: Text, r: Reading, q: Reading)
    requires r.Quoted? && Legal(r) && WriteOut(r) == text && Bare(r.body)
    requires q.Quoted? && Legal(q) && WriteOut(q) == text
    ensures q == r || Before(r, q)
  {
    var x, y := LEGACY_TAIL + (r.gap + r.body), LEGACY_TAIL + (q.gap + q.body);
    PrefixFixed(LEGACY_HEAD, r.display + x, LEGACY_HEAD, q.display + y);
    SpanFixed(r.display, x, q.display, y, Except([QUOTE]));
    PrefixFixed(LEGACY_TAIL, r.gap + r.body, LEGACY_TAIL, q.gap + q.body);
    GapFixed(r.gap, r.body, q.gap, q.body);
  }

  lemma FormsAreApart(r: Reading, q: Reading)
    requires r.Named? && q.Quoted?
    ensures WriteOut(r) != WriteOut(q)
  {
    assert WriteOut(r)[0] == HEAD[0] && WriteOut(q)[0] == LEGACY_HEAD[0];
  }

  /** A parsed message is read off the first decomposition of its text. */
  lemma ParsedIsFirst(text: Text) returns (r: Reading)
    requires Parse(text).Some?
    ensures FirstReading(text, r) && Parse(text) == Some(MessageIn(r))
  {
    r := ParsedIsRead(text);
    forall q | Legal(q) && WriteOut(q) == text ensures q == r || Before(r, q) {
      if r.Named? && q.Named? {
        NamedIsFirst(text, r, q);
      } else if r.Quoted? && q.Quoted? {
        QuotedIsFirst(text, r, q);
      } else if r.Named? {
        FormsAreApart(r, q);
      } else {
        FormsAreApart(q, r);
      }
    }
  }

  lemma BeforeIsOneWay(r: Reading, q: Reading)
    requires Before(r, q)
    ensures !Before(q, r)
  {}

  /** What a text parses to: nothing without a legal decomposition, and else the message in the first. */
  lemma ParseIsTheFirstReading(text: Text)
    ensures Parse(text).None? <==> forall r :: Legal(r) ==> WriteOut(r) != text
    ensures forall r :: FirstReading(text, r) ==> Parse(text) == Some(MessageIn(r))
  {
    ParsesExactly(text);
    forall r | FirstReading(text, r) ensures Parse(text) == Some(MessageIn(r)) {
      var p := ParsedIsFirst(text);
      if p != r { BeforeIsOneWay(p, r); }
    }
  }

  // "Message from 🤖 x:y" has two readings, with a robot and without.
  const TAKEN := Named(Some([SPACE]), Codes("x"), None, [], Codes("y"))
  const LEFT := Named(None, [ROBOT, SPACE] + Codes("x"), None, [], Codes("y"))

  lemma BothAreLegal()
    ensures Legal(TAKEN) && Legal(LEFT)
  {}

  lemma BothWriteTheSame()
    ensures WriteOut(TAKEN) == WriteOut(LEFT)
  {
    var rest := Codes("x") + (ProfileText(None) + ([COLON] + ([] + Codes("y"))));
    assert [ROBOT, SPACE] + rest == ([ROBOT, SPACE] + Codes("x")) + (ProfileText(None) + ([COLON] + ([] + Codes("y"))));
    assert RobotText(None) + ([ROBOT, SPACE] + rest) == RobotText(Some([SPACE])) + rest;
  }

  lemma LetterFollows()
    ensures var text, h := WriteOut(TAKEN), |HEAD|; h + 2 < |text| && !Space(text[h + 2])
  {
    hide WriteOut, TailText, Leads, Space;
    var text, h := WriteOut(TAKEN), |HEAD|;
    PartsStand(text, TAKEN);
    LetterAt(text, h + 2, TailText(TAKEN));
  }

  lemma LetterAt(text: Text, i: nat, rest: Text)
    requires Leads(text, i, Codes("x"), rest)
    ensures i < |text| && !Space(text[i])
  {
    Peel(text, i, Codes("x"), rest);
    assert text[i] == Codes("x")[0];
  }

  /** The robot is taken. */
  lemma RobotIsTaken()
    ensures Legal(LEFT) && WriteOut(LEFT) == WriteOut(TAKEN) && MessageIn(LEFT) != MessageIn(TAKEN)
    ensures FirstReading(WriteOut(TAKEN), TAKEN) && Parse(WriteOut(TAKEN)) == Some(MessageIn(TAKEN))
  {
    var text := WriteOut(TAKEN);
    BothAreLegal();
    BothWriteTheSame();
    LetterFollows();
    forall q | Legal(q) && WriteOut(q) == text ensures q == TAKEN || Before(TAKEN, q) {
      TakenIsFirst(text, q);
    }
    ParseIsTheFirstReading(text);
    DisplaysDiffer();
  }

  lemma DisplaysDiffer()
    ensures Trim(LEFT.display) != Trim(TAKEN.display)
  {
    TrimTrims(LEFT.display);
    TrimTrims(TAKEN.display);
  }

  lemma TakenIsFirst(text: Text, q: Reading)
    requires Legal(TAKEN) && WriteOut(TAKEN) == text && |HEAD| + 2 < |text| && !Space(text[|HEAD| + 2])
    requires Legal(q) && WriteOut(q) == text
    ensures q == TAKEN || Before(TAKEN, q)
  {
    if q.Quoted? { FormsAreApart(TAKEN, q); }
    if q.robot.Some? {
      RobotMatchesThere(text, q);
      if |q.robot.value| == 1 {
        SameRobot(text, TAKEN, q);
        if |q.display| == 1 { SameDisplay(text, TAKEN, q); }
      }
    }
  }
}
