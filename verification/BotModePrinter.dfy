/**
  The line the Bot Mode printer writes and the inputs it refuses, said character
  by character (packages/shared/src/partner-workflow.ts:10-11, 24-31), and the
  one reading of that line its writer had in mind.
 */
module BotModePrinter {
  import opened Wrappers
  import opened BotMode
  import opened BotModeGrammar
  import opened RegexMatch
  import opened Texts

  // ---- Trimming ---------------------------------------------------------------

  /** `d` is `t` without the white space around it. */
  ghost predicate TrimsTo(t: Text, d: Text) {
    exists lead, trail :: Around(t, lead, d, trail)
  }

  ghost predicate Around(t: Text, lead: Text, d: Text, trail: Text) {
    && t == lead + (d + trail) && AllIn(lead, White) && AllIn(trail, White)
    && (d != [] ==> !Space(d[0]) && !Space(d[|d| - 1]))
  }

  lemma StartTrimmed(t: Text) returns (lead: Text)
    ensures t == lead + TrimStart(t) && AllIn(lead, White)
    ensures TrimStart(t) != [] ==> !Space(TrimStart(t)[0])
  {
    lead := t[..RunEnd(t, 0)];
  }

  lemma {:induction false} EndTrimmed(t: Text) returns (trail: Text)
    ensures t == TrimEnd(t) + trail && AllIn(trail, White)
    decreases |t|
  {
    trail := [];
    if t != [] && Space(t[|t| - 1]) {
      var rest := EndTrimmed(t[..|t| - 1]);
      trail := rest + [t[|t| - 1]];
      assert t == TrimEnd(t) + trail;
    }
  }

  lemma TrimIs(t: Text)
    ensures TrimsTo(t, Trim(t))
  {
    var lead := StartTrimmed(t);
    var trail := EndTrimmed(TrimStart(t));
    TrimTrims(t);
    assert Around(t, lead, Trim(t), trail);
  }

  /** White space in front ends before anything else starts. */
  lemma LeadIsWithin(lead: Text, a: Text, lead': Text, a': Text)
    requires lead + a == lead' + a' && AllIn(lead', White) && a != [] && !Space(a[0])
    ensures |lead'| <= |lead|
  {
    assert forall i :: 0 <= i < |lead'| ==> (lead' + a')[i] == lead'[i] && In(lead'[i], White);
    assert (lead + a)[|lead|] == a[0];
  }

  lemma LeadIsFixed(lead: Text, a: Text, lead': Text, a': Text)
    requires lead + a == lead' + a' && AllIn(lead, White) && AllIn(lead', White)
    requires a != [] && !Space(a[0]) && a' != [] && !Space(a'[0])
    ensures lead == lead' && a == a'
  {
    LeadIsWithin(lead, a, lead', a');
    LeadIsWithin(lead', a', lead, a);
    assert (lead + a)[..|lead|] == lead && (lead + a)[|lead|..] == a;
    assert (lead' + a')[..|lead'|] == lead' && (lead' + a')[|lead'|..] == a';
  }

  /** White space behind starts after anything else ends. */
  lemma TrailIsBeyond(d: Text, trail: Text, d': Text, trail': Text)
    requires d + trail == d' + trail' && AllIn(trail', White) && d != [] && !Space(d[|d| - 1])
    ensures |d| <= |d'|
  {
    assert forall i :: 0 <= i < |trail'| ==> (d' + trail')[|d'| + i] == trail'[i] && In(trail'[i], White);
    assert (d + trail)[|d| - 1] == d[|d| - 1];
    assert |d'| < |d| ==> In(trail'[|d| - 1 - |d'|], White);
  }

  lemma TrailIsFixed(d: Text, trail: Text, d': Text, trail': Text)
    requires d + trail == d' + trail' && AllIn(trail, White) && AllIn(trail', White)
    requires d != [] && !Space(d[|d| - 1]) && d' != [] && !Space(d'[|d'| - 1])
    ensures d == d'
  {
    TrailIsBeyond(d, trail, d', trail');
    TrailIsBeyond(d', trail', d, trail);
    assert (d + trail)[..|d|] == d && (d' + trail')[..|d'|] == d';
  }

  /** Around nothing but white space there is nothing to keep. */
  lemma NothingKept(t: Text, lead: Text, d: Text, trail: Text)
    requires AllIn(t, White) && Around(t, lead, d, trail)
    ensures d == []
  {
    StartsAfter(lead, d, trail);
    assert forall i :: 0 <= i < |t| ==> In(t[i], White);
  }

  lemma StartsAfter(lead: Text, d: Text, trail: Text)
    ensures d != [] ==> (lead + (d + trail))[|lead|] == d[0]
  {}

  lemma SameKept(t: Text, lead: Text, d: Text, trail: Text, lead': Text, d': Text, trail': Text)
    requires Around(t, lead, d, trail) && Around(t, lead', d', trail')
    ensures d == d'
  {
    if d == [] {
      assert t == lead + trail && AllIn(t, White) by { assert [] + trail == trail; }
      NothingKept(t, lead', d', trail');
    } else if d' == [] {
      assert t == lead' + trail' && AllIn(t, White) by { assert [] + trail' == trail'; }
      NothingKept(t, lead, d, trail);
    } else {
      LeadIsFixed(lead, d + trail, lead', d' + trail');
      TrailIsFixed(d, trail, d', trail');
    }
  }

  /** Trimming takes away the white space at both ends, and that alone. */
  lemma TrimExactly(t: Text, d: Text)
    ensures d == Trim(t) <==> TrimsTo(t, d)
  {
    TrimIs(t);
    if TrimsTo(t, d) {
      var lead, trail :| Around(t, lead, d, trail);
      var lead', trail' :| Around(t, lead', Trim(t), trail');
      SameKept(t, lead, d, trail, lead', Trim(t), trail');
    }
  }

  // ---- Lengths ----------------------------------------------------------------

  /** Where code points above the basic plane stand. */
  function Astral(t: Text): (places: set<int>) {
    set i | 0 <= i < |t| && t[i] >= 0x10000
  }

  /** JavaScript counts such a code point twice. */
  lemma {:induction false} UnitsExactly(t: Text)
    ensures Units(t) == |t| + |Astral(t)|
    decreases |t|
  {
    if t != [] {
      var n := |t| - 1;
      UnitsExactly(t[..n]);
      assert Astral(t) == Astral(t[..n]) + if t[n] >= 0x10000 then {n} else {};
    } else {
      assert Astral(t) == {};
    }
  }

  // ---- What is refused --------------------------------------------------------

  ghost predicate DisplayTaken(d: Text) {
    && 1 <= |d| + |Astral(d)| <= 64
    && ':' as int !in d && '\n' as int !in d && '(' as int !in d
  }

  ghost predicate Lower(c: int) {
    'a' as int <= c <= 'z' as int || '0' as int <= c <= '9' as int
  }

  ghost predicate ProfileTaken(p: Text) {
    && 1 <= |p| <= 64 && Lower(p[0])
    && forall i :: 0 <= i < |p| ==> Lower(p[i]) || p[i] == '_' as int || p[i] == '-' as int
  }

  ghost predicate BodyTaken(b: Text) {
    1 <= |b| + |Astral(b)| <= 8000
  }

  lemma DisplayOkIs(d: Text)
    ensures DisplayOk(d) <==> DisplayTaken(d)
  {
    UnitsExactly(d);
    assert DISPLAY_EXCLUDES == [':' as int, '\n' as int, '(' as int];
    assert forall i :: 0 <= i < |d| ==> (In(d[i], Except(DISPLAY_EXCLUDES)) <==> d[i] !in DISPLAY_EXCLUDES);
  }

  lemma ProfileOkIs(p: Text)
    ensures ProfileOk(p) <==> ProfileTaken(p)
  {}

  /** The first field at fault is named: a display refused once trimmed, then the profile, then the body. */
  lemma RefusesExactly(display: Text, profile: Text, body: Text, d: Text)
    requires TrimsTo(display, d)
    ensures Format(display, profile, body) == Err("display") <==> !DisplayTaken(d)
    ensures Format(display, profile, body) == Err("profile") <==> DisplayTaken(d) && !ProfileTaken(profile)
    ensures Format(display, profile, body) == Err("body") <==>
      DisplayTaken(d) && ProfileTaken(profile) && !BodyTaken(body)
    ensures Format(display, profile, body).Ok? <==> DisplayTaken(d) && ProfileTaken(profile) && BodyTaken(body)
  {
    hide DisplayOk, ProfileOk, DisplayTaken, ProfileTaken, Trim, Units, Line;
    TrimExactly(display, d);
    DisplayOkIs(d);
    ProfileOkIs(profile);
    UnitsExactly(body);
    assert "display" != "profile" && "profile" != "body" && "display" != "body" by { FieldsDiffer(); }
  }

  lemma FieldsDiffer()
    ensures "display" != "profile" && "profile" != "body" && "display" != "body"
  {
    assert "display"[0] == 'd' && "profile"[0] == 'p' && "body"[0] == 'b';
  }

  // ---- What is written --------------------------------------------------------

  /** The head, a robot and a blank, the display, the handle in parentheses, a colon and a blank, the body. */
  lemma LineExactly(display: Text, profile: Text, body: Text, d: Text)
    requires TrimsTo(display, d) && Format(display, profile, body).Ok?
    ensures Format(display, profile, body).value
      == Codes("Message from ") + [0x1F916, 32] + d + Codes(" (@") + profile + Codes("): ") + body
  {
    hide DisplayOk, ProfileOk, Trim, Units;
    TrimExactly(display, d);
    LineSpells(d, profile, body);
  }

  lemma LineSpells(d: Text, profile: Text, body: Text)
    ensures Line(d, profile, body)
      == Codes("Message from ") + [0x1F916, 32] + d + Codes(" (@") + profile + Codes("): ") + body
  {
    assert Codes(" (@") == [SPACE] + AT;
    assert Codes("): ") == CLOSE + [COLON] + [SPACE];
    LineFlat(HEAD, [ROBOT, SPACE], d, AT, profile, body);
  }

  lemma LineFlat(head: Text, robot: Text, d: Text, at: Text, p: Text, body: Text)
    ensures head + (robot + (d + ([SPACE] + (at + (p + (CLOSE + ([COLON] + ([SPACE] + body))))))))
      == head + robot + d + ([SPACE] + at) + p + (CLOSE + [COLON] + [SPACE]) + body
  {}

  /** The line is the legal reading with one blank after the robot, the display and the colon. */
  lemma LineIsAReading(display: Text, profile: Text, body: Text)
    requires Format(display, profile, body).Ok?
    ensures var r := Named(Some([SPACE]), Trim(display), Some(([SPACE], profile)), [SPACE], body);
      Legal(r) && WriteOut(r) == Format(display, profile, body).value
  {
    AcceptedDisplay(display);
    LineNests(Trim(display), profile, body);
  }

  lemma LineNests(d: Text, p: Text, body: Text)
    ensures WriteOut(Named(Some([SPACE]), d, Some(([SPACE], p)), [SPACE], body)) == Line(d, p, body)
  {
    assert RobotText(Some([SPACE])) == [ROBOT, SPACE];
    assert ProfileText(Some(([SPACE], p))) + ([COLON] + ([SPACE] + body)) == FromProfile(p, body);
  }
}
