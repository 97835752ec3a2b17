/**
  Packing a skill's text into prompt sections
  (runtime/hermes/enterprise_bridge/runtime_policy.py:419-434). Text is a string
  of code points.
 */
module PromptSplit {
  import opened Wrappers
  import opened Texts

  const NEWLINE := 10
  const BREAK: Text := [NEWLINE]

  // ---- Python's str.strip and str.split -------------------------------------

  /** Python's str.isspace, one code point at a time. */
  predicate Space(c: int) {
    || 9 <= c <= 13 || 0x1C <= c <= 0x20 || c == 0x85 || c == 0xA0 || c == 0x1680
    || 0x2000 <= c <= 0x200A || c == 0x2028 || c == 0x2029 || c == 0x202F || c == 0x205F || c == 0x3000
  }

  predicate Blank(t: Text) {
    forall i :: 0 <= i < |t| ==> Space(t[i])
  }

  function LStrip(t: Text): Text {
    if t != [] && Space(t[0]) then LStrip(t[1..]) else t
  }

  function RStrip(t: Text): Text {
    if t != [] && Space(t[|t| - 1]) then RStrip(t[..|t| - 1]) else t
  }

  function Strip(t: Text): Text {
    RStrip(LStrip(t))
  }

  function Join(parts: seq<Text>): Text {
    if parts == [] then []
    else if |parts| == 1 then parts[0]
    else Join(parts[..|parts| - 1]) + BREAK + parts[|parts| - 1]
  }

  function Lines(t: Text): (lines: seq<Text>)
    ensures lines != []
  {
    if t == [] then [[]]
    else if t[|t| - 1] == NEWLINE then Lines(t[..|t| - 1]) + [[]]
    else
      var front := Lines(t[..|t| - 1]);
      front[..|front| - 1] + [front[|front| - 1] + [t[|t| - 1]]]
  }

  lemma {:induction false} LStripConcat(a: Text, b: Text)
    ensures LStrip(a + b) == if Blank(a) then LStrip(b) else LStrip(a) + b
    decreases |a|
  {
    if a == [] {
      assert a + b == b;
    } else if Space(a[0]) {
      assert (a + b)[1..] == a[1..] + b;
      LStripConcat(a[1..], b);
      assert Blank(a) <==> Blank(a[1..]);
    }
  }

  lemma {:induction false} RStripConcat(a: Text, b: Text)
    ensures RStrip(a + b) == if Blank(b) then RStrip(a) else a + RStrip(b)
    decreases |b|
  {
    if b == [] {
      assert a + b == a;
    } else {
      var n := |b| - 1;
      assert (a + b)[|a + b| - 1] == b[n];
      if Space(b[n]) {
        assert (a + b)[..|a + b| - 1] == a + b[..n];
        RStripConcat(a, b[..n]);
        assert Blank(b) <==> Blank(b[..n]);
      }
    }
  }

  lemma LStripBlank(t: Text)
    ensures Blank(t) <==> LStrip(t) == []
  {
    LStripConcat(t, []);
    assert t + [] == t;
    LStripStarts(t);
  }

  lemma RStripBlank(t: Text)
    ensures Blank(t) <==> RStrip(t) == []
  {
    RStripConcat([], t);
    assert [] + t == t;
    RStripEnds(t);
  }

  lemma {:induction false} LStripStarts(t: Text)
    ensures LStrip(t) != [] ==> !Space(LStrip(t)[0])
    ensures |LStrip(t)| <= |t| && t[|t| - |LStrip(t)|..] == LStrip(t) && Blank(t[..|t| - |LStrip(t)|])
    decreases |t|
  {
    if t != [] && Space(t[0]) {
      LStripStarts(t[1..]);
      var k := |t[1..]| - |LStrip(t[1..])|;
      assert t[..k + 1] == [t[0]] + t[1..][..k];
      assert t[k + 1..] == t[1..][k..];
    }
  }

  lemma {:induction false} RStripEnds(t: Text)
    ensures RStrip(t) != [] ==> !Space(RStrip(t)[|RStrip(t)| - 1])
    ensures |RStrip(t)| <= |t| && t[..|RStrip(t)|] == RStrip(t) && Blank(t[|RStrip(t)|..])
    decreases |t|
  {
    if t != [] && Space(t[|t| - 1]) {
      var front := t[..|t| - 1];
      RStripEnds(front);
      assert t[..|RStrip(front)|] == front[..|RStrip(front)|];
      assert t[|RStrip(front)|..] == front[|RStrip(front)|..] + [t[|t| - 1]];
    }
  }

  /** What is stripped is white space at either end, and nothing more can go. */
  lemma StripSplits(t: Text) returns (lead: Text, trail: Text)
    ensures t == lead + Strip(t) + trail && Blank(lead) && Blank(trail)
    ensures Strip(t) != [] ==> !Space(Strip(t)[0]) && !Space(Strip(t)[|Strip(t)| - 1])
    ensures Strip(t) == [] <==> Blank(t)
  {
    hide LStrip, RStrip;
    var l := LStrip(t);
    LStripStarts(t);
    RStripEnds(l);
    LStripBlank(t);
    RStripBlank(l);
    lead, trail := t[..|t| - |l|], l[|Strip(t)|..];
    assert t == lead + l && l == Strip(t) + trail;
    if l != [] { assert !Blank(l) by { assert !Space(l[0]); } }
  }

  /** Less to strip on the left leaves no more when stripped on both sides. */
  lemma SuffixStripsShorter(u: Text, s: Text)
    ensures |RStrip(s)| <= |RStrip(u + s)|
  {
    RStripConcat(u, s);
    RStripBlank(s);
  }

  // ---- The packing loop -----------------------------------------------------

  datatype Packing = Packing(chunks: seq<Text>, current: Text)

  function Emit(chunks: seq<Text>, current: Text): seq<Text> {
    if Strip(current) != [] then chunks + [Strip(current)] else chunks
  }

  function Candidate(current: Text, line: Text): Text {
    if current == [] then line else current + BREAK + line
  }

  function Add(p: Packing, line: Text, limit: nat): Packing {
    if |Strip(Candidate(p.current, line))| > limit then Packing(Emit(p.chunks, p.current), line)
    else Packing(p.chunks, Candidate(p.current, line))
  }

  function Pack(lines: seq<Text>, limit: nat): Packing {
    if lines == [] then Packing([], []) else Add(Pack(lines[..|lines| - 1], limit), lines[|lines| - 1], limit)
  }

  predicate LinesFit(lines: seq<Text>, limit: nat) {
    lines == [] || (LinesFit(lines[..|lines| - 1], limit) && |Strip(lines[|lines| - 1])| <= limit)
  }

  lemma {:induction false} FitConcat(front: seq<Text>, behind: seq<Text>, limit: nat)
    ensures LinesFit(front + behind, limit) <==> LinesFit(front, limit) && LinesFit(behind, limit)
    decreases |behind|
  {
    if behind == [] {
      assert front + behind == front;
    } else {
      var n := |behind| - 1;
      assert (front + behind)[..|front| + n] == front + behind[..n];
      FitConcat(front, behind[..n], limit);
    }
  }

  function Chunks(text: Text, limit: nat): seq<Text> {
    var p := Pack(Lines(text), limit);
    Emit(p.chunks, p.current)
  }

  lemma PackNext(lines: seq<Text>, i: nat, limit: nat)
    requires i < |lines|
    ensures Pack(lines[..i + 1], limit) == Add(Pack(lines[..i], limit), lines[i], limit)
  {
    assert lines[..i + 1][..i] == lines[..i];
  }

  lemma FitNext(lines: seq<Text>, i: nat, limit: nat)
    requires i < |lines|
    ensures LinesFit(lines[..i + 1], limit) <==> LinesFit(lines[..i], limit) && |Strip(lines[i])| <= limit
    ensures LinesFit(lines, limit) ==> LinesFit(lines[..i + 1], limit)
  {
    assert lines[..i + 1][..i] == lines[..i];
    FitConcat(lines[..i + 1], lines[i + 1..], limit);
    assert lines[..i + 1] + lines[i + 1..] == lines;
  }

  const LINE_TOO_LONG := "Enterprise skill line exceeds the native prompt section limit."

  method ContinuationChunks(text: Text, limit: nat) returns (r: Result<seq<Text>, string>)
    ensures r == if LinesFit(Lines(text), limit) then Ok(Chunks(text, limit)) else Err(LINE_TOO_LONG)
  {
    var chunks: seq<Text>, current: Text := [], [];
    var lines := Lines(text);
    for i := 0 to |lines|
      invariant Packing(chunks, current) == Pack(lines[..i], limit)
      invariant LinesFit(lines[..i], limit)
    {
      var line := lines[i];
      FitNext(lines, i, limit);
      if |Strip(line)| > limit { return Err(LINE_TOO_LONG); }
      PackNext(lines, i, limit);
      var candidate := Candidate(current, line);
      if |Strip(candidate)| > limit {
        chunks := Emit(chunks, current);
        current := line;
      } else {
        current := candidate;
      }
    }
    assert lines[..|lines|] == lines;
    return Ok(Emit(chunks, current));
  }

  // ---- Splits at line boundaries --------------------------------------------

  /** Pieces that give the text back when joined by line breaks, each within the limit once stripped. */
  ghost predicate Split(pieces: seq<Text>, text: Text, limit: nat) {
    pieces != [] && Join(pieces) == text && forall i :: 0 <= i < |pieces| ==> |Strip(pieces[i])| <= limit
  }

  /** No piece but the last could have taken the first line of the next. */
  ghost predicate Filled(pieces: seq<Text>, limit: nat) {
    forall i, j :: 0 <= i && j == i + 1 < |pieces| ==> Closes(pieces[i], pieces[j], limit)
  }

  predicate Closes(piece: Text, next: Text, limit: nat) {
    |Strip(piece + BREAK + Lines(next)[0])| > limit
  }

  function NonBlankStrips(pieces: seq<Text>): seq<Text> {
    if pieces == [] then [] else Emit(NonBlankStrips(pieces[..|pieces| - 1]), pieces[|pieces| - 1])
  }

  lemma {:induction false} JoinLines(t: Text)
    ensures Join(Lines(t)) == t && forall i :: 0 <= i < |Lines(t)| ==> NEWLINE !in Lines(t)[i]
    decreases |t|
  {
    if t != [] {
      var n := |t| - 1;
      JoinLines(t[..n]);
      var front, all := Lines(t[..n]), Lines(t);
      assert t == t[..n] + [t[n]];
      if t[n] == NEWLINE {
        assert all[..|front|] == front;
        assert Join(all) == Join(front) + BREAK + [];
      } else {
        var m := |front| - 1;
        assert all[..m] == front[..m] && all[m] == front[m] + [t[n]];
        if m > 0 {
          assert Join(all) == Join(front[..m]) + BREAK + (front[m] + [t[n]]);
          assert Join(front) == Join(front[..m]) + BREAK + front[m];
        }
      }
    }
  }

  function Grown(lines: seq<Text>, c: int): seq<Text>
    requires lines != []
  {
    if c == NEWLINE then lines + [[]] else lines[..|lines| - 1] + [lines[|lines| - 1] + [c]]
  }

  lemma {:induction false} LinesNext(t: Text, c: int)
    ensures Lines(t + [c]) == Grown(Lines(t), c)
  {
    var longer := t + [c];
    assert longer != [] && longer[|longer| - 1] == c && longer[..|longer| - 1] == t;
  }

  lemma GrownConcat(front: seq<Text>, behind: seq<Text>, c: int)
    requires behind != []
    ensures Grown(front + behind, c) == front + Grown(behind, c)
  {
    var both := front + behind;
    assert both[..|both| - 1] == front + behind[..|behind| - 1];
  }

  /** Splitting a text after a break splits its two sides. */
  lemma {:induction false} LinesConcat(a: Text, b: Text)
    ensures Lines(a + BREAK + b) == Lines(a) + Lines(b)
    decreases |b|
  {
    if b == [] {
      LinesNext(a, NEWLINE);
      assert a + BREAK + b == a + [NEWLINE];
    } else {
      var n := |b| - 1;
      LinesConcat(a, b[..n]);
      LinesConcatNext(a, b[..n], b[n]);
      assert b[..n] + [b[n]] == b;
    }
  }

  lemma LinesConcatNext(a: Text, b: Text, c: int)
    requires Lines(a + BREAK + b) == Lines(a) + Lines(b)
    ensures Lines(a + BREAK + (b + [c])) == Lines(a) + Lines(b + [c])
  {
    hide Lines, Grown;
    LinesNext(b, c);
    LinesNext(a + BREAK + b, c);
    assert a + BREAK + b + [c] == a + BREAK + (b + [c]);
    GrownConcat(Lines(a), Lines(b), c);
  }

  // ---- The greedy packing is a split ----------------------------------------

  /** The greedy state stands for some pieces: those emitted, and the one it is filling. */
  ghost predicate Filling(p: Packing, done: seq<Text>, lead: Text, limit: nat) {
    && NonBlankStrips(done) == p.chunks && Blank(lead)
    && |Strip(p.current)| <= limit && forall i :: 0 <= i < |done| ==> |Strip(done[i])| <= limit
  }

  lemma StripLead(lead: Text, t: Text)
    requires Blank(lead)
    ensures Strip(lead + t) == Strip(t)
  {
    LStripConcat(lead, t);
  }

  lemma NonBlankAppend(done: seq<Text>, piece: Text)
    ensures NonBlankStrips(done + [piece]) == Emit(NonBlankStrips(done), piece)
  {
    assert (done + [piece])[..|done|] == done;
  }

  lemma JoinAppend(parts: seq<Text>, part: Text)
    ensures Join(parts + [part]) == if parts == [] then part else Join(parts) + BREAK + part
  {
    assert (parts + [part])[..|parts|] == parts;
  }

  lemma JoinExtend(done: seq<Text>, piece: Text, more: Text)
    ensures Join(done + [piece + more]) == Join(done + [piece]) + more
  {
    JoinAppend(done, piece);
    JoinAppend(done, piece + more);
  }

  lemma FillOverflow(p: Packing, done: seq<Text>, lead: Text, line: Text, limit: nat)
    requires Filling(p, done, lead, limit) && |Strip(line)| <= limit
    ensures Filling(Packing(Emit(p.chunks, p.current), line), done + [lead + p.current], [], limit)
    ensures Join(done + [lead + p.current] + [[] + line]) == Join(done + [lead + p.current]) + BREAK + line
  {
    StripLead(lead, p.current);
    NonBlankAppend(done, lead + p.current);
    JoinAppend(done + [lead + p.current], line);
    assert [] + line == line;
  }

  lemma JoinGrows(done: seq<Text>, piece: Text, line: Text, grown: Text)
    requires grown == piece + BREAK + line
    ensures Join(done + [grown]) == Join(done + [piece]) + BREAK + line
  {
    JoinExtend(done, piece, BREAK + line);
    assert grown == piece + (BREAK + line);
    assert Join(done + [piece]) + (BREAK + line) == Join(done + [piece]) + BREAK + line;
  }

  lemma {:induction false} LineIsOneLine(line: Text)
    requires NEWLINE !in line
    ensures Lines(line) == [line]
    decreases |line|
  {
    if line != [] {
      var n := |line| - 1;
      LineIsOneLine(line[..n]);
      LinesNext(line[..n], line[n]);
      assert line[..n] + [line[n]] == line;
    }
  }

  /** A piece that grows keeps its first line. */
  lemma FilledGrows(done: seq<Text>, piece: Text, line: Text, limit: nat)
    requires Filled(done + [piece], limit)
    ensures Filled(done + [piece + BREAK + line], limit)
  {
    hide Closes, Lines;
    var before, after := done + [piece], done + [piece + BREAK + line];
    forall i, j | 0 <= i && j == i + 1 < |after| ensures Closes(after[i], after[j], limit) {
      assert Closes(before[i], before[j], limit) && after[i] == before[i];
      if j == |done| { StillCloses(after[i], piece, line, limit); }
    }
  }

  lemma StillCloses(before: Text, piece: Text, line: Text, limit: nat)
    requires Closes(before, piece, limit)
    ensures Closes(before, piece + BREAK + line, limit)
  {
    LinesConcat(piece, line);
  }

  lemma FilledOverflows(p: Packing, done: seq<Text>, lead: Text, line: Text, limit: nat)
    requires Filled(done + [lead + p.current], limit) && Blank(lead) && NEWLINE !in line
    requires |Strip(line)| <= limit < |Strip(Candidate(p.current, line))|
    ensures Filled(done + [lead + p.current] + [[] + line], limit)
  {
    hide Closes, Lines;
    var before := done + [lead + p.current];
    var after := before + [[] + line];
    LastCloses(p.current, lead, line, limit);
    assert [] + line == line;
    forall i, j | 0 <= i && j == i + 1 < |after| ensures Closes(after[i], after[j], limit) {
      if j < |before| { assert Closes(before[i], before[j], limit); }
    }
  }

  lemma LastCloses(current: Text, lead: Text, line: Text, limit: nat)
    requires Blank(lead) && NEWLINE !in line && |Strip(line)| <= limit < |Strip(Candidate(current, line))|
    ensures Closes(lead + current, line, limit)
  {
    LineIsOneLine(line);
    StripLead(lead, current + BREAK + line);
    assert lead + current + BREAK + line == lead + (current + BREAK + line);
  }

  lemma FilledNext(p: Packing, done: seq<Text>, lead: Text, line: Text, limit: nat)
    requires Filled(done + [lead + p.current], limit) && |Strip(Candidate(p.current, line))| <= limit
    ensures Filled(done + [(if p.current == [] then lead + BREAK else lead) + Candidate(p.current, line)], limit)
  {
    FilledGrows(done, lead + p.current, line, limit);
    var lead' := if p.current == [] then lead + BREAK else lead;
    assert lead' + Candidate(p.current, line) == lead + p.current + BREAK + line;
  }

  lemma FillNext(p: Packing, done: seq<Text>, lead: Text, line: Text, limit: nat) returns (done': seq<Text>, lead': Text)
    requires Filling(p, done, lead, limit) && |Strip(line)| <= limit && NEWLINE !in line
    requires Filled(done + [lead + p.current], limit)
    ensures var q := Add(p, line, limit);
      Filling(q, done', lead', limit) && Filled(done' + [lead' + q.current], limit)
      && Join(done' + [lead' + q.current]) == Join(done + [lead + p.current]) + BREAK + line
  {
    hide Filled;
    if |Strip(Candidate(p.current, line))| > limit {
      FillOverflow(p, done, lead, line, limit);
      FilledOverflows(p, done, lead, line, limit);
      done', lead' := done + [lead + p.current], [];
    } else {
      FilledNext(p, done, lead, line, limit);
      done', lead' := done, if p.current == [] then lead + BREAK else lead;
      assert lead' + Candidate(p.current, line) == lead + p.current + BREAK + line;
      JoinGrows(done, lead + p.current, line, lead' + Candidate(p.current, line));
      assert Blank(lead') by { BlankConcat(lead, BREAK); }
    }
  }

  lemma FillFirst(line: Text, limit: nat)
    requires |Strip(line)| <= limit
    ensures Pack([line], limit) == Packing([], line) && Filling(Packing([], line), [], [], limit)
    ensures Join([] + [[] + line]) == Join([line])
  {
    PackAppend([], line, limit);
    assert Pack([], limit) == Packing([], []) && [] + [line] == [line];
    assert [] + line == line;
  }

  lemma {:induction false} FillAll(lines: seq<Text>, limit: nat) returns (done: seq<Text>, lead: Text)
    requires lines != [] && LinesFit(lines, limit) && forall i :: 0 <= i < |lines| ==> NEWLINE !in lines[i]
    ensures Filling(Pack(lines, limit), done, lead, limit)
    ensures Filled(done + [lead + Pack(lines, limit).current], limit)
    ensures Join(done + [lead + Pack(lines, limit).current]) == Join(lines)
    decreases |lines|
  {
    var n := |lines| - 1;
    var front, last := lines[..n], lines[n];
    assert lines == front + [last];
    if n == 0 {
      done, lead := [], [];
      FillFirst(last, limit);
      assert lines == [last];
    } else {
      done, lead := FillAll(front, limit);
      PackAppend(front, last, limit);
      JoinAppend(front, last);
      done, lead := FillNext(Pack(front, limit), done, lead, last, limit);
    }
  }

  lemma GreedyIsASplit(text: Text, limit: nat) returns (pieces: seq<Text>)
    requires LinesFit(Lines(text), limit)
    ensures Split(pieces, text, limit) && Filled(pieces, limit) && NonBlankStrips(pieces) == Chunks(text, limit)
  {
    hide Lines, Strip;
    JoinLines(text);
    var done, lead := FillAll(Lines(text), limit);
    var current := Pack(Lines(text), limit).current;
    pieces := done + [lead + current];
    StripLead(lead, current);
    NonBlankAppend(done, lead + current);
  }

  // ---- No split is better ---------------------------------------------------

  ghost predicate Suffix(s: Text, t: Text) {
    |s| <= |t| && t[|t| - |s|..] == s
  }

  /** The greedy packing is no further than another split that ended `b` non-blank pieces and is filling `other`. */
  ghost predicate Ahead(p: Packing, b: nat, other: Text) {
    |p.chunks| < b || (|p.chunks| == b && Suffix(LStrip(p.current), LStrip(other)))
  }

  lemma SuffixIsShorter(s: Text, t: Text)
    requires Suffix(LStrip(s), LStrip(t))
    ensures |Strip(s)| <= |Strip(t)|
    ensures Blank(t) ==> Blank(s)
  {
    var u := LStrip(t)[..|LStrip(t)| - |LStrip(s)|];
    assert LStrip(t) == u + LStrip(s);
    SuffixStripsShorter(u, LStrip(s));
    LStripBlank(s);
    LStripBlank(t);
  }

  lemma BlankConcat(a: Text, b: Text)
    ensures Blank(a + b) <==> Blank(a) && Blank(b)
  {
    if Blank(a + b) {
      forall i | 0 <= i < |a| ensures Space(a[i]) { assert (a + b)[i] == a[i]; }
      forall i | 0 <= i < |b| ensures Space(b[i]) { assert (a + b)[|a| + i] == b[i]; }
    }
  }

  lemma LStripCandidate(current: Text, line: Text)
    ensures LStrip(Candidate(current, line)) == if Blank(current) then LStrip(line) else LStrip(current) + BREAK + line
    ensures LStrip(current + BREAK + line) == if Blank(current) then LStrip(line) else LStrip(current) + BREAK + line
  {
    LStripConcat(current + BREAK, line);
    LStripConcat(current, BREAK);
    assert Blank(BREAK) && LStrip(BREAK) == [] by { LStripBlank(BREAK); }
    BlankConcat(current, BREAK);
  }

  lemma LStripLine(front: Text, line: Text)
    ensures Suffix(LStrip(line), LStrip(front + BREAK + line))
  {
    LStripCandidate(front, line);
    LStripStarts(line);
  }

  lemma AheadOverflow(p: Packing, line: Text, limit: nat)
    requires |Strip(line)| <= limit && |Strip(Candidate(p.current, line))| > limit
    ensures Strip(p.current) != [] && |Add(p, line, limit).chunks| == |p.chunks| + 1 && Add(p, line, limit).current == line
  {
    LStripCandidate(p.current, line);
    var _, _ := StripSplits(p.current);
  }

  lemma CutStep(p: Packing, b: nat, other: Text, line: Text, limit: nat)
    requires Ahead(p, b, other) && |Strip(line)| <= limit
    ensures Ahead(Add(p, line, limit), b + |Emit([], other)|, line)
  {
    var _, _ := StripSplits(other);
    var q := Add(p, line, limit);
    if |Strip(Candidate(p.current, line))| > limit {
      AheadOverflow(p, line, limit);
      if |p.chunks| == b { SuffixIsShorter(p.current, other); var _, _ := StripSplits(p.current); }
    } else if |p.chunks| == b && Blank(other) {
      SuffixIsShorter(p.current, other);
      LStripCandidate(p.current, line);
    }
  }

  lemma ContinueStep(p: Packing, b: nat, other: Text, line: Text, limit: nat)
    requires Ahead(p, b, other) && |Strip(line)| <= limit && |Strip(other + BREAK + line)| <= limit
    ensures Ahead(Add(p, line, limit), b, other + BREAK + line)
  {
    var q := Add(p, line, limit);
    if |p.chunks| == b {
      StillSuffix(p.current, other, line);
      SuffixIsShorter(Candidate(p.current, line), other + BREAK + line);
    } else if |Strip(Candidate(p.current, line))| > limit {
      AheadOverflow(p, line, limit);
      LStripLine(other, line);
    }
  }

  lemma StillSuffix(current: Text, other: Text, line: Text)
    requires Suffix(LStrip(current), LStrip(other))
    ensures Suffix(LStrip(Candidate(current, line)), LStrip(other + BREAK + line))
  {
    hide Suffix, LStrip, Blank;
    if Blank(current) {
      BlankStillSuffix(current, other, line);
    } else {
      FilledStillSuffix(current, other, line);
    }
  }

  lemma BlankStillSuffix(current: Text, other: Text, line: Text)
    requires Blank(current) && Suffix(LStrip(current), LStrip(other))
    ensures Suffix(LStrip(Candidate(current, line)), LStrip(other + BREAK + line))
  {
    LStripCandidate(current, line);
    LStripCandidate(other, line);
    LStripLine(other, line);
  }

  lemma FilledStillSuffix(current: Text, other: Text, line: Text)
    requires !Blank(current) && Suffix(LStrip(current), LStrip(other))
    ensures Suffix(LStrip(Candidate(current, line)), LStrip(other + BREAK + line))
  {
    hide LStrip, Blank, Candidate, Suffix;
    LStripCandidate(current, line);
    LStripCandidate(other, line);
    SuffixIsShorter(current, other);
    SuffixGrows(LStrip(current), LStrip(other), line);
  }

  lemma SuffixGrows(s: Text, t: Text, line: Text)
    requires Suffix(s, t)
    ensures Suffix(s + BREAK + line, t + BREAK + line)
  {
    var u := t[..|t| - |s|];
    assert t == u + s;
    assert t + BREAK + line == u + (s + BREAK + line);
  }

  lemma PrefixIsShorter(a: Text, b: Text)
    ensures |Strip(a)| <= |Strip(a + b)|
  {
    LStripConcat(a, b);
    RStripConcat(LStrip(a), b);
    RStripEnds(LStrip(a));
    LStripBlank(a);
  }

  lemma JoinConcatNext(front: seq<Text>, behind: seq<Text>, last: Text)
    requires front != [] && behind != [] && Join(front + behind) == Join(front) + BREAK + Join(behind)
    ensures Join(front + (behind + [last])) == Join(front) + BREAK + Join(behind + [last])
  {
    hide Join;
    JoinAppend(front + behind, last);
    JoinAppend(behind, last);
    assert front + (behind + [last]) == front + behind + [last];
    assert Join(front) + BREAK + Join(behind) + BREAK + last == Join(front) + BREAK + (Join(behind) + BREAK + last);
  }

  lemma {:induction false} JoinConcat(front: seq<Text>, behind: seq<Text>)
    requires front != [] && behind != []
    ensures Join(front + behind) == Join(front) + BREAK + Join(behind)
    decreases |behind|
  {
    var n := |behind| - 1;
    if n == 0 {
      assert behind == [behind[0]];
      JoinAppend(front, behind[0]);
    } else {
      JoinConcat(front, behind[..n]);
      JoinConcatNext(front, behind[..n], behind[n]);
      assert behind == behind[..n] + [behind[n]];
    }
  }

  lemma LeadingPartIsShorter(front: seq<Text>, behind: seq<Text>)
    requires front != []
    ensures |Strip(Join(front))| <= |Strip(Join(front + behind))|
  {
    if behind == [] {
      assert front + behind == front;
    } else {
      JoinConcat(front, behind);
      PrefixIsShorter(Join(front), BREAK + Join(behind));
      assert Join(front) + (BREAK + Join(behind)) == Join(front + behind);
    }
  }

  lemma LastLineIsShorter(front: seq<Text>, line: Text)
    ensures |Strip(line)| <= |Strip(Join(front + [line]))|
  {
    JoinAppend(front, line);
    if front != [] {
      LStripLine(Join(front), line);
      SuffixIsShorter(line, Join(front) + BREAK + line);
    }
  }

  lemma PrefixFits(piece: Text, k: nat)
    requires 0 < k <= |Lines(piece)|
    ensures |Strip(Join(Lines(piece)[..k]))| <= |Strip(piece)|
    ensures |Strip(Lines(piece)[k - 1])| <= |Strip(piece)|
  {
    hide Strip, Lines, Join;
    JoinLines(piece);
    var lines := Lines(piece);
    LeadingPartIsShorter(lines[..k], lines[k..]);
    assert lines == lines[..k] + lines[k..];
    LastLineIsShorter(lines[..k - 1], lines[k - 1]);
    assert lines[..k] == lines[..k - 1] + [lines[k - 1]];
  }

  lemma PackAppend(lines: seq<Text>, line: Text, limit: nat)
    ensures Pack(lines + [line], limit) == Add(Pack(lines, limit), line, limit)
  {
    assert (lines + [line])[..|lines|] == lines;
  }

  /** Where the two packings stand after `k` lines of a piece. */
  ghost predicate AheadWithin(before: seq<Text>, b: nat, lines: seq<Text>, limit: nat) {
    Ahead(Pack(before + lines, limit), b, Join(lines))
  }

  lemma WithinPieceNext(before: seq<Text>, b: nat, lines: seq<Text>, line: Text, limit: nat)
    requires lines != [] && AheadWithin(before, b, lines, limit)
    requires |Strip(line)| <= limit && |Strip(Join(lines + [line]))| <= limit
    ensures AheadWithin(before, b, lines + [line], limit)
  {
    assert before + (lines + [line]) == before + lines + [line];
    PackAppend(before + lines, line, limit);
    JoinAppend(lines, line);
    ContinueStep(Pack(before + lines, limit), b, Join(lines), line, limit);
  }

  lemma FirstWithin(before: seq<Text>, b: nat, other: Text, line: Text, limit: nat)
    requires Ahead(Pack(before, limit), b, other) && |Strip(line)| <= limit
    ensures AheadWithin(before, b + |Emit([], other)|, [line], limit)
  {
    PackAppend(before, line, limit);
    CutStep(Pack(before, limit), b, other, line, limit);
    assert [line][..0] == [];
  }

  lemma {:induction false} WithinPiece(before: seq<Text>, b: nat, other: Text, piece: Text, k: nat, limit: nat)
    requires Ahead(Pack(before, limit), b, other) && |Strip(piece)| <= limit && 0 < k <= |Lines(piece)|
    ensures AheadWithin(before, b + |Emit([], other)|, Lines(piece)[..k], limit)
    decreases k
  {
    hide Strip, Lines, Join, Pack, Ahead, AheadWithin, Emit;
    var lines := Lines(piece);
    PrefixFits(piece, k);
    assert lines[..k] == lines[..k - 1] + [lines[k - 1]];
    if k == 1 {
      assert lines[..1] == [lines[0]];
      FirstWithin(before, b, other, lines[0], limit);
    } else {
      WithinPiece(before, b, other, piece, k - 1, limit);
      WithinPieceNext(before, b + |Emit([], other)|, lines[..k - 1], lines[k - 1], limit);
    }
  }

  lemma WholePiece(before: seq<Text>, b: nat, other: Text, piece: Text, limit: nat)
    requires Ahead(Pack(before, limit), b, other) && |Strip(piece)| <= limit
    ensures Ahead(Pack(before + Lines(piece), limit), b + |Emit([], other)|, piece)
  {
    WithinPiece(before, b, other, piece, |Lines(piece)|, limit);
    assert Lines(piece)[..|Lines(piece)|] == Lines(piece);
    JoinLines(piece);
  }

  lemma {:induction false} AheadOfSplit(pieces: seq<Text>, text: Text, limit: nat)
    requires Split(pieces, text, limit)
    ensures Ahead(Pack(Lines(text), limit), |NonBlankStrips(pieces[..|pieces| - 1])|, pieces[|pieces| - 1])
    decreases |pieces|
  {
    var n := |pieces| - 1;
    if n == 0 {
      assert Pack([], limit) == Packing([], []);
      WholePiece([], 0, [], pieces[0], limit);
      assert [] + Lines(text) == Lines(text);
      assert pieces[..0] == [];
    } else {
      var front, last := pieces[..n], pieces[n];
      AheadOfSplit(front, Join(front), limit);
      WholePiece(Lines(Join(front)), |NonBlankStrips(front[..n - 1])|, front[n - 1], last, limit);
      LinesConcat(Join(front), last);
      assert |NonBlankStrips(front)| == |NonBlankStrips(front[..n - 1])| + |Emit([], front[n - 1])|;
    }
  }

  lemma LastPieceCounts(p: Packing, b: nat, other: Text)
    requires Ahead(p, b, other)
    ensures |Emit(p.chunks, p.current)| <= b + |Emit([], other)|
  {
    if |p.chunks| == b {
      SuffixIsShorter(p.current, other);
      var _, _ := StripSplits(p.current);
      var _, _ := StripSplits(other);
    }
  }

  /** No other split at line boundaries within the limit has fewer non-blank pieces. */
  lemma GreedyIsOptimal(text: Text, pieces: seq<Text>, limit: nat)
    requires Split(pieces, text, limit)
    ensures |Chunks(text, limit)| <= |NonBlankStrips(pieces)|
  {
    var n := |pieces| - 1;
    AheadOfSplit(pieces, text, limit);
    LastPieceCounts(Pack(Lines(text), limit), |NonBlankStrips(pieces[..n])|, pieces[n]);
  }

  lemma {:induction false} PieceFitsLines(piece: Text, k: nat, limit: nat)
    requires |Strip(piece)| <= limit && k <= |Lines(piece)|
    ensures LinesFit(Lines(piece)[..k], limit)
    decreases k
  {
    if k > 0 {
      PieceFitsLines(piece, k - 1, limit);
      PrefixFits(piece, k);
      FitNext(Lines(piece), k - 1, limit);
    }
  }

  lemma {:induction false} SplitFitsLines(pieces: seq<Text>, text: Text, limit: nat)
    requires Split(pieces, text, limit)
    ensures LinesFit(Lines(text), limit)
    decreases |pieces|
  {
    var n := |pieces| - 1;
    var last := pieces[n];
    PieceFitsLines(last, |Lines(last)|, limit);
    assert Lines(last)[..|Lines(last)|] == Lines(last);
    if n > 0 {
      SplitFitsLines(pieces[..n], Join(pieces[..n]), limit);
      LinesConcat(Join(pieces[..n]), last);
      FitConcat(Lines(Join(pieces[..n])), Lines(last), limit);
    }
  }

  /** The loop succeeds exactly when some split fits the limit. */
  lemma SucceedsExactly(text: Text, limit: nat)
    ensures LinesFit(Lines(text), limit) <==> exists pieces :: Split(pieces, text, limit)
  {
    if LinesFit(Lines(text), limit) {
      var pieces := GreedyIsASplit(text, limit);
    }
    forall pieces | Split(pieces, text, limit) ensures LinesFit(Lines(text), limit) {
      SplitFitsLines(pieces, text, limit);
    }
  }

  // ---- No content is lost ---------------------------------------------------

  function Weave(gaps: seq<Text>, chunks: seq<Text>): Text
    requires |gaps| == |chunks| + 1
  {
    var n := |chunks|;
    if n == 0 then gaps[0] else Weave(gaps[..n], chunks[..n - 1]) + chunks[n - 1] + gaps[n]
  }

  ghost predicate Trimmed(chunk: Text, limit: nat) {
    0 < |chunk| <= limit && !Space(chunk[0]) && !Space(chunk[|chunk| - 1])
  }

  /** The text is the chunks in order, with only white space around them and a line break in every inner gap. */
  ghost predicate Woven(text: Text, chunks: seq<Text>, gaps: seq<Text>, limit: nat) {
    && |gaps| == |chunks| + 1 && text == Weave(gaps, chunks)
    && (forall i :: 0 <= i < |gaps| ==> Blank(gaps[i]))
    && (forall i :: 0 < i < |chunks| ==> NEWLINE in gaps[i])
    && (forall i :: 0 <= i < |chunks| ==> Trimmed(chunks[i], limit))
  }

  lemma WeaveGap(gaps: seq<Text>, chunks: seq<Text>, more: Text)
    requires |gaps| == |chunks| + 1
    ensures Weave(gaps[|chunks| := gaps[|chunks|] + more], chunks) == Weave(gaps, chunks) + more
  {
    var n := |chunks|;
    assert gaps[n := gaps[n] + more][..n] == gaps[..n];
  }

  lemma WeaveChunk(gaps: seq<Text>, chunks: seq<Text>, chunk: Text, gap: Text)
    requires |gaps| == |chunks| + 1
    ensures Weave(gaps + [gap], chunks + [chunk]) == Weave(gaps, chunks) + chunk + gap
  {
    var n := |chunks| + 1;
    assert (gaps + [gap])[..n] == gaps && (chunks + [chunk])[..n - 1] == chunks;
  }

  lemma WovenGap(text: Text, chunks: seq<Text>, gaps: seq<Text>, more: Text, limit: nat) returns (after: seq<Text>)
    requires Woven(text, chunks, gaps, limit) && Blank(more)
    ensures Woven(text + more, chunks, after, limit)
    ensures NEWLINE in gaps[|chunks|] || NEWLINE in more ==> NEWLINE in after[|chunks|]
  {
    var n := |chunks|;
    after := gaps[n := gaps[n] + more];
    WeaveGap(gaps, chunks, more);
    BlankConcat(gaps[n], more);
  }

  lemma WovenChunk(text: Text, chunks: seq<Text>, gaps: seq<Text>, chunk: Text, gap: Text, limit: nat)
    requires Woven(text, chunks, gaps, limit) && Trimmed(chunk, limit) && Blank(gap)
    requires chunks == [] || NEWLINE in gaps[|chunks|]
    ensures Woven(text + chunk + gap, chunks + [chunk], gaps + [gap], limit)
  {
    WeaveChunk(gaps, chunks, chunk, gap);
  }

  lemma WovenPiece(text: Text, chunks: seq<Text>, gaps: seq<Text>, piece: Text, limit: nat) returns (after: seq<Text>)
    requires Woven(text, chunks, gaps, limit) && |Strip(piece)| <= limit
    requires chunks == [] || NEWLINE in gaps[|chunks|]
    ensures Woven(text + piece, Emit(chunks, piece), after, limit)
  {
    var lead, trail := StripSplits(piece);
    if Strip(piece) == [] {
      after := WovenGap(text, chunks, gaps, piece, limit);
    } else {
      var mid := WovenGap(text, chunks, gaps, lead, limit);
      WovenChunk(text + lead, chunks, mid, Strip(piece), trail, limit);
      after := mid + [trail];
      assert text + lead + Strip(piece) + trail == text + piece;
    }
  }

  lemma {:induction false} SplitIsWoven(pieces: seq<Text>, text: Text, limit: nat) returns (gaps: seq<Text>)
    requires Split(pieces, text, limit)
    ensures Woven(text, NonBlankStrips(pieces), gaps, limit)
    decreases |pieces|
  {
    var n := |pieces| - 1;
    if n == 0 {
      assert pieces[..0] == [];
      gaps := WovenPiece([], [], [[]], pieces[0], limit);
      assert [] + pieces[0] == pieces[0];
    } else {
      var front := pieces[..n];
      gaps := SplitIsWoven(front, Join(front), limit);
      gaps := WovenGap(Join(front), NonBlankStrips(front), gaps, BREAK, limit);
      gaps := WovenPiece(Join(front) + BREAK, NonBlankStrips(front), gaps, pieces[n], limit);
    }
  }

  lemma NothingIsLost(text: Text, limit: nat) returns (gaps: seq<Text>)
    requires LinesFit(Lines(text), limit)
    ensures Woven(text, Chunks(text, limit), gaps, limit)
  {
    var pieces := GreedyIsASplit(text, limit);
    gaps := SplitIsWoven(pieces, text, limit);
  }
}
