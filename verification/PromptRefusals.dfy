/**
  When building the prompt sections is refused, and how
  (runtime/hermes/enterprise_bridge/runtime_policy.py:437-484), said by what is
  wrong with the skills and by counting characters.
 */
module PromptRefusals {
  import opened Wrappers
  import opened PromptSplit
  import opened PromptSections
  import opened Texts
  import opened Decimals
  import Utf8

  // ---- What is wrong with one skill -------------------------------------------

  ghost predicate Reviewed(shelf: Shelf, m: Manifest) {
    && m.name in shelf.packages
    && shelf.packages[m.name].version == m.version && shelf.packages[m.name].artifactDigest == m.artifactDigest
  }

  /** The reviewed package's file reads as these bytes. */
  ghost predicate Stored(shelf: Shelf, m: Manifest, bytes: Utf8.Bytes) {
    Reviewed(shelf, m) && shelf.packages[m.name].file == Some(bytes)
  }

  ghost predicate Pinned(shelf: Shelf, m: Manifest, bytes: Utf8.Bytes) {
    Stored(shelf, m, bytes) && shelf.sha256(bytes) == shelf.packages[m.name].contentDigest
  }

  ghost predicate Encodes(bytes: Utf8.Bytes, text: Text) {
    Utf8.Scalars(text) && Utf8.Encode(text) == bytes
  }

  ghost predicate InPieces(text: Text, before: Text, part: Text, after: Text) {
    text == before + (part + after)
  }

  /** The part stands somewhere in the text, its two ends included. */
  ghost predicate Within(part: Text, text: Text) {
    exists before, after :: InPieces(text, before, part, after)
  }

  lemma ContainsExactly(text: Text, part: Text)
    ensures Contains(text, part) <==> Within(part, text)
  {
    if k :| 0 <= k <= |text| && StandsAt(text, k, part) {
      StandingIsWithin(text, k, part);
    }
    if before, after :| InPieces(text, before, part, after) {
      assert text[|before|..|before| + |part|] == part;
      assert StandsAt(text, |before|, part);
    }
  }

  lemma StandingIsWithin(text: Text, k: nat, part: Text)
    requires StandsAt(text, k, part)
    ensures Within(part, text)
  {
    var before, after := text[..k], text[k + |part|..];
    assert text[k..] == part + after by { assert text[k..k + |part|] == part; }
    assert text == before + text[k..];
    assert InPieces(text, before, part, after);
  }

  ghost predicate Marked(text: Text) {
    || Within(Codes("<!-- hermes-plugin-sections:start -->"), text)
    || Within(Codes("<!-- hermes-plugin-sections:end -->"), text)
  }

  lemma MarkedExactly(text: Text)
    ensures Marked(text) <==> Contains(text, SECTIONS_START) || Contains(text, SECTIONS_END)
  {
    hide Contains;
    ContainsExactly(text, SECTIONS_START);
    ContainsExactly(text, SECTIONS_END);
  }

  /** The text of a skill with nothing wrong about its package. */
  ghost predicate Sound(shelf: Shelf, m: Manifest, text: Text) {
    Pinned(shelf, m, Utf8.Encode(text)) && Utf8.Scalars(text) && !Marked(text)
  }

  lemma DecodeFinds(bytes: Utf8.Bytes)
    ensures DecodeStrict(bytes).None? <==> forall text :: !Encodes(bytes, text)
    ensures forall text :: Encodes(bytes, text) <==> DecodeStrict(bytes) == Some(text)
  {
    forall text | Encodes(bytes, text) ensures DecodeStrict(bytes) == Some(text) { DecodesEveryText(text); }
    if DecodeStrict(bytes).Some? { assert Encodes(bytes, DecodeStrict(bytes).value); }
  }

  lemma TextOfPinned(shelf: Shelf, m: Manifest, bytes: Utf8.Bytes)
    requires Pinned(shelf, m, bytes)
    ensures SkillText(shelf, m) == Err(NotUtf8(m.name)) <==> forall text :: !Encodes(bytes, text)
    ensures SkillText(shelf, m) == Err(Reserved(m.name)) <==> exists text :: Encodes(bytes, text) && Marked(text)
    ensures forall text :: SkillText(shelf, m) == Ok(text) <==> Encodes(bytes, text) && !Marked(text)
    ensures SkillText(shelf, m).Err? ==> SkillText(shelf, m).error in {NotUtf8(m.name), Reserved(m.name)}
  {
    hide DecodeStrict, Contains, Marked;
    DecodeFinds(bytes);
    if DecodeStrict(bytes).Some? {
      assert Encodes(bytes, DecodeStrict(bytes).value);
      MarkedExactly(DecodeStrict(bytes).value);
    }
  }

  /** Which package trouble is reported, and the text when there is none. */
  lemma PackageExactly(shelf: Shelf, m: Manifest)
    ensures SkillText(shelf, m) == Err(NotReviewed(m.name)) <==> !Reviewed(shelf, m)
    ensures SkillText(shelf, m) == Err(Unavailable(m.name)) <==> Reviewed(shelf, m) && forall b :: !Stored(shelf, m, b)
    ensures SkillText(shelf, m) == Err(Changed(m.name)) <==> exists b :: Stored(shelf, m, b) && !Pinned(shelf, m, b)
    ensures SkillText(shelf, m) == Err(NotUtf8(m.name)) <==>
      exists b :: Pinned(shelf, m, b) && forall text :: !Encodes(b, text)
    ensures SkillText(shelf, m) == Err(Reserved(m.name)) <==>
      exists b, text :: Pinned(shelf, m, b) && Encodes(b, text) && Marked(text)
    ensures forall text :: SkillText(shelf, m) == Ok(text) <==> Sound(shelf, m, text)
  {
    hide DecodeStrict, Contains, Marked, Encodes;
    if b :| Pinned(shelf, m, b) {
      TextOfPinned(shelf, m, b);
      forall text ensures Sound(shelf, m, text) <==> Encodes(b, text) && !Marked(text) { SoundIs(shelf, m, b, text); }
    } else if Reviewed(shelf, m) && shelf.packages[m.name].file.Some? {
      assert Stored(shelf, m, shelf.packages[m.name].file.value);
    }
  }

  lemma SoundIs(shelf: Shelf, m: Manifest, bytes: Utf8.Bytes, text: Text)
    requires Pinned(shelf, m, bytes)
    ensures Sound(shelf, m, text) <==> Encodes(bytes, text) && !Marked(text)
  {}

  // ---- What is wrong with its text --------------------------------------------

  lemma {:induction false} BlankStrips(pieces: seq<Text>)
    ensures NonBlankStrips(pieces) == [] <==> Blank(Join(pieces))
    decreases |pieces|
  {
    if pieces != [] {
      var n := |pieces| - 1;
      BlankStrips(pieces[..n]);
      var _, _ := StripSplits(pieces[n]);
      assert pieces == pieces[..n] + [pieces[n]];
      JoinAppend(pieces[..n], pieces[n]);
      BlankJoin(Join(pieces[..n]), pieces[n]);
      assert n == 0 ==> pieces[..n] == [];
    }
  }

  lemma BlankJoin(front: Text, last: Text)
    ensures Blank(front + BREAK + last) <==> Blank(front) && Blank(last)
  {
    BlankConcat(front + BREAK, last);
    BlankConcat(front, BREAK);
  }

  /** A skill is empty exactly when its text is all white space. */
  lemma NoChunksExactly(text: Text, limit: nat)
    requires LinesFit(Lines(text), limit)
    ensures Chunks(text, limit) == [] <==> Blank(text)
  {
    hide Lines, Blank, NonBlankStrips;
    var pieces := GreedyIsASplit(text, limit);
    BlankStrips(pieces);
  }

  lemma {:induction false} FitExactly(lines: seq<Text>, limit: nat)
    ensures LinesFit(lines, limit) <==> forall i :: 0 <= i < |lines| ==> |Strip(lines[i])| <= limit
    decreases |lines|
  {
    hide Strip;
    if lines != [] {
      var n := |lines| - 1;
      FitExactly(lines[..n], limit);
      assert forall i :: 0 <= i < n ==> lines[..n][i] == lines[i];
    }
  }

  ghost predicate HasLongLine(text: Text) {
    exists i :: 0 <= i < |Lines(text)| && |Strip(Lines(text)[i])| > 4000
  }

  /** What comes of one skill: its package's trouble, a line above 4000 characters, no text at all, or its chunks. */
  lemma SkillExactly(shelf: Shelf, m: Manifest)
    ensures SkillText(shelf, m).Err? ==> SkillChunks(shelf, m) == Err(SkillText(shelf, m).error)
    ensures SkillChunks(shelf, m) == Err(LineTooLong) <==> exists text :: Sound(shelf, m, text) && HasLongLine(text)
    ensures SkillChunks(shelf, m) == Err(EmptySkill(m.name)) <==>
      exists text :: Sound(shelf, m, text) && !HasLongLine(text) && Blank(text)
    ensures SkillChunks(shelf, m).Ok? <==> exists text :: Sound(shelf, m, text) && !HasLongLine(text) && !Blank(text)
  {
    hide Sound, HasLongLine, Blank, SkillText, Lines, Chunks;
    PackageExactly(shelf, m);
    if SkillText(shelf, m).Ok? {
      var text := SkillText(shelf, m).value;
      assert Sound(shelf, m, text);
      OneSkill(shelf, m, text);
    } else {
      PackageTrouble(shelf, m);
    }
  }

  lemma PackageTrouble(shelf: Shelf, m: Manifest)
    requires SkillText(shelf, m).Err?
    ensures SkillText(shelf, m).error != LineTooLong && SkillText(shelf, m).error != EmptySkill(m.name)
  {}

  lemma OneSkill(shelf: Shelf, m: Manifest, text: Text)
    requires SkillText(shelf, m) == Ok(text)
    ensures SkillChunks(shelf, m) == Err(LineTooLong) <==> HasLongLine(text)
    ensures SkillChunks(shelf, m) == Err(EmptySkill(m.name)) <==> !HasLongLine(text) && Blank(text)
    ensures SkillChunks(shelf, m).Ok? <==> !HasLongLine(text) && !Blank(text)
  {
    hide Blank, SkillText, Lines, Chunks;
    FitExactly(Lines(text), 4000);
    if LinesFit(Lines(text), 4000) { NoChunksExactly(text, 4000); }
  }

  // ---- The first trouble is the one reported ------------------------------------

  /** The skill at `i` is refused and those before it are not. */
  ghost predicate FirstRefused(shelf: Shelf, manifests: seq<Manifest>, i: int) {
    && 0 <= i < |manifests| && SkillChunks(shelf, manifests[i]).Err?
    && forall j :: 0 <= j < i ==> SkillChunks(shelf, manifests[j]).Ok?
  }

  lemma {:induction false} FirstIsReported(shelf: Shelf, manifests: seq<Manifest>)
    ensures AllChunks(shelf, manifests).Ok? <==> forall i :: 0 <= i < |manifests| ==> SkillChunks(shelf, manifests[i]).Ok?
    ensures forall i :: FirstRefused(shelf, manifests, i) ==>
      AllChunks(shelf, manifests) == Err(SkillChunks(shelf, manifests[i]).error)
    decreases |manifests|
  {
    hide SkillChunks;
    if manifests != [] {
      var n := |manifests| - 1;
      FirstIsReported(shelf, manifests[..n]);
      assert forall i :: 0 <= i < n ==> manifests[..n][i] == manifests[i];
      forall i | FirstRefused(shelf, manifests, i)
        ensures AllChunks(shelf, manifests) == Err(SkillChunks(shelf, manifests[i]).error) {
        if i < n { assert FirstRefused(shelf, manifests[..n], i); }
      }
    }
  }

  // ---- Counting characters ------------------------------------------------------

  /** Characters of a number below 10000. */
  function Places(n: nat): nat {
    if n < 10 then 1 else if n < 100 then 2 else if n < 1000 then 3 else 4
  }

  /** A section costs 78 characters, its length's digits and its text; two more separate it from the next. */
  function Costs(lengths: seq<nat>): nat {
    if lengths == [] then 0
    else
      var n := |lengths| - 1;
      Costs(lengths[..n]) + (if n == 0 then 0 else 2) + 78 + Places(lengths[n]) + lengths[n]
  }

  function Lengths(texts: seq<Text>): (lengths: seq<nat>)
    ensures |lengths| == |texts| && forall i :: 0 <= i < |texts| ==> lengths[i] == |texts[i]|
  {
    seq(|texts|, i requires 0 <= i < |texts| => |texts[i]|)
  }

  lemma {:induction false} SpelledLength(ds: seq<Digit>)
    ensures |TextDigits(ds)| == |ds|
    decreases |ds|
  {
    if ds != [] { SpelledLength(ds[..|ds| - 1]); }
  }

  lemma PlacesOf(n: nat)
    requires n < 10000
    ensures |TextDigits(DigitsOf(n))| == Places(n)
  {
    SpelledLength(DigitsOf(n));
    if n >= 10 { TensOf(n); }
    if n >= 100 { TensOf(n / 10); }
    if n >= 1000 { TensOf(n / 100); assert n / 10 / 10 == n / 100; }
  }

  lemma TensOf(n: nat)
    requires n >= 10
    ensures |DigitsOf(n)| == |DigitsOf(n / 10)| + 1
    ensures n < 100 ==> |DigitsOf(n / 10)| == 1
  {}

  lemma OneBlock(section: Section)
    requires |section.id| == 19 && |section.text| < 10000
    ensures |Block(section)| == 78 + Places(|section.text|) + |section.text|
  {
    PlacesOf(|section.text|);
  }

  lemma {:induction false} BlocksLength(sections: seq<Section>, lengths: seq<nat>)
    requires |lengths| == |sections|
    requires forall i :: 0 <= i < |sections| ==> |sections[i].id| == 19 && lengths[i] == |sections[i].text| < 10000
    ensures |Blocks(sections)| == Costs(lengths)
    decreases |sections|
  {
    hide Block, Places;
    if sections != [] {
      var n := |sections| - 1;
      BlocksLength(sections[..n], lengths[..n]);
      OneBlock(sections[n]);
    }
  }

  lemma IdLength(index: nat)
    requires 0 < index <= 99
    ensures SectionId(index) == Codes("enterprise-skill.") + [48 + index / 10, 48 + index % 10] && |SectionId(index)| == 19
  {
    TwoDigits(index);
  }

  lemma RenderedLength(texts: seq<Text>)
    requires |texts| <= 99 && forall i :: 0 <= i < |texts| ==> |texts[i]| < 10000
    ensures |Rendered(Number(texts))| == 74 + Costs(Lengths(texts))
  {
    hide SectionId, Blocks, Costs;
    forall k: nat | 0 < k <= |texts| ensures |SectionId(k)| == 19 { IdLength(k); }
    BlocksLength(Number(texts), Lengths(texts));
  }

  ghost predicate Short(texts: seq<Text>) {
    forall i :: 0 <= i < |texts| ==> |texts[i]| <= 4000
  }

  lemma ChunksAreShort(shelf: Shelf, m: Manifest)
    requires SkillChunks(shelf, m).Ok?
    ensures Short(SkillChunks(shelf, m).value)
  {
    var text, gaps := SkillDelivers(shelf, m);
    var chunks := SkillChunks(shelf, m).value;
    forall i | 0 <= i < |chunks| ensures |chunks[i]| <= 4000 { assert Trimmed(chunks[i], SECTION_MAX_CHARS); }
  }

  lemma {:induction false} AllAreShort(shelf: Shelf, manifests: seq<Manifest>)
    requires AllChunks(shelf, manifests).Ok?
    ensures Short(AllChunks(shelf, manifests).value)
    decreases |manifests|
  {
    hide SkillChunks;
    if manifests != [] {
      AllAreShort(shelf, manifests[..|manifests| - 1]);
      ChunksAreShort(shelf, manifests[|manifests| - 1]);
    }
  }

  /**
    The first refused skill decides; without one it is refused exactly for more
    than 99 chunks, or else for more than 8000 characters once framed.
   */
  lemma RefusesExactly(shelf: Shelf, manifests: seq<Manifest>)
    ensures forall i :: FirstRefused(shelf, manifests, i) ==>
      Sections(shelf, manifests) == Err(SkillChunks(shelf, manifests[i]).error)
    ensures (forall i :: 0 <= i < |manifests| ==> SkillChunks(shelf, manifests[i]).Ok?) ==>
      && AllChunks(shelf, manifests).Ok?
      && var texts := AllChunks(shelf, manifests).value;
      && (Sections(shelf, manifests) == Err(TooManySections) <==> |texts| > 99)
      && (Sections(shelf, manifests) == Err(OverBudget) <==> |texts| <= 99 && 74 + Costs(Lengths(texts)) > 8000)
      && (Sections(shelf, manifests).Ok? <==> |texts| <= 99 && 74 + Costs(Lengths(texts)) <= 8000)
  {
    hide SkillChunks, Costs, Rendered, Number;
    FirstIsReported(shelf, manifests);
    if AllChunks(shelf, manifests).Ok? {
      var texts := AllChunks(shelf, manifests).value;
      AllAreShort(shelf, manifests);
      if |texts| <= 99 { RenderedLength(texts); }
    }
  }
}
