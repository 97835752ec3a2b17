/**
  Prompt sections from the assigned skills
  (runtime/hermes/enterprise_bridge/runtime_policy.py:28-39, 437-484): each
  skill's verified bytes, split and numbered within the native budget.
 */
module PromptSections {
  import opened Wrappers
  import opened PromptSplit
  import opened Texts
  import opened Decimals
  import Ordering
  import Utf8

  datatype Manifest = Manifest(name: Text, version: Text, artifactDigest: Text)

  /** `file` is what the package's path reads as: nothing for a symlink or anything but a regular file. */
  datatype Package = Package(version: Text, artifactDigest: Text, contentDigest: Text, file: Option<Utf8.Bytes>)

  datatype Section = Section(id: Text, text: Text)

  datatype Refusal =
    | NotReviewed(name: Text) | Unavailable(name: Text) | Changed(name: Text) | NotUtf8(name: Text)
    | Reserved(name: Text) | LineTooLong | EmptySkill(name: Text) | TooManySections | OverBudget

  /** The skills installed, and the digest they are pinned by. */
  datatype Shelf = Shelf(packages: map<Text, Package>, sha256: Utf8.Bytes -> Text)

  const SECTION_MAX_CHARS := 4000
  const TOTAL_CHARS := 8000
  const MAX_SECTIONS := 99

  const SECTIONS_START := Codes("<!-- hermes-plugin-sections:start -->")
  const SECTIONS_END := Codes("<!-- hermes-plugin-sections:end -->")
  const ID_PREFIX := Codes("enterprise-skill.")

  predicate Contains(text: Text, part: Text) {
    exists k :: 0 <= k <= |text| && StandsAt(text, k, part)
  }

  predicate StandsAt(text: Text, k: nat, part: Text) {
    k + |part| <= |text| && text[k..k + |part|] == part
  }

  /** Strict UTF-8: bytes are text only if encoding the text gives them back. */
  function DecodeStrict(bytes: Utf8.Bytes): (text: Option<Text>)
    ensures text.Some? ==> Utf8.Encode(text.value) == bytes && Utf8.Scalars(text.value)
  {
    var text := Utf8.Decode(bytes);
    if (forall i :: 0 <= i < |text| ==> Utf8.Scalar(text[i])) && Utf8.Encode(text) == bytes then Some(text) else None
  }

  lemma DecodesEveryText(text: Text)
    requires Utf8.Scalars(text)
    ensures DecodeStrict(Utf8.Encode(text)) == Some(text)
  {
    Utf8.Utf8RoundTrip(text);
  }

  // ---- One skill ------------------------------------------------------------

  function SkillText(shelf: Shelf, m: Manifest): Result<Text, Refusal> {
    if m.name !in shelf.packages then Err(NotReviewed(m.name))
    else
      var p := shelf.packages[m.name];
      if p.version != m.version || p.artifactDigest != m.artifactDigest then Err(NotReviewed(m.name))
      else if p.file.None? then Err(Unavailable(m.name))
      else if shelf.sha256(p.file.value) != p.contentDigest then Err(Changed(m.name))
      else
        var text := DecodeStrict(p.file.value);
        if text.None? then Err(NotUtf8(m.name))
        else if Contains(text.value, SECTIONS_START) || Contains(text.value, SECTIONS_END) then Err(Reserved(m.name))
        else Ok(text.value)
  }

  function SkillChunks(shelf: Shelf, m: Manifest): Result<seq<Text>, Refusal> {
    var text := SkillText(shelf, m);
    if text.Err? then Err(text.error)
    else if !LinesFit(Lines(text.value), SECTION_MAX_CHARS) then Err(LineTooLong)
    else if Chunks(text.value, SECTION_MAX_CHARS) == [] then Err(EmptySkill(m.name))
    else Ok(Chunks(text.value, SECTION_MAX_CHARS))
  }

  /** The chunks of all skills in manifest order, or the first refusal. */
  function AllChunks(shelf: Shelf, manifests: seq<Manifest>): Result<seq<Text>, Refusal> {
    if manifests == [] then Ok([])
    else
      var n := |manifests| - 1;
      var front := AllChunks(shelf, manifests[..n]);
      if front.Err? then front
      else
        var last := SkillChunks(shelf, manifests[n]);
        if last.Err? then last else Ok(front.value + last.value)
  }

  // ---- Numbering and framing ------------------------------------------------

  function TextDigits(ds: seq<Digit>): Text {
    if ds == [] then []
    else
      var last: int := ds[|ds| - 1];
      TextDigits(ds[..|ds| - 1]) + [48 + last]
  }

  /** At least two digits. */
  function SectionId(index: nat): Text {
    ID_PREFIX + (if index < 10 then [48] else []) + TextDigits(DigitsOf(index))
  }

  function Number(texts: seq<Text>): (sections: seq<Section>)
    ensures |sections| == |texts|
    ensures forall i :: 0 <= i < |texts| ==> sections[i] == Section(SectionId(i + 1), texts[i])
  {
    seq(|texts|, i requires 0 <= i < |texts| => Section(SectionId(i + 1), texts[i]))
  }

  function Block(s: Section): Text {
    Codes("## Plugin Context: ") + s.id + [10] + Codes("<!-- hermes-plugin-section-chars:") + TextDigits(DigitsOf(|s.text|))
    + Codes(" -->") + [10, 10] + s.text
  }

  function Blocks(sections: seq<Section>): Text {
    if sections == [] then []
    else if |sections| == 1 then Block(sections[0])
    else Blocks(sections[..|sections| - 1]) + [10, 10] + Block(sections[|sections| - 1])
  }

  function Rendered(sections: seq<Section>): Text {
    SECTIONS_START + [10] + Blocks(sections) + [10] + SECTIONS_END
  }

  function Sections(shelf: Shelf, manifests: seq<Manifest>): Result<seq<Section>, Refusal> {
    var texts := AllChunks(shelf, manifests);
    if texts.Err? then Err(texts.error)
    else if |texts.value| > MAX_SECTIONS then Err(TooManySections)
    else if |Rendered(Number(texts.value))| > TOTAL_CHARS then Err(OverBudget)
    else Ok(Number(texts.value))
  }

  method BuildSkillPromptSections(shelf: Shelf, manifests: seq<Manifest>) returns (r: Result<seq<Section>, Refusal>)
    ensures r == Sections(shelf, manifests)
  {
    var texts: seq<Text> := [];
    for i := 0 to |manifests|
      invariant AllChunks(shelf, manifests[..i]) == Ok(texts)
    {
      AllChunksNext(shelf, manifests, i);
      var text := SkillText(shelf, manifests[i]);
      if text.Err? { return Err(text.error); }
      var chunks := ContinuationChunks(text.value, SECTION_MAX_CHARS);
      if chunks.Err? { return Err(LineTooLong); }
      if chunks.value == [] { return Err(EmptySkill(manifests[i].name)); }
      texts := texts + chunks.value;
    }
    assert manifests[..|manifests|] == manifests;
    if |texts| > MAX_SECTIONS { return Err(TooManySections); }
    var sections := Number(texts);
    if |Rendered(sections)| > TOTAL_CHARS { return Err(OverBudget); }
    return Ok(sections);
  }

  lemma AllChunksNext(shelf: Shelf, manifests: seq<Manifest>, i: nat)
    requires i < |manifests| && AllChunks(shelf, manifests[..i]).Ok?
    ensures var last := SkillChunks(shelf, manifests[i]);
      (last.Ok? ==> AllChunks(shelf, manifests[..i + 1]) == Ok(AllChunks(shelf, manifests[..i]).value + last.value))
      && (last.Err? ==> AllChunks(shelf, manifests) == last)
  {
    assert manifests[..i + 1][..i] == manifests[..i];
    if SkillChunks(shelf, manifests[i]).Err? { RefusalStays(shelf, manifests, i + 1); }
  }

  lemma {:induction false} RefusalStays(shelf: Shelf, manifests: seq<Manifest>, i: nat)
    requires i <= |manifests| && AllChunks(shelf, manifests[..i]).Err?
    ensures AllChunks(shelf, manifests) == AllChunks(shelf, manifests[..i])
    decreases |manifests|
  {
    if i < |manifests| {
      var n := |manifests| - 1;
      assert manifests[..n][..i] == manifests[..i];
      RefusalStays(shelf, manifests[..n], i);
    } else {
      assert manifests[..i] == manifests;
    }
  }

  // ---- Ids ------------------------------------------------------------------

  lemma OneDigit(d: Digit)
    ensures TextDigits([d]) == [48 + d]
  {
    assert [d][..0] == [];
  }

  lemma BothDigits(tens: Digit, units: Digit)
    ensures TextDigits([tens, units]) == [48 + tens, 48 + units]
  {
    assert [tens, units][..1] == [tens];
    OneDigit(tens);
  }

  lemma DigitsBelowHundred(index: nat)
    requires 10 <= index < 100
    ensures DigitsOf(index) == [index / 10, index % 10]
  {
    assert DigitsOf(index / 10) == [index / 10];
  }

  lemma TwoDigits(index: nat)
    requires 0 < index <= MAX_SECTIONS
    ensures SectionId(index) == ID_PREFIX + [48 + index / 10, 48 + index % 10]
  {
    hide TextDigits, DigitsOf;
    if index < 10 {
      SmallDigits(index);
      OneDigit(index);
    } else {
      DigitsBelowHundred(index);
      BothDigits(index / 10, index % 10);
    }
  }

  lemma SmallDigits(d: Digit)
    ensures DigitsOf(d) == [d]
  {}

  lemma {:induction false} LessAfter(front: Text, a: Text, b: Text)
    requires Ordering.Less(a, b)
    ensures Ordering.Less(front + a, front + b)
    decreases |front|
  {
    if front == [] {
      assert front + a == a && front + b == b;
    } else {
      LessAfter(front[1..], a, b);
      assert (front + a)[1..] == front[1..] + a && (front + b)[1..] == front[1..] + b;
    }
  }

  /** Ids compare as their numbers do. */
  lemma IdsInOrder(i: nat, j: nat)
    requires 0 < i < j <= MAX_SECTIONS
    ensures Ordering.Less(SectionId(i), SectionId(j))
  {
    TwoDigits(i);
    TwoDigits(j);
    var a, b := [48 + i / 10, 48 + i % 10], [48 + j / 10, 48 + j % 10];
    assert a[1..] == [48 + i % 10] && b[1..] == [48 + j % 10];
    assert Ordering.Less(a, b);
    LessAfter(ID_PREFIX, a, b);
  }

  function Ids(sections: seq<Section>): (ids: seq<Text>)
    ensures |ids| == |sections| && forall i :: 0 <= i < |ids| ==> ids[i] == sections[i].id
  {
    seq(|sections|, i requires 0 <= i < |sections| => sections[i].id)
  }

  /** However the sections are registered, the runtime's listing by id is the built order. */
  lemma ListedInBuiltOrder(shelf: Shelf, manifests: seq<Manifest>, registered: seq<Text>)
    requires Sections(shelf, manifests).Ok? && Ordering.Distinct(registered)
    requires forall id :: id in registered <==> id in Ids(Sections(shelf, manifests).value)
    ensures Ordering.Sort(registered) == Ids(Sections(shelf, manifests).value)
  {
    hide Ordering.Sort, Ordering.Sorted, Sections, SectionId;
    var ids := Ids(Sections(shelf, manifests).value);
    BuiltIds(shelf, manifests);
    IdsAreSorted(ids);
    Ordering.SortSorts(registered);
    Ordering.SortedIsUnique(Ordering.Sort(registered), ids);
  }

  lemma BuiltIds(shelf: Shelf, manifests: seq<Manifest>)
    requires Sections(shelf, manifests).Ok?
    ensures var ids := Ids(Sections(shelf, manifests).value);
      |ids| <= MAX_SECTIONS && forall i :: 0 <= i < |ids| ==> ids[i] == SectionId(i + 1)
  {
    hide SectionId;
  }

  lemma IdsAreSorted(ids: seq<Text>)
    requires |ids| <= MAX_SECTIONS && forall i :: 0 <= i < |ids| ==> ids[i] == SectionId(i + 1)
    ensures Ordering.Sorted(ids)
  {
    hide SectionId, Ordering.Less;
    forall i, j | 0 <= i < j < |ids| ensures Ordering.Less(ids[i], ids[j]) {
      IdsInOrder(i + 1, j + 1);
    }
  }

  // ---- What the sections hold -----------------------------------------------

  /** A skill's chunks give its verified text back, and hold no reserved marker. */
  ghost predicate Delivers(shelf: Shelf, m: Manifest, text: Text, chunks: seq<Text>, gaps: seq<Text>) {
    && m.name in shelf.packages
    && var p := shelf.packages[m.name];
    && p.version == m.version && p.artifactDigest == m.artifactDigest
    && p.file == Some(Utf8.Encode(text)) && Utf8.Scalars(text) && shelf.sha256(p.file.value) == p.contentDigest
    && chunks != [] && Woven(text, chunks, gaps, SECTION_MAX_CHARS)
    && (forall i :: 0 <= i < |chunks| ==> !Contains(chunks[i], SECTIONS_START) && !Contains(chunks[i], SECTIONS_END))
  }

  lemma {:induction false} ChunkInWeave(gaps: seq<Text>, chunks: seq<Text>, i: nat) returns (before: Text, after: Text)
    requires |gaps| == |chunks| + 1 && i < |chunks|
    ensures Weave(gaps, chunks) == before + chunks[i] + after
    decreases |chunks|
  {
    var n := |chunks|;
    var front := Weave(gaps[..n], chunks[..n - 1]);
    if i == n - 1 {
      before, after := front, gaps[n];
    } else {
      before, after := ChunkInWeave(gaps[..n], chunks[..n - 1], i);
      assert before + chunks[i] + after + chunks[n - 1] + gaps[n] == before + chunks[i] + (after + chunks[n - 1] + gaps[n]);
      after := after + chunks[n - 1] + gaps[n];
    }
  }

  lemma PartOfPart(text: Text, before: Text, chunk: Text, after: Text, part: Text)
    requires text == before + chunk + after && Contains(chunk, part)
    ensures Contains(text, part)
  {
    var k :| 0 <= k <= |chunk| && StandsAt(chunk, k, part);
    assert text[|before| + k..|before| + k + |part|] == chunk[k..k + |part|];
    assert StandsAt(text, |before| + k, part);
  }

  lemma MarkersStayOut(text: Text, chunks: seq<Text>, gaps: seq<Text>, marker: Text)
    requires Woven(text, chunks, gaps, SECTION_MAX_CHARS) && !Contains(text, marker)
    ensures forall i :: 0 <= i < |chunks| ==> !Contains(chunks[i], marker)
  {
    forall i | 0 <= i < |chunks| ensures !Contains(chunks[i], marker) {
      var before, after := ChunkInWeave(gaps, chunks, i);
      if Contains(chunks[i], marker) { PartOfPart(text, before, chunks[i], after, marker); }
    }
  }

  lemma SkillDelivers(shelf: Shelf, m: Manifest) returns (text: Text, gaps: seq<Text>)
    requires SkillChunks(shelf, m).Ok?
    ensures Delivers(shelf, m, text, SkillChunks(shelf, m).value, gaps)
  {
    text := SkillText(shelf, m).value;
    gaps := NothingIsLost(text, SECTION_MAX_CHARS);
    MarkersStayOut(text, Chunks(text, SECTION_MAX_CHARS), gaps, SECTIONS_START);
    MarkersStayOut(text, Chunks(text, SECTION_MAX_CHARS), gaps, SECTIONS_END);
  }

  function Flatten(parts: seq<seq<Text>>): seq<Text> {
    if parts == [] then [] else Flatten(parts[..|parts| - 1]) + parts[|parts| - 1]
  }

  ghost predicate DeliveredBy(shelf: Shelf, m: Manifest, chunks: seq<Text>) {
    exists text, gaps :: Delivers(shelf, m, text, chunks, gaps)
  }

  ghost predicate DeliversAll(shelf: Shelf, manifests: seq<Manifest>, parts: seq<seq<Text>>) {
    |parts| == |manifests| && forall i :: 0 <= i < |manifests| ==> DeliveredBy(shelf, manifests[i], parts[i])
  }

  lemma FlattenAppend(parts: seq<seq<Text>>, part: seq<Text>)
    ensures Flatten(parts + [part]) == Flatten(parts) + part
  {
    assert (parts + [part])[..|parts|] == parts;
  }

  lemma DeliversOneMore(shelf: Shelf, manifests: seq<Manifest>, parts: seq<seq<Text>>, chunks: seq<Text>)
    requires manifests != [] && DeliversAll(shelf, manifests[..|manifests| - 1], parts)
    requires DeliveredBy(shelf, manifests[|manifests| - 1], chunks)
    ensures DeliversAll(shelf, manifests, parts + [chunks])
  {
    forall i | 0 <= i < |manifests| ensures DeliveredBy(shelf, manifests[i], (parts + [chunks])[i]) {
      if i < |manifests| - 1 { assert DeliveredBy(shelf, manifests[..|manifests| - 1][i], parts[i]); }
    }
  }

  lemma SkillIsDelivered(shelf: Shelf, m: Manifest)
    requires SkillChunks(shelf, m).Ok?
    ensures DeliveredBy(shelf, m, SkillChunks(shelf, m).value)
  {
    var text, gaps := SkillDelivers(shelf, m);
  }

  lemma LastChunks(shelf: Shelf, manifests: seq<Manifest>)
    requires manifests != [] && AllChunks(shelf, manifests).Ok?
    ensures var n := |manifests| - 1;
      AllChunks(shelf, manifests[..n]).Ok? && SkillChunks(shelf, manifests[n]).Ok?
      && AllChunks(shelf, manifests).value == AllChunks(shelf, manifests[..n]).value + SkillChunks(shelf, manifests[n]).value
  {}

  /** Parts that deliver some manifests and add up to their chunks. */
  ghost predicate Parts(shelf: Shelf, manifests: seq<Manifest>, parts: seq<seq<Text>>) {
    DeliversAll(shelf, manifests, parts) && AllChunks(shelf, manifests) == Ok(Flatten(parts))
  }

  lemma OneMorePart(shelf: Shelf, manifests: seq<Manifest>, front: seq<seq<Text>>)
    requires manifests != [] && AllChunks(shelf, manifests).Ok?
    requires Parts(shelf, manifests[..|manifests| - 1], front)
    ensures var last := SkillChunks(shelf, manifests[|manifests| - 1]);
      last.Ok? && Parts(shelf, manifests, front + [last.value])
  {
    var m := manifests[|manifests| - 1];
    LastChunks(shelf, manifests);
    SkillIsDelivered(shelf, m);
    DeliversOneMore(shelf, manifests, front, SkillChunks(shelf, m).value);
    FlattenAppend(front, SkillChunks(shelf, m).value);
  }

  lemma {:induction false} ChunksByManifest(shelf: Shelf, manifests: seq<Manifest>) returns (parts: seq<seq<Text>>)
    requires AllChunks(shelf, manifests).Ok?
    ensures Parts(shelf, manifests, parts)
    decreases |manifests|
  {
    parts := [];
    if manifests != [] {
      var n := |manifests| - 1;
      LastChunks(shelf, manifests);
      parts := ChunksByManifest(shelf, manifests[..n]);
      OneMorePart(shelf, manifests, parts);
      parts := parts + [SkillChunks(shelf, manifests[n]).value];
    }
  }

  /** Exactly the assigned skills, whole and in order, within the runtime's limits. */
  lemma SectionsPinTheSkills(shelf: Shelf, manifests: seq<Manifest>) returns (parts: seq<seq<Text>>)
    requires Sections(shelf, manifests).Ok?
    ensures var sections := Sections(shelf, manifests).value;
      DeliversAll(shelf, manifests, parts)
      && |sections| == |Flatten(parts)| <= MAX_SECTIONS && |Rendered(sections)| <= TOTAL_CHARS
      && forall i :: 0 <= i < |sections| ==> sections[i].text == Flatten(parts)[i]
  {
    parts := ChunksByManifest(shelf, manifests);
  }
}
