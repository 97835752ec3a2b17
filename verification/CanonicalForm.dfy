/**
  The shape of the canonical text, character by character: brackets, commas,
  colons and keys in order, with no white space
  (packages/shared/src/request-review.ts:17-27, 36-41).
 */
module CanonicalForm {
  import opened Wrappers
  import opened JsonNumbers
  import opened JsonStrings
  import opened CanonicalJson
  import ReviewBinding
  import Ordering
  import Texts
  import Utf8

  /** The texts with a comma between each two. */
  function CommaList(texts: seq<Text>): Text {
    if texts == [] then []
    else if |texts| == 1 then texts[0]
    else CommaList(texts[..|texts| - 1]) + ([',' as int] + texts[|texts| - 1])
  }

  lemma {:induction false} JoinLast(texts: seq<Text>, last: Text)
    requires texts != []
    ensures Join(texts + [last]) == Join(texts) + ([COMMA] + last)
    decreases |texts|
  {
    var all := texts + [last];
    if |texts| == 1 {
      assert all[1..] == [last];
    } else {
      assert all[1..] == texts[1..] + [last];
      JoinLast(texts[1..], last);
      assert texts[0] + ([COMMA] + (Join(texts[1..]) + ([COMMA] + last)))
        == texts[0] + ([COMMA] + Join(texts[1..])) + ([COMMA] + last);
    }
  }

  lemma {:induction false} JoinIsCommaList(texts: seq<Text>)
    ensures Join(texts) == CommaList(texts)
    decreases |texts|
  {
    if |texts| > 1 {
      var n := |texts| - 1;
      JoinIsCommaList(texts[..n]);
      JoinLast(texts[..n], texts[n]);
      assert texts == texts[..n] + [texts[n]];
    }
  }

  lemma LiteralForms()
    ensures Print(Null) == Texts.Codes("null")
    ensures Print(Bool(true)) == Texts.Codes("true") && Print(Bool(false)) == Texts.Codes("false")
  {}

  /** An array is its items' texts between brackets; a hole has no text. */
  lemma ArrayForm(j: Json, texts: seq<Text>)
    requires Held(j) && Supported(j) && j.Arr? && |texts| == |j.items|
    requires forall i :: 0 <= i < |texts| ==> texts[i] == if j.items[i].Hole? then [] else Print(ItemAt(j, i))
    ensures Print(j) == ['[' as int] + (CommaList(texts) + [']' as int])
  {
    var n := |j.items|;
    ItemsAre(j, n);
    forall i | 0 <= i < n ensures PrintItems(j, n)[i] == texts[i] { assert ItemAt(j, i) == j.items[i]; }
    assert PrintItems(j, n) == texts;
    JoinIsCommaList(texts);
  }

  /** One member as it is printed. */
  ghost predicate EntryOf(j: Json, k: Text, entry: Text)
    requires Held(j) && Supported(j) && j.Obj?
  {
    exists m :: 0 <= m < |j.members| && j.members[m].key == k && entry == Quote(k) + ([':' as int] + Print(ValueAt(j, m)))
  }

  lemma EntryIsPair(j: Json, k: Text, entry: Text)
    requires Held(j) && Supported(j) && j.Obj? && EntryOf(j, k, entry)
    ensures var table := Zip(Keys(j.members), PrintMembers(j, |j.members|)); k in table && entry == Pair(k, table[k])
  {
    var m :| 0 <= m < |j.members| && j.members[m].key == k && entry == Quote(k) + ([':' as int] + Print(ValueAt(j, m)));
    MembersAre(j, |j.members|);
    var keys, texts := Keys(j.members), PrintMembers(j, |j.members|);
    assert keys[m] == k && Zip(keys, texts)[keys[m]] == texts[m];
  }

  /** An object is its members between braces, in the order of their keys. */
  lemma ObjectForm(j: Json, keys: seq<Text>, entries: seq<Text>)
    requires Held(j) && Supported(j) && j.Obj? && |entries| == |keys|
    requires Ordering.Sorted(keys) && forall k :: k in keys <==> k in Keys(j.members)
    requires forall i :: 0 <= i < |keys| ==> EntryOf(j, keys[i], entries[i])
    ensures Print(j) == ['{' as int] + (CommaList(entries) + ['}' as int])
  {
    hide Ordering.Less, EntryOf, CommaList, Quote;
    var all := Keys(j.members);
    Ordering.SortSorts(all);
    Ordering.SortedIsUnique(Ordering.Sort(all), keys);
    var table := Zip(all, PrintMembers(j, |j.members|));
    forall i | 0 <= i < |keys| ensures entries[i] == Pairs(keys, table)[i] { EntryIsPair(j, keys[i], entries[i]); }
    assert entries == Pairs(keys, table);
    JoinIsCommaList(entries);
  }

  // ---- The hashed text --------------------------------------------------------

  const ID := Texts.Codes("id")
  const KIND := Texts.Codes("kind")
  const PAYLOAD := Texts.Codes("payload")

  lemma KeysAreSorted()
    ensures Ordering.Sorted([ID, KIND, PAYLOAD])
  {
    assert Ordering.DifferAt(ID, KIND, 0);
    assert Ordering.DifferAt(ID, PAYLOAD, 0);
    assert Ordering.DifferAt(KIND, PAYLOAD, 0);
    Ordering.LessExactly(ID, KIND);
    Ordering.LessExactly(ID, PAYLOAD);
    Ordering.LessExactly(KIND, PAYLOAD);
  }

  lemma BoundKeys(r: ReviewBinding.Request)
    ensures Keys(ReviewBinding.Bound(r).members) == [ID, KIND, PAYLOAD]
  {
    assert ReviewBinding.ID_KEY == ID;
    assert ReviewBinding.KIND_KEY == KIND;
    assert ReviewBinding.PAYLOAD_KEY == PAYLOAD;
  }

  /** What is hashed for a request, but for the encoding: id, kind and payload, under their names. */
  lemma HashedTextIs(r: ReviewBinding.Request)
    requires ReviewBinding.HeldRequest(r) && Supported(r.payload)
    ensures var j := ReviewBinding.Bound(r);
      Held(j) && Supported(j)
      && Print(j) == ['{' as int] + (CommaList([
           Quote(ID) + ([':' as int] + Quote(r.id)),
           Quote(KIND) + ([':' as int] + Quote(r.kind)),
           Quote(PAYLOAD) + ([':' as int] + Print(r.payload))]) + ['}' as int])
  {
    var j := ReviewBinding.Bound(r);
    ReviewBinding.BoundIsHeld(r);
    BoundKeys(r);
    KeysAreSorted();
    BoundEntries(r);
    var keys := [ID, KIND, PAYLOAD];
    ObjectForm(j, keys, [
      Quote(ID) + ([':' as int] + Quote(r.id)),
      Quote(KIND) + ([':' as int] + Quote(r.kind)),
      Quote(PAYLOAD) + ([':' as int] + Print(r.payload))]);
  }

  lemma BoundEntries(r: ReviewBinding.Request)
    requires ReviewBinding.HeldRequest(r) && Supported(r.payload)
    requires Held(ReviewBinding.Bound(r)) && Supported(ReviewBinding.Bound(r))
    ensures var j := ReviewBinding.Bound(r);
      && EntryOf(j, ID, Quote(ID) + ([':' as int] + Quote(r.id)))
      && EntryOf(j, KIND, Quote(KIND) + ([':' as int] + Quote(r.kind)))
      && EntryOf(j, PAYLOAD, Quote(PAYLOAD) + ([':' as int] + Print(r.payload)))
  {
    hide Quote;
    var j := ReviewBinding.Bound(r);
    assert ValueAt(j, 0) == Str(r.id) && ValueAt(j, 1) == Str(r.kind) && ValueAt(j, 2) == r.payload;
    assert j.members[0].key == ID && j.members[1].key == KIND && j.members[2].key == PAYLOAD;
  }

  // ---- The hash in hex --------------------------------------------------------

  /** Two lower-case hex digits a byte, the high half first. */
  lemma {:induction false} HexIs(bs: Utf8.Bytes, i: nat)
    requires i < |bs| && Utf8.Byte(bs[i]) && forall k :: 0 <= k < |bs| ==> Utf8.Byte(bs[k])
    ensures var t := ReviewBinding.Hex(bs);
      |t| == 2 * |bs| && t[2 * i] == "0123456789abcdef"[bs[i] / 16] as int && t[2 * i + 1] == "0123456789abcdef"[bs[i] % 16] as int
    decreases |bs|
  {
    LowerHex(bs[0] / 16);
    LowerHex(bs[0] % 16);
    if |bs| > 1 { HexIs(bs[1..], if i == 0 then 0 else i - 1); }
  }

  /** The binding's hash: the name of the function, then the hash of the encoded text in hex. */
  lemma BindingIs(r: ReviewBinding.Request, sha256: Utf8.Bytes -> Utf8.Bytes)
    requires ReviewBinding.HeldRequest(r) && Supported(r.payload)
    ensures ReviewBinding.RequestReviewBinding(r, sha256) == Ok(ReviewBinding.Binding(r.version,
      Texts.Codes("sha256:") + ReviewBinding.Hex(sha256(ReviewBinding.HashedBytes(r)))))
  {
    hide ReviewBinding.Hex, Texts.Codes;
    ReviewBinding.BoundIsHeld(r);
    PrefixIs();
  }

  lemma PrefixIs()
    ensures ReviewBinding.HASH_PREFIX == Texts.Codes("sha256:")
  {}

  /** Anything JSON cannot say is refused. */
  lemma RefusedExactly(r: ReviewBinding.Request, sha256: Utf8.Bytes -> Utf8.Bytes)
    requires ReviewBinding.HeldRequest(r)
    ensures ReviewBinding.RequestReviewBinding(r, sha256) == Err(NotJsonData) <==> !Supported(r.payload)
  {
    ReviewBinding.BoundIsHeld(r);
  }
}
