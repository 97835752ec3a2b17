/**
  The canonical text of values without array holes, which are all that parsing
  JSON yields: sameness is stated on the values themselves, nothing merged but
  member order and the sign of zero (packages/shared/src/request-review.ts:17-27).
 */
module HoleFreeJson {
  import opened Wrappers
  import opened JsonNumbers
  import opened JsonStrings
  import opened CanonicalJson
  import Ordering

  predicate HoleFree(j: Json) {
    match j
    case Arr(items) => forall i :: 0 <= i < |items| ==> !items[i].Hole? && HoleFree(items[i])
    case Obj(members) => forall i :: 0 <= i < |members| ==> HoleFree(members[i].value)
    case _ => true
  }

  predicate SameNumber(a: Num, b: Num) {
    a == b || (a.Zero? && b.Zero?)
  }

  /** The same JSON value: items in order, members under the same keys in any order. */
  ghost predicate Same(a: Json, b: Json)
    decreases a
  {
    match a
    case Number(n) => b.Number? && SameNumber(n, b.n)
    case Arr(items) =>
      b.Arr? && |items| == |b.items| && forall i :: 0 <= i < |items| ==> Same(items[i], b.items[i])
    case Obj(members) =>
      && b.Obj? && (forall k :: k in Keys(members) <==> k in Keys(b.members))
      && forall i, l :: 0 <= i < |members| && 0 <= l < |b.members| && members[i].key == b.members[l].key ==>
        Same(members[i].value, b.members[l].value)
    case _ => a == b
  }

  ghost predicate Data(j: Json) {
    Held(j) && Supported(j) && HoleFree(j)
  }

  lemma {:induction false} SameIsDenoted(a: Json, b: Json)
    requires Data(a) && Data(b)
    ensures Same(a, b) <==> Denote(a) == Denote(b)
    decreases a
  {
    match a
    case Arr(items) =>
      if b.Arr? {
        forall i | 0 <= i < |items| && i < |b.items|
          ensures Same(items[i], b.items[i]) <==> Denote(items[i]) == Denote(b.items[i])
        {
          SameIsDenoted(items[i], b.items[i]);
        }
        SameArrays(a, b);
      }
    case Obj(members) =>
      if b.Obj? {
        forall i, l | 0 <= i < |members| && 0 <= l < |b.members|
          ensures Same(members[i].value, b.members[l].value) <==> Denote(members[i].value) == Denote(b.members[l].value)
        {
          SameIsDenoted(members[i].value, b.members[l].value);
        }
        SameObjects(a, b);
      }
    case _ =>
  }

  lemma ItemsDenote(a: Json)
    requires Data(a) && a.Arr?
    ensures Denote(a) == VArray(DenoteItems(a, |a.items|))
    ensures forall i :: 0 <= i < |a.items| ==> DenoteItems(a, |a.items|)[i] == Denote(a.items[i])
  {
    ItemsAre(a, |a.items|);
    forall i | 0 <= i < |a.items| ensures DenoteItems(a, |a.items|)[i] == Denote(a.items[i]) {
      assert ItemAt(a, i) == a.items[i];
    }
    assert a.items != [] ==> !a.items[0].Hole?;
  }

  lemma SameArrays(a: Json, b: Json)
    requires Data(a) && Data(b) && a.Arr? && b.Arr?
    requires forall i :: 0 <= i < |a.items| && i < |b.items| ==>
      (Same(a.items[i], b.items[i]) <==> Denote(a.items[i]) == Denote(b.items[i]))
    ensures Same(a, b) <==> Denote(a) == Denote(b)
  {
    ItemsDenote(a);
    ItemsDenote(b);
    var va, vb := DenoteItems(a, |a.items|), DenoteItems(b, |b.items|);
    if Same(a, b) {
      forall i | 0 <= i < |va| ensures va[i] == vb[i] { assert Same(a.items[i], b.items[i]); }
      assert va == vb;
    }
    if va == vb {
      forall i | 0 <= i < |va| ensures Same(a.items[i], b.items[i]) { assert va[i] == vb[i]; }
    }
  }

  /** Equal tables are equal entries under the same keys. */
  lemma SameTables(ka: seq<Text>, va: seq<Value>, kb: seq<Text>, vb: seq<Value>)
    requires |ka| == |va| && |kb| == |vb| && Ordering.Distinct(ka) && Ordering.Distinct(kb)
    ensures Zip(ka, va) == Zip(kb, vb) <==>
      (forall k :: k in ka <==> k in kb) && forall i, l :: 0 <= i < |ka| && 0 <= l < |kb| && ka[i] == kb[l] ==> va[i] == vb[l]
  {
    var za, zb := Zip(ka, va), Zip(kb, vb);
    if za == zb {
      SameZipSameKeys(ka, va, kb, vb);
      forall i, l | 0 <= i < |ka| && 0 <= l < |kb| && ka[i] == kb[l] ensures va[i] == vb[l] {
        assert za[ka[i]] == va[i] && zb[kb[l]] == vb[l];
      }
    }
    if (forall k :: k in ka <==> k in kb) && forall i, l :: 0 <= i < |ka| && 0 <= l < |kb| && ka[i] == kb[l] ==> va[i] == vb[l] {
      forall k | k in za ensures za[k] == zb[k] {
        var i := ZipAt(ka, va, k);
        var l := ZipAt(kb, vb, k);
      }
      assert za.Keys == zb.Keys;
    }
  }

  lemma MembersDenote(a: Json)
    requires Data(a) && a.Obj?
    ensures Denote(a) == VObject(Zip(Keys(a.members), DenoteMembers(a, |a.members|)))
    ensures forall i :: 0 <= i < |a.members| ==> DenoteMembers(a, |a.members|)[i] == Denote(a.members[i].value)
  {
    MembersAre(a, |a.members|);
    forall i | 0 <= i < |a.members| ensures DenoteMembers(a, |a.members|)[i] == Denote(a.members[i].value) {
      assert ValueAt(a, i) == a.members[i].value;
    }
  }

  /** Members under equal keys are the same. */
  ghost predicate SameUnderKeys(a: seq<Member>, b: seq<Member>) {
    forall i, l :: 0 <= i < |a| && 0 <= l < |b| && a[i].key == b[l].key ==> Same(a[i].value, b[l].value)
  }

  lemma SameUnfolds(a: Json, b: Json)
    requires a.Obj? && b.Obj?
    ensures Same(a, b) <==>
      (forall k :: k in Keys(a.members) <==> k in Keys(b.members)) && SameUnderKeys(a.members, b.members)
  {}

  /** Being the same is having equal values, for any two members. */
  ghost predicate Decided(a: seq<Member>, va: seq<Value>, b: seq<Member>, vb: seq<Value>)
    requires |a| == |va| && |b| == |vb|
  {
    forall i, l :: 0 <= i < |a| && 0 <= l < |b| ==> (Same(a[i].value, b[l].value) <==> va[i] == vb[l])
  }

  lemma SameMembers(a: seq<Member>, va: seq<Value>, b: seq<Member>, vb: seq<Value>)
    requires |a| == |va| && |b| == |vb| && Decided(a, va, b, vb)
    requires Ordering.Distinct(Keys(a)) && Ordering.Distinct(Keys(b))
    ensures Zip(Keys(a), va) == Zip(Keys(b), vb) <==>
      (forall k :: k in Keys(a) <==> k in Keys(b)) && SameUnderKeys(a, b)
  {
    hide Same, Zip;
    SameTables(Keys(a), va, Keys(b), vb);
  }

  lemma SameObjects(a: Json, b: Json)
    requires Data(a) && Data(b) && a.Obj? && b.Obj?
    requires forall i, l :: 0 <= i < |a.members| && 0 <= l < |b.members| ==>
      (Same(a.members[i].value, b.members[l].value) <==> Denote(a.members[i].value) == Denote(b.members[l].value))
    ensures Same(a, b) <==> Denote(a) == Denote(b)
  {
    hide Same, Zip, Denote, Supported, HoleFree;
    MembersDenote(a);
    MembersDenote(b);
    SameMembers(a.members, DenoteMembers(a, |a.members|), b.members, DenoteMembers(b, |b.members|));
    SameUnfolds(a, b);
  }

  /** Without holes the printer merges nothing: equal texts are the same value, and conversely. */
  lemma HoleFreeIsInjective(a: Json, b: Json)
    requires Data(a) && Data(b)
    ensures Canonicalize(a) == Canonicalize(b) <==> Same(a, b)
  {
    CanonicalIsInjective(a, b);
    SameIsDenoted(a, b);
  }
}
