/**
  The review binding (packages/shared/src/request-review.ts:36-41): the hash of
  the canonical text of `{ id, kind, payload }`. SHA-256 is a parameter; a match
  between different requests is shown to be a collision of that function.
 */
module ReviewBinding {
  import opened Wrappers
  import opened JsonNumbers
  import opened JsonStrings
  import opened CanonicalJson
  import Ordering
  import Utf8

  // ---- TextEncoder ----------------------------------------------------------

  const REPLACEMENT := 0xFFFD

  function PairPoint(high: int, low: int): int {
    0x10000 + 0x400 * (high - 0xD800) + (low - 0xDC00)
  }

  /** The code points of a string of units; a lone surrogate becomes U+FFFD. */
  function ToPoints(t: Text): Utf8.Points {
    if t == [] then []
    else if PairAt(t) then [PairPoint(t[0], t[1])] + ToPoints(t[2..])
    else if High(t[0]) || Low(t[0]) then [REPLACEMENT] + ToPoints(t[1..])
    else [t[0]] + ToPoints(t[1..])
  }

  function TextEncode(t: Text): Utf8.Bytes {
    Utf8.Encode(ToPoints(t))
  }

  function FromPoints(cs: Utf8.Points): Text {
    if cs == [] then []
    else if cs[0] < 0x10000 then [cs[0]] + FromPoints(cs[1..])
    else [0xD800 + (cs[0] - 0x10000) / 0x400, 0xDC00 + (cs[0] - 0x10000) % 0x400] + FromPoints(cs[1..])
  }

  lemma FromFirst(c: int, cs: Utf8.Points)
    ensures FromPoints([c] + cs) ==
      (if c < 0x10000 then [c] else [0xD800 + (c - 0x10000) / 0x400, 0xDC00 + (c - 0x10000) % 0x400]) + FromPoints(cs)
  {
    assert ([c] + cs)[1..] == cs;
  }

  lemma PairUnits(hi: int, lo: int)
    requires High(hi) && Low(lo)
    ensures var c := PairPoint(hi, lo); c >= 0x10000 && 0xD800 + (c - 0x10000) / 0x400 == hi && 0xDC00 + (c - 0x10000) % 0x400 == lo
  {}

  lemma {:induction false} PointsRoundTrip(t: Text)
    requires WellFormed(t)
    ensures FromPoints(ToPoints(t)) == t && Utf8.Scalars(ToPoints(t))
    decreases |t|
  {
    hide FromPoints;
    if t == [] {
      assert FromPoints([]) == [] by { FromNothing(); }
    } else if PairAt(t) {
      PointsRoundTrip(t[2..]);
      PairUnits(t[0], t[1]);
      FromFirst(PairPoint(t[0], t[1]), ToPoints(t[2..]));
      assert t == [t[0], t[1]] + t[2..];
    } else {
      PointsRoundTrip(t[1..]);
      FromFirst(t[0], ToPoints(t[1..]));
      assert t == [t[0]] + t[1..];
    }
  }

  lemma FromNothing()
    ensures FromPoints([]) == []
  {}

  /** On well-formed text the encoder loses nothing. */
  lemma TextEncodeIsInjective(a: Text, b: Text)
    requires WellFormed(a) && WellFormed(b)
    ensures TextEncode(a) == TextEncode(b) <==> a == b
  {
    PointsRoundTrip(a);
    PointsRoundTrip(b);
    Utf8.Utf8RoundTrip(ToPoints(a));
    Utf8.Utf8RoundTrip(ToPoints(b));
  }

  /** On ill-formed text it does: every lone surrogate is encoded alike. */
  lemma TextEncodeMergesLoneSurrogates()
    ensures TextEncode([0xD800]) == TextEncode([0xD801])
  {
    assert ToPoints([0xD800]) == [REPLACEMENT] == ToPoints([0xD801]);
  }

  /** A text is encoded piece by piece, unless the cut parts a surrogate pair. */
  lemma {:induction false} EncodedInPieces(a: Text, b: Text)
    requires a != [] && b != [] ==> !(High(a[|a| - 1]) && Low(b[0]))
    ensures TextEncode(a + b) == TextEncode(a) + TextEncode(b)
  {
    PointsInPieces(a, b);
    EncodeConcat(ToPoints(a), ToPoints(b));
  }

  lemma {:induction false} PointsInPieces(a: Text, b: Text)
    requires a != [] && b != [] ==> !(High(a[|a| - 1]) && Low(b[0]))
    ensures ToPoints(a + b) == ToPoints(a) + ToPoints(b)
    decreases |a|
  {
    hide ToPoints, PairPoint;
    if a == [] {
      NoPoints();
      assert a + b == b;
    } else if PairAt(a) {
      assert (a + b)[2..] == a[2..] + b;
      PointsInPieces(a[2..], b);
      PointsAfterPair(a);
      PointsAfterPair(a + b);
    } else {
      assert (a + b)[1..] == a[1..] + b;
      PointsInPieces(a[1..], b);
      PointsAfterUnit(a);
      PointsAfterUnit(a + b);
    }
  }

  lemma NoPoints()
    ensures ToPoints([]) == []
  {}

  lemma PointsAfterPair(t: Text)
    requires PairAt(t)
    ensures ToPoints(t) == [PairPoint(t[0], t[1])] + ToPoints(t[2..])
  {}

  lemma PointsAfterUnit(t: Text)
    requires t != [] && !PairAt(t)
    ensures ToPoints(t) == [if High(t[0]) || Low(t[0]) then REPLACEMENT else t[0]] + ToPoints(t[1..])
  {}

  lemma {:induction false} EncodeConcat(a: Utf8.Points, b: Utf8.Points)
    ensures Utf8.Encode(a + b) == Utf8.Encode(a) + Utf8.Encode(b)
    decreases |a|
  {
    hide Utf8.EncodePoint;
    if a == [] {
      assert a + b == b;
    } else {
      assert (a + b)[1..] == a[1..] + b;
      EncodeConcat(a[1..], b);
    }
  }

  lemma OnePoint(c: int)
    ensures Utf8.Encode([c]) == Utf8.EncodePoint(c)
  {
    assert [c][1..] == [];
  }

  /** The pieces: a unit outside the surrogates, a pair's code point in four bytes, and U+FFFD for a lone surrogate. */
  lemma UnitEncodes(c: int)
    requires Unit(c)
    ensures TextEncode([c]) == if High(c) || Low(c) then [0xEF, 0xBF, 0xBD] else Utf8.EncodePoint(c)
  {
    hide Utf8.Encode, ToPoints;
    PointsOfUnit(c);
    OnePoint(if High(c) || Low(c) then REPLACEMENT else c);
    assert Utf8.EncodePoint(REPLACEMENT) == [0xEF, 0xBF, 0xBD];
  }

  lemma PointsOfUnit(c: int)
    ensures ToPoints([c]) == [if High(c) || Low(c) then REPLACEMENT else c]
  {
    PointsAfterUnit([c]);
    NoPoints();
    assert [c][1..] == [];
  }

  lemma PointsOfPair(high: int, low: int)
    requires High(high) && Low(low)
    ensures ToPoints([high, low]) == [PairPoint(high, low)]
  {
    PointsAfterPair([high, low]);
    NoPoints();
    assert [high, low][2..] == [];
  }

  lemma PairEncodes(high: int, low: int)
    requires High(high) && Low(low)
    ensures var bs := TextEncode([high, low]);
      |bs| == 4 && 262144 * (bs[0] - 0xF0) + 4096 * (bs[1] - 0x80) + 64 * (bs[2] - 0x80) + (bs[3] - 0x80)
        == 0x10000 + 1024 * (high - 0xD800) + (low - 0xDC00)
  {
    hide Utf8.Encode, Utf8.EncodePoint, ToPoints;
    PointsOfPair(high, low);
    OnePoint(PairPoint(high, low));
    Utf8.PointBytes(PairPoint(high, low));
  }

  lemma {:induction false} JoinWellFormed(texts: seq<Text>)
    requires forall i :: 0 <= i < |texts| ==> WellFormed(texts[i])
    ensures WellFormed(Join(texts))
    decreases |texts|
  {
    if |texts| > 1 {
      JoinWellFormed(texts[1..]);
      OrdinaryWellFormed([COMMA]);
      WellFormedConcat([COMMA], Join(texts[1..]));
      WellFormedConcat(texts[0], [COMMA] + Join(texts[1..]));
    }
  }

  lemma BracketsWellFormed(open: int, body: Text, close: int)
    requires Ordinary(open) && Ordinary(close) && WellFormed(body)
    ensures WellFormed([open] + (body + [close]))
  {
    OrdinaryWellFormed([open]);
    OrdinaryWellFormed([close]);
    WellFormedConcat(body, [close]);
    WellFormedConcat([open], body + [close]);
  }

  lemma PairWellFormed(k: Text, text: Text)
    requires Units(k) && WellFormed(text)
    ensures WellFormed(Pair(k, text))
  {
    QuoteWellFormed(k);
    OrdinaryWellFormed([COLON]);
    WellFormedConcat([COLON], text);
    WellFormedConcat(Quote(k), [COLON] + text);
  }

  lemma SimpleWellFormed(j: Json)
    requires Held(j) && Supported(j) && !j.Arr? && !j.Obj?
    ensures WellFormed(Print(j))
  {
    hide WellFormed;
    match j
    case Null => OrdinaryWellFormed(NULL_TEXT);
    case Bool(b) => OrdinaryWellFormed(TRUE_TEXT); OrdinaryWellFormed(FALSE_TEXT);
    case Number(n) => PrintUnits(n); OrdinaryWellFormed(PrintNumber(n));
    case Str(s) => QuoteWellFormed(s);
  }

  /** The canonical text never holds a lone surrogate, whatever its strings hold. */
  lemma {:induction false} PrintWellFormed(j: Json)
    requires Held(j) && Supported(j)
    ensures WellFormed(Print(j))
    decreases j
  {
    hide WellFormed, Print;
    match j
    case Arr(items) =>
      forall i | 0 <= i < |items| ensures WellFormed(TextOfItem(ItemAt(j, i))) {
        if items[i].Hole? { NothingIsWellFormed(); } else { PrintWellFormed(ItemAt(j, i)); }
      }
      ArrayWellFormed(j);
    case Obj(members) =>
      forall i | 0 <= i < |members| ensures WellFormed(Print(ValueAt(j, i))) {
        PrintWellFormed(ValueAt(j, i));
      }
      MembersWellFormed(j);
    case _ => SimpleWellFormed(j);
  }

  lemma NothingIsWellFormed()
    ensures WellFormed([])
  {}

  lemma ArrayWellFormed(j: Json)
    requires Held(j) && Supported(j) && j.Arr?
    requires forall i :: 0 <= i < |j.items| ==> WellFormed(TextOfItem(ItemAt(j, i)))
    ensures WellFormed(Print(j))
  {
    hide WellFormed;
    var texts := PrintItems(j, |j.items|);
    ItemsAre(j, |j.items|);
    JoinWellFormed(texts);
    BracketsWellFormed(OPEN_ARRAY, Join(texts), CLOSE_ARRAY);
  }

  lemma MembersWellFormed(j: Json)
    requires Held(j) && Supported(j) && j.Obj?
    requires forall i :: 0 <= i < |j.members| ==> WellFormed(Print(ValueAt(j, i)))
    ensures WellFormed(Print(j))
  {
    hide WellFormed, Units;
    var texts := PrintMembers(j, |j.members|);
    MembersAre(j, |j.members|);
    KeysAreUnits(j);
    ObjectWellFormed(Keys(j.members), texts);
  }

  lemma KeysAreUnits(j: Json)
    requires Held(j) && j.Obj?
    ensures Ordering.Distinct(Keys(j.members)) && forall i :: 0 <= i < |j.members| ==> Units(Keys(j.members)[i])
  {}

  lemma PairsWellFormed(ks: seq<Text>, ts: seq<Text>, keys: seq<Text>)
    requires |ks| == |ts| && Ordering.Distinct(ks)
    requires forall i :: 0 <= i < |ks| ==> Units(ks[i]) && WellFormed(ts[i])
    requires forall k :: k in keys ==> k in ks
    ensures forall i :: 0 <= i < |keys| ==> WellFormed(Pairs(keys, Zip(ks, ts))[i])
  {
    hide WellFormed, Units;
    forall i | 0 <= i < |keys| ensures WellFormed(Pairs(keys, Zip(ks, ts))[i]) {
      assert keys[i] in keys;
      var m :| 0 <= m < |ks| && ks[m] == keys[i];
      assert Zip(ks, ts)[ks[m]] == ts[m];
      PairWellFormed(keys[i], ts[m]);
    }
  }

  lemma ObjectWellFormed(ks: seq<Text>, ts: seq<Text>)
    requires |ks| == |ts| && Ordering.Distinct(ks)
    requires forall i :: 0 <= i < |ks| ==> Units(ks[i]) && WellFormed(ts[i])
    ensures WellFormed([OPEN_OBJECT] + (Join(Pairs(Ordering.Sort(ks), Zip(ks, ts))) + [CLOSE_OBJECT]))
  {
    hide WellFormed, Units, Zip, Join;
    var keys := Ordering.Sort(ks);
    var pairs := Pairs(keys, Zip(ks, ts));
    Ordering.SortSorts(ks);
    PairsWellFormed(ks, ts, keys);
    JoinWellFormed(pairs);
    BracketsWellFormed(OPEN_OBJECT, Join(pairs), CLOSE_OBJECT);
  }

  // ---- The binding ----------------------------------------------------------

  datatype Request = Request(id: Text, kind: Text, version: int, payload: Json)

  datatype Binding = Binding(expectedVersion: int, expectedPayloadHash: Text)

  const ID_KEY := [0x69, 0x64]
  const KIND_KEY := [0x6B, 0x69, 0x6E, 0x64]
  const PAYLOAD_KEY := [0x70, 0x61, 0x79, 0x6C, 0x6F, 0x61, 0x64]
  const HASH_PREFIX := [0x73, 0x68, 0x61, 0x32, 0x35, 0x36, 0x3A]

  function Bound(r: Request): Json {
    Obj([Member(ID_KEY, Str(r.id)), Member(KIND_KEY, Str(r.kind)), Member(PAYLOAD_KEY, r.payload)])
  }

  ghost predicate HeldRequest(r: Request) {
    Units(r.id) && Units(r.kind) && Held(r.payload)
  }

  lemma BoundIsHeld(r: Request)
    requires HeldRequest(r)
    ensures Held(Bound(r)) && (Supported(Bound(r)) <==> Supported(r.payload))
  {
    var members := Bound(r).members;
    assert members[2].value == r.payload;
    assert Keys(members)[0] == ID_KEY && Keys(members)[1] == KIND_KEY && Keys(members)[2] == PAYLOAD_KEY;
    assert |ID_KEY| != |KIND_KEY| && |ID_KEY| != |PAYLOAD_KEY| && |KIND_KEY| != |PAYLOAD_KEY|;
  }

  /** Two lower-case hex digits a byte. */
  function Hex(bs: Utf8.Bytes): Text {
    if bs == [] then [] else [HexUnit(bs[0] / 16), HexUnit(bs[0] % 16)] + Hex(bs[1..])
  }

  lemma {:induction false} HexIsInjective(a: Utf8.Bytes, b: Utf8.Bytes)
    requires forall i :: 0 <= i < |a| ==> Utf8.Byte(a[i])
    requires forall i :: 0 <= i < |b| ==> Utf8.Byte(b[i])
    requires Hex(a) == Hex(b)
    ensures a == b
    decreases |a|
  {
    if a != [] && b != [] {
      var ha, hb := Hex(a), Hex(b);
      assert ha[0] == hb[0] && ha[1] == hb[1] && ha[2..] == hb[2..];
      assert ha[2..] == Hex(a[1..]) && hb[2..] == Hex(b[1..]);
      HexDigitBack(a[0] / 16);
      HexDigitBack(a[0] % 16);
      HexDigitBack(b[0] / 16);
      HexDigitBack(b[0] % 16);
      HexIsInjective(a[1..], b[1..]);
      assert a == [a[0]] + a[1..] && b == [b[0]] + b[1..];
    }
  }

  function RequestReviewBinding(r: Request, sha256: Utf8.Bytes -> Utf8.Bytes): Result<Binding, TypeError>
    requires HeldRequest(r)
  {
    BoundIsHeld(r);
    match Canonicalize(Bound(r))
    case Err(e) => Err(e)
    case Ok(text) => Ok(Binding(r.version, HASH_PREFIX + Hex(sha256(TextEncode(text)))))
  }

  ghost predicate SameRequest(a: Request, b: Request)
    requires HeldRequest(a) && HeldRequest(b) && Supported(a.payload) && Supported(b.payload)
  {
    a.id == b.id && a.kind == b.kind && Denote(a.payload) == Denote(b.payload)
  }

  ghost function HashedBytes(r: Request): Utf8.Bytes
    requires HeldRequest(r) && Supported(r.payload)
  {
    BoundIsHeld(r);
    TextEncode(Print(Bound(r)))
  }

  lemma BoundSays(a: Request, b: Request)
    requires HeldRequest(a) && HeldRequest(b) && Supported(a.payload) && Supported(b.payload)
    requires Held(Bound(a)) && Held(Bound(b))
    ensures Denote(Bound(a)) == Denote(Bound(b)) <==> SameRequest(a, b)
  {
    var ks := Keys(Bound(a).members);
    assert ks == Keys(Bound(b).members);
    BoundDenotes(a);
    BoundDenotes(b);
    SameEntries(ks, [VString(a.id), VString(a.kind), Denote(a.payload)], [VString(b.id), VString(b.kind), Denote(b.payload)]);
  }

  lemma BoundDenotes(r: Request)
    requires HeldRequest(r) && Supported(r.payload) && Held(Bound(r))
    ensures Denote(Bound(r)) == VObject(Zip(Keys(Bound(r).members), [VString(r.id), VString(r.kind), Denote(r.payload)]))
  {
    var j := Bound(r);
    MembersAre(j, 3);
    assert ValueAt(j, 0) == Str(r.id) && ValueAt(j, 1) == Str(r.kind) && ValueAt(j, 2) == r.payload;
    assert DenoteMembers(j, 3) == [VString(r.id), VString(r.kind), Denote(r.payload)];
  }

  lemma SameEntries<T>(ks: seq<Text>, a: seq<T>, b: seq<T>)
    requires |ks| == |a| == |b| && Ordering.Distinct(ks)
    ensures Zip(ks, a) == Zip(ks, b) <==> a == b
  {
    var za, zb := Zip(ks, a), Zip(ks, b);
    if za == zb {
      forall i | 0 <= i < |ks| ensures a[i] == b[i] { assert za[ks[i]] == a[i] && zb[ks[i]] == b[i]; }
    }
  }

  lemma {:induction false} HashedBytesAreTheRequest(a: Request, b: Request)
    requires HeldRequest(a) && HeldRequest(b) && Supported(a.payload) && Supported(b.payload)
    ensures HashedBytes(a) == HashedBytes(b) <==> SameRequest(a, b)
  {
    BoundIsHeld(a);
    BoundIsHeld(b);
    CanonicalIsInjective(Bound(a), Bound(b));
    PrintWellFormed(Bound(a));
    PrintWellFormed(Bound(b));
    TextEncodeIsInjective(Print(Bound(a)), Print(Bound(b)));
    BoundSays(a, b);
  }

  /**
    Two bindings carry the same hash exactly when they bind the same id, kind and
    payload, or the two texts collide under the hash.
   */
  lemma {:induction false} EqualHashMeansSameRequestOrCollision(a: Request, b: Request, sha256: Utf8.Bytes -> Utf8.Bytes)
    requires HeldRequest(a) && HeldRequest(b) && Supported(a.payload) && Supported(b.payload)
    requires forall bs: Utf8.Bytes, i :: 0 <= i < |sha256(bs)| ==> Utf8.Byte(sha256(bs)[i])
    ensures var x, y := HashedBytes(a), HashedBytes(b);
      RequestReviewBinding(a, sha256).Ok? && RequestReviewBinding(b, sha256).Ok?
      && (RequestReviewBinding(a, sha256).value.expectedPayloadHash ==
          RequestReviewBinding(b, sha256).value.expectedPayloadHash <==>
          SameRequest(a, b) || (x != y && sha256(x) == sha256(y)))
  {
    BoundIsHeld(a);
    BoundIsHeld(b);
    var x, y := HashedBytes(a), HashedBytes(b);
    HashedBytesAreTheRequest(a, b);
    var ha, hb := Hex(sha256(x)), Hex(sha256(y));
    assert (HASH_PREFIX + ha)[|HASH_PREFIX|..] == ha && (HASH_PREFIX + hb)[|HASH_PREFIX|..] == hb;
    if ha == hb { HexIsInjective(sha256(x), sha256(y)); }
  }

  /**
    Two bindings are equal exactly when the versions are and the hashed bytes are
    the same request's or collide: the version is compared beside the hash, and
    never through it.
   */
  lemma BindingsAgreeExactly(a: Request, b: Request, sha256: Utf8.Bytes -> Utf8.Bytes)
    requires HeldRequest(a) && HeldRequest(b) && Supported(a.payload) && Supported(b.payload)
    requires forall bs: Utf8.Bytes, i :: 0 <= i < |sha256(bs)| ==> Utf8.Byte(sha256(bs)[i])
    ensures var x, y := HashedBytes(a), HashedBytes(b);
      RequestReviewBinding(a, sha256) == RequestReviewBinding(b, sha256) <==>
      a.version == b.version && (SameRequest(a, b) || (x != y && sha256(x) == sha256(y)))
  {
    BoundIsHeld(a);
    BoundIsHeld(b);
    EqualHashMeansSameRequestOrCollision(a, b, sha256);
  }
}
