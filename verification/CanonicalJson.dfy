/**
  The canonical printer behind review binding
  (packages/shared/src/request-review.ts:17-27) and a reader that inverts it.

  `Json` is a value as JavaScript holds it: members in insertion order, two zeros,
  array holes. `Denote` forgets what JSON does not say, and the printer is proved
  to forget exactly as much.
 */
module CanonicalJson {
  import opened Wrappers
  import opened JsonNumbers
  import opened JsonStrings
  import Ordering

  datatype Member = Member(key: Text, value: Json)

  datatype Json =
    | Null
    | Bool(b: bool)
    | Number(n: Num)
    | NonFinite
    | Str(s: Text)
    | Arr(items: seq<Json>)
    | Obj(members: seq<Member>)
    | Hole          // an array index that was never assigned
    | Unsupported   // undefined, a function, a bigint, an object with another prototype

  datatype TypeError = NotJsonData

  const COMMA := 0x2C
  const COLON := 0x3A
  const OPEN_ARRAY := 0x5B
  const CLOSE_ARRAY := 0x5D
  const OPEN_OBJECT := 0x7B
  const CLOSE_OBJECT := 0x7D
  const NULL_TEXT := [0x6E, 0x75, 0x6C, 0x6C]
  const TRUE_TEXT := [0x74, 0x72, 0x75, 0x65]
  const FALSE_TEXT := [0x66, 0x61, 0x6C, 0x73, 0x65]

  function Keys(members: seq<Member>): (ks: seq<Text>)
    ensures |ks| == |members| && forall i :: 0 <= i < |ks| ==> ks[i] == members[i].key
  {
    seq(|members|, i requires 0 <= i < |members| => members[i].key)
  }

  /** Key by key, what stands beside it. */
  function Zip<T>(keys: seq<Text>, xs: seq<T>): (m: map<Text, T>)
    requires |keys| == |xs| && Ordering.Distinct(keys)
    ensures forall k :: k in m <==> k in keys
    ensures forall i :: 0 <= i < |keys| ==> m[keys[i]] == xs[i]
  {
    if keys == [] then map[]
    else
      var n := |keys| - 1;
      assert keys == keys[..n] + [keys[n]];
      Zip(keys[..n], xs[..n])[keys[n] := xs[n]]
  }

  /** What every JavaScript value satisfies: strings of units, shortest digits, one member a key. */
  ghost predicate Held(j: Json) {
    match j
    case Number(n) => n.Canonical()
    case Str(s) => Units(s)
    case Arr(items) => forall i :: 0 <= i < |items| ==> Held(items[i])
    case Obj(members) =>
      Ordering.Distinct(Keys(members))
      && forall i :: 0 <= i < |members| ==> Units(members[i].key) && Held(members[i].value)
    case _ => true
  }

  /** The printer throws on anything else. `map` skips holes, and `join` prints them empty. */
  predicate Supported(j: Json) {
    match j
    case NonFinite => false
    case Hole => false
    case Unsupported => false
    case Arr(items) => forall i :: 0 <= i < |items| ==> items[i].Hole? || Supported(items[i])
    case Obj(members) => forall i :: 0 <= i < |members| ==> Supported(members[i].value)
    case _ => true
  }

  function Join(texts: seq<Text>): Text {
    if texts == [] then []
    else if |texts| == 1 then texts[0]
    else texts[0] + ([COMMA] + Join(texts[1..]))
  }

  function Print(j: Json): Text
    requires Held(j) && Supported(j)
    decreases j, 1, 0
  {
    match j
    case Null => NULL_TEXT
    case Bool(b) => if b then TRUE_TEXT else FALSE_TEXT
    case Number(n) => PrintNumber(n)
    case Str(s) => Quote(s)
    case Arr(items) => [OPEN_ARRAY] + (Join(PrintItems(j, |items|)) + [CLOSE_ARRAY])
    case Obj(members) =>
      [OPEN_OBJECT] + (Join(Pairs(Ordering.Sort(Keys(members)), Zip(Keys(members), PrintMembers(j, |members|)))) + [CLOSE_OBJECT])
  }

  function ItemAt(j: Json, i: nat): (item: Json)
    requires Held(j) && Supported(j) && j.Arr? && i < |j.items|
    ensures Held(item) && (item.Hole? || Supported(item))
  {
    j.items[i]
  }

  function PrintItems(j: Json, n: nat): (texts: seq<Text>)
    requires Held(j) && Supported(j) && j.Arr? && n <= |j.items|
    ensures |texts| == n
    decreases j, 0, n
  {
    if n == 0 then []
    else
      var item := ItemAt(j, n - 1);
      PrintItems(j, n - 1) + [if item.Hole? then [] else Print(item)]
  }

  function ValueAt(j: Json, i: nat): (v: Json)
    requires Held(j) && Supported(j) && j.Obj? && i < |j.members|
    ensures Held(v) && Supported(v)
  {
    j.members[i].value
  }

  function PrintMembers(j: Json, n: nat): (texts: seq<Text>)
    requires Held(j) && Supported(j) && j.Obj? && n <= |j.members|
    ensures |texts| == n
    decreases j, 0, n
  {
    if n == 0 then [] else PrintMembers(j, n - 1) + [Print(ValueAt(j, n - 1))]
  }

  function Pair(k: Text, text: Text): Text {
    Quote(k) + ([COLON] + text)
  }

  function Pairs(keys: seq<Text>, texts: map<Text, Text>): (r: seq<Text>)
    ensures |r| == |keys|
    ensures forall i :: 0 <= i < |r| ==> r[i] == Pair(keys[i], if keys[i] in texts then texts[keys[i]] else [])
  {
    seq(|keys|, i requires 0 <= i < |keys| => Pair(keys[i], if keys[i] in texts then texts[keys[i]] else []))
  }

  function Canonicalize(j: Json): Result<Text, TypeError>
    requires Held(j)
  {
    if Supported(j) then Ok(Print(j)) else Err(NotJsonData)
  }

  // ---- What a value says ----------------------------------------------------

  datatype Value =
    | VNull
    | VBool(b: bool)
    | VNumber(n: Num)
    | VString(s: Text)
    | VArray(items: seq<Value>)
    | VObject(fields: map<Text, Value>)
    | VHole

  /** The JSON value: no member order, one zero. A lone hole is nothing at all. */
  function Denote(j: Json): Value
    requires Held(j) && Supported(j)
    decreases j, 1, 0
  {
    match j
    case Null => VNull
    case Bool(b) => VBool(b)
    case Number(n) => VNumber(n.Unsigned())
    case Str(s) => VString(s)
    case Arr(items) => VArray(if items == [Hole] then [] else DenoteItems(j, |items|))
    case Obj(members) => VObject(Zip(Keys(members), DenoteMembers(j, |members|)))
  }

  function DenoteItems(j: Json, n: nat): (vs: seq<Value>)
    requires Held(j) && Supported(j) && j.Arr? && n <= |j.items|
    ensures |vs| == n
    decreases j, 0, n
  {
    if n == 0 then []
    else
      var item := ItemAt(j, n - 1);
      DenoteItems(j, n - 1) + [if item.Hole? then VHole else Denote(item)]
  }

  function DenoteMembers(j: Json, n: nat): (vs: seq<Value>)
    requires Held(j) && Supported(j) && j.Obj? && n <= |j.members|
    ensures |vs| == n
    decreases j, 0, n
  {
    if n == 0 then [] else DenoteMembers(j, n - 1) + [Denote(ValueAt(j, n - 1))]
  }

  function TextOfItem(item: Json): Text
    requires Held(item) && (item.Hole? || Supported(item))
  {
    if item.Hole? then [] else Print(item)
  }

  function ValueOfItem(item: Json): Value
    requires Held(item) && (item.Hole? || Supported(item))
  {
    if item.Hole? then VHole else Denote(item)
  }

  lemma {:induction false} ItemIs(j: Json, n: nat, i: nat)
    requires Held(j) && Supported(j) && j.Arr? && i < n <= |j.items|
    ensures PrintItems(j, n)[i] == TextOfItem(ItemAt(j, i))
    ensures DenoteItems(j, n)[i] == ValueOfItem(ItemAt(j, i))
    decreases n
  {
    if i < n - 1 { ItemIs(j, n - 1, i); }
  }

  lemma ItemsAre(j: Json, n: nat)
    requires Held(j) && Supported(j) && j.Arr? && n <= |j.items|
    ensures forall i :: 0 <= i < n ==> PrintItems(j, n)[i] == TextOfItem(ItemAt(j, i))
    ensures forall i :: 0 <= i < n ==> DenoteItems(j, n)[i] == ValueOfItem(ItemAt(j, i))
  {
    forall i | 0 <= i < n { ItemIs(j, n, i); }
  }

  lemma {:induction false} MemberIs(j: Json, n: nat, i: nat)
    requires Held(j) && Supported(j) && j.Obj? && i < n <= |j.members|
    ensures PrintMembers(j, n)[i] == Print(ValueAt(j, i))
    ensures DenoteMembers(j, n)[i] == Denote(ValueAt(j, i))
    decreases n
  {
    if i < n - 1 { MemberIs(j, n - 1, i); }
  }

  lemma MembersAre(j: Json, n: nat)
    requires Held(j) && Supported(j) && j.Obj? && n <= |j.members|
    ensures forall i :: 0 <= i < n ==> PrintMembers(j, n)[i] == Print(ValueAt(j, i))
    ensures forall i :: 0 <= i < n ==> DenoteMembers(j, n)[i] == Denote(ValueAt(j, i))
  {
    forall i | 0 <= i < n { MemberIs(j, n, i); }
  }

  // ---- Reading back ---------------------------------------------------------

  /** Numbers do not delimit themselves: one ends where the text stops looking like one. */
  function NumberLength(t: Text): (n: nat)
    ensures n <= |t|
  {
    if t != [] && NumberUnit(t[0]) then 1 + NumberLength(t[1..]) else 0
  }

  function ReadValue(t: Text): (r: Option<(Value, Text)>)
    ensures r.Some? ==> |r.value.1| < |t|
    decreases |t|, 0
  {
    if t == [] then None
    else if NULL_TEXT <= t then Some((VNull, t[4..]))
    else if TRUE_TEXT <= t then Some((VBool(true), t[4..]))
    else if FALSE_TEXT <= t then Some((VBool(false), t[5..]))
    else if t[0] == QUOTE then
      match ReadChars(t[1..])
      case None => None
      case Some((s, rest)) => Some((VString(s), rest))
    else if t[0] == OPEN_ARRAY then
      if |t| > 1 && t[1] == CLOSE_ARRAY then Some((VArray([]), t[2..]))
      else
        match ReadItems(t[1..])
        case None => None
        case Some((vs, rest)) => Some((VArray(vs), rest))
    else if t[0] == OPEN_OBJECT then
      if |t| > 1 && t[1] == CLOSE_OBJECT then Some((VObject(map[]), t[2..]))
      else
        match ReadMembers(t[1..])
        case None => None
        case Some((vs, rest)) => Some((VObject(vs), rest))
    else
      var n := NumberLength(t);
      if n == 0 then None else Some((VNumber(ReadNumber(t[..n])), t[n..]))
  }

  function ReadItems(t: Text): (r: Option<(seq<Value>, Text)>)
    ensures r.Some? ==> |r.value.1| < |t|
    decreases |t|, 1
  {
    var item: Option<(Value, Text)> :=
      if t != [] && (t[0] == COMMA || t[0] == CLOSE_ARRAY) then Some((VHole, t)) else ReadValue(t);
    match item
    case None => None
    case Some((v, rest)) =>
      if rest == [] then None
      else if rest[0] == CLOSE_ARRAY then Some(([v], rest[1..]))
      else if rest[0] != COMMA then None
      else
        match ReadItems(rest[1..])
        case None => None
        case Some((vs, after)) => Some(([v] + vs, after))
  }

  function ReadMembers(t: Text): (r: Option<(map<Text, Value>, Text)>)
    ensures r.Some? ==> |r.value.1| < |t|
    decreases |t|, 1
  {
    if t == [] || t[0] != QUOTE then None
    else
      match ReadChars(t[1..])
      case None => None
      case Some((k, colon)) =>
        if colon == [] || colon[0] != COLON then None
        else
          match ReadValue(colon[1..])
          case None => None
          case Some((v, rest)) =>
            if rest == [] then None
            else if rest[0] == CLOSE_OBJECT then Some((map[k := v], rest[1..]))
            else if rest[0] != COMMA then None
            else
              match ReadMembers(rest[1..])
              case None => None
              case Some((vs, after)) => Some((vs[k := v], after))
  }

  predicate Delimited(rest: Text) {
    rest == [] || rest[0] == COMMA || rest[0] == CLOSE_ARRAY || rest[0] == CLOSE_OBJECT
  }

  /** Before any delimiter, reading `text` gives `v` and stops at the delimiter. */
  ghost predicate Reads(text: Text, v: Value) {
    && text != [] && !Delimited(text)
    && forall rest :: Delimited(rest) ==> ReadValue(text + rest) == Some((v, rest))
  }

  ghost predicate ReadsItem(text: Text, v: Value) {
    (text == [] && v == VHole) || Reads(text, v)
  }

  lemma {:induction false} NumberReads(n: Num)
    requires n.Canonical()
    ensures Reads(PrintNumber(n), VNumber(n.Unsigned()))
  {
    var text := PrintNumber(n);
    PrintUnits(n);
    NumberRoundTrip(n);
    forall rest | Delimited(rest) ensures ReadValue(text + rest) == Some((VNumber(n.Unsigned()), rest)) {
      NumberAt(text, rest);
    }
  }

  lemma NumberAt(text: Text, rest: Text)
    requires text != [] && Delimited(rest) && forall i :: 0 <= i < |text| ==> NumberUnit(text[i])
    ensures ReadValue(text + rest) == Some((VNumber(ReadNumber(text)), rest))
  {
    hide ReadNumber, ReadItems, ReadMembers;
    var t := text + rest;
    NumberLengthIs(text, rest);
    assert t[0] == text[0] && t[..|text|] == text && t[|text|..] == rest;
  }

  lemma {:induction false} NumberLengthIs(text: Text, rest: Text)
    requires Delimited(rest) && forall i :: 0 <= i < |text| ==> NumberUnit(text[i])
    ensures NumberLength(text + rest) == |text|
    decreases |text|
  {
    if text == [] {
      assert text + rest == rest;
    } else {
      assert (text + rest)[1..] == text[1..] + rest;
      NumberLengthIs(text[1..], rest);
    }
  }

  lemma StringReads(s: Text)
    requires Units(s)
    ensures Reads(Quote(s), VString(s))
  {
    forall rest | Delimited(rest) ensures ReadValue(Quote(s) + rest) == Some((VString(s), rest)) {
      QuoteRoundTrip(s, rest);
    }
  }

  lemma NullAt(rest: Text)
    ensures ReadValue(NULL_TEXT + rest) == Some((VNull, rest))
  {
    assert (NULL_TEXT + rest)[4..] == rest;
  }

  lemma TrueAt(rest: Text)
    ensures ReadValue(TRUE_TEXT + rest) == Some((VBool(true), rest))
  {
    var t := TRUE_TEXT + rest;
    assert t[0] == TRUE_TEXT[0] && t[4..] == rest;
  }

  lemma FalseAt(rest: Text)
    ensures ReadValue(FALSE_TEXT + rest) == Some((VBool(false), rest))
  {
    var t := FALSE_TEXT + rest;
    assert t[0] == FALSE_TEXT[0] && t[5..] == rest;
  }

  lemma LiteralReads()
    ensures Reads(NULL_TEXT, VNull) && Reads(TRUE_TEXT, VBool(true)) && Reads(FALSE_TEXT, VBool(false))
  {
    forall rest: Text { NullAt(rest); }
    forall rest: Text { TrueAt(rest); }
    forall rest: Text { FalseAt(rest); }
  }

  lemma FirstItemReads(text: Text, v: Value, tail: Text)
    requires ReadsItem(text, v) && tail != [] && (tail[0] == COMMA || tail[0] == CLOSE_ARRAY)
    ensures ReadItems(text + tail) ==
      if tail[0] == CLOSE_ARRAY then Some(([v], tail[1..]))
      else match ReadItems(tail[1..])
        case None => None
        case Some((vs, after)) => Some(([v] + vs, after))
  {
    var t := text + tail;
    if text == [] {
      assert t == tail;
    } else {
      assert t[0] == text[0] && ReadValue(t) == Some((v, tail));
    }
  }

  lemma {:induction false} ItemsRead(texts: seq<Text>, vs: seq<Value>, rest: Text)
    requires |texts| == |vs| > 0 && forall i :: 0 <= i < |vs| ==> ReadsItem(texts[i], vs[i])
    ensures ReadItems(Join(texts) + ([CLOSE_ARRAY] + rest)) == Some((vs, rest))
    decreases |texts|
  {
    hide Join, ReadItems, ReadsItem;
    if |texts| == 1 {
      LastItemReads(texts[0], vs[0], rest);
      JoinOne(texts);
      assert vs == [vs[0]];
    } else {
      var end := [CLOSE_ARRAY] + rest;
      ItemsRead(texts[1..], vs[1..], rest);
      NextItemReads(texts[0], vs[0], Join(texts[1..]) + end, vs[1..], rest);
      JoinMore(texts, end);
      assert vs == [vs[0]] + vs[1..];
    }
  }

  lemma JoinOne(texts: seq<Text>)
    requires |texts| == 1
    ensures Join(texts) == texts[0]
  {}

  lemma JoinMore(texts: seq<Text>, end: Text)
    requires |texts| > 1
    ensures Join(texts) + end == texts[0] + ([COMMA] + (Join(texts[1..]) + end))
  {}

  lemma LastItemReads(text: Text, v: Value, rest: Text)
    requires ReadsItem(text, v)
    ensures ReadItems(text + ([CLOSE_ARRAY] + rest)) == Some(([v], rest))
  {
    FirstItemReads(text, v, [CLOSE_ARRAY] + rest);
    assert ([CLOSE_ARRAY] + rest)[1..] == rest;
  }

  lemma NextItemReads(text: Text, v: Value, next: Text, vs: seq<Value>, rest: Text)
    requires ReadsItem(text, v) && ReadItems(next) == Some((vs, rest))
    ensures ReadItems(text + ([COMMA] + next)) == Some(([v] + vs, rest))
  {
    var tail := [COMMA] + next;
    FirstItemReads(text, v, tail);
    assert tail[1..] == next;
  }

  /** Members as the reader gathers them, the first one outermost. */
  ghost function Gather(keys: seq<Text>, vs: seq<Value>): map<Text, Value>
    requires |keys| == |vs|
  {
    if keys == [] then map[] else Gather(keys[1..], vs[1..])[keys[0] := vs[0]]
  }

  lemma {:induction false} GatherIs(keys: seq<Text>, vs: seq<Value>, m: map<Text, Value>)
    requires |keys| == |vs|
    requires forall i :: 0 <= i < |keys| ==> keys[i] in m && m[keys[i]] == vs[i]
    ensures forall k :: k in Gather(keys, vs) <==> k in keys
    ensures forall k :: k in keys ==> Gather(keys, vs)[k] == m[k]
    decreases |keys|
  {
    if keys != [] {
      GatherIs(keys[1..], vs[1..], m);
      assert keys == [keys[0]] + keys[1..];
    }
  }

  lemma FirstMemberReads(k: Text, text: Text, v: Value, tail: Text)
    requires Units(k) && Reads(text, v) && tail != [] && (tail[0] == COMMA || tail[0] == CLOSE_OBJECT)
    ensures ReadMembers(Pair(k, text) + tail) ==
      if tail[0] == CLOSE_OBJECT then Some((map[k := v], tail[1..]))
      else match ReadMembers(tail[1..])
        case None => None
        case Some((vs, after)) => Some((vs[k := v], after))
  {
    var colon := [COLON] + (text + tail);
    assert Pair(k, text) + tail == Quote(k) + colon;
    assert colon[1..] == text + tail && ReadValue(text + tail) == Some((v, tail));
    KeyThenValue(k, Quote(k) + colon, colon, v, tail);
  }

  lemma KeyThenValue(k: Text, t: Text, colon: Text, v: Value, tail: Text)
    requires Units(k) && t == Quote(k) + colon && colon != [] && colon[0] == COLON
    requires ReadValue(colon[1..]) == Some((v, tail)) && tail != [] && (tail[0] == COMMA || tail[0] == CLOSE_OBJECT)
    ensures ReadMembers(t) ==
      if tail[0] == CLOSE_OBJECT then Some((map[k := v], tail[1..]))
      else match ReadMembers(tail[1..])
        case None => None
        case Some((vs, after)) => Some((vs[k := v], after))
  {
    QuoteRoundTrip(k, colon);
  }

  lemma {:induction false} MembersRead(pairs: seq<Text>, keys: seq<Text>, texts: seq<Text>, vs: seq<Value>, rest: Text)
    requires |pairs| == |keys| == |texts| == |vs| > 0
    requires forall i :: 0 <= i < |keys| ==>
      Units(keys[i]) && pairs[i] == Pair(keys[i], texts[i]) && Reads(texts[i], vs[i])
    ensures ReadMembers(Join(pairs) + ([CLOSE_OBJECT] + rest)) == Some((Gather(keys, vs), rest))
    decreases |keys|
  {
    var end := [CLOSE_OBJECT] + rest;
    if |keys| == 1 {
      FirstMemberReads(keys[0], texts[0], vs[0], end);
      assert end[1..] == rest;
      assert Gather(keys[1..], vs[1..]) == map[];
    } else {
      var next := Join(pairs[1..]) + end;
      var tail := [COMMA] + next;
      MembersRead(pairs[1..], keys[1..], texts[1..], vs[1..], rest);
      FirstMemberReads(keys[0], texts[0], vs[0], tail);
      assert Join(pairs) + end == pairs[0] + tail && tail[1..] == next;
    }
  }

  /** Reading undoes printing, up to what JSON does not say. */
  lemma {:induction false} RoundTrip(j: Json)
    requires Held(j) && Supported(j)
    ensures Reads(Print(j), Denote(j))
    decreases j
  {
    match j
    case Null => LiteralReads();
    case Bool(_) => LiteralReads();
    case Number(n) => NumberReads(n);
    case Str(s) => StringReads(s);
    case Arr(items) =>
      forall i | 0 <= i < |items| && !items[i].Hole? ensures Reads(Print(items[i]), Denote(items[i])) {
        RoundTrip(items[i]);
      }
      ArrayReads(j);
    case Obj(members) =>
      forall i | 0 <= i < |members| ensures Reads(Print(members[i].value), Denote(members[i].value)) {
        RoundTrip(members[i].value);
      }
      ObjectReads(j);
  }

  /** Text and meaning of an array's items, freed from the array they came from. */
  lemma ArrayTextReads(texts: seq<Text>, vs: seq<Value>)
    requires |texts| == |vs| && forall i :: 0 <= i < |vs| ==> ReadsItem(texts[i], vs[i])
    requires texts != [[]]
    ensures Reads([OPEN_ARRAY] + (Join(texts) + [CLOSE_ARRAY]), VArray(vs))
  {
    if texts == [] {
      EmptyBrackets();
    } else {
      assert ReadsItem(texts[0], vs[0]);
      ArrayStart(texts);
      forall rest | Delimited(rest)
        ensures ReadValue([OPEN_ARRAY] + (Join(texts) + [CLOSE_ARRAY]) + rest) == Some((VArray(vs), rest))
      {
        ItemsRead(texts, vs, rest);
        ArrayBodyReadsAt(Join(texts), vs, rest);
      }
    }
  }

  lemma ReadArrayBranch(t: Text)
    requires |t| > 1 && t[0] == OPEN_ARRAY && t[1] != CLOSE_ARRAY
    ensures ReadItems(t[1..]).None? ==> ReadValue(t) == None
    ensures ReadItems(t[1..]).Some? ==>
      ReadValue(t) == Some((VArray(ReadItems(t[1..]).value.0), ReadItems(t[1..]).value.1))
  {}

  lemma BodyAt(open: int, body: Text, close: int, rest: Text)
    requires body != []
    ensures var t := [open] + (body + [close]) + rest;
      |t| > 1 && t[0] == open && t[1] == body[0] && t[1..] == body + ([close] + rest)
  {}

  lemma ArrayBodyReadsAt(body: Text, vs: seq<Value>, rest: Text)
    requires body != [] && body[0] != CLOSE_ARRAY
    requires ReadItems(body + ([CLOSE_ARRAY] + rest)) == Some((vs, rest))
    ensures ReadValue([OPEN_ARRAY] + (body + [CLOSE_ARRAY]) + rest) == Some((VArray(vs), rest))
  {
    BodyAt(OPEN_ARRAY, body, CLOSE_ARRAY, rest);
    ReadArrayBranch([OPEN_ARRAY] + (body + [CLOSE_ARRAY]) + rest);
  }

  lemma EmptyBrackets()
    ensures Reads([OPEN_ARRAY] + (Join([]) + [CLOSE_ARRAY]), VArray([]))
  {
    forall rest ensures ReadValue([OPEN_ARRAY] + (Join([]) + [CLOSE_ARRAY]) + rest) == Some((VArray([]), rest)) {
      var t := [OPEN_ARRAY] + (Join([]) + [CLOSE_ARRAY]) + rest;
      assert t[2..] == rest;
    }
  }

  /** Items that are not one lone hole start with an item or a comma. */
  lemma ArrayStart(texts: seq<Text>)
    requires texts != [] && texts != [[]] && (texts[0] == [] || !Delimited(texts[0]))
    ensures Join(texts) != [] && Join(texts)[0] != CLOSE_ARRAY
  {
    if |texts| > 1 { assert Join(texts) == texts[0] + ([COMMA] + Join(texts[1..])); }
  }

  lemma EmptyArrayReads()
    ensures Reads([OPEN_ARRAY] + (Join([[]]) + [CLOSE_ARRAY]), VArray([]))
  {
    ArrayTextReads([], []);
    assert Join([[]]) == Join([]);
  }

  lemma ArrayReads(j: Json)
    requires Held(j) && Supported(j) && j.Arr?
    requires forall i :: 0 <= i < |j.items| && !j.items[i].Hole? ==> Reads(Print(j.items[i]), Denote(j.items[i]))
    ensures Reads(Print(j), Denote(j))
  {
    var texts, vs := PrintItems(j, |j.items|), DenoteItems(j, |j.items|);
    ItemsAre(j, |j.items|);
    if j.items == [Hole] {
      assert texts == [[]];
      EmptyArrayReads();
    } else {
      forall i | 0 <= i < |vs| ensures ReadsItem(texts[i], vs[i]) { assert ItemAt(j, i) == j.items[i]; }
      ArrayTextReads(texts, vs);
    }
  }

  lemma ReadObjectBranch(t: Text)
    requires |t| > 1 && t[0] == OPEN_OBJECT && t[1] != CLOSE_OBJECT
    ensures ReadMembers(t[1..]).None? ==> ReadValue(t) == None
    ensures ReadMembers(t[1..]).Some? ==>
      ReadValue(t) == Some((VObject(ReadMembers(t[1..]).value.0), ReadMembers(t[1..]).value.1))
  {}

  lemma ObjectBodyReadsAt(body: Text, m: map<Text, Value>, rest: Text)
    requires body != [] && body[0] == QUOTE
    requires ReadMembers(body + ([CLOSE_OBJECT] + rest)) == Some((m, rest))
    ensures ReadValue([OPEN_OBJECT] + (body + [CLOSE_OBJECT]) + rest) == Some((VObject(m), rest))
  {
    BodyAt(OPEN_OBJECT, body, CLOSE_OBJECT, rest);
    ReadObjectBranch([OPEN_OBJECT] + (body + [CLOSE_OBJECT]) + rest);
  }

  lemma EmptyObjectReads()
    ensures Reads([OPEN_OBJECT] + ([] + [CLOSE_OBJECT]), VObject(map[]))
  {
    forall rest ensures ReadValue([OPEN_OBJECT] + ([] + [CLOSE_OBJECT]) + rest) == Some((VObject(map[]), rest)) {
      var t := [OPEN_OBJECT] + ([] + [CLOSE_OBJECT]) + rest;
      assert t[2..] == rest;
    }
  }

  lemma JoinStart(texts: seq<Text>)
    requires texts != [] && texts[0] != []
    ensures Join(texts) != [] && Join(texts)[0] == texts[0][0]
  {}

  lemma ObjectTextReads(pairs: seq<Text>, keys: seq<Text>, texts: seq<Text>, vs: seq<Value>)
    requires |pairs| == |keys| == |texts| == |vs|
    requires forall i :: 0 <= i < |keys| ==>
      Units(keys[i]) && pairs[i] == Pair(keys[i], texts[i]) && Reads(texts[i], vs[i])
    ensures Reads([OPEN_OBJECT] + (Join(pairs) + [CLOSE_OBJECT]), VObject(Gather(keys, vs)))
  {
    if keys == [] {
      EmptyObjectReads();
    } else {
      JoinStart(pairs);
      forall rest | Delimited(rest)
        ensures ReadValue([OPEN_OBJECT] + (Join(pairs) + [CLOSE_OBJECT]) + rest) == Some((VObject(Gather(keys, vs)), rest))
      {
        MembersRead(pairs, keys, texts, vs, rest);
        ObjectBodyReadsAt(Join(pairs), Gather(keys, vs), rest);
      }
    }
  }

  lemma ObjectReads(j: Json)
    requires Held(j) && Supported(j) && j.Obj?
    requires forall i :: 0 <= i < |j.members| ==> Reads(Print(j.members[i].value), Denote(j.members[i].value))
    ensures Reads(Print(j), Denote(j))
  {
    var n := |j.members|;
    var ks, ts, ds := Keys(j.members), PrintMembers(j, n), DenoteMembers(j, n);
    MembersAre(j, n);
    assert forall i :: 0 <= i < n ==> Units(ks[i]) && Reads(ts[i], ds[i]);
    SortedMembersRead(ks, ts, ds);
  }

  /** The entries of a map in the order of some keys. */
  ghost function Select<T>(keys: seq<Text>, m: map<Text, T>): (xs: seq<T>)
    requires forall i :: 0 <= i < |keys| ==> keys[i] in m
    ensures |xs| == |keys| && forall i :: 0 <= i < |keys| ==> xs[i] == m[keys[i]]
  {
    if keys == [] then [] else [m[keys[0]]] + Select(keys[1..], m)
  }

  lemma ZipReads(ks: seq<Text>, ts: seq<Text>, ds: seq<Value>, k: Text)
    requires |ks| == |ts| == |ds| && Ordering.Distinct(ks) && k in ks
    requires forall i :: 0 <= i < |ks| ==> Units(ks[i]) && Reads(ts[i], ds[i])
    ensures Units(k) && Reads(Zip(ks, ts)[k], Zip(ks, ds)[k])
  {
    var i :| 0 <= i < |ks| && ks[i] == k;
    assert Zip(ks, ts)[ks[i]] == ts[i] && Zip(ks, ds)[ks[i]] == ds[i];
  }

  lemma SortedMembersRead(ks: seq<Text>, ts: seq<Text>, ds: seq<Value>)
    requires |ks| == |ts| == |ds| && Ordering.Distinct(ks)
    requires forall i :: 0 <= i < |ks| ==> Units(ks[i]) && Reads(ts[i], ds[i])
    ensures Reads([OPEN_OBJECT] + (Join(Pairs(Ordering.Sort(ks), Zip(ks, ts))) + [CLOSE_OBJECT]), VObject(Zip(ks, ds)))
  {
    var keys := Ordering.Sort(ks);
    Ordering.SortSorts(ks);
    forall k | k in keys ensures Units(k) && Reads(Zip(ks, ts)[k], Zip(ks, ds)[k]) { ZipReads(ks, ts, ds, k); }
    EntriesRead(keys, Zip(ks, ts), Zip(ks, ds));
  }

  /** An object printed from its entries, in any order of its keys. */
  lemma EntriesRead(keys: seq<Text>, zt: map<Text, Text>, zd: map<Text, Value>)
    requires forall k :: (k in keys <==> k in zt) && (k in keys <==> k in zd)
    requires forall k :: k in keys ==> Units(k) && Reads(zt[k], zd[k])
    ensures Reads([OPEN_OBJECT] + (Join(Pairs(keys, zt)) + [CLOSE_OBJECT]), VObject(zd))
  {
    hide Join, Reads, Units, Gather, Pairs, Select;
    var ts, ds := Select(keys, zt), Select(keys, zd);
    forall i | 0 <= i < |keys| ensures Units(keys[i]) && Reads(ts[i], ds[i]) { assert keys[i] in keys; }
    ObjectTextReads(Pairs(keys, zt), keys, ts, ds);
    GatherIs(keys, Select(keys, zd), zd);
    assert Gather(keys, Select(keys, zd)) == zd;
  }

  // ---- Injectivity ----------------------------------------------------------

  lemma SimpleSameText(a: Json, b: Json)
    requires Held(a) && Supported(a) && Held(b) && Supported(b) && Denote(a) == Denote(b) && !a.Arr? && !a.Obj?
    ensures Print(a) == Print(b)
  {
    if a.Number? { PrintIsInjective(a.n, b.n); }
  }

  lemma SameShape(a: Json, b: Json)
    requires Held(a) && Supported(a) && Held(b) && Supported(b) && Denote(a) == Denote(b)
    ensures (a.Arr? <==> b.Arr?) && (a.Obj? <==> b.Obj?)
  {}

  lemma {:induction false} SameValueSameText(a: Json, b: Json)
    requires Held(a) && Supported(a) && Held(b) && Supported(b) && Denote(a) == Denote(b)
    ensures Print(a) == Print(b)
    decreases a
  {
    hide Print, Denote;
    SameShape(a, b);
    match a
    case Arr(items) =>
      forall i | 0 <= i < |items| && i < |b.items| && !items[i].Hole? && !b.items[i].Hole?
        && Denote(items[i]) == Denote(b.items[i])
        ensures Print(items[i]) == Print(b.items[i])
      {
        SameValueSameText(items[i], b.items[i]);
      }
      SameArraySameText(a, b);
    case Obj(members) =>
      forall i, l | 0 <= i < |members| && 0 <= l < |b.members|
        && Denote(members[i].value) == Denote(b.members[l].value)
        ensures Print(members[i].value) == Print(b.members[l].value)
      {
        SameValueSameText(members[i].value, b.members[l].value);
      }
      SameObjectSameText(a, b);
    case _ => SimpleSameText(a, b);
  }

  lemma SameArraySameText(a: Json, b: Json)
    requires Held(a) && Supported(a) && Held(b) && Supported(b) && a.Arr? && b.Arr? && Denote(a) == Denote(b)
    requires forall i ::
      (0 <= i < |a.items| && i < |b.items| && !a.items[i].Hole? && !b.items[i].Hole?
       && Denote(a.items[i]) == Denote(b.items[i]))
      ==> Print(a.items[i]) == Print(b.items[i])
    ensures Print(a) == Print(b)
  {
    if |a.items| != |b.items| || a.items == [Hole] || b.items == [Hole] {
      LoneHole(a, b);
    } else {
      var n := |a.items|;
      ItemsAre(a, n);
      ItemsAre(b, n);
      assert DenoteItems(a, n) == DenoteItems(b, n);
      forall i | 0 <= i < n ensures PrintItems(a, n)[i] == PrintItems(b, n)[i] {
        SameItemSameText(ItemAt(a, i), ItemAt(b, i));
      }
      assert PrintItems(a, n) == PrintItems(b, n);
    }
  }

  lemma SameObjectSameText(a: Json, b: Json)
    requires Held(a) && Supported(a) && Held(b) && Supported(b) && a.Obj? && b.Obj? && Denote(a) == Denote(b)
    requires forall i, l ::
      (0 <= i < |a.members| && 0 <= l < |b.members| && Denote(a.members[i].value) == Denote(b.members[l].value))
      ==> Print(a.members[i].value) == Print(b.members[l].value)
    ensures Print(a) == Print(b)
  {
    var n, m := |a.members|, |b.members|;
    MembersAre(a, n);
    MembersAre(b, m);
    SameZipSameText(Keys(a.members), PrintMembers(a, n), DenoteMembers(a, n),
                    Keys(b.members), PrintMembers(b, m), DenoteMembers(b, m));
  }

  lemma ZipAt<T>(ks: seq<Text>, xs: seq<T>, k: Text) returns (i: nat)
    requires |ks| == |xs| && Ordering.Distinct(ks) && k in ks
    ensures i < |ks| && ks[i] == k && Zip(ks, xs)[k] == xs[i]
  {
    i :| 0 <= i < |ks| && ks[i] == k;
    assert Zip(ks, xs)[ks[i]] == xs[i];
  }

  /** Equal values have equal texts. */
  ghost predicate TextsFollow(va: seq<Value>, ta: seq<Text>, vb: seq<Value>, tb: seq<Text>)
    requires |va| == |ta| && |vb| == |tb|
  {
    forall i, l :: 0 <= i < |va| && 0 <= l < |vb| && va[i] == vb[l] ==> ta[i] == tb[l]
  }

  lemma SameEntrySameText(ka: seq<Text>, ta: seq<Text>, va: seq<Value>, kb: seq<Text>, tb: seq<Text>, vb: seq<Value>, k: Text)
    requires |ka| == |ta| == |va| && |kb| == |tb| == |vb| && Ordering.Distinct(ka) && Ordering.Distinct(kb)
    requires k in ka && k in kb && Zip(ka, va)[k] == Zip(kb, vb)[k]
    requires TextsFollow(va, ta, vb, tb)
    ensures Zip(ka, ta)[k] == Zip(kb, tb)[k]
  {
    var i := ZipAt(ka, va, k);
    var l := ZipAt(kb, vb, k);
    assert Zip(ka, ta)[ka[i]] == ta[i] && Zip(kb, tb)[kb[l]] == tb[l];
  }

  lemma SameZipSameText(ka: seq<Text>, ta: seq<Text>, va: seq<Value>, kb: seq<Text>, tb: seq<Text>, vb: seq<Value>)
    requires |ka| == |ta| == |va| && |kb| == |tb| == |vb| && Ordering.Distinct(ka) && Ordering.Distinct(kb)
    requires Zip(ka, va) == Zip(kb, vb)
    requires TextsFollow(va, ta, vb, tb)
    ensures Ordering.Sort(ka) == Ordering.Sort(kb) && Zip(ka, ta) == Zip(kb, tb)
  {
    SameZipSameKeys(ka, va, kb, vb);
    Ordering.SortForgetsOrder(ka, kb);
    forall k | k in ka ensures Zip(ka, ta)[k] == Zip(kb, tb)[k] {
      SameEntrySameText(ka, ta, va, kb, tb, vb, k);
    }
    SameMaps(ka, kb, Zip(ka, ta), Zip(kb, tb));
  }

  lemma SameMaps(ka: seq<Text>, kb: seq<Text>, a: map<Text, Text>, b: map<Text, Text>)
    requires (forall k :: k in a <==> k in ka) && (forall k :: k in b <==> k in kb) && (forall k :: k in ka <==> k in kb)
    requires forall k :: k in ka ==> a[k] == b[k]
    ensures a == b
  {}

  lemma SameZipSameKeys<T>(ka: seq<Text>, xs: seq<T>, kb: seq<Text>, ys: seq<T>)
    requires |ka| == |xs| && |kb| == |ys| && Ordering.Distinct(ka) && Ordering.Distinct(kb) && Zip(ka, xs) == Zip(kb, ys)
    ensures forall k :: k in ka <==> k in kb
  {
    forall k ensures k in ka <==> k in kb { assert k in Zip(ka, xs) <==> k in Zip(kb, ys); }
  }

  lemma SameItemSameText(a: Json, b: Json)
    requires Held(a) && (a.Hole? || Supported(a)) && Held(b) && (b.Hole? || Supported(b))
    requires ValueOfItem(a) == ValueOfItem(b)
    requires !a.Hole? && !b.Hole? && Denote(a) == Denote(b) ==> Print(a) == Print(b)
    ensures TextOfItem(a) == TextOfItem(b)
  {}

  /** The one pair of arrays of different content that print alike: no item, and one hole. */
  lemma LoneHole(a: Json, b: Json)
    requires Held(a) && Supported(a) && Held(b) && Supported(b) && a.Arr? && b.Arr? && Denote(a) == Denote(b)
    requires |a.items| != |b.items| || a.items == [Hole] || b.items == [Hole]
    ensures a.items == [] || a.items == [Hole]
    ensures b.items == [] || b.items == [Hole]
    ensures Print(a) == Print(b) == [OPEN_ARRAY, CLOSE_ARRAY]
  {
    assert |DenoteItems(a, |a.items|)| == |a.items| && |DenoteItems(b, |b.items|)| == |b.items|;
    assert Join([]) == [] && Join([[]]) == [];
    assert a.items == [Hole] ==> PrintItems(a, 1) == [[]];
    assert b.items == [Hole] ==> PrintItems(b, 1) == [[]];
  }

  /** Two values print alike exactly when they are the same JSON value up to member order. */
  lemma {:induction false} CanonicalIsInjective(a: Json, b: Json)
    requires Held(a) && Held(b) && Supported(a) && Supported(b)
    ensures Canonicalize(a) == Canonicalize(b) <==> Denote(a) == Denote(b)
  {
    RoundTrip(a);
    RoundTrip(b);
    assert ReadValue(Print(a) + []) == Some((Denote(a), []));
    assert ReadValue(Print(b) + []) == Some((Denote(b), []));
    if Denote(a) == Denote(b) { SameValueSameText(a, b); }
  }

  /** With holes the printer does merge different content. */
  lemma SparseArraysCollide()
    ensures Canonicalize(Arr([Hole])) == Canonicalize(Arr([])) && Arr([Hole]) != Arr([])
  {
    assert Join([]) == [] && Join([[]]) == [];
    assert PrintItems(Arr([Hole]), 1) == [[]];
  }
}
