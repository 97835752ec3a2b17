/**
  `JSON.stringify` of a string (section 25.5.2.3 of ECMA-262, within the string
  grammar of section 7 of RFC 8259) over UTF-16 code units, and its reader.
 */
module JsonStrings {
  import opened Wrappers
  import opened JsonNumbers

  const QUOTE := 0x22
  const BACKSLASH := 0x5C
  const LETTER_U := 0x75

  predicate Unit(c: int) { 0 <= c < 0x10000 }

  predicate Units(t: Text) {
    forall i :: 0 <= i < |t| ==> Unit(t[i])
  }

  predicate High(c: int) { 0xD800 <= c <= 0xDBFF }
  predicate Low(c: int) { 0xDC00 <= c <= 0xDFFF }

  predicate PairAt(t: Text) {
    |t| >= 2 && High(t[0]) && Low(t[1])
  }

  /** The second unit of a two-unit escape, if the unit has one. */
  function ShortEscape(c: int): Option<int> {
    if c == 0x08 then Some(0x62)
    else if c == 0x09 then Some(0x74)
    else if c == 0x0A then Some(0x6E)
    else if c == 0x0C then Some(0x66)
    else if c == 0x0D then Some(0x72)
    else if c == QUOTE || c == BACKSLASH then Some(c)
    else None
  }

  function HexUnit(d: int): int {
    if d < 10 then 0x30 + d else 0x61 + d - 10
  }

  function UnicodeEscape(c: int): Text {
    [BACKSLASH, LETTER_U, HexUnit(c / 4096 % 16), HexUnit(c / 256 % 16), HexUnit(c / 16 % 16), HexUnit(c % 16)]
  }

  function EscapeUnit(c: int): Text {
    if ShortEscape(c).Some? then [BACKSLASH, ShortEscape(c).value]
    else if c < 0x20 || High(c) || Low(c) then UnicodeEscape(c)
    else [c]
  }

  /** A surrogate pair is copied; a surrogate on its own is escaped. */
  function Escape(s: Text): Text {
    if s == [] then []
    else if PairAt(s) then [s[0], s[1]] + Escape(s[2..])
    else EscapeUnit(s[0]) + Escape(s[1..])
  }

  function Quote(s: Text): Text {
    [QUOTE] + Escape(s) + [QUOTE]
  }

  // ---- Reading back ---------------------------------------------------------

  function HexValue(c: int): int {
    if c < 0x61 then c - 0x30 else c - 0x61 + 10
  }

  function LongEscape(c: int): int {
    if c == 0x62 then 0x08
    else if c == 0x74 then 0x09
    else if c == 0x6E then 0x0A
    else if c == 0x66 then 0x0C
    else if c == 0x72 then 0x0D
    else c
  }

  /** The string up to the closing quote, and what follows it. */
  function ReadChars(t: Text): (r: Option<(Text, Text)>)
    ensures r.Some? ==> |r.value.1| < |t|
  {
    if t == [] then None
    else if t[0] == QUOTE then Some(([], t[1..]))
    else if t[0] != BACKSLASH then Prepend(t[0], ReadChars(t[1..]))
    else if |t| < 2 then None
    else if t[1] != LETTER_U then Prepend(LongEscape(t[1]), ReadChars(t[2..]))
    else if |t| < 6 then None
    else
      var c := 4096 * HexValue(t[2]) + 256 * HexValue(t[3]) + 16 * HexValue(t[4]) + HexValue(t[5]);
      Prepend(c, ReadChars(t[6..]))
  }

  function Prepend(c: int, r: Option<(Text, Text)>): (q: Option<(Text, Text)>)
    ensures r.Some? <==> q.Some?
    ensures r.Some? ==> q.value.1 == r.value.1
  {
    if r.None? then None else Some(([c] + r.value.0, r.value.1))
  }

  lemma HexDigitBack(d: int)
    requires 0 <= d < 16
    ensures HexValue(HexUnit(d)) == d
  {}

  lemma HexBack(c: int)
    requires Unit(c)
    ensures var u := UnicodeEscape(c);
      4096 * HexValue(u[2]) + 256 * HexValue(u[3]) + 16 * HexValue(u[4]) + HexValue(u[5]) == c
  {
    var a, b := c / 16, c / 256;
    assert c == 16 * a + c % 16 && a == 16 * b + a % 16 && b == 16 * (c / 4096) + b % 16;
    HexDigitBack(c / 4096);
    HexDigitBack(b % 16);
    HexDigitBack(a % 16);
    HexDigitBack(c % 16);
  }

  lemma ReadOneUnit(c: int, rest: Text)
    requires Unit(c)
    ensures ReadChars(EscapeUnit(c) + rest) == Prepend(c, ReadChars(rest))
  {
    if ShortEscape(c).Some? {
      ReadShortEscape(c, ShortEscape(c).value, rest);
    } else if c < 0x20 || High(c) || Low(c) {
      HexBack(c);
      ReadUnicodeEscape(UnicodeEscape(c), rest);
    } else {
      assert ([c] + rest)[1..] == rest;
    }
  }

  lemma ReadShortEscape(c: int, letter: int, rest: Text)
    requires ShortEscape(c) == Some(letter)
    ensures ReadChars([BACKSLASH, letter] + rest) == Prepend(c, ReadChars(rest))
  {
    var t := [BACKSLASH, letter] + rest;
    assert t[2..] == rest && t[0] == BACKSLASH && t[1] == letter != LETTER_U;
    assert LongEscape(letter) == c;
  }

  lemma ReadUnicodeEscape(u: Text, rest: Text)
    requires |u| == 6 && u[0] == BACKSLASH && u[1] == LETTER_U
    ensures var c := 4096 * HexValue(u[2]) + 256 * HexValue(u[3]) + 16 * HexValue(u[4]) + HexValue(u[5]);
      ReadChars(u + rest) == Prepend(c, ReadChars(rest))
  {
    var t := u + rest;
    assert t[6..] == rest;
    assert t[0] == u[0] && t[1] == u[1] && t[2] == u[2] && t[3] == u[3] && t[4] == u[4] && t[5] == u[5];
  }

  lemma ReadPair(a: int, b: int, rest: Text)
    requires High(a) && Low(b)
    ensures ReadChars([a, b] + rest) == Prepend(a, Prepend(b, ReadChars(rest)))
  {
    var t := [a, b] + rest;
    assert t[1..] == [b] + rest && ([b] + rest)[1..] == rest;
  }

  lemma UnitThenRest(c: int, escaped: Text, back: Text, rest: Text)
    requires Unit(c) && ReadChars(escaped + ([QUOTE] + rest)) == Some((back, rest))
    ensures ReadChars(EscapeUnit(c) + escaped + ([QUOTE] + rest)) == Some(([c] + back, rest))
  {
    var tail := escaped + ([QUOTE] + rest);
    ReadOneUnit(c, tail);
    Regroup(EscapeUnit(c), escaped, [QUOTE] + rest);
  }

  lemma Regroup(a: Text, b: Text, c: Text)
    ensures a + b + c == a + (b + c)
  {}

  lemma PairThenRest(a: int, b: int, escaped: Text, back: Text, rest: Text)
    requires High(a) && Low(b) && ReadChars(escaped + ([QUOTE] + rest)) == Some((back, rest))
    ensures ReadChars([a, b] + escaped + ([QUOTE] + rest)) == Some(([a, b] + back, rest))
  {
    var tail := escaped + ([QUOTE] + rest);
    ReadPair(a, b, tail);
    Regroup([a, b], escaped, [QUOTE] + rest);
    assert [a] + ([b] + back) == [a, b] + back;
  }

  lemma {:induction false} EscapeRoundTrip(s: Text, rest: Text)
    requires Units(s)
    ensures ReadChars(Escape(s) + ([QUOTE] + rest)) == Some((s, rest))
    decreases |s|
  {
    if s == [] {
      var tail := [QUOTE] + rest;
      assert Escape(s) + tail == tail && tail[1..] == rest;
    } else if PairAt(s) {
      EscapeRoundTrip(s[2..], rest);
      PairThenRest(s[0], s[1], Escape(s[2..]), s[2..], rest);
      assert s == [s[0], s[1]] + s[2..];
    } else {
      EscapeRoundTrip(s[1..], rest);
      UnitThenRest(s[0], Escape(s[1..]), s[1..], rest);
      assert s == [s[0]] + s[1..];
    }
  }

  lemma QuoteRoundTrip(s: Text, rest: Text)
    requires Units(s)
    ensures (Quote(s) + rest)[0] == QUOTE && ReadChars((Quote(s) + rest)[1..]) == Some((s, rest))
  {
    EscapeRoundTrip(s, rest);
    assert (Quote(s) + rest)[1..] == Escape(s) + ([QUOTE] + rest);
  }

  // ---- Which form each unit takes ---------------------------------------------

  /** Seven units have an escape of two units. */
  lemma ShortForms()
    ensures EscapeUnit('"' as int) == ['\\' as int, '"' as int] && EscapeUnit('\\' as int) == ['\\' as int, '\\' as int]
    ensures EscapeUnit('\n' as int) == ['\\' as int, 'n' as int] && EscapeUnit('\r' as int) == ['\\' as int, 'r' as int]
    ensures EscapeUnit('\t' as int) == ['\\' as int, 't' as int]
    ensures EscapeUnit(0x08) == ['\\' as int, 'b' as int] && EscapeUnit(0x0C) == ['\\' as int, 'f' as int]
  {}

  /** The other controls, and a surrogate on its own, take `u` and four lower-case hex digits. */
  lemma LongForm(c: int)
    requires Unit(c) && (High(c) || Low(c) || (c < 0x20 && c != 0x08 && c != 0x09 && c != 0x0A && c != 0x0C && c != 0x0D))
    ensures var hex := "0123456789abcdef";
      EscapeUnit(c) == ['\\' as int, 'u' as int,
        hex[c / 4096] as int, hex[c / 256 % 16] as int, hex[c / 16 % 16] as int, hex[c % 16] as int]
  {
    LowerHex(c / 4096);
    LowerHex(c / 256 % 16);
    LowerHex(c / 16 % 16);
    LowerHex(c % 16);
  }

  lemma LowerHex(d: int)
    requires 0 <= d < 16
    ensures HexUnit(d) == "0123456789abcdef"[d] as int
  {}

  /** A unit that stands for itself inside quotes. */
  predicate Plain(c: int) {
    c >= 0x20 && c != '"' as int && c != '\\' as int && !High(c) && !Low(c)
  }

  lemma {:induction false} PlainEscapes(s: Text)
    requires forall i :: 0 <= i < |s| ==> Plain(s[i])
    ensures Escape(s) == s
    decreases |s|
  {
    if s != [] {
      PlainEscapes(s[1..]);
      assert s == [s[0]] + s[1..];
    }
  }

  /** A surrogate pair is copied. */
  lemma PairIsCopied(high: int, low: int)
    requires High(high) && Low(low)
    ensures Quote([high, low]) == ['"' as int, high, low, '"' as int]
  {
    assert Escape([]) == [] && [high, low][2..] == [];
  }

  /** Text of plain units is copied as it is. */
  lemma PlainIsCopied(s: Text)
    requires forall i :: 0 <= i < |s| ==> Plain(s[i])
    ensures Quote(s) == ['"' as int] + s + ['"' as int]
  {
    PlainEscapes(s);
  }

  /** A string is escaped piece by piece, unless the cut parts a surrogate pair. */
  lemma {:induction false} EscapeInPieces(a: Text, b: Text)
    requires a != [] && b != [] ==> !(High(a[|a| - 1]) && Low(b[0]))
    ensures Escape(a + b) == Escape(a) + Escape(b)
    decreases |a|
  {
    hide EscapeUnit;
    if a == [] {
      assert a + b == b;
    } else if PairAt(a) {
      assert (a + b)[2..] == a[2..] + b;
      EscapeInPieces(a[2..], b);
    } else {
      assert (a + b)[1..] == a[1..] + b;
      EscapeInPieces(a[1..], b);
    }
  }

  // ---- No lone surrogate is ever printed ------------------------------------

  predicate WellFormed(t: Text) {
    if t == [] then true
    else if PairAt(t) then WellFormed(t[2..])
    else Unit(t[0]) && !High(t[0]) && !Low(t[0]) && WellFormed(t[1..])
  }

  lemma {:induction false} WellFormedConcat(a: Text, b: Text)
    requires WellFormed(a) && WellFormed(b)
    ensures WellFormed(a + b)
    decreases |a|
  {
    if a == [] {
      assert a + b == b;
    } else if PairAt(a) {
      WellFormedConcat(a[2..], b);
      assert (a + b)[2..] == a[2..] + b;
    } else {
      WellFormedConcat(a[1..], b);
      assert (a + b)[1..] == a[1..] + b;
    }
  }

  predicate Ordinary(c: int) { Unit(c) && !High(c) && !Low(c) }

  lemma {:induction false} OrdinaryWellFormed(t: Text)
    requires forall i :: 0 <= i < |t| ==> Ordinary(t[i])
    ensures WellFormed(t)
    decreases |t|
  {
    if t != [] { OrdinaryWellFormed(t[1..]); }
  }

  lemma {:induction false} EscapeWellFormed(s: Text)
    requires Units(s)
    ensures WellFormed(Escape(s))
    decreases |s|
  {
    if s == [] {
    } else if PairAt(s) {
      EscapeWellFormed(s[2..]);
      var t := Escape(s);
      assert t[0] == s[0] && t[1] == s[1] && t[2..] == Escape(s[2..]);
    } else {
      EscapeWellFormed(s[1..]);
      assert forall d :: 0 <= d < 16 ==> Ordinary(HexUnit(d));
      OrdinaryWellFormed(EscapeUnit(s[0]));
      WellFormedConcat(EscapeUnit(s[0]), Escape(s[1..]));
    }
  }

  lemma QuoteWellFormed(s: Text)
    requires Units(s)
    ensures WellFormed(Quote(s))
  {
    EscapeWellFormed(s);
    OrdinaryWellFormed([QUOTE]);
    WellFormedConcat([QUOTE], Escape(s));
    WellFormedConcat([QUOTE] + Escape(s), [QUOTE]);
  }
}
