/**
  How JavaScript prints a finite number (section 6.1.6.1.20 of ECMA-262, the form
  section 3.2.2.3 of RFC 8785 adopts), and a reader that undoes it.

  A finite double is identified by its sign, its shortest digits and the position
  of the decimal point. The printer is proved injective on every such triple, of
  which the doubles are some.
 */
module JsonNumbers {
  import opened Wrappers
  import opened Decimals

  /** Text as UTF-16 code units. */
  type Text = seq<int>

  const DOT := 0x2E
  const MINUS := 0x2D
  const PLUS := 0x2B
  const EXPONENT := 0x65
  const DIGIT_ZERO := 0x30

  /** The value 0.d1d2...dk * 10^point, or a zero of either sign. */
  datatype Num = Zero(negative: bool) | NonZero(negative: bool, digits: seq<Digit>, point: int)
  {
    predicate Canonical() {
      Zero? || (digits != [] && digits[0] != 0 && digits[|digits| - 1] != 0)
    }

    /** The number as a value: the two zeros are one. */
    function Unsigned(): Num {
      if Zero? then Zero(false) else this
    }
  }

  function Chars(ds: seq<Digit>): (t: Text)
    ensures |t| == |ds|
  {
    if ds == [] then [] else [DIGIT_ZERO + ds[0]] + Chars(ds[1..])
  }

  predicate DigitUnit(c: int) {
    DIGIT_ZERO <= c <= DIGIT_ZERO + 9
  }

  lemma CharsAreDigits(ds: seq<Digit>)
    ensures forall i :: 0 <= i < |Chars(ds)| ==> DigitUnit(Chars(ds)[i])
  {}

  function ExponentText(e: int): Text {
    [EXPONENT] + (if e < 0 then [MINUS] else [PLUS]) + Chars(DigitsOf(if e < 0 then -e else e))
  }

  function Mantissa(whole: seq<Digit>, fraction: seq<Digit>): Text {
    Chars(whole) + (if fraction == [] then [] else [DOT] + Chars(fraction))
  }

  function ExponentPart(exponent: Option<int>): Text {
    if exponent.None? then [] else ExponentText(exponent.value)
  }

  function Signed(negative: bool, mantissa: Text, exponent: Option<int>): Text {
    (if negative then [MINUS] else []) + (mantissa + ExponentPart(exponent))
  }

  function Layout(negative: bool, whole: seq<Digit>, fraction: seq<Digit>, exponent: Option<int>): Text {
    Signed(negative, Mantissa(whole, fraction), exponent)
  }

  /** Which digits stand before and after the point, and the exponent if there is one. */
  function Form(digits: seq<Digit>, point: int): (seq<Digit>, seq<Digit>, Option<int>)
    requires digits != []
  {
    var k := |digits|;
    if k <= point <= 21 then (digits + Zeros(point - k), [], None)
    else if 0 < point <= 21 then (digits[..point], digits[point..], None)
    else if -6 < point <= 0 then ([0], Zeros(-point) + digits, None)
    else (digits[..1], digits[1..], Some(point - 1))
  }

  function PrintNumber(n: Num): Text
    requires n.Canonical()
  {
    match n
    case Zero(_) => [DIGIT_ZERO]
    case NonZero(negative, digits, point) =>
      var (whole, fraction, exponent) := Form(digits, point);
      Layout(negative, whole, fraction, exponent)
  }

  // ---- Reading back ---------------------------------------------------------

  /** The first place `c` stands, or the length. */
  function IndexOf(t: Text, c: int): (i: nat)
    ensures i <= |t|
  {
    if t == [] || t[0] == c then 0 else 1 + IndexOf(t[1..], c)
  }

  function DigitIn(c: int): Digit {
    if DigitUnit(c) then c - DIGIT_ZERO else 0
  }

  function DigitsIn(t: Text): (ds: seq<Digit>)
    ensures |ds| == |t|
  {
    if t == [] then [] else [DigitIn(t[0])] + DigitsIn(t[1..])
  }

  function ReadExponent(t: Text): int {
    if t == [] then 0
    else
      var size: int := ValueOf(DigitsIn(t[1..]));
      if t[0] == MINUS then -size else size
  }

  function StripTrailing(ds: seq<Digit>): seq<Digit> {
    if ds != [] && ds[|ds| - 1] == 0 then StripTrailing(ds[..|ds| - 1]) else ds
  }

  function Normal(negative: bool, ds: seq<Digit>, point: int): Num {
    if ds == [] then Zero(false)
    else if ds[0] == 0 then Normal(negative, ds[1..], point - 1)
    else NonZero(negative, StripTrailing(ds), point)
  }

  /** The digits around the point, and how many of them precede it. */
  function ReadMantissa(mantissa: Text): (seq<Digit>, nat) {
    var d := IndexOf(mantissa, DOT);
    (DigitsIn(mantissa[..d]) + DigitsIn(if d == |mantissa| then [] else mantissa[d + 1..]), d)
  }

  function ReadUnsigned(body: Text): (seq<Digit>, int) {
    var e := IndexOf(body, EXPONENT);
    var (ds, point) := ReadMantissa(body[..e]);
    (ds, point + if e == |body| then 0 else ReadExponent(body[e + 1..]))
  }

  function ReadNumber(t: Text): Num {
    var negative := t != [] && t[0] == MINUS;
    var (ds, point) := ReadUnsigned(if negative then t[1..] else t);
    Normal(negative, ds, point)
  }

  lemma {:induction false} IndexOfAt(a: Text, c: int, b: Text)
    requires c !in a
    ensures IndexOf(a, c) == |a| && IndexOf(a + [c] + b, c) == |a|
    decreases |a|
  {
    var t := a + [c] + b;
    if a == [] {
      assert t[0] == c;
    } else {
      IndexOfAt(a[1..], c, b);
      assert t[0] == a[0] && t[1..] == a[1..] + [c] + b;
    }
  }

  lemma CharsBack(ds: seq<Digit>)
    ensures DigitsIn(Chars(ds)) == ds
  {}

  lemma {:induction false} StripTrailingZeros(ds: seq<Digit>, n: nat)
    requires ds != [] && ds[|ds| - 1] != 0
    ensures StripTrailing(ds + Zeros(n)) == ds
    decreases n
  {
    if n == 0 {
      assert ds + Zeros(0) == ds;
    } else {
      StripTrailingZeros(ds, n - 1);
      assert (ds + Zeros(n))[..|ds| + n - 1] == ds + Zeros(n - 1);
    }
  }

  lemma {:induction false} NormalSkipsZeros(negative: bool, n: nat, ds: seq<Digit>, m: nat, point: int)
    requires ds != [] && ds[0] != 0 && ds[|ds| - 1] != 0
    ensures Normal(negative, Zeros(n) + ds + Zeros(m), point) == NonZero(negative, ds, point - n)
    decreases n
  {
    var all := Zeros(n) + ds + Zeros(m);
    if n == 0 {
      assert all == ds + Zeros(m);
      StripTrailingZeros(ds, m);
    } else {
      assert all[1..] == Zeros(n - 1) + ds + Zeros(m);
      NormalSkipsZeros(negative, n - 1, ds, m, point - 1);
    }
  }

  lemma ExponentBack(e: int)
    ensures ReadExponent(ExponentText(e)[1..]) == e
  {
    var ds := DigitsOf(if e < 0 then -e else e);
    var t := ExponentText(e)[1..];
    assert t[1..] == Chars(ds);
    CharsBack(ds);
  }

  lemma {:induction false} NotInChars(ds: seq<Digit>, c: int)
    requires !DigitUnit(c)
    ensures c !in Chars(ds)
    decreases |ds|
  {
    if ds != [] { NotInChars(ds[1..], c); }
  }

  lemma MantissaBack(whole: seq<Digit>, fraction: seq<Digit>)
    ensures ReadMantissa(Mantissa(whole, fraction)) == (whole + fraction, |whole|)
  {
    NotInChars(whole, DOT);
    CharsBack(whole);
    CharsBack(fraction);
    MantissaIs(whole, fraction);
    if fraction == [] { ReadsWhole(Chars(whole)); } else { ReadsAroundDot(Chars(whole), Chars(fraction)); }
  }

  lemma MantissaIs(whole: seq<Digit>, fraction: seq<Digit>)
    ensures Mantissa(whole, fraction) == if fraction == [] then Chars(whole) else Chars(whole) + [DOT] + Chars(fraction)
    ensures fraction == [] ==> whole + fraction == whole
  {}

  lemma MantissaUnits(whole: seq<Digit>, fraction: seq<Digit>)
    ensures EXPONENT !in Mantissa(whole, fraction) && MINUS !in Mantissa(whole, fraction)
    ensures whole != [] ==> Mantissa(whole, fraction) != [] && Mantissa(whole, fraction)[0] != MINUS
  {
    NotInChars(whole, EXPONENT);
    NotInChars(fraction, EXPONENT);
    NotInChars(whole, MINUS);
    NotInChars(fraction, MINUS);
  }

  lemma ReadsWhole(w: Text)
    requires DOT !in w
    ensures ReadMantissa(w) == (DigitsIn(w), |w|)
  {
    IndexOfAt(w, DOT, []);
    assert w[..|w|] == w && DigitsIn(w) + DigitsIn([]) == DigitsIn(w);
  }

  lemma ReadsAroundDot(w: Text, f: Text)
    requires DOT !in w
    ensures ReadMantissa(w + [DOT] + f) == (DigitsIn(w) + DigitsIn(f), |w|)
  {
    var m := w + [DOT] + f;
    IndexOfAt(w, DOT, f);
    assert m[..|w|] == w && m[|w| + 1..] == f;
  }

  lemma ReadAfterMantissa(m: Text, tail: Text, ds: seq<Digit>, point: nat, e: int)
    requires EXPONENT !in m && ReadMantissa(m) == (ds, point)
    requires if tail == [] then e == 0 else tail[0] == EXPONENT && ReadExponent(tail[1..]) == e
    ensures ReadUnsigned(m + tail) == (ds, point + e)
  {
    var body := m + tail;
    assert body[..|m|] == m;
    if tail == [] {
      assert body == m;
      IndexOfAt(m, EXPONENT, []);
    } else {
      assert body == m + [EXPONENT] + tail[1..];
      IndexOfAt(m, EXPONENT, tail[1..]);
      assert body[|m| + 1..] == tail[1..];
    }
  }

  lemma ReadAfterSign(negative: bool, u: Text, ds: seq<Digit>, point: int)
    requires u != [] && u[0] != MINUS && ReadUnsigned(u) == (ds, point)
    ensures ReadNumber((if negative then [MINUS] else []) + u) == Normal(negative, ds, point)
  {
    var t := (if negative then [MINUS] else []) + u;
    assert u == if negative then t[1..] else t;
  }

  lemma ReadParts(negative: bool, m: Text, tail: Text, ds: seq<Digit>, point: nat, e: int)
    requires m != [] && m[0] != MINUS && EXPONENT !in m && ReadMantissa(m) == (ds, point)
    requires if tail == [] then e == 0 else tail[0] == EXPONENT && ReadExponent(tail[1..]) == e
    ensures ReadNumber((if negative then [MINUS] else []) + (m + tail)) == Normal(negative, ds, point + e)
  {
    ReadAfterMantissa(m, tail, ds, point, e);
    ReadAfterSign(negative, m + tail, ds, point + e);
  }

  lemma ReadLayout(negative: bool, whole: seq<Digit>, fraction: seq<Digit>, exponent: Option<int>, ds: seq<Digit>, point: nat)
    requires whole != [] && ds == whole + fraction && point == |whole|
    ensures ReadNumber(Layout(negative, whole, fraction, exponent))
      == Normal(negative, ds, point + if exponent.None? then 0 else exponent.value)
  {
    MantissaBack(whole, fraction);
    MantissaUnits(whole, fraction);
    ReadTail(negative, Mantissa(whole, fraction), ds, point, exponent);
  }

  lemma ExponentPartBack(exponent: Option<int>) returns (tail: Text, e: int)
    ensures tail == ExponentPart(exponent) && e == if exponent.None? then 0 else exponent.value
    ensures if tail == [] then e == 0 else tail[0] == EXPONENT && ReadExponent(tail[1..]) == e
  {
    tail, e := ExponentPart(exponent), if exponent.None? then 0 else exponent.value;
    if exponent.Some? { ExponentBack(exponent.value); }
  }

  lemma ReadTail(negative: bool, m: Text, ds: seq<Digit>, point: nat, exponent: Option<int>)
    requires m != [] && m[0] != MINUS && EXPONENT !in m && ReadMantissa(m) == (ds, point)
    ensures ReadNumber(Signed(negative, m, exponent)) == Normal(negative, ds, point + if exponent.None? then 0 else exponent.value)
  {
    var tail, e := ExponentPartBack(exponent);
    ReadParts(negative, m, tail, ds, point, e);
  }

  lemma {:induction false} LayoutBack(negative: bool, whole: seq<Digit>, fraction: seq<Digit>, exponent: Option<int>,
                                      z: nat, digits: seq<Digit>, m: nat)
    requires digits != [] && digits[0] != 0 && digits[|digits| - 1] != 0
    requires whole != [] && whole + fraction == Zeros(z) + digits + Zeros(m)
    ensures ReadNumber(Layout(negative, whole, fraction, exponent)) ==
      NonZero(negative, digits, |whole| + (if exponent.None? then 0 else exponent.value) - z)
  {
    ReadLayout(negative, whole, fraction, exponent, whole + fraction, |whole|);
    NormalSkipsZeros(negative, z, digits, m, |whole| + if exponent.None? then 0 else exponent.value);
  }

  /** Every form spells the digits, padded with zeros, around the same point. */
  lemma FormPads(digits: seq<Digit>, point: int) returns (z: nat, m: nat)
    requires digits != []
    ensures var (whole, fraction, exponent) := Form(digits, point);
      whole != [] && whole + fraction == Zeros(z) + digits + Zeros(m)
      && |whole| + (if exponent.None? then 0 else exponent.value) - z == point
  {
    var k := |digits|;
    z, m := 0, 0;
    if k <= point <= 21 {
      m := point - k;
      assert digits + Zeros(m) + [] == Zeros(0) + digits + Zeros(m);
    } else if 0 < point <= 21 {
      assert digits[..point] + digits[point..] == Zeros(0) + digits + Zeros(0);
    } else if -6 < point <= 0 {
      z := 1 - point;
      assert [0] + (Zeros(-point) + digits) == Zeros(z) + digits + Zeros(0);
    } else {
      assert digits[..1] + digits[1..] == Zeros(0) + digits + Zeros(0);
    }
  }

  /** Reading undoes printing, for every sign, digits and magnitude. */
  lemma {:induction false} NumberRoundTrip(n: Num)
    requires n.Canonical()
    ensures ReadNumber(PrintNumber(n)) == n.Unsigned()
  {
    if n.Zero? {
      ReadLayout(false, [0], [], None, [0], 1);
      assert PrintNumber(n) == Layout(false, [0], [], None);
      assert [0] + [] == [0];
    } else {
      var z, m := FormPads(n.digits, n.point);
      var (whole, fraction, exponent) := Form(n.digits, n.point);
      LayoutBack(n.negative, whole, fraction, exponent, z, n.digits, m);
    }
  }

  /** Two numbers print alike exactly when they are the same number; only the two zeros merge. */
  lemma {:induction false} PrintIsInjective(a: Num, b: Num)
    requires a.Canonical() && b.Canonical()
    ensures PrintNumber(a) == PrintNumber(b) <==> a.Unsigned() == b.Unsigned()
  {
    NumberRoundTrip(a);
    NumberRoundTrip(b);
  }

  predicate NumberUnit(c: int) {
    DigitUnit(c) || c == MINUS || c == PLUS || c == DOT || c == EXPONENT
  }

  ghost predicate NumberText(t: Text) {
    t != [] && (t[0] == MINUS || DigitUnit(t[0]))
    && forall i :: 0 <= i < |t| ==> NumberUnit(t[i])
  }

  lemma LayoutUnits(negative: bool, whole: seq<Digit>, fraction: seq<Digit>, exponent: Option<int>)
    requires whole != []
    ensures NumberText(Layout(negative, whole, fraction, exponent))
  {
    var tail := if exponent.None? then [] else ExponentText(exponent.value);
    CharsAreDigits(whole);
    CharsAreDigits(fraction);
    if exponent.Some? { CharsAreDigits(DigitsOf(if exponent.value < 0 then -exponent.value else exponent.value)); }
    assert forall i :: 0 <= i < |Mantissa(whole, fraction)| ==> NumberUnit(Mantissa(whole, fraction)[i]);
    assert forall i :: 0 <= i < |tail| ==> NumberUnit(tail[i]);
    assert Mantissa(whole, fraction)[0] == Chars(whole)[0];
  }

  lemma PrintUnits(n: Num)
    requires n.Canonical()
    ensures NumberText(PrintNumber(n))
  {
    if n.NonZero? {
      var z, m := FormPads(n.digits, n.point);
      var (whole, fraction, exponent) := Form(n.digits, n.point);
      LayoutUnits(n.negative, whole, fraction, exponent);
    }
  }
}
