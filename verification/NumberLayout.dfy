/**
  Which notation a number is printed in: plain digits, a point among them, leading
  zeros after "0.", or an exponent, by the magnitude alone
  (packages/shared/src/request-review.ts:19; section 6.1.6.1.20 of ECMA-262).
 */
module NumberLayout {
  import opened Wrappers
  import opened Decimals
  import opened JsonNumbers

  /** Digits as characters, one for one. */
  function Spelled(ds: seq<Digit>): (t: Text)
    ensures |t| == |ds|
  {
    seq(|ds|, i requires 0 <= i < |ds| => '0' as int + ds[i])
  }

  function Sign(negative: bool): Text {
    if negative then ['-' as int] else []
  }

  lemma {:induction false} CharsAreSpelled(ds: seq<Digit>)
    ensures Chars(ds) == Spelled(ds)
    decreases |ds|
  {
    if ds != [] { CharsAreSpelled(ds[1..]); }
  }

  lemma SpelledConcat(a: seq<Digit>, b: seq<Digit>)
    ensures Spelled(a + b) == Spelled(a) + Spelled(b)
  {}

  lemma ZeroIsBare(n: Num)
    requires n.Zero?
    ensures PrintNumber(n) == ['0' as int]
  {}

  /** No more digits than stand before the point, at most 21: the digits, filled up with zeros, and no point. */
  lemma WholeLayout(n: Num)
    requires n.Canonical() && n.NonZero? && |n.digits| <= n.point <= 21
    ensures PrintNumber(n) == Sign(n.negative) + (Spelled(n.digits) + Spelled(Zeros(n.point - |n.digits|)))
    ensures '.' as int !in PrintNumber(n)
  {
    var k := |n.digits|;
    CharsAreSpelled(n.digits + Zeros(n.point - k));
    SpelledConcat(n.digits, Zeros(n.point - k));
    var body := Spelled(n.digits) + Spelled(Zeros(n.point - k));
    assert PrintNumber(n) == Sign(n.negative) + (body + [] + []);
    assert body + [] + [] == body;
    NoneStands(Sign(n.negative), body, '.' as int);
  }

  lemma NoneStands(a: Text, b: Text, c: int)
    requires c !in a && c !in b
    ensures c !in a + b
  {}

  /** A point inside the digits stands after exactly `point` of them. */
  lemma PointedLayout(n: Num)
    requires n.Canonical() && n.NonZero? && 0 < n.point < |n.digits| && n.point <= 21
    ensures PrintNumber(n)
      == Sign(n.negative) + (Spelled(n.digits[..n.point]) + (['.' as int] + Spelled(n.digits[n.point..])))
  {
    CharsAreSpelled(n.digits[..n.point]);
    CharsAreSpelled(n.digits[n.point..]);
    var mantissa := Spelled(n.digits[..n.point]) + (['.' as int] + Spelled(n.digits[n.point..]));
    assert PrintNumber(n) == Sign(n.negative) + (mantissa + []);
    assert mantissa + [] == mantissa;
  }

  /** A fraction with at most five zeros after the point is written out. */
  lemma SmallLayout(n: Num)
    requires n.Canonical() && n.NonZero? && -6 < n.point <= 0
    ensures PrintNumber(n)
      == Sign(n.negative) + (['0' as int, '.' as int] + (Spelled(Zeros(-n.point)) + Spelled(n.digits)))
  {
    var fraction := Zeros(-n.point) + n.digits;
    CharsAreSpelled([0]);
    CharsAreSpelled(fraction);
    SpelledConcat(Zeros(-n.point), n.digits);
    var mantissa := ['0' as int] + (['.' as int] + Spelled(fraction));
    assert Spelled([0]) == ['0' as int];
    assert PrintNumber(n) == Sign(n.negative) + (mantissa + []);
    assert mantissa + [] == ['0' as int, '.' as int] + Spelled(fraction);
  }

  /** Any other magnitude has one digit before the point and the signed exponent `point - 1`. */
  lemma ExponentLayout(n: Num)
    requires n.Canonical() && n.NonZero? && (n.point > 21 || n.point <= -6)
    ensures var e := n.point - 1;
      PrintNumber(n) == Sign(n.negative)
        + ((Spelled(n.digits[..1]) + (if |n.digits| == 1 then [] else ['.' as int] + Spelled(n.digits[1..])))
           + (['e' as int, (if e < 0 then '-' else '+') as int] + Spelled(DigitsOf(if e < 0 then -e else e))))
  {
    hide Chars, Spelled, DigitsOf;
    var e := n.point - 1;
    CharsAreSpelled(n.digits[..1]);
    CharsAreSpelled(n.digits[1..]);
    CharsAreSpelled(DigitsOf(if e < 0 then -e else e));
    assert ExponentText(e) == ['e' as int, (if e < 0 then '-' else '+') as int] + Spelled(DigitsOf(if e < 0 then -e else e));
  }

  lemma SpelledDigits(ds: seq<Digit>, c: int)
    requires c < '0' as int || '9' as int < c
    ensures c !in Spelled(ds)
  {}

  /** An exponent is written exactly when the magnitude calls for one. */
  lemma ExponentExactly(n: Num)
    requires n.Canonical() && n.NonZero?
    ensures 'e' as int in PrintNumber(n) <==> n.point > 21 || n.point <= -6
  {
    var c := 'e' as int;
    SpelledDigits(n.digits, c);
    if n.point > 21 || n.point <= -6 {
      ExponentLayout(n);
      assert c in [c, (if n.point - 1 < 0 then '-' else '+') as int];
    } else if |n.digits| <= n.point {
      WholeLayout(n);
      SpelledDigits(Zeros(n.point - |n.digits|), c);
    } else if 0 < n.point {
      PointedLayout(n);
      SpelledDigits(n.digits[..n.point], c);
      SpelledDigits(n.digits[n.point..], c);
    } else {
      SmallLayout(n);
      SpelledDigits(Zeros(-n.point), c);
    }
  }
}
