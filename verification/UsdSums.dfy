/** Summing decimal USD strings in cents (packages/shared/src/wallets.ts:61, 88-96). */
module UsdSums {
  import opened Wrappers
  import opened Decimals

  /** A string of digits, or of digits, a dot and digits; leading zeros are allowed. */
  datatype Usd = Usd(whole: seq<Digit>, fraction: Option<seq<Digit>>)

  predicate WellFormed(v: Usd) {
    v.whole != [] && (v.fraction.Some? ==> v.fraction.value != [])
  }

  function FractionOf(v: Usd): seq<Digit> {
    if v.fraction.Some? then v.fraction.value else []
  }

  function Cents(v: Usd): nat {
    var fraction := FractionOf(v);
    ValueOf(v.whole) * 100 + ValueOf((fraction + [0, 0])[..2])
    + if (if |fraction| > 2 then fraction[2] else 0) >= 5 then 1 else 0
  }

  function Present(values: seq<Option<Usd>>): seq<Usd> {
    if values == [] then []
    else
      var n := |values| - 1;
      Present(values[..n]) + if values[n].Some? then [values[n].value] else []
  }

  function TotalCents(present: seq<Usd>): nat {
    if present == [] then 0 else TotalCents(present[..|present| - 1]) + Cents(present[|present| - 1])
  }

  /** Dollars without leading zeros, and two digits of cents. */
  function FromCents(cents: nat): (v: Usd)
    ensures WellFormed(v) && v.fraction.Some? && |v.fraction.value| == 2
  {
    Usd(DigitsOf(cents / 100), Some([cents % 100 / 10, cents % 10]))
  }

  function SumUsd(values: seq<Option<Usd>>): Option<Usd> {
    var present := Present(values);
    if present == [] then None else Some(FromCents(TotalCents(present)))
  }

  // ---- How far off a sum is -------------------------------------------------

  predicate FitsIn(v: Usd, k: nat) {
    |FractionOf(v)| <= k
  }

  /** The amount the string denotes, in units of 10^-k dollars. */
  function Exact(v: Usd, k: nat): nat
    requires FitsIn(v, k)
  {
    ValueOf(v.whole) * Pow10(k) + ValueOf(FractionOf(v)) * Pow10(k - |FractionOf(v)|)
  }

  function ExactTotal(present: seq<Usd>, k: nat): nat
    requires forall i :: 0 <= i < |present| ==> FitsIn(present[i], k)
  {
    if present == [] then 0 else ExactTotal(present[..|present| - 1], k) + Exact(present[|present| - 1], k)
  }

  function Distance(a: int, b: int): nat {
    if a < b then b - a else a - b
  }

  lemma TwoDigits(a: Digit, b: Digit)
    ensures ValueOf([a]) == a && ValueOf([a, b]) == 10 * a + b
  {
    var one: seq<Digit>, two: seq<Digit> := [a], [a, b];
    assert one[..|one| - 1] == [] && two[..|two| - 1] == one;
  }

  lemma Pow10Small()
    ensures Pow10(0) == 1 && Pow10(1) == 10 && Pow10(2) == 100 && Pow10(3) == 1000
  {}

  lemma FirstTwo(f: seq<Digit>)
    requires |f| <= 2
    ensures ValueOf((f + [0, 0])[..2]) * Pow10(|f|) == 100 * ValueOf(f)
  {
    Pow10Small();
    var two: seq<Digit> := (f + [0, 0])[..2];
    if |f| == 0 {
      TwoDigits(0, 0);
      assert two == [0, 0];
    } else if |f| == 1 {
      TwoDigits(f[0], 0);
      assert two == [f[0], 0] && f == [f[0]];
    } else {
      assert two == f;
    }
  }

  lemma ShortCents(v: Usd) returns (two: nat)
    requires |FractionOf(v)| <= 2
    ensures Cents(v) == ValueOf(v.whole) * 100 + two
    ensures two * Pow10(|FractionOf(v)|) == 100 * ValueOf(FractionOf(v))
  {
    FirstTwo(FractionOf(v));
    two := ValueOf((FractionOf(v) + [0, 0])[..2]);
  }

  /** With at most two digits nothing is cut. */
  lemma ShortIsExact(v: Usd, k: nat)
    requires FitsIn(v, k) && |FractionOf(v)| <= 2
    ensures Cents(v) * Pow10(k) == 100 * Exact(v, k)
  {
    var f := FractionOf(v);
    var two := ShortCents(v);
    PowAdd(|f|, k - |f|);
    Scales(ValueOf(v.whole), two, ValueOf(f), Pow10(|f|), Pow10(k - |f|), Cents(v), Exact(v, k), Pow10(k));
  }

  /** `cents` is the whole number nearest to `amount` out of `unit`, the greater one when two are as near. */
  predicate NearestUp(cents: int, unit: int, amount: int) {
    2 * (cents * unit) <= 2 * amount + unit < 2 * (cents * unit) + 2 * unit
  }

  /** Cutting to two digits and rounding on the third gives the nearest cent, halves up, and everything without a third digit. */
  lemma CentsAreNearest(v: Usd, k: nat)
    requires FitsIn(v, k)
    ensures NearestUp(Cents(v), Pow10(k), 100 * Exact(v, k))
    ensures |FractionOf(v)| <= 2 ==> Cents(v) * Pow10(k) == 100 * Exact(v, k)
  {
    if |FractionOf(v)| <= 2 { ShortIsExact(v, k); } else { RoundsNear(v, k); }
  }

  lemma CentsAreNear(v: Usd, k: nat)
    requires FitsIn(v, k)
    ensures 2 * Distance(Cents(v) * Pow10(k), 100 * Exact(v, k)) <= Pow10(k)
    ensures |FractionOf(v)| <= 2 ==> Cents(v) * Pow10(k) == 100 * Exact(v, k)
  {
    CentsAreNearest(v, k);
  }

  lemma Scales(whole: nat, two: nat, part: nat, p: nat, q: nat, cents: nat, exact: nat, unit: nat)
    requires two * p == 100 * part && unit == p * q
    requires cents == whole * 100 + two && exact == whole * unit + part * q
    ensures cents * unit == 100 * exact
  {
    assert two * (p * q) == two * p * q == 100 * part * q;
    assert cents * unit == whole * 100 * unit + two * unit;
  }

  lemma RoundsNear(v: Usd, k: nat)
    requires FitsIn(v, k) && |FractionOf(v)| > 2
    ensures NearestUp(Cents(v), Pow10(k), 100 * Exact(v, k))
  {
    hide Pow10, ValueOf, NearestUp;
    var f := FractionOf(v);
    var head, third, rest := f[..2], f[2], f[3..];
    assert (f + [0, 0])[..2] == head && f == head + ([third] + rest);
    ThreeParts(head, third, rest);
    ValueBound(rest);
    UnitParts(|rest|, k - |f|, k);
    Rounding(ValueOf(v.whole), ValueOf(head), third, ValueOf(rest), Pow10(|rest|), Pow10(k - |f|));
  }

  lemma ThreeParts(head: seq<Digit>, third: Digit, rest: seq<Digit>)
    ensures ValueOf(head + ([third] + rest)) == ValueOf(head) * (10 * Pow10(|rest|)) + (third * Pow10(|rest|) + ValueOf(rest))
  {
    ValueConcat(head, [third] + rest);
    ValueConcat([third], rest);
    TwoDigits(third, third);
  }

  lemma UnitParts(a: nat, b: nat, k: nat)
    requires k == 3 + a + b
    ensures Pow10(k) == 1000 * Pow10(a) * Pow10(b)
  {
    PowAdd(3 + a, b);
    PowAdd(3, a);
    Pow10Small();
  }

  lemma Rounding(whole: nat, head: nat, third: Digit, rest: nat, p: nat, q: nat)
    requires rest < p && q >= 1
    ensures var cents := whole * 100 + head + if third >= 5 then 1 else 0;
      var exact := whole * (1000 * p * q) + (head * (10 * p) + (third * p + rest)) * q;
      NearestUp(cents, 1000 * p * q, 100 * exact)
  {
    var d: int := third;
    var up := if d >= 5 then 1 else 0;
    CentsInUnits(whole, head, up, p, q);
    ExactInUnits(whole, head, d, rest, p, q);
    RestInUnits(rest, p, q);
    ThirdDigit(d, p * q, rest * q, up, whole * (p * q), head * (p * q));
  }

  lemma RestInUnits(rest: nat, p: nat, q: nat)
    requires rest < p && q >= 1
    ensures 0 <= rest * q < p * q && 1000 * p * q == 1000 * (p * q)
  {
    assert 1 <= (p - rest) * q == p * q - rest * q;
  }

  lemma CentsInUnits(whole: nat, head: nat, up: nat, p: nat, q: nat)
    ensures (whole * 100 + head + up) * (1000 * p * q)
      == 100000 * (whole * (p * q)) + 1000 * (head * (p * q)) + 1000 * (up * (p * q))
  {
    var unit := p * q;
    assert 1000 * p * q == 1000 * unit;
    assert (whole * 100 + head + up) * (1000 * unit) == 100000 * (whole * unit) + 1000 * (head * unit) + 1000 * (up * unit);
  }

  lemma ExactInUnits(whole: nat, head: nat, d: int, rest: nat, p: nat, q: nat)
    ensures whole * (1000 * p * q) + (head * (10 * p) + (d * p + rest)) * q
      == 1000 * (whole * (p * q)) + (10 * (head * (p * q)) + d * (p * q) + rest * q)
  {
    assert whole * (1000 * p * q) == 1000 * (whole * (p * q));
    assert head * (10 * p) * q == 10 * (head * (p * q));
    assert d * p * q == d * (p * q);
  }

  lemma ThirdDigit(d: int, unit: int, r: int, up: int, w: int, h: int)
    requires 0 <= d <= 9 && 0 <= r < unit && up == if d >= 5 then 1 else 0
    ensures var cents, exact := 100000 * w + 1000 * h + 1000 * (up * unit), 1000 * w + (10 * h + d * unit + r);
      2 * cents <= 200 * exact + 1000 * unit < 2 * cents + 2000 * unit
  {
    assert d >= 5 ==> 5 * unit <= d * unit <= 9 * unit;
    assert d < 5 ==> 0 <= d * unit <= 4 * unit;
  }

  // ---- The sum as a whole ---------------------------------------------------

  lemma {:induction false} TotalIsNear(present: seq<Usd>, k: nat)
    requires forall i :: 0 <= i < |present| ==> FitsIn(present[i], k)
    ensures 2 * Distance(TotalCents(present) * Pow10(k), 100 * ExactTotal(present, k)) <= |present| * Pow10(k)
    ensures (forall i :: 0 <= i < |present| ==> FitsIn(present[i], 2)) ==>
      TotalCents(present) * Pow10(k) == 100 * ExactTotal(present, k)
    decreases |present|
  {
    if present != [] {
      var n := |present| - 1;
      TotalIsNear(present[..n], k);
      CentsAreNear(present[n], k);
      Distribute(TotalCents(present[..n]), Cents(present[n]), n, Pow10(k));
    }
  }

  lemma Distribute(a: nat, b: nat, n: nat, p: nat)
    ensures (a + b) * p == a * p + b * p && (n + 1) * p == n * p + p
  {}

  /** The printed cents say exactly what was added up. */
  lemma FromCentsIsExact(cents: nat)
    ensures Cents(FromCents(cents)) == cents
  {
    var v := FromCents(cents);
    var c := cents % 100;
    TwoDigits(c / 10, cents % 10);
    assert (FractionOf(v) + [0, 0])[..2] == [c / 10, cents % 10];
    assert c == 10 * (c / 10) + cents % 10;
  }

  /** A sum is null exactly when nothing was readable, and else within half a cent for every value added. */
  lemma SumIsNear(values: seq<Option<Usd>>, k: nat)
    requires k >= 2 && forall i :: 0 <= i < |Present(values)| ==> FitsIn(Present(values)[i], k)
    ensures SumUsd(values).None? <==> forall i :: 0 <= i < |values| ==> values[i].None?
    ensures SumUsd(values).Some? ==>
      2 * Distance(100 * Exact(SumUsd(values).value, k), 100 * ExactTotal(Present(values), k)) <= |Present(values)| * Pow10(k)
  {
    NoneAreNone(values);
    TotalIsNear(Present(values), k);
    var cents := TotalCents(Present(values));
    FromCentsIsExact(cents);
    CentsAreNear(FromCents(cents), k);
  }

  lemma NoLeadingZero(cents: nat)
    ensures var v := FromCents(cents); |v.whole| > 1 ==> v.whole[0] != 0
  {
    var whole := DigitsOf(cents / 100);
    assert whole[0] == 0 ==> whole == [0];
  }

  /** The sum's text has two decimals and no leading zero, and says exactly the cents added up. */
  lemma SumSays(values: seq<Option<Usd>>)
    requires SumUsd(values).Some?
    ensures var v := SumUsd(values).value;
      && v.whole != [] && (|v.whole| > 1 ==> v.whole[0] != 0) && v.fraction.Some? && |v.fraction.value| == 2
      && Exact(v, 2) == TotalCents(Present(values))
  {
    var cents := TotalCents(Present(values));
    FromCentsIsExact(cents);
    NoLeadingZero(cents);
    CentsAreNear(FromCents(cents), 2);
    Pow10Small();
  }

  lemma {:induction false} NoneAreNone(values: seq<Option<Usd>>)
    ensures Present(values) == [] <==> forall i :: 0 <= i < |values| ==> values[i].None?
    decreases |values|
  {
    if values != [] {
      var n := |values| - 1;
      NoneAreNone(values[..n]);
      assert forall i :: 0 <= i < n ==> values[..n][i] == values[i];
    }
  }

  lemma {:induction false} PresentConcat(a: seq<Option<Usd>>, b: seq<Option<Usd>>)
    ensures Present(a + b) == Present(a) + Present(b)
    decreases |b|
  {
    if b == [] {
      assert a + b == a;
    } else {
      var n := |b| - 1;
      assert (a + b)[..|a| + n] == a + b[..n];
      PresentConcat(a, b[..n]);
    }
  }

  lemma {:induction false} TotalConcat(a: seq<Usd>, b: seq<Usd>)
    ensures TotalCents(a + b) == TotalCents(a) + TotalCents(b)
    decreases |b|
  {
    if b == [] {
      assert a + b == a;
    } else {
      var n := |b| - 1;
      assert (a + b)[..|a| + n] == a + b[..n];
      TotalConcat(a, b[..n]);
    }
  }

  function AsList(o: Option<Usd>): seq<Usd> {
    if o.Some? then [o.value] else []
  }

  lemma PresentPair(a: Option<Usd>, b: Option<Usd>)
    ensures Present([a, b]) == AsList(a) + AsList(b)
  {
    var one, two := [a], [a, b];
    assert one[..|one| - 1] == [] && two[..|two| - 1] == one;
    assert Present(one) == AsList(a);
  }

  lemma SumTotal(values: seq<Option<Usd>>)
    ensures TotalCents(AsList(SumUsd(values))) == TotalCents(Present(values))
    ensures AsList(SumUsd(values)) == [] <==> Present(values) == []
  {
    if SumUsd(values).Some? {
      FromCentsIsExact(TotalCents(Present(values)));
      var v := SumUsd(values).value;
      assert [v][..0] == [];
    }
  }

  lemma TotalsCompose(a: seq<Option<Usd>>, b: seq<Option<Usd>>)
    ensures TotalCents(Present([SumUsd(a), SumUsd(b)])) == TotalCents(Present(a + b))
  {
    PresentPair(SumUsd(a), SumUsd(b));
    TotalConcat(AsList(SumUsd(a)), AsList(SumUsd(b)));
    SumTotal(a);
    SumTotal(b);
    PresentConcat(a, b);
    TotalConcat(Present(a), Present(b));
  }

  /** Account totals add up to the total of all assets, unreadable ones included. */
  lemma SumsCompose(a: seq<Option<Usd>>, b: seq<Option<Usd>>)
    ensures SumUsd([SumUsd(a), SumUsd(b)]) == SumUsd(a + b)
  {
    TotalsCompose(a, b);
    PresentPair(SumUsd(a), SumUsd(b));
    PresentConcat(a, b);
  }

  lemma {:induction false} RemoveOne(values: seq<Option<Usd>>, i: nat)
    requires i < |values|
    ensures TotalCents(Present(values)) == TotalCents(Present(values[..i] + values[i + 1..])) + TotalCents(AsList(values[i]))
  {
    var a, b := values[..i], values[i + 1..];
    assert values == a + ([values[i]] + b);
    assert Present([values[i]]) == AsList(values[i]) by { assert [values[i]][..0] == []; }
    PresentConcat(a, [values[i]] + b);
    PresentConcat([values[i]], b);
    PresentConcat(a, b);
    TotalConcat(Present(a), AsList(values[i]) + Present(b));
    TotalConcat(AsList(values[i]), Present(b));
    TotalConcat(Present(a), Present(b));
  }

  lemma TakeOut(a: seq<Option<Usd>>, b: seq<Option<Usd>>) returns (i: nat)
    requires a != [] && multiset(a) == multiset(b)
    ensures i < |b| && b[i] == a[0] && multiset(a[1..]) == multiset(b[..i] + b[i + 1..])
  {
    assert a[0] in multiset(b);
    i :| 0 <= i < |b| && b[i] == a[0];
    assert a == [a[0]] + a[1..];
    assert b == b[..i] + ([b[i]] + b[i + 1..]);
    assert multiset([a[0]] + a[1..]) == multiset([a[0]]) + multiset(a[1..]);
    assert multiset(b[..i] + ([b[i]] + b[i + 1..])) == multiset(b[..i]) + (multiset([b[i]]) + multiset(b[i + 1..]));
    assert multiset(b[..i] + b[i + 1..]) == multiset(b[..i]) + multiset(b[i + 1..]);
    assert multiset(a[1..]) == multiset(a) - multiset([a[0]]);
  }

  lemma {:induction false} SameTotal(a: seq<Option<Usd>>, b: seq<Option<Usd>>)
    requires multiset(a) == multiset(b)
    ensures TotalCents(Present(a)) == TotalCents(Present(b))
    decreases |a|
  {
    if a == [] {
      assert |multiset(b)| == |b|;
    } else {
      var i := TakeOut(a, b);
      var rest := b[..i] + b[i + 1..];
      SameTotal(a[1..], rest);
      RemoveFirst(a);
      RemoveOne(b, i);
    }
  }

  lemma RemoveFirst(a: seq<Option<Usd>>)
    requires a != []
    ensures TotalCents(Present(a)) == TotalCents(Present(a[1..])) + TotalCents(AsList(a[0]))
  {
    hide TotalCents, Present, AsList;
    RemoveOne(a, 0);
    assert a[..0] + a[1..] == a[1..];
  }

  /** The order of the values does not matter. */
  lemma SumForgetsOrder(a: seq<Option<Usd>>, b: seq<Option<Usd>>)
    requires multiset(a) == multiset(b)
    ensures SumUsd(a) == SumUsd(b)
  {
    SameTotal(a, b);
    NoneAreNone(a);
    NoneAreNone(b);
    forall i | 0 <= i < |a| ensures a[i] in multiset(b) { assert a[i] in multiset(a); }
    forall i | 0 <= i < |b| ensures b[i] in multiset(a) { assert b[i] in multiset(b); }
  }
}
