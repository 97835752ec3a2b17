/** Printing an atomic token amount (packages/shared/src/wallets.ts:60, 98-107), and reading it back. */
module TokenAmounts {
  import opened Wrappers
  import opened Decimals

  /** BigInt division and remainder of non-negative numbers. */
  function Quotient(a: nat, p: nat): (q: nat)
    requires p >= 1
    ensures q * p <= a < q * p + p
  {
    DivisionFacts(a, p);
    a / p
  }

  lemma DivisionFacts(a: nat, p: nat)
    requires p >= 1
    ensures a / p >= 0 && a / p * p <= a < a / p * p + p
  {
    var q, r := a / p, a % p;
    assert a == p * q + r && 0 <= r < p;
  }

  function Remainder(a: nat, p: nat): (r: nat)
    requires p >= 1
    ensures r < p && a == Quotient(a, p) * p + r
  {
    a - Quotient(a, p) * p
  }

  lemma FullStep(k: nat, q: nat, p: nat)
    requires k < q
    ensures k * p + p <= q * p
  {
    Distributes(k + 1, q - k - 1, p);
    Distributes(k, 1, p);
  }

  lemma Distributes(a: nat, b: nat, p: nat)
    ensures (a + b) * p == a * p + b * p && b * p >= 0
  {}

  lemma QuotientIs(a: nat, p: nat, q: nat)
    requires p >= 1 && q * p <= a < q * p + p
    ensures Quotient(a, p) == q
  {
    SameQuotient(a, p, Quotient(a, p), q);
  }

  lemma SameQuotient(a: nat, p: nat, k: nat, q: nat)
    requires k * p <= a < k * p + p && q * p <= a < q * p + p
    ensures k == q
  {
    if k < q { FullStep(k, q, p); }
    if q < k { FullStep(q, k, p); }
  }

  // ---- The printer ----------------------------------------------------------

  function PadStart(ds: seq<Digit>, width: nat): seq<Digit> {
    if |ds| < width then Zeros(width - |ds|) + ds else ds
  }

  function Cut(ds: seq<Digit>, n: nat): seq<Digit> {
    if |ds| <= n then ds else ds[..n]
  }

  function DropZeros(ds: seq<Digit>): seq<Digit> {
    if ds != [] && ds[|ds| - 1] == 0 then DropZeros(ds[..|ds| - 1]) else ds
  }

  /** A digit with `n` more to come. */
  function GroupHead(d: Digit, n: nat): string {
    Spell([d]) + if n % 3 == 0 then "," else ""
  }

  /** A comma stands before every digit, but the first, that starts a whole number of threes. */
  function Grouped(ds: seq<Digit>): string {
    if |ds| <= 1 then Spell(ds)
    else GroupHead(ds[0], |ds| - 1) + Grouped(ds[1..])
  }

  function FractionDigits(value: nat, decimals: nat, maxFraction: nat): seq<Digit> {
    DropZeros(Cut(PadStart(DigitsOf(Remainder(value, Pow10(decimals))), decimals), maxFraction))
  }

  /** The smallest amount above nothing that `maxFraction` digits can show. */
  function Smallest(maxFraction: nat): string
    requires maxFraction > 0
  {
    "<0." + Spell(Zeros(maxFraction - 1)) + "1"
  }

  /** `amount` is a string of digits; repeating a string -1 times throws. */
  function FormatTokenAmount(amount: seq<Digit>, decimals: nat, maxFraction: nat): Result<string, string> {
    var value := ValueOf(amount);
    var whole := Quotient(value, Pow10(decimals));
    var fraction := FractionDigits(value, decimals, maxFraction);
    if fraction == [] && whole == 0 && value > 0 then
      if maxFraction == 0 then Err("RangeError") else Ok(Smallest(maxFraction))
    else if fraction != [] then Ok(Grouped(DigitsOf(whole)) + "." + Spell(fraction))
    else Ok(Grouped(DigitsOf(whole)))
  }

  // ---- A reader -------------------------------------------------------------

  predicate IsDigit(c: char) {
    '0' <= c <= '9'
  }

  function DigitIn(c: char): Digit
    requires IsDigit(c)
  {
    c as int - '0' as int
  }

  /** The digits of a text, commas removed. */
  function DigitsIn(s: string): seq<Digit> {
    if s == "" then [] else DigitsOfChar(s[0]) + DigitsIn(s[1..])
  }

  function BeforeDot(s: string): string {
    if s == "" || s[0] == '.' then "" else [s[0]] + BeforeDot(s[1..])
  }

  function AfterDot(s: string): string {
    if s == "" then "" else if s[0] == '.' then s[1..] else AfterDot(s[1..])
  }

  /** A whole part and fraction digits, in units of 10^-m. */
  function InUnits(whole: nat, fraction: seq<Digit>, m: nat): nat
    requires |fraction| <= m
  {
    whole * Pow10(m) + ValueOf(fraction) * Pow10(m - |fraction|)
  }

  /** What a text says, in units of 10^-m; its fraction has at most `m` digits. */
  function Reads(s: string, m: nat): nat
    requires |DigitsIn(AfterDot(s))| <= m
  {
    InUnits(ValueOf(DigitsIn(BeforeDot(s))), DigitsIn(AfterDot(s)), m)
  }

  lemma {:induction false} SpellReads(ds: seq<Digit>)
    ensures DigitsIn(Spell(ds)) == ds && '.' !in Spell(ds) && ',' !in Spell(ds) && |Spell(ds)| == |ds|
    decreases |ds|
  {
    if ds != [] {
      SpellReads(ds[1..]);
      SpellDigit(ds[0]);
      assert Spell(ds)[1..] == Spell(ds[1..]);
      assert ds == [ds[0]] + ds[1..];
    }
  }

  lemma SpellDigit(d: Digit)
    ensures var c := "0123456789"[d]; IsDigit(c) && DigitIn(c) == d && c != '.' && c != ','
  {
    assert forall e :: 0 <= e <= 9 ==> "0123456789"[e] as int == '0' as int + e;
  }

  function DigitsOfChar(c: char): seq<Digit> {
    if IsDigit(c) then [DigitIn(c)] else []
  }

  lemma DigitsInNext(c: char, s: string)
    ensures DigitsIn([c] + s) == DigitsOfChar(c) + DigitsIn(s)
  {
    assert ([c] + s)[1..] == s;
  }

  lemma {:induction false} DigitsInConcat(a: string, b: string)
    ensures DigitsIn(a + b) == DigitsIn(a) + DigitsIn(b)
    decreases |a|
  {
    if a == "" {
      assert a + b == b;
    } else {
      assert a == [a[0]] + a[1..] && a + b == [a[0]] + (a[1..] + b);
      DigitsInNext(a[0], a[1..]);
      DigitsInNext(a[0], a[1..] + b);
      DigitsInConcat(a[1..], b);
    }
  }

  lemma {:induction false} DotSplits(a: string, b: string)
    requires '.' !in a
    ensures BeforeDot(a + "." + b) == a && AfterDot(a + "." + b) == b
    ensures BeforeDot(a) == a && AfterDot(a) == ""
    decreases |a|
  {
    var all := a + "." + b;
    if a == "" {
      assert all == "." + b && all[1..] == b;
    } else {
      assert all[1..] == a[1..] + "." + b;
      DotSplits(a[1..], b);
    }
  }

  // ---- Grouping -------------------------------------------------------------

  /** Read from the right: every fourth character, and no other, is a comma, and the text never starts with one. */
  ghost predicate InThrees(s: string) {
    && (s != "" ==> s[0] != ',')
    && forall j :: 0 <= j < |s| ==> (s[j] == ',' <==> (|s| - 1 - j) % 4 == 3)
  }

  lemma GroupedHead(d: Digit)
    ensures |Spell([d])| == 1 && DigitsIn(Spell([d])) == [d] && Spell([d])[0] != ',' && Spell([d])[0] != '.'
  {
    SpellReads([d]);
    SpellDigit(d);
  }

  lemma HeadOfGroups(d: Digit, n: nat)
    ensures var head := GroupHead(d, n);
      |head| == (if n % 3 == 0 then 2 else 1) && head[0] != ',' && (|head| == 2 ==> head[1] == ',')
      && '.' !in head && DigitsIn(head) == [d]
  {
    GroupedHead(d);
    var comma := if n % 3 == 0 then "," else "";
    DigitsInConcat(Spell([d]), comma);
    assert DigitsIn("") == [] && ","[1..] == "" && DigitsIn(",") == [];
  }

  ghost predicate WellGrouped(s: string, ds: seq<Digit>) {
    InThrees(s) && DigitsIn(s) == ds && '.' !in s && ds != [] && |s| == |ds| + (|ds| - 1) / 3
  }

  lemma GroupedNext(d: Digit, rest: seq<Digit>, tail: string)
    requires WellGrouped(tail, rest)
    ensures WellGrouped(GroupHead(d, |rest|) + tail, [d] + rest)
  {
    HeadOfGroups(d, |rest|);
    DigitsInConcat(GroupHead(d, |rest|), tail);
    ThreesGrow(GroupHead(d, |rest|), tail, |rest|);
  }

  lemma OneGrouped(d: Digit)
    ensures WellGrouped(Spell([d]), [d])
  {
    GroupedHead(d);
  }

  /** Grouping adds commas and nothing else, exactly every three digits. */
  lemma {:induction false} GroupedInThrees(ds: seq<Digit>)
    requires ds != []
    ensures WellGrouped(Grouped(ds), ds)
    decreases |ds|
  {
    hide WellGrouped, GroupHead;
    if |ds| == 1 {
      OneGrouped(ds[0]);
      assert ds == [ds[0]];
    } else {
      GroupedInThrees(ds[1..]);
      GroupedNext(ds[0], ds[1..], Grouped(ds[1..]));
      assert ds == [ds[0]] + ds[1..];
    }
  }

  lemma InFours(q: nat, r: nat)
    requires r < 4
    ensures (4 * q + r) % 4 == r
  {}

  lemma InThreesPlus(q: nat, r: nat)
    requires r < 3
    ensures (3 * q + r) / 3 == q && (3 * q + r) % 3 == r
  {}

  /** Where the comma stands in the head, counted from the right. */
  lemma HeadCommas(n: nat, h: nat, l: nat)
    requires n > 0 && h == (if n % 3 == 0 then 2 else 1) && l == n + (n - 1) / 3
    ensures (h + l - 1) % 4 != 3 && (h == 2 ==> l % 4 == 3) && h + l == n + 1 + n / 3
  {
    var q, r := (n - 1) / 3, (n - 1) % 3;
    assert n - 1 == 3 * q + r && l == 4 * q + r + 1;
    if r == 2 {
      InThreesPlus(q + 1, 0);
      InFours(q + 1, 0);
      InFours(q, 3);
    } else {
      InThreesPlus(q, r + 1);
      InFours(q, r + 1);
    }
  }

  lemma ThreesGrow(head: string, tail: string, n: nat)
    requires n > 0 && InThrees(tail) && |tail| == n + (n - 1) / 3
    requires |head| == (if n % 3 == 0 then 2 else 1) && head[0] != ',' && (|head| == 2 ==> head[1] == ',')
    ensures InThrees(head + tail) && |head + tail| == n + 1 + n / 3
  {
    var all := head + tail;
    HeadCommas(n, |head|, |tail|);
    forall j | 0 <= j < |all| ensures all[j] == ',' <==> (|all| - 1 - j) % 4 == 3 {
      if j >= |head| {
        assert all[j] == tail[j - |head|] && |all| - 1 - j == |tail| - 1 - (j - |head|);
      } else if j == 1 {
        assert |all| - 1 - j == |tail|;
      }
    }
  }

  // ---- The fraction ---------------------------------------------------------

  lemma {:induction false} DropZerosValue(ds: seq<Digit>)
    ensures |DropZeros(ds)| <= |ds|
    ensures ValueOf(ds) == ValueOf(DropZeros(ds)) * Pow10(|ds| - |DropZeros(ds)|)
    ensures DropZeros(ds) != [] ==> DropZeros(ds)[|DropZeros(ds)| - 1] != 0
    ensures ValueOf(ds) == 0 <==> DropZeros(ds) == []
    decreases |ds|
  {
    if ds != [] && ds[|ds| - 1] == 0 {
      var front := ds[..|ds| - 1];
      DropZerosValue(front);
      var k := |front| - |DropZeros(front)|;
      assert Pow10(k + 1) == 10 * Pow10(k);
      TenTimes(ValueOf(DropZeros(front)), Pow10(k));
    } else if ds != [] {
      assert ValueOf(ds) > 0;
    }
  }

  lemma TenTimes(a: nat, p: nat)
    ensures 10 * (a * p) == a * (10 * p)
  {}

  lemma PadValue(ds: seq<Digit>, width: nat)
    ensures ValueOf(PadStart(ds, width)) == ValueOf(ds)
    ensures |PadStart(ds, width)| == if |ds| < width then width else |ds|
  {
    if |ds| < width {
      ValueConcat(Zeros(width - |ds|), ds);
      ValueZeros(width - |ds|);
    }
  }

  lemma CutValue(ds: seq<Digit>, n: nat)
    requires n <= |ds|
    ensures ValueOf(ds[..n]) == Quotient(ValueOf(ds), Pow10(|ds| - n))
  {
    var head, tail := ds[..n], ds[n..];
    assert ds == head + tail;
    ValueConcat(head, tail);
    ValueBound(tail);
    QuotientIs(ValueOf(ds), Pow10(|tail|), ValueOf(head));
  }

  // ---- What is printed ------------------------------------------------------

  /** The amount in whole units of 10^-m, rounded down. */
  function Shown(value: nat, decimals: nat, m: nat): nat {
    Quotient(value * Pow10(m), Pow10(decimals))
  }

  lemma PaddedRemainder(value: nat, decimals: nat)
    ensures var r := Remainder(value, Pow10(decimals));
      var ds := PadStart(DigitsOf(r), decimals);
      ValueOf(ds) == r && (decimals > 0 ==> |ds| == decimals) && (decimals == 0 ==> ds == [0])
  {
    var r := Remainder(value, Pow10(decimals));
    PadValue(DigitsOf(r), decimals);
    if decimals > 0 { DigitsLength(r, decimals); }
  }

  lemma CutInUnits(ds: seq<Digit>, m: nat, whole: nat)
    ensures |Cut(ds, m)| <= m
    ensures InUnits(whole, Cut(ds, m), m)
      == if m <= |ds| then whole * Pow10(m) + Quotient(ValueOf(ds), Pow10(|ds| - m))
         else whole * Pow10(m) + ValueOf(ds) * Pow10(m - |ds|)
  {
    if m <= |ds| {
      CutValue(ds, m);
      assert Cut(ds, m) == ds[..m];
      assert Pow10(0) == 1;
    }
  }

  /** Trailing zeros carry no value. */
  lemma DropInUnits(ds: seq<Digit>, m: nat, whole: nat)
    requires |ds| <= m
    ensures |DropZeros(ds)| <= m && InUnits(whole, DropZeros(ds), m) == InUnits(whole, ds, m)
  {
    DropZerosValue(ds);
    PowAdd(|ds| - |DropZeros(ds)|, m - |ds|);
    Regroup(ValueOf(DropZeros(ds)), Pow10(|ds| - |DropZeros(ds)|), Pow10(m - |ds|));
  }

  lemma Regroup(a: nat, p: nat, q: nat)
    ensures a * p * q == a * (p * q)
  {}

  lemma Coarser(whole: nat, r: nat, m: nat, p: nat, b: nat, value: nat)
    requires m >= 1 && p >= 1 && b == m * p && value == whole * b + r
    ensures whole * m + Quotient(r, p) == Quotient(value * m, b)
  {
    var q := Quotient(r, p);
    assert (whole * m + q) * b == whole * b * m + q * p * m;
    assert value * m == whole * b * m + r * m;
    assert q * p * m <= r * m < q * p * m + p * m by { Ordered(q * p, r, m); Below(r, q * p + p, m); }
    QuotientIs(value * m, b, whole * m + q);
  }

  lemma Ordered(a: nat, b: nat, m: nat)
    requires a <= b
    ensures a * m <= b * m
  {}

  lemma Below(a: nat, b: nat, m: nat)
    requires a < b && m >= 1
    ensures a * m < b * m
  {}

  lemma Finer(whole: nat, r: nat, s: nat, b: nat, value: nat)
    requires b >= 1 && value == whole * b + r
    ensures whole * (b * s) + r * s == value * s == Quotient(value * (b * s), b)
  {
    assert value * s * b == value * (b * s);
    QuotientIs(value * (b * s), b, value * s);
  }

  /** The digits kept are the amount rounded down to `m` places, exactly when there are no more places than that. */
  lemma KeptDigits(value: nat, decimals: nat, m: nat)
    ensures var whole, fraction := Quotient(value, Pow10(decimals)), FractionDigits(value, decimals, m);
      |fraction| <= m && InUnits(whole, fraction, m) == Shown(value, decimals, m)
      && (fraction != [] ==> fraction[|fraction| - 1] != 0)
  {
    var b, whole := Pow10(decimals), Quotient(value, Pow10(decimals));
    var r := Remainder(value, b);
    var ds := PadStart(DigitsOf(r), decimals);
    PaddedRemainder(value, decimals);
    CutInUnits(ds, m, whole);
    DropInUnits(Cut(ds, m), m, whole);
    DropZerosValue(Cut(ds, m));
    KeptUnits(value, decimals, m, ds);
  }

  lemma KeptUnits(value: nat, decimals: nat, m: nat, ds: seq<Digit>)
    requires ValueOf(ds) == Remainder(value, Pow10(decimals))
    requires (decimals > 0 ==> |ds| == decimals) && (decimals == 0 ==> ds == [0])
    ensures Shown(value, decimals, m) == InUnits(Quotient(value, Pow10(decimals)), Cut(ds, m), m)
  {
    hide ValueOf, Cut, InUnits;
    var b, whole, r := Pow10(decimals), Quotient(value, Pow10(decimals)), Remainder(value, Pow10(decimals));
    CutInUnits(ds, m, whole);
    if decimals == 0 {
      assert b == 1 && r == 0 && whole == value;
      NoDecimals(value, m, ds);
    } else if m <= decimals {
      PowAdd(m, decimals - m);
      Coarser(whole, r, Pow10(m), Pow10(decimals - m), b, value);
    } else {
      PowAdd(decimals, m - decimals);
      Finer(whole, r, Pow10(m - decimals), b, value);
    }
  }

  lemma NoDecimals(value: nat, m: nat, ds: seq<Digit>)
    requires ds == [0]
    ensures Quotient(value * Pow10(m), 1) == InUnits(value, Cut(ds, m), m)
  {
    QuotientIs(value * Pow10(m), 1, value * Pow10(m));
    assert [0][..0] == [];
    assert ValueOf(Cut(ds, m)) == 0;
  }

  /** When the amount has no more decimals than are shown, nothing is rounded. */
  lemma ShownExactly(value: nat, decimals: nat, m: nat)
    requires decimals <= m
    ensures Shown(value, decimals, m) * Pow10(decimals) == value * Pow10(m)
  {
    PowAdd(decimals, m - decimals);
    Finer(0, value, Pow10(m - decimals), Pow10(decimals), value);
    Regroup(value, Pow10(m - decimals), Pow10(decimals));
  }

  predicate TooSmall(value: nat, decimals: nat, m: nat) {
    0 < value && value * Pow10(m) < Pow10(decimals)
  }

  lemma ZeroQuotient(a: nat, b: nat)
    requires b >= 1
    ensures Quotient(a, b) == 0 <==> a < b
  {
    if a < b { QuotientIs(a, b, 0); }
  }

  lemma NothingShown(value: nat, decimals: nat, m: nat)
    ensures Shown(value, decimals, m) == 0 <==> value * Pow10(m) < Pow10(decimals)
  {
    ZeroQuotient(value * Pow10(m), Pow10(decimals));
  }

  lemma NothingKept(value: nat, decimals: nat, m: nat)
    ensures Shown(value, decimals, m) == 0 <==>
      FractionDigits(value, decimals, m) == [] && Quotient(value, Pow10(decimals)) == 0
  {
    KeptDigits(value, decimals, m);
    var whole, fraction := Quotient(value, Pow10(decimals)), FractionDigits(value, decimals, m);
    ZeroUnits(whole, fraction, m);
  }

  lemma ZeroUnits(whole: nat, fraction: seq<Digit>, m: nat)
    requires |fraction| <= m && (fraction != [] ==> fraction[|fraction| - 1] != 0)
    ensures InUnits(whole, fraction, m) == 0 <==> fraction == [] && whole == 0
  {
    if fraction != [] {
      assert ValueOf(fraction) > 0;
      Below(0, ValueOf(fraction), Pow10(m - |fraction|));
    }
    if whole > 0 { Below(0, whole, Pow10(m)); }
  }

  function Plain(whole: nat, fraction: seq<Digit>): string {
    if fraction != [] then Grouped(DigitsOf(whole)) + "." + Spell(fraction) else Grouped(DigitsOf(whole))
  }

  lemma PlainReads(whole: nat, fraction: seq<Digit>, m: nat)
    requires |fraction| <= m
    ensures var s := Plain(whole, fraction);
      InThrees(BeforeDot(s)) && DigitsIn(AfterDot(s)) == fraction && Reads(s, m) == InUnits(whole, fraction, m)
  {
    GroupedInThrees(DigitsOf(whole));
    SpellReads(fraction);
    DotSplits(Grouped(DigitsOf(whole)), Spell(fraction));
  }

  lemma FormatIs(amount: seq<Digit>, decimals: nat, m: nat)
    ensures var value := ValueOf(amount);
      FormatTokenAmount(amount, decimals, m) ==
        if TooSmall(value, decimals, m) then if m == 0 then Err("RangeError") else Ok(Smallest(m))
        else Ok(Plain(Quotient(value, Pow10(decimals)), FractionDigits(value, decimals, m)))
  {
    NothingShown(ValueOf(amount), decimals, m);
    NothingKept(ValueOf(amount), decimals, m);
  }

  /**
    An amount too small to show prints as "<0.0...1", or throws when no digits
    are allowed; any other reads back as the amount rounded down, the exact
    amount if it has no more decimals than are shown, with commas every three
    digits of its whole part.
   */
  lemma FormatReadsBack(amount: seq<Digit>, decimals: nat, m: nat)
    ensures var r, value := FormatTokenAmount(amount, decimals, m), ValueOf(amount);
      && (TooSmall(value, decimals, m) ==> r == if m == 0 then Err("RangeError") else Ok(Smallest(m)))
      && (!TooSmall(value, decimals, m) ==>
        && r.Ok? && InThrees(BeforeDot(r.value))
        && |DigitsIn(AfterDot(r.value))| <= m
        && Reads(r.value, m) == Shown(value, decimals, m)
        && (decimals <= m ==> Reads(r.value, m) * Pow10(decimals) == value * Pow10(m)))
  {
    var value := ValueOf(amount);
    FormatIs(amount, decimals, m);
    KeptDigits(value, decimals, m);
    PlainReads(Quotient(value, Pow10(decimals)), FractionDigits(value, decimals, m), m);
    if decimals <= m { ShownExactly(value, decimals, m); }
  }

  /** A grouped whole part without leading zeros, then a point and the fraction if there is one. */
  ghost predicate Laid(text: string, whole: string, ds: seq<Digit>, fraction: seq<Digit>) {
    && text == (if fraction == [] then whole else whole + "." + Spell(fraction))
    && WellGrouped(whole, ds) && (|ds| > 1 ==> ds[0] != 0)
  }

  /** Every character of the text: the whole tokens, and the kept digits without a trailing zero. */
  lemma TextExactly(amount: seq<Digit>, decimals: nat, m: nat) returns (whole: string, ds: seq<Digit>, fraction: seq<Digit>)
    requires !TooSmall(ValueOf(amount), decimals, m)
    ensures var r, value := FormatTokenAmount(amount, decimals, m), ValueOf(amount);
      && r.Ok? && Laid(r.value, whole, ds, fraction)
      && ValueOf(ds) * Pow10(decimals) <= value < ValueOf(ds) * Pow10(decimals) + Pow10(decimals)
      && |fraction| <= m && (fraction != [] ==> fraction[|fraction| - 1] != 0)
      && InUnits(ValueOf(ds), fraction, m) == Shown(value, decimals, m)
  {
    hide Grouped, Spell, WellGrouped, FractionDigits, InUnits;
    var value := ValueOf(amount);
    FormatIs(amount, decimals, m);
    KeptDigits(value, decimals, m);
    ds, fraction := DigitsOf(Quotient(value, Pow10(decimals))), FractionDigits(value, decimals, m);
    whole := Grouped(ds);
    GroupedInThrees(ds);
  }

  /** "<0.", zeros, and a one in the last of the `m` places. */
  lemma SmallestSpelled(m: nat)
    requires m > 0
    ensures |Smallest(m)| == m + 3 && Smallest(m)[..3] == "<0." && Smallest(m)[m + 2] == '1'
    ensures forall i :: 3 <= i < m + 2 ==> Smallest(m)[i] == '0'
  {
    ZerosSpelled(m - 1);
    var zeros := Spell(Zeros(m - 1));
    assert Smallest(m) == "<0." + zeros + "1";
    assert forall i :: 3 <= i < m + 2 ==> Smallest(m)[i] == zeros[i - 3];
  }

  lemma {:induction false} ZerosSpelled(n: nat)
    ensures |Spell(Zeros(n))| == n && forall i :: 0 <= i < n ==> Spell(Zeros(n))[i] == '0'
    decreases n
  {
    if n > 0 {
      ZerosSpelled(n - 1);
      assert Zeros(n)[1..] == Zeros(n - 1);
      assert Spell(Zeros(n)) == ['0'] + Spell(Zeros(n - 1));
    }
  }

  /** It throws exactly for a positive amount below one token when no digits are allowed. */
  lemma ThrowsExactly(amount: seq<Digit>, decimals: nat, m: nat)
    ensures FormatTokenAmount(amount, decimals, m).Err? <==> m == 0 && 0 < ValueOf(amount) < Pow10(decimals)
  {
    FormatIs(amount, decimals, m);
    assert Pow10(0) == 1;
  }

  /** Half a token throws. */
  lemma HalfATokenThrows()
    ensures FormatTokenAmount([5], 1, 0) == Err("RangeError")
  {
    ThrowsExactly([5], 1, 0);
    assert [5][..0] == [] && Pow10(1) == 10 * Pow10(0);
  }

  /** "<0.0...1" names one unit, and stands for less than that. */
  lemma SmallestIsOneUnit(m: nat)
    requires m > 0
    ensures DigitsIn(BeforeDot(Smallest(m)[1..])) == [0]
    ensures |DigitsIn(AfterDot(Smallest(m)[1..]))| == m && Reads(Smallest(m)[1..], m) == 1
  {
    var tail := Spell(Zeros(m - 1)) + "1";
    assert Smallest(m)[1..] == "0" + "." + tail;
    DotSplits("0", tail);
    LastPlaceOne(m - 1);
    NoWholePart();
    assert Pow10(0) == 1;
  }

  lemma NoWholePart()
    ensures DigitsIn("0") == [0] && ValueOf([0]) == 0
  {
    assert "0"[1..] == "";
    assert [0][..0] == [];
  }

  lemma LastPlaceOne(n: nat)
    ensures var ds := DigitsIn(Spell(Zeros(n)) + "1"); |ds| == n + 1 && ValueOf(ds) == 1
  {
    DigitsInConcat(Spell(Zeros(n)), "1");
    SpellReads(Zeros(n));
    assert DigitsIn("1") == [1] by { assert "1"[1..] == ""; }
    ValueConcat(Zeros(n), [1]);
    ValueZeros(n);
    assert ValueOf([1]) == 1 by { assert [1][..0] == []; }
  }
}
