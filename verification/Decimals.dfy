/** Decimal digit strings and their values, shared by the printers and readers of numbers. */
module Decimals {
  type Digit = d: int | 0 <= d <= 9

  function Pow10(n: nat): (p: nat)
    ensures p >= 1
  {
    if n == 0 then 1 else 10 * Pow10(n - 1)
  }

  /** The number a digit string denotes, leading zeros allowed. */
  function ValueOf(ds: seq<Digit>): nat {
    if ds == [] then 0 else 10 * ValueOf(ds[..|ds| - 1]) + ds[|ds| - 1]
  }

  /** Decimal notation without leading zeros: what `toString` prints for a non-negative integer. */
  function DigitsOf(n: nat): (ds: seq<Digit>)
    ensures ds != [] && (ds[0] == 0 ==> n == 0 && ds == [0])
    ensures ValueOf(ds) == n
  {
    if n < 10 then
      assert ValueOf([n]) == 10 * ValueOf([]) + n;
      [n]
    else
      var front := DigitsOf(n / 10);
      assert (front + [n % 10])[..|front|] == front;
      front + [n % 10]
  }

  /** Digits as characters. */
  function Spell(ds: seq<Digit>): string {
    if ds == [] then "" else ["0123456789"[ds[0]]] + Spell(ds[1..])
  }

  function Zeros(n: nat): (z: seq<Digit>)
    ensures |z| == n && forall i :: 0 <= i < n ==> z[i] == 0
  {
    seq(n, i => 0)
  }

  lemma {:induction false} PowAdd(a: nat, b: nat)
    ensures Pow10(a + b) == Pow10(a) * Pow10(b)
    decreases a
  {
    if a > 0 { PowAdd(a - 1, b); }
  }

  /** Digits after a prefix weigh in below it. */
  lemma {:induction false} ValueConcat(a: seq<Digit>, b: seq<Digit>)
    ensures ValueOf(a + b) == ValueOf(a) * Pow10(|b|) + ValueOf(b)
    decreases |b|
  {
    if b == [] {
      assert a + b == a;
    } else {
      var front := b[..|b| - 1];
      ValueConcat(a, front);
      assert (a + b)[..|a + b| - 1] == a + front;
      assert Pow10(|b|) == 10 * Pow10(|front|);
      assert 10 * (ValueOf(a) * Pow10(|front|)) == ValueOf(a) * (10 * Pow10(|front|));
    }
  }

  lemma {:induction false} ValueBound(ds: seq<Digit>)
    ensures ValueOf(ds) < Pow10(|ds|)
    decreases |ds|
  {
    if ds != [] { ValueBound(ds[..|ds| - 1]); }
  }

  lemma {:induction false} ValueZeros(n: nat)
    ensures ValueOf(Zeros(n)) == 0
    decreases n
  {
    if n > 0 {
      ValueZeros(n - 1);
      assert Zeros(n)[..n - 1] == Zeros(n - 1);
    }
  }

  /** A value of at least 10^k needs more than k digits, so `DigitsOf` is as short as possible. */
  lemma {:induction false} DigitsLength(n: nat, k: nat)
    requires n < Pow10(k) && k >= 1
    ensures |DigitsOf(n)| <= k
    decreases k
  {
    if n >= 10 {
      assert Pow10(1) == 10;
      DigitsLength(n / 10, k - 1);
    }
  }
}
