/** UTF-8 (RFC 3629) over code points, with its decoder. */
module Utf8 {
  type Bytes = seq<int>
  type Points = seq<int>

  predicate Scalar(c: int) {
    0 <= c < 0xD800 || 0xE000 <= c < 0x110000
  }

  ghost predicate Scalars(cs: Points) {
    forall i :: 0 <= i < |cs| ==> Scalar(cs[i])
  }

  predicate Byte(b: int) { 0 <= b < 256 }

  function EncodePoint(c: int): Bytes {
    if c < 0x80 then [c]
    else if c < 0x800 then [0xC0 + c / 64, 0x80 + c % 64]
    else if c < 0x10000 then [0xE0 + c / 4096, 0x80 + c / 64 % 64, 0x80 + c % 64]
    else [0xF0 + c / 262144, 0x80 + c / 4096 % 64, 0x80 + c / 64 % 64, 0x80 + c % 64]
  }

  function Encode(cs: Points): Bytes {
    if cs == [] then [] else EncodePoint(cs[0]) + Encode(cs[1..])
  }

  function Decode(bs: Bytes): Points {
    if bs == [] then []
    else if bs[0] < 0x80 then [bs[0]] + Decode(bs[1..])
    else if bs[0] < 0xE0 then
      if |bs| < 2 then [] else [64 * (bs[0] - 0xC0) + bs[1] - 0x80] + Decode(bs[2..])
    else if bs[0] < 0xF0 then
      if |bs| < 3 then [] else [4096 * (bs[0] - 0xE0) + 64 * (bs[1] - 0x80) + bs[2] - 0x80] + Decode(bs[3..])
    else
      if |bs| < 4 then []
      else [262144 * (bs[0] - 0xF0) + 4096 * (bs[1] - 0x80) + 64 * (bs[2] - 0x80) + bs[3] - 0x80] + Decode(bs[4..])
  }

  lemma SplitPoint(c: int)
    requires 0 <= c
    ensures c == 64 * (c / 64) + c % 64
    ensures c == 4096 * (c / 4096) + 64 * (c / 64 % 64) + c % 64
    ensures c == 262144 * (c / 262144) + 4096 * (c / 4096 % 64) + 64 * (c / 64 % 64) + c % 64
  {
    var a := c / 64;
    var b := a / 64;
    var d := b / 64;
    assert c == 4096 * b + (64 * (a % 64) + c % 64);
    assert c / 4096 == b;
    assert c == 262144 * d + (4096 * (b % 64) + 64 * (a % 64) + c % 64);
    assert c / 262144 == d;
  }

  predicate Continuation(b: int) { 0x80 <= b <= 0xBF }

  /**
    The bytes of one code point: as few as can hold it, a first byte that says how
    many, and continuation bytes after it, six bits each, the highest first.
   */
  lemma PointBytes(c: int)
    requires Scalar(c)
    ensures var bs := EncodePoint(c);
      && |bs| == (if c <= 0x7F then 1 else if c <= 0x7FF then 2 else if c <= 0xFFFF then 3 else 4)
      && (|bs| == 1 ==> bs[0] == c)
      && (|bs| == 2 ==> 0xC2 <= bs[0] <= 0xDF) && (|bs| == 3 ==> 0xE0 <= bs[0] <= 0xEF) && (|bs| == 4 ==> 0xF0 <= bs[0] <= 0xF4)
      && (forall i :: 1 <= i < |bs| ==> Continuation(bs[i]))
      && (|bs| == 2 ==> c == 64 * (bs[0] - 0xC0) + (bs[1] - 0x80))
      && (|bs| == 3 ==> c == 4096 * (bs[0] - 0xE0) + 64 * (bs[1] - 0x80) + (bs[2] - 0x80))
      && (|bs| == 4 ==> c == 262144 * (bs[0] - 0xF0) + 4096 * (bs[1] - 0x80) + 64 * (bs[2] - 0x80) + (bs[3] - 0x80))
  {
    SplitPoint(c);
  }

  lemma DecodeOne(c: int, rest: Bytes)
    requires Scalar(c)
    ensures Decode(EncodePoint(c) + rest) == [c] + Decode(rest)
  {
    SplitPoint(c);
    var bs := EncodePoint(c) + rest;
    assert bs[|EncodePoint(c)|..] == rest;
  }

  /** Decoding undoes encoding, so no two strings share their bytes. */
  lemma {:induction false} Utf8RoundTrip(cs: Points)
    requires Scalars(cs)
    ensures Decode(Encode(cs)) == cs
    decreases |cs|
  {
    if cs != [] {
      Utf8RoundTrip(cs[1..]);
      DecodeOne(cs[0], Encode(cs[1..]));
      assert cs == [cs[0]] + cs[1..];
    }
  }

  lemma {:induction false} EncodesToBytes(cs: Points)
    requires Scalars(cs)
    ensures forall i :: 0 <= i < |Encode(cs)| ==> Byte(Encode(cs)[i])
    decreases |cs|
  {
    if cs != [] { EncodesToBytes(cs[1..]); }
  }
}
