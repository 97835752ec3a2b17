/**
  Backtracking matching as ECMAScript defines it, for the constructs one pattern
  uses: alternatives in order, greedy and lazy repetition, marks for captures.
 */
module RegexMatch {
  import opened Wrappers
  import opened Texts

  /** White space as `\s` and `trim` know it. */
  predicate Space(c: int) {
    || 9 <= c <= 13 || c == 0x20 || c == 0xA0 || c == 0x1680 || 0x2000 <= c <= 0x200A
    || c == 0x2028 || c == 0x2029 || c == 0x202F || c == 0x205F || c == 0x3000 || c == 0xFEFF
  }

  datatype CharClass =
    | Exactly(c: int)
    | White
    | Except(excluded: seq<int>)
    | LowerOrDigit
    | LowerDigitDash
    | Anything

  predicate In(c: int, k: CharClass) {
    match k
    case Exactly(d) => c == d
    case White => Space(c)
    case Except(excluded) => c !in excluded
    case LowerOrDigit => 97 <= c <= 122 || 48 <= c <= 57
    case LowerDigitDash => 97 <= c <= 122 || 48 <= c <= 57 || c == 95 || c == 45
    case Anything => true
  }

  datatype Item =
    | Literal(chars: Text)
    | Repeat(k: CharClass, min: nat, max: nat, greedy: bool)
    | Optional(items: seq<Item>)
    | Either(left: seq<Item>, right: seq<Item>)
    | Mark(name: nat)

  type Marks = map<nat, nat>

  function Weight(item: Item): nat
    decreases item
  {
    match item
    case Literal(_) => 1
    case Repeat(_, _, max, _) => 1 + max
    case Optional(items) => 1 + WeightAll(items)
    case Either(left, right) => 1 + WeightAll(left) + WeightAll(right)
    case Mark(_) => 1
  }

  function WeightAll(items: seq<Item>): nat
    decreases items
  {
    if items == [] then 0 else Weight(items[0]) + WeightAll(items[1..])
  }

  lemma {:induction false} WeightConcat(a: seq<Item>, b: seq<Item>)
    ensures WeightAll(a + b) == WeightAll(a) + WeightAll(b)
    decreases |a|
  {
    if a == [] {
      assert a + b == b;
    } else {
      assert (a + b)[1..] == a[1..] + b;
      WeightConcat(a[1..], b);
    }
  }

  predicate StandsAt(s: Text, text: Text, i: nat) {
    i + |s| <= |text| && text[i..i + |s|] == s
  }

  function Once(r: Item): Item
    requires r.Repeat? && r.max > 0
  {
    Repeat(r.k, if r.min > 0 then r.min - 1 else 0, r.max - 1, r.greedy)
  }

  /** The marks of the first match from `i` to the end of the text, if there is one. */
  function Match(items: seq<Item>, text: Text, i: nat, marks: Marks): Option<Marks>
    decreases WeightAll(items)
  {
    if items == [] then if i == |text| then Some(marks) else None
    else
      var item, rest := items[0], items[1..];
      match item
      case Literal(chars) =>
        assert Weight(item) == 1;
        if StandsAt(chars, text, i) then Match(rest, text, i + |chars|, marks) else None
      case Mark(name) => Match(rest, text, i, marks[name := i])
      case Optional(inner) =>
        WeightConcat(inner, rest);
        var taken := Match(inner + rest, text, i, marks);
        if taken.Some? then taken else Match(rest, text, i, marks)
      case Either(left, right) =>
        WeightConcat(left, rest);
        WeightConcat(right, rest);
        var first := Match(left + rest, text, i, marks);
        if first.Some? then first else Match(right + rest, text, i, marks)
      case Repeat(k, min, max, greedy) =>
        RepeatWeight(item, rest);
        var more := if max > 0 && i < |text| && In(text[i], k) then Match([Once(item)] + rest, text, i + 1, marks) else None;
        if min > 0 then more
        else if greedy then if more.Some? then more else Match(rest, text, i, marks)
        else
          var less := Match(rest, text, i, marks);
          if less.Some? then less else more
  }

  lemma RepeatWeight(r: Item, rest: seq<Item>)
    requires r.Repeat?
    ensures r.max > 0 ==> WeightAll([Once(r)] + rest) < WeightAll([r] + rest)
    ensures WeightAll([r] + rest) == Weight(r) + WeightAll(rest)
  {
    assert ([r] + rest)[1..] == rest;
    if r.max > 0 { assert ([Once(r)] + rest)[1..] == rest; }
  }

  // ---- One construct at a time ----------------------------------------------

  predicate All(text: Text, i: nat, e: nat, k: CharClass) {
    i <= e <= |text| && forall j :: i <= j < e ==> In(text[j], k)
  }

  lemma RepeatStep(r: Item, rest: seq<Item>, text: Text, i: nat, marks: Marks)
    requires r.Repeat?
    ensures var more := if r.max > 0 && i < |text| && In(text[i], r.k) then Match([Once(r)] + rest, text, i + 1, marks) else None;
      var less := Match(rest, text, i, marks);
      Match([r] + rest, text, i, marks) ==
        if r.min > 0 then more
        else if r.greedy then if more.Some? then more else less
        else if less.Some? then less else more
  {
    assert ([r] + rest)[1..] == rest && ([r] + rest)[0] == r;
  }

  lemma MarkStep(name: nat, rest: seq<Item>, text: Text, i: nat, marks: Marks)
    ensures Match([Mark(name)] + rest, text, i, marks) == Match(rest, text, i, marks[name := i])
  {
    assert ([Mark(name)] + rest)[1..] == rest && ([Mark(name)] + rest)[0] == Mark(name);
  }

  lemma OptionalStep(inner: seq<Item>, rest: seq<Item>, text: Text, i: nat, marks: Marks)
    ensures var taken := Match(inner + rest, text, i, marks);
      Match([Optional(inner)] + rest, text, i, marks) == if taken.Some? then taken else Match(rest, text, i, marks)
  {
    assert ([Optional(inner)] + rest)[1..] == rest && ([Optional(inner)] + rest)[0] == Optional(inner);
  }

  lemma EitherStep(left: seq<Item>, right: seq<Item>, rest: seq<Item>, text: Text, i: nat, marks: Marks)
    ensures var first := Match(left + rest, text, i, marks);
      Match([Either(left, right)] + rest, text, i, marks) == if first.Some? then first else Match(right + rest, text, i, marks)
  {
    assert ([Either(left, right)] + rest)[1..] == rest && ([Either(left, right)] + rest)[0] == Either(left, right);
  }

  lemma OneChar(k: CharClass, rest: seq<Item>, text: Text, i: nat, marks: Marks)
    ensures Match([Repeat(k, 1, 1, true)] + rest, text, i, marks)
      == if i < |text| && In(text[i], k) then Match(rest, text, i + 1, marks) else None
  {
    RepeatStep(Repeat(k, 1, 1, true), rest, text, i, marks);
    if i < |text| && In(text[i], k) { RepeatStep(Repeat(k, 0, 0, true), rest, text, i + 1, marks); }
  }

  lemma LiteralStep(chars: Text, rest: seq<Item>, text: Text, i: nat, marks: Marks)
    ensures Match([Literal(chars)] + rest, text, i, marks)
      == if StandsAt(chars, text, i) then Match(rest, text, i + |chars|, marks) else None
  {
    assert ([Literal(chars)] + rest)[1..] == rest && ([Literal(chars)] + rest)[0] == Literal(chars);
  }

  /** Greedy repetition takes the whole run when what follows then matches. */
  lemma {:induction false} GreedyTakesRun(k: CharClass, max: nat, rest: seq<Item>, text: Text, i: nat, e: nat, marks: Marks)
    requires All(text, i, e, k) && (e == |text| || !In(text[e], k)) && e - i <= max
    requires Match(rest, text, e, marks).Some?
    ensures Match([Repeat(k, 0, max, true)] + rest, text, i, marks) == Match(rest, text, e, marks)
    decreases e - i
  {
    RepeatStep(Repeat(k, 0, max, true), rest, text, i, marks);
    if i < e { GreedyTakesRun(k, max - 1, rest, text, i + 1, e, marks); }
  }

  /** Lazy repetition stops at the first place where what follows matches. */
  lemma {:induction false} LazyStopsFirst(k: CharClass, max: nat, rest: seq<Item>, text: Text, i: nat, e: nat, marks: Marks)
    requires All(text, i, e, k) && e - i <= max
    requires forall j :: i <= j < e ==> Match(rest, text, j, marks).None?
    requires Match(rest, text, e, marks).Some?
    ensures Match([Repeat(k, 0, max, false)] + rest, text, i, marks) == Match(rest, text, e, marks)
    decreases e - i
  {
    RepeatStep(Repeat(k, 0, max, false), rest, text, i, marks);
    if i < e { LazyStopsFirst(k, max - 1, rest, text, i + 1, e, marks); }
  }

  /** A repetition succeeds whenever it could stop somewhere in its run, within its bounds. */
  lemma {:induction false} RepeatFinds(r: Item, rest: seq<Item>, text: Text, i: nat, e: nat, marks: Marks)
    requires r.Repeat? && All(text, i, e, r.k) && r.min <= e - i <= r.max
    requires Match(rest, text, e, marks).Some?
    ensures Match([r] + rest, text, i, marks).Some?
    decreases e - i
  {
    RepeatStep(r, rest, text, i, marks);
    if i < e { RepeatFinds(Once(r), rest, text, i + 1, e, marks); }
  }

  /**
    Which stop is chosen: the last one from which the rest matches when the
    repetition is greedy, the first when it is lazy.
   */
  lemma {:induction false} RepeatChooses(r: Item, rest: seq<Item>, text: Text, i: nat, marks: Marks) returns (e: nat)
    requires r.Repeat? && i <= |text| && Match([r] + rest, text, i, marks).Some?
    ensures All(text, i, e, r.k) && r.min <= e - i <= r.max
    ensures Match(rest, text, e, marks) == Match([r] + rest, text, i, marks)
    ensures r.greedy ==> forall f :: e < f && All(text, i, f, r.k) && f - i <= r.max ==> Match(rest, text, f, marks).None?
    ensures !r.greedy ==> forall f :: i + r.min <= f < e ==> Match(rest, text, f, marks).None?
    decreases r.max
  {
    RepeatStep(r, rest, text, i, marks);
    var more := if r.max > 0 && i < |text| && In(text[i], r.k) then Match([Once(r)] + rest, text, i + 1, marks) else None;
    var less := Match(rest, text, i, marks);
    if r.min > 0 || (r.greedy && more.Some?) || (!r.greedy && less.None?) {
      e := RepeatChooses(Once(r), rest, text, i + 1, marks);
      forall f | r.greedy && e < f && All(text, i, f, r.k) && f - i <= r.max ensures Match(rest, text, f, marks).None? {
        assert All(text, i + 1, f, r.k);
      }
    } else {
      e := i;
      forall f | r.greedy && e < f && All(text, i, f, r.k) && f - i <= r.max ensures Match(rest, text, f, marks).None? {
        assert All(text, i + 1, f, r.k);
        if Match(rest, text, f, marks).Some? { RepeatFinds(Once(r), rest, text, i + 1, f, marks); }
      }
    }
  }

  lemma RepeatStopsSomewhere(r: Item, rest: seq<Item>, text: Text, i: nat, marks: Marks) returns (e: nat)
    requires r.Repeat? && i <= |text| && Match([r] + rest, text, i, marks).Some?
    ensures All(text, i, e, r.k) && r.min <= e - i <= r.max
    ensures Match(rest, text, e, marks) == Match([r] + rest, text, i, marks)
  {
    e := RepeatChooses(r, rest, text, i, marks);
  }
}
