/** Which listed ids just arrived (apps/client/src/app/fresh.ts:20-55). */
module Arrivals {
  type Id = string
  type Time = int

  const FRESH_MS := 5000

  datatype Bag = Bag(known: set<Id>, arrived: map<Id, Time>)

  datatype Call = Call(ids: seq<Id>, appendOnly: bool, now: Time)

  function Ids(ids: seq<Id>): set<Id> {
    set id | id in ids
  }

  /** The first index whose id is known, or 0 if none is: `Math.max(0, findIndex(...))`. */
  function FirstKnown(ids: seq<Id>, known: set<Id>): (start: nat)
    ensures (exists i :: 0 <= i < |ids| && ids[i] in known) ==>
      start < |ids| && ids[start] in known && forall i :: 0 <= i < start ==> ids[i] !in known
    ensures (forall i :: 0 <= i < |ids| ==> ids[i] !in known) ==> start == 0
  {
    if ids == [] || ids[0] in known then 0
    else if exists i :: 0 <= i < |ids| && ids[i] in known then
      assert forall i :: 0 < i < |ids| ==> ids[i] == ids[1..][i - 1];
      1 + FirstKnown(ids[1..], known)
    else 0
  }

  function Start(known: set<Id>, c: Call): nat {
    if c.appendOnly then FirstKnown(c.ids, known) else 0
  }

  // ---- One call -------------------------------------------------------------

  /** One turn of the loop on bag `b`: what becomes of `id`, which counts as an arrival if it is new and `counts`. */
  function Visit(b: Bag, id: Id, counts: bool, now: Time): Bag {
    var seen := if id in b.known then b else Bag(b.known + {id}, if counts then b.arrived[id := now] else b.arrived);
    if id in seen.arrived && now - seen.arrived[id] >= FRESH_MS then Bag(seen.known, seen.arrived - {id}) else seen
  }

  /** The bag and the answer after the first `i` ids of a call. */
  function Visited(bag: Bag, c: Call, i: nat): (Bag, set<Id>)
    requires i <= |c.ids|
  {
    if i == 0 then (bag, {})
    else
      var (b, news) := Visited(bag, c, i - 1);
      var id := c.ids[i - 1];
      var after := Visit(b, id, bag.known != {} && i - 1 >= Start(bag.known, c), c.now);
      (after, if id in after.arrived then news + {id} else news)
  }

  function Marked(bag: Bag, c: Call): (Bag, set<Id>) {
    Visited(bag, c, |c.ids|)
  }

  class ArrivalBag {
    const scope: string
    var known: set<Id>
    var arrived: map<Id, Time>

    function State(): Bag
      reads this
    {
      Bag(known, arrived)
    }

    constructor (scope: string, ids: seq<Id>)
      ensures this.scope == scope && State() == Bag(Ids(ids), map[])
    {
      this.scope := scope;
      known, arrived := set id | id in ids, map[];
    }

    method MarkArrivals(ids: seq<Id>, appendOnly: bool, now: Time) returns (news: set<Id>)
      modifies this
      ensures (State(), news) == Marked(old(State()), Call(ids, appendOnly, now))
    {
      news := {};
      var hydrating := known == {};
      var start := if appendOnly then FirstKnown(ids, known) else 0;
      ghost var c := Call(ids, appendOnly, now);
      for i := 0 to |ids|
        invariant (State(), news) == Visited(old(State()), c, i)
      {
        var id := ids[i];
        if id !in known {
          known := known + {id};
          if !hydrating && i >= start { arrived := arrived[id := now]; }
        }
        if id in arrived {
          if now - arrived[id] < FRESH_MS {
            news := news + {id};
          } else {
            arrived := arrived - {id};
          }
        }
      }
    }
  }

  // ---- A call in closed form ------------------------------------------------

  function IndexOf(ids: seq<Id>, id: Id): (i: nat)
    requires id in ids
    ensures i < |ids| && ids[i] == id && forall j :: 0 <= j < i ==> ids[j] != id
  {
    if ids[0] == id then 0
    else
      assert ids == [ids[0]] + ids[1..];
      1 + IndexOf(ids[1..], id)
  }

  /** A new id counts as an arrival unless the bag was empty or it stands ahead of the first known one. */
  predicate Arrives(known: set<Id>, c: Call, id: Id)
    requires id in c.ids
  {
    known != {} && IndexOf(c.ids, id) >= Start(known, c)
  }

  /** The arrival time of an id after a call, if the bag still holds one. */
  predicate Holds(bag: Bag, c: Call, id: Id)
    requires id in c.ids
  {
    if id in bag.known then id in bag.arrived && c.now - bag.arrived[id] < FRESH_MS else Arrives(bag.known, c, id)
  }

  /** What the loop has made of one id, once it has passed `i` of them. */
  ghost predicate IdDone(bag: Bag, c: Call, i: nat, id: Id)
    requires i <= |c.ids|
  {
    var (b, news) := Visited(bag, c, i);
    if id in c.ids[..i] then
      && (id in b.arrived <==> Holds(bag, c, id)) && (id in news <==> Holds(bag, c, id))
      && (id in b.arrived ==> b.arrived[id] == if id in bag.known then bag.arrived[id] else c.now)
    else
      && id !in news && (id in b.arrived <==> id in bag.arrived)
      && (id in b.arrived ==> b.arrived[id] == bag.arrived[id])
  }

  lemma {:induction false} KnownGrows(bag: Bag, c: Call, i: nat)
    requires i <= |c.ids|
    ensures Visited(bag, c, i).0.known == bag.known + Ids(c.ids[..i])
    decreases i
  {
    if i > 0 {
      KnownGrows(bag, c, i - 1);
      assert c.ids[..i] == c.ids[..i - 1] + [c.ids[i - 1]];
    }
  }

  lemma FirstTime(c: Call, i: nat)
    requires i < |c.ids| && c.ids[i] !in c.ids[..i]
    ensures IndexOf(c.ids, c.ids[i]) == i
  {
    forall j | 0 <= j < i ensures c.ids[j] != c.ids[i] { assert c.ids[..i][j] == c.ids[j]; }
  }

  lemma VisitOther(b: Bag, other: Id, counts: bool, now: Time, id: Id)
    requires id != other
    ensures var after := Visit(b, other, counts, now);
      (id in after.arrived <==> id in b.arrived) && (id in after.arrived ==> after.arrived[id] == b.arrived[id])
  {}

  lemma VisitKnown(b: Bag, id: Id, counts: bool, now: Time)
    requires id in b.known
    ensures var after := Visit(b, id, counts, now);
      (id in after.arrived <==> id in b.arrived && now - b.arrived[id] < FRESH_MS)
      && (id in after.arrived ==> after.arrived[id] == b.arrived[id])
  {}

  lemma VisitNew(b: Bag, id: Id, counts: bool, now: Time)
    requires id !in b.known && id !in b.arrived
    ensures var after := Visit(b, id, counts, now);
      (id in after.arrived <==> counts) && (id in after.arrived ==> after.arrived[id] == now)
  {}

  lemma {:induction false} IdIsDone(bag: Bag, c: Call, i: nat, id: Id)
    requires i <= |c.ids| && bag.arrived.Keys <= bag.known
    ensures IdDone(bag, c, i, id)
    decreases i
  {
    if i > 0 {
      IdIsDone(bag, c, i - 1, id);
      IdDoneNext(bag, c, i, id);
    }
  }

  lemma OtherIdDone(bag: Bag, c: Call, i: nat, id: Id)
    requires 0 < i <= |c.ids| && IdDone(bag, c, i - 1, id) && c.ids[i - 1] != id
    ensures IdDone(bag, c, i, id)
  {
    var counts := bag.known != {} && i - 1 >= Start(bag.known, c);
    assert c.ids[..i] == c.ids[..i - 1] + [c.ids[i - 1]];
    VisitOther(Visited(bag, c, i - 1).0, c.ids[i - 1], counts, c.now, id);
  }

  lemma KnownIdDone(bag: Bag, c: Call, i: nat, id: Id)
    requires 0 < i <= |c.ids| && bag.arrived.Keys <= bag.known && IdDone(bag, c, i - 1, id)
    requires c.ids[i - 1] == id && id in Visited(bag, c, i - 1).0.known
    ensures IdDone(bag, c, i, id)
  {
    hide Start, Visit;
    var counts := bag.known != {} && i - 1 >= Start(bag.known, c);
    KnownGrows(bag, c, i - 1);
    assert c.ids[..i] == c.ids[..i - 1] + [c.ids[i - 1]];
    VisitKnown(Visited(bag, c, i - 1).0, id, counts, c.now);
  }

  lemma NewIdDone(bag: Bag, c: Call, i: nat, id: Id)
    requires 0 < i <= |c.ids| && bag.arrived.Keys <= bag.known && IdDone(bag, c, i - 1, id)
    requires c.ids[i - 1] == id && id !in Visited(bag, c, i - 1).0.known
    ensures IdDone(bag, c, i, id)
  {
    hide Start, Visit;
    var counts := bag.known != {} && i - 1 >= Start(bag.known, c);
    KnownGrows(bag, c, i - 1);
    assert c.ids[..i] == c.ids[..i - 1] + [c.ids[i - 1]];
    FirstTime(c, i - 1);
    VisitNew(Visited(bag, c, i - 1).0, id, counts, c.now);
  }

  lemma IdDoneNext(bag: Bag, c: Call, i: nat, id: Id)
    requires 0 < i <= |c.ids| && bag.arrived.Keys <= bag.known && IdDone(bag, c, i - 1, id)
    ensures IdDone(bag, c, i, id)
  {
    if c.ids[i - 1] != id {
      OtherIdDone(bag, c, i, id);
    } else if id in Visited(bag, c, i - 1).0.known {
      KnownIdDone(bag, c, i, id);
    } else {
      NewIdDone(bag, c, i, id);
    }
  }

  // ---- A scope's whole history ----------------------------------------------

  function BagAfter(initial: seq<Id>, calls: seq<Call>): Bag {
    if calls == [] then Bag(Ids(initial), map[]) else Marked(BagAfter(initial, calls[..|calls| - 1]), calls[|calls| - 1]).0
  }

  /** What the last call answered. */
  function Answer(initial: seq<Id>, calls: seq<Call>): set<Id>
    requires calls != []
  {
    Marked(BagAfter(initial, calls[..|calls| - 1]), calls[|calls| - 1]).1
  }

  function SeenIn(initial: seq<Id>, calls: seq<Call>): set<Id> {
    if calls == [] then Ids(initial) else SeenIn(initial, calls[..|calls| - 1]) + Ids(calls[|calls| - 1].ids)
  }

  /** Call `k` is the id's first sighting, and one that counts as an arrival. */
  ghost predicate ArrivedAt(initial: seq<Id>, calls: seq<Call>, k: nat, id: Id) {
    && k < |calls| && id in calls[k].ids
    && var before := SeenIn(initial, calls[..k]);
       id !in before && Arrives(before, calls[k], id)
  }

  ghost predicate ClockForward(calls: seq<Call>) {
    forall i, j :: 0 <= i < j < |calls| ==> calls[i].now <= calls[j].now
  }

  lemma {:induction false} BagKnows(initial: seq<Id>, calls: seq<Call>)
    ensures BagAfter(initial, calls).known == SeenIn(initial, calls)
    decreases |calls|
  {
    if calls != [] {
      var n := |calls| - 1;
      BagKnows(initial, calls[..n]);
      KnownGrows(BagAfter(initial, calls[..n]), calls[n], |calls[n].ids|);
      assert calls[n].ids[..|calls[n].ids|] == calls[n].ids;
    }
  }

  lemma {:induction false} SeenStays(initial: seq<Id>, calls: seq<Call>, k: nat, id: Id)
    requires k < |calls| && id in calls[k].ids
    ensures id in SeenIn(initial, calls)
    decreases |calls|
  {
    if k < |calls| - 1 {
      assert calls[..|calls| - 1][k] == calls[k];
      SeenStays(initial, calls[..|calls| - 1], k, id);
    }
  }

  lemma ArrivesOnce(initial: seq<Id>, calls: seq<Call>, j: nat, k: nat, id: Id)
    requires ArrivedAt(initial, calls, j, id) && ArrivedAt(initial, calls, k, id)
    ensures j == k
  {
    if j < k {
      assert calls[..k][j] == calls[j];
      SeenStays(initial, calls[..k], j, id);
    }
    if k < j {
      assert calls[..j][k] == calls[k];
      SeenStays(initial, calls[..j], k, id);
    }
  }

  /** The bag holds exactly the arrivals whose time has not been seen to run out. */
  ghost predicate Tracks(initial: seq<Id>, calls: seq<Call>, id: Id) {
    var b := BagAfter(initial, calls);
    && (id in b.arrived ==> exists k: nat :: ArrivedAt(initial, calls, k, id) && b.arrived[id] == calls[k].now)
    && (id !in b.arrived ==> forall k: nat :: ArrivedAt(initial, calls, k, id) ==> calls[|calls| - 1].now - calls[k].now >= FRESH_MS)
  }

  lemma ArrivedBefore(initial: seq<Id>, calls: seq<Call>, k: nat, id: Id)
    requires calls != [] && k < |calls| - 1
    ensures ArrivedAt(initial, calls, k, id) <==> ArrivedAt(initial, calls[..|calls| - 1], k, id)
  {
    assert calls[..|calls| - 1][..k] == calls[..k];
  }

  lemma {:induction false} ArrivedIsKnown(initial: seq<Id>, calls: seq<Call>)
    ensures BagAfter(initial, calls).arrived.Keys <= BagAfter(initial, calls).known
    decreases |calls|
  {
    if calls != [] {
      var n := |calls| - 1;
      ArrivedIsKnown(initial, calls[..n]);
      VisitedKnown(BagAfter(initial, calls[..n]), calls[n], |calls[n].ids|);
    }
  }

  lemma {:induction false} VisitedKnown(bag: Bag, c: Call, i: nat)
    requires i <= |c.ids| && bag.arrived.Keys <= bag.known
    ensures Visited(bag, c, i).0.arrived.Keys <= Visited(bag, c, i).0.known
    decreases i
  {
    if i > 0 { VisitedKnown(bag, c, i - 1); }
  }

  /** One call in closed form, for one id. */
  lemma CallDone(initial: seq<Id>, calls: seq<Call>, id: Id)
    requires calls != []
    ensures var n := |calls| - 1;
      var before, after, c := BagAfter(initial, calls[..n]), BagAfter(initial, calls), calls[n];
      && before.known == SeenIn(initial, calls[..n]) && before.arrived.Keys <= before.known
      && (id in c.ids ==>
        && (id in after.arrived <==> Holds(before, c, id)) && (id in Answer(initial, calls) <==> Holds(before, c, id))
        && (id in after.arrived ==> after.arrived[id] == if id in before.known then before.arrived[id] else c.now))
      && (id !in c.ids ==>
        && id !in Answer(initial, calls) && (id in after.arrived <==> id in before.arrived)
        && (id in after.arrived ==> after.arrived[id] == before.arrived[id]))
  {
    var n := |calls| - 1;
    var c := calls[n];
    BagKnows(initial, calls[..n]);
    ArrivedIsKnown(initial, calls[..n]);
    IdIsDone(BagAfter(initial, calls[..n]), c, |c.ids|, id);
    assert c.ids[..|c.ids|] == c.ids;
  }

  lemma {:induction false} AlwaysTracks(initial: seq<Id>, calls: seq<Call>, id: Id)
    requires ClockForward(calls)
    ensures Tracks(initial, calls, id)
    decreases |calls|
  {
    if calls != [] {
      AlwaysTracks(initial, calls[..|calls| - 1], id);
      TracksNext(initial, calls, id);
    }
  }

  /** When the id was first sighted and counted, whether before the last call or at it. */
  lemma ArrivedCases(initial: seq<Id>, calls: seq<Call>, k: nat, id: Id)
    requires calls != [] && ArrivedAt(initial, calls, k, id)
    ensures var n := |calls| - 1;
      if k < n then id in SeenIn(initial, calls[..n]) && ArrivedAt(initial, calls[..n], k, id)
      else id in calls[n].ids && id !in SeenIn(initial, calls[..n]) && Arrives(SeenIn(initial, calls[..n]), calls[n], id)
  {
    var n := |calls| - 1;
    if k < n {
      ArrivedBefore(initial, calls, k, id);
      assert calls[..n][k] == calls[k];
      SeenStays(initial, calls[..n], k, id);
    }
  }

  lemma TracksNext(initial: seq<Id>, calls: seq<Call>, id: Id)
    requires calls != [] && ClockForward(calls) && Tracks(initial, calls[..|calls| - 1], id)
    ensures Tracks(initial, calls, id)
  {
    var n := |calls| - 1;
    var before, after := BagAfter(initial, calls[..n]), BagAfter(initial, calls);
    CallDone(initial, calls, id);
    if id in after.arrived {
      if id in before.arrived {
        var k: nat :| ArrivedAt(initial, calls[..n], k, id) && before.arrived[id] == calls[..n][k].now;
        ArrivedBefore(initial, calls, k, id);
        assert ArrivedAt(initial, calls, k, id) && after.arrived[id] == calls[k].now;
      } else {
        assert ArrivedAt(initial, calls, n, id) && after.arrived[id] == calls[n].now;
      }
    } else {
      forall k: nat | ArrivedAt(initial, calls, k, id) ensures calls[n].now - calls[k].now >= FRESH_MS {
        ArrivedCases(initial, calls, k, id);
        if id in before.arrived {
          var j: nat :| ArrivedAt(initial, calls[..n], j, id) && before.arrived[id] == calls[..n][j].now;
          ArrivesOnce(initial, calls[..n], j, k, id);
        } else {
          assert calls[..n][n - 1] == calls[n - 1];
        }
      }
    }
  }

  lemma LastAnswer(initial: seq<Id>, calls: seq<Call>, id: Id)
    requires calls != [] && ClockForward(calls)
    ensures var n := |calls| - 1;
      id in Answer(initial, calls) <==>
        id in calls[n].ids && exists k: nat :: ArrivedAt(initial, calls, k, id) && calls[n].now - calls[k].now < FRESH_MS
  {
    var n := |calls| - 1;
    AlwaysTracks(initial, calls, id);
    CallDone(initial, calls, id);
    if id in Answer(initial, calls) {
      var k: nat :| ArrivedAt(initial, calls, k, id) && BagAfter(initial, calls).arrived[id] == calls[k].now;
    }
  }

  lemma ArrivedInPrefix(initial: seq<Id>, calls: seq<Call>, m: nat, k: nat, id: Id)
    requires m <= |calls|
    ensures ArrivedAt(initial, calls[..m], k, id) <==> k < m && ArrivedAt(initial, calls, k, id)
  {
    if k < m { assert calls[..m][..k] == calls[..k]; }
  }

  ghost predicate NewAt(initial: seq<Id>, calls: seq<Call>, j: nat, k: nat, id: Id)
    requires j < |calls|
  {
    k <= j && ArrivedAt(initial, calls, k, id) && calls[j].now - calls[k].now < FRESH_MS
  }

  /**
    While the clock does not run backwards, call `j` reports an id exactly when
    it lists it and the id arrived, by its first sighting, less than FRESH_MS
    before.
   */
  lemma FreshExactly(initial: seq<Id>, calls: seq<Call>, j: nat, id: Id)
    requires j < |calls| && ClockForward(calls)
    ensures id in Answer(initial, calls[..j + 1]) <==> id in calls[j].ids && exists k: nat :: NewAt(initial, calls, j, k, id)
  {
    hide Answer, SeenIn, Arrives;
    var front := calls[..j + 1];
    LastAnswer(initial, front, id);
    assert front[j] == calls[j];
    if id in Answer(initial, front) {
      var k: nat :| ArrivedAt(initial, front, k, id) && front[j].now - front[k].now < FRESH_MS;
      ArrivedInPrefix(initial, calls, j + 1, k, id);
      assert NewAt(initial, calls, j, k, id);
    }
    forall k: nat | NewAt(initial, calls, j, k, id)
      ensures ArrivedAt(initial, front, k, id) && front[j].now - front[k].now < FRESH_MS
    {
      ArrivedInPrefix(initial, calls, j + 1, k, id);
    }
  }

  // ---- The same, in the caller's terms ----------------------------------------

  /** The scope knew the id before call `k`. */
  ghost predicate Seen(initial: seq<Id>, calls: seq<Call>, k: nat, id: Id)
    requires k <= |calls|
  {
    id in initial || exists j :: 0 <= j < k && id in calls[j].ids
  }

  /** In an ordered list: no listed id was known, or a known one stands ahead of the new one. */
  ghost predicate NotPrepended(initial: seq<Id>, calls: seq<Call>, k: nat, id: Id)
    requires k < |calls|
  {
    var ids := calls[k].ids;
    || (forall j :: 0 <= j < |ids| ==> !Seen(initial, calls, k, ids[j]))
    || exists j :: 0 <= j < |ids| && Seen(initial, calls, k, ids[j]) && id !in ids[..j]
  }

  ghost predicate Arrival(initial: seq<Id>, calls: seq<Call>, k: nat, id: Id) {
    && k < |calls| && id in calls[k].ids && !Seen(initial, calls, k, id)
    && (exists other :: Seen(initial, calls, k, other))
    && (calls[k].appendOnly ==> NotPrepended(initial, calls, k, id))
  }

  lemma {:induction false} SeenExactly(initial: seq<Id>, calls: seq<Call>, k: nat)
    requires k <= |calls|
    ensures forall id :: id in SeenIn(initial, calls[..k]) <==> Seen(initial, calls, k, id)
    decreases k
  {
    if k > 0 {
      SeenExactly(initial, calls, k - 1);
      assert calls[..k][..k - 1] == calls[..k - 1];
    }
  }

  lemma AheadOfFirst(ids: seq<Id>, known: set<Id>, id: Id)
    requires id in ids && id !in known
    ensures IndexOf(ids, id) >= FirstKnown(ids, known) <==>
      (forall j :: 0 <= j < |ids| ==> ids[j] !in known) || exists j :: 0 <= j < |ids| && ids[j] in known && id !in ids[..j]
  {
    hide FirstKnown, IndexOf;
    var i, start := IndexOf(ids, id), FirstKnown(ids, known);
    assert forall j :: i < j <= |ids| ==> ids[..j][i] == id;
    if start <= i && start < |ids| && ids[start] in known {
      assert forall j :: 0 <= j < start ==> ids[..start][j] != id;
    }
  }

  lemma NotPrependedExactly(initial: seq<Id>, calls: seq<Call>, k: nat, id: Id, known: set<Id>)
    requires k < |calls| && id in calls[k].ids && id !in known
    requires forall id :: id in known <==> Seen(initial, calls, k, id)
    ensures IndexOf(calls[k].ids, id) >= FirstKnown(calls[k].ids, known) <==> NotPrepended(initial, calls, k, id)
  {
    hide FirstKnown, IndexOf, Seen;
    AheadOfFirst(calls[k].ids, known, id);
  }

  /** Which sightings count. */
  lemma ArrivesExactly(initial: seq<Id>, calls: seq<Call>, k: nat, id: Id)
    ensures ArrivedAt(initial, calls, k, id) <==> Arrival(initial, calls, k, id)
  {
    if k < |calls| && id in calls[k].ids {
      hide FirstKnown, IndexOf, Seen, NotPrepended, SeenIn;
      var known := SeenIn(initial, calls[..k]);
      SeenExactly(initial, calls, k);
      if id !in known { NotPrependedExactly(initial, calls, k, id, known); }
      assert known != {} <==> exists other :: other in known;
    }
  }

  ghost predicate Recent(initial: seq<Id>, calls: seq<Call>, j: nat, k: nat, id: Id)
    requires j < |calls|
  {
    k <= j && Arrival(initial, calls, k, id) && calls[j].now - calls[k].now < 5000
  }

  /** What call `j` answers, by what was listed, known and when. */
  lemma AnswersExactly(initial: seq<Id>, calls: seq<Call>, j: nat, id: Id)
    requires j < |calls| && ClockForward(calls)
    ensures id in Answer(initial, calls[..j + 1]) <==> id in calls[j].ids && exists k: nat :: Recent(initial, calls, j, k, id)
  {
    hide Answer, ArrivedAt, Arrival;
    FreshExactly(initial, calls, j, id);
    forall k: nat ensures NewAt(initial, calls, j, k, id) <==> Recent(initial, calls, j, k, id) {
      ArrivesExactly(initial, calls, k, id);
    }
  }

  /** One window for each id: between two reports of it, every call that lists it reports it. */
  lemma OneWindow(initial: seq<Id>, calls: seq<Call>, i: nat, j: nat, l: nat, id: Id)
    requires ClockForward(calls) && i < j < l < |calls|
    requires id in Answer(initial, calls[..i + 1]) && id in calls[j].ids && id in Answer(initial, calls[..l + 1])
    ensures id in Answer(initial, calls[..j + 1])
  {
    FreshExactly(initial, calls, i, id);
    FreshExactly(initial, calls, j, id);
    FreshExactly(initial, calls, l, id);
    var a: nat :| NewAt(initial, calls, i, a, id);
    var b: nat :| NewAt(initial, calls, l, b, id);
    ArrivesOnce(initial, calls, a, b, id);
    assert NewAt(initial, calls, j, a, id);
  }
}
