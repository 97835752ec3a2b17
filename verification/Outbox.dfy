/**
  The transactional outbox (apps/worker/src/jobs.ts:317-386, 1030-1112): events
  and their publish jobs commit together, and a job is retired only after its hub
  acknowledged.
 */
module Outbox {
  import opened Wrappers
  import opened Decimals
  import opened Jobs

  type EventId = nat
  type Session = Option<string>

  datatype OutboxEvent = OutboxEvent(kind: string, payload: string, session: Session)

  datatype Row = Row(workspace: string, event: OutboxEvent)

  /** An inserted event with the id the sequence gave it. */
  datatype Stamped = Stamped(id: EventId, event: OutboxEvent)

  datatype Group = Group(session: Session, rows: seq<Stamped>)

  datatype Publication = Publication(jobId: JobId, session: Session, events: seq<Stamped>)

  // ---- Keys -----------------------------------------------------------------

  function DigitText(n: nat): string {
    Spell(DigitsOf(n))
  }

  function PublishKey(session: Session, first: EventId, last: EventId): string {
    "publish:" + (if session.Some? then session.value else "workspace") + ":" + DigitText(first) + "-" + DigitText(last)
  }

  function AfterDash(t: string): string {
    if t == "" || t[|t| - 1] == '-' then "" else AfterDash(t[..|t| - 1]) + [t[|t| - 1]]
  }

  lemma {:induction false} AfterDashIs(front: string, tail: string)
    requires '-' !in tail
    ensures AfterDash(front + "-" + tail) == tail
    decreases |tail|
  {
    var t := front + "-" + tail;
    if tail != "" {
      var shorter := tail[..|tail| - 1];
      AfterDashIs(front, shorter);
      assert t[..|t| - 1] == front + "-" + shorter;
    }
  }

  lemma {:induction false} SpellIsInjective(a: seq<Digit>, b: seq<Digit>)
    requires Spell(a) == Spell(b)
    ensures a == b
    decreases |a|
  {
    if a != [] && b != [] {
      assert Spell(a)[0] == Spell(b)[0] && Spell(a)[1..] == Spell(b)[1..];
      SpellIsInjective(a[1..], b[1..]);
      assert forall d, e :: 0 <= d <= 9 && 0 <= e <= 9 && "0123456789"[d] == "0123456789"[e] ==> d == e;
      assert a == [a[0]] + a[1..] && b == [b[0]] + b[1..];
    }
  }

  lemma {:induction false} SpellHasNoDash(ds: seq<Digit>)
    ensures '-' !in Spell(ds)
    decreases |ds|
  {
    if ds != [] {
      SpellHasNoDash(ds[1..]);
      assert forall d :: 0 <= d <= 9 ==> "0123456789"[d] != '-';
    }
  }

  /** Equal keys name the same last event, so a fresh range never meets an old key. */
  lemma KeyNamesLast(s: Session, f: EventId, l: EventId, s': Session, f': EventId, l': EventId)
    requires PublishKey(s, f, l) == PublishKey(s', f', l')
    ensures l == l'
  {
    SpellHasNoDash(DigitsOf(l));
    SpellHasNoDash(DigitsOf(l'));
    AfterDashIs("publish:" + (if s.Some? then s.value else "workspace") + ":" + DigitText(f), DigitText(l));
    AfterDashIs("publish:" + (if s'.Some? then s'.value else "workspace") + ":" + DigitText(f'), DigitText(l'));
    SpellIsInjective(DigitsOf(l), DigitsOf(l'));
  }

  // ---- Grouping by stream ---------------------------------------------------

  /** A JavaScript Map keeps the order in which its keys first appeared. */
  function AddRow(groups: seq<Group>, row: Stamped): seq<Group> {
    if groups == [] then [Group(row.event.session, [row])]
    else if groups[0].session == row.event.session then [Group(groups[0].session, groups[0].rows + [row])] + groups[1..]
    else [groups[0]] + AddRow(groups[1..], row)
  }

  function GroupAll(rows: seq<Stamped>): seq<Group> {
    if rows == [] then [] else AddRow(GroupAll(rows[..|rows| - 1]), rows[|rows| - 1])
  }

  function OfStream(rows: seq<Stamped>, session: Session): seq<Stamped> {
    if rows == [] then []
    else
      OfStream(rows[..|rows| - 1], session)
      + if rows[|rows| - 1].event.session == session then [rows[|rows| - 1]] else []
  }

  ghost predicate Partitions(groups: seq<Group>, rows: seq<Stamped>) {
    && (forall i, j :: 0 <= i < j < |groups| ==> groups[i].session != groups[j].session)
    && (forall i :: 0 <= i < |groups| ==> groups[i].rows != [] && groups[i].rows == OfStream(rows, groups[i].session))
    && (forall k :: 0 <= k < |rows| ==> HasGroup(groups, rows[k].event.session))
  }

  ghost predicate HasGroup(groups: seq<Group>, session: Session) {
    exists i :: 0 <= i < |groups| && groups[i].session == session
  }

  lemma {:induction false} AddRowAdds(groups: seq<Group>, row: Stamped) returns (at: nat)
    requires forall i, j :: 0 <= i < j < |groups| ==> groups[i].session != groups[j].session
    ensures var r := AddRow(groups, row);
      at < |r| && (|r| == |groups| || (|r| == |groups| + 1 && at == |groups|))
      && (forall i :: 0 <= i < |r| && i != at ==> i < |groups| && r[i] == groups[i])
      && r[at] == Group(row.event.session, (if at < |groups| then groups[at].rows else []) + [row])
      && (at < |groups| ==> groups[at].session == row.event.session)
      && (at == |groups| ==> forall i :: 0 <= i < |groups| ==> groups[i].session != row.event.session)
    decreases |groups|
  {
    at := 0;
    if groups != [] && groups[0].session != row.event.session {
      var k := AddRowAdds(groups[1..], row);
      at := k + 1;
      assert forall i :: 0 < i < |groups| ==> groups[i] == groups[1..][i - 1];
    }
  }

  lemma OfStreamAppend(rows: seq<Stamped>, row: Stamped, session: Session)
    ensures OfStream(rows + [row], session) == OfStream(rows, session) + if row.event.session == session then [row] else []
  {
    assert (rows + [row])[..|rows|] == rows;
  }

  lemma EveryRowHasGroup(groups: seq<Group>, rows: seq<Stamped>, row: Stamped, r: seq<Group>, at: nat)
    requires Partitions(groups, rows) && at < |r| && r[at].session == row.event.session && |groups| <= |r|
    requires forall i :: 0 <= i < |groups| ==> r[i].session == groups[i].session
    ensures forall k :: 0 <= k <= |rows| ==> HasGroup(r, (rows + [row])[k].event.session)
  {
    forall k | 0 <= k <= |rows| ensures HasGroup(r, (rows + [row])[k].event.session) {
      if k < |rows| {
        assert HasGroup(groups, rows[k].event.session);
        var i :| 0 <= i < |groups| && groups[i].session == rows[k].event.session;
        assert r[i].session == groups[i].session;
      }
    }
  }

  lemma PartitionStep(groups: seq<Group>, rows: seq<Stamped>, row: Stamped)
    requires Partitions(groups, rows)
    ensures Partitions(AddRow(groups, row), rows + [row])
  {
    hide HasGroup;
    var at := AddRowAdds(groups, row);
    var r, longer := AddRow(groups, row), rows + [row];
    if at == |groups| { NoSuchStream(groups, rows, row.event.session); }
    forall i | 0 <= i < |r| ensures r[i].rows != [] && r[i].rows == OfStream(longer, r[i].session) {
      OfStreamAppend(rows, row, r[i].session);
      if i != at {
        assert r[i] == groups[i];
        if at < |groups| { assert groups[i].session != groups[at].session; }
        assert OfStream(rows, r[i].session) + [] == OfStream(rows, r[i].session);
      }
    }
    EveryRowHasGroup(groups, rows, row, r, at);
  }

  /** Each stream's rows, whole and in order, make one group; streams come in order of first appearance. */
  lemma {:induction false} GroupsPartition(rows: seq<Stamped>)
    ensures Partitions(GroupAll(rows), rows)
    decreases |rows|
  {
    if rows != [] {
      var n := |rows| - 1;
      GroupsPartition(rows[..n]);
      PartitionStep(GroupAll(rows[..n]), rows[..n], rows[n]);
      assert rows == rows[..n] + [rows[n]];
    }
  }

  lemma {:induction false} NoSuchStream(groups: seq<Group>, rows: seq<Stamped>, session: Session)
    requires Partitions(groups, rows) && forall i :: 0 <= i < |groups| ==> groups[i].session != session
    ensures OfStream(rows, session) == []
  {
    forall k | 0 <= k < |rows| ensures rows[k].event.session != session {
      assert HasGroup(groups, rows[k].event.session);
    }
    NoneOfStream(rows, session);
  }

  lemma {:induction false} NoneOfStream(rows: seq<Stamped>, session: Session)
    requires forall k :: 0 <= k < |rows| ==> rows[k].event.session != session
    ensures OfStream(rows, session) == []
    decreases |rows|
  {
    if rows != [] { NoneOfStream(rows[..|rows| - 1], session); }
  }

  lemma {:induction false} OfStreamIs(rows: seq<Stamped>, session: Session)
    ensures forall x :: x in OfStream(rows, session) <==> x in rows && x.event.session == session
    decreases |rows|
  {
    if rows != [] {
      OfStreamIs(rows[..|rows| - 1], session);
      assert rows == rows[..|rows| - 1] + [rows[|rows| - 1]];
    }
  }

  ghost predicate Increasing(rows: seq<Stamped>) {
    forall i, j :: 0 <= i < j < |rows| ==> rows[i].id < rows[j].id
  }

  lemma {:induction false} OfStreamIncreasing(rows: seq<Stamped>, session: Session)
    requires Increasing(rows)
    ensures Increasing(OfStream(rows, session))
    decreases |rows|
  {
    if rows != [] {
      var n := |rows| - 1;
      OfStreamIncreasing(rows[..n], session);
      OfStreamIs(rows[..n], session);
      forall x | x in OfStream(rows[..n], session) ensures x.id < rows[n].id {
        var k :| 0 <= k < n && rows[..n][k] == x;
        assert rows[k] == x;
      }
    }
  }

  lemma {:induction false} AddRowFirsts(groups: seq<Group>, row: Stamped)
    requires forall i :: 0 <= i < |groups| ==> groups[i].rows != [] && groups[i].rows[0].id < row.id
    requires ByFirstRow(groups)
    ensures var r := AddRow(groups, row);
      (forall i :: 0 <= i < |r| ==> r[i].rows != [] && r[i].rows[0].id <= row.id) && ByFirstRow(r)
      && (groups != [] ==> r != [] && r[0].rows[0].id == groups[0].rows[0].id)
    decreases |groups|
  {
    if groups != [] && groups[0].session != row.event.session {
      AddRowFirsts(groups[1..], row);
      var r, tail := AddRow(groups, row), AddRow(groups[1..], row);
      assert r == [groups[0]] + tail;
      forall i | 0 < i < |r| ensures r[0].rows[0].id < r[i].rows[0].id {
        assert r[i] == tail[i - 1];
        if groups[1..] == [] { assert tail == [Group(row.event.session, [row])]; }
        assert tail[0].rows[0].id <= tail[i - 1].rows[0].id;
      }
    }
  }

  /** Groups stand in the order of their first rows. */
  ghost predicate ByFirstRow(groups: seq<Group>)
    requires forall i :: 0 <= i < |groups| ==> groups[i].rows != []
  {
    forall i, j :: 0 <= i < j < |groups| ==> groups[i].rows[0].id < groups[j].rows[0].id
  }

  /** A Map lists the streams in the order in which each was first seen. */
  lemma {:induction false} GroupsByFirstRow(rows: seq<Stamped>)
    requires Increasing(rows)
    ensures forall i :: 0 <= i < |GroupAll(rows)| ==> GroupAll(rows)[i].rows != [] && GroupAll(rows)[i].rows[0] in rows
    ensures ByFirstRow(GroupAll(rows))
    decreases |rows|
  {
    if rows != [] {
      var n := |rows| - 1;
      GroupsByFirstRow(rows[..n]);
      var groups := GroupAll(rows[..n]);
      forall i | 0 <= i < |groups| ensures groups[i].rows[0].id < rows[n].id {
        var k :| 0 <= k < n && rows[..n][k] == groups[i].rows[0];
        assert rows[k] == groups[i].rows[0];
      }
      AddRowFirsts(groups, rows[n]);
      FirstRowsAreRows(rows);
    }
  }

  lemma FirstRowsAreRows(rows: seq<Stamped>)
    ensures forall i :: 0 <= i < |GroupAll(rows)| ==> GroupAll(rows)[i].rows != [] && GroupAll(rows)[i].rows[0] in rows
  {
    var groups := GroupAll(rows);
    GroupsPartition(rows);
    forall i | 0 <= i < |groups| ensures groups[i].rows[0] in rows {
      OfStreamIs(rows, groups[i].session);
      assert groups[i].rows[0] in groups[i].rows;
    }
  }

  // ---- preparePublications --------------------------------------------------

  function Stamp(events: seq<OutboxEvent>, ids: seq<EventId>): (rows: seq<Stamped>)
    requires |events| == |ids|
    ensures |rows| == |ids| && forall i :: 0 <= i < |ids| ==> rows[i] == Stamped(ids[i], events[i])
  {
    seq(|ids|, i requires 0 <= i < |ids| => Stamped(ids[i], events[i]))
  }

  function Insert(rows: map<EventId, Row>, workspace: string, stamped: seq<Stamped>): map<EventId, Row> {
    if stamped == [] then rows
    else
      var n := |stamped| - 1;
      Insert(rows, workspace, stamped[..n])[stamped[n].id := Row(workspace, stamped[n].event)]
  }

  function EnqueueGroup(db: Db, workspace: string, g: Group, now: Time): (Db, Option<JobId>)
    requires g.rows != []
  {
    var first, last := g.rows[0].id, g.rows[|g.rows| - 1].id;
    Enqueue(db, workspace, Publish, PublishKey(g.session, first, last), Range(g.session, first, last), now)
  }

  function EnqueueGroups(db: Db, workspace: string, groups: seq<Group>, now: Time): (Db, seq<Publication>)
    requires forall i :: 0 <= i < |groups| ==> groups[i].rows != []
  {
    if groups == [] then (db, [])
    else
      var g := groups[|groups| - 1];
      var (before, publications) := EnqueueGroups(db, workspace, groups[..|groups| - 1], now);
      var (after, id) := EnqueueGroup(before, workspace, g, now);
      (after, if id.None? then publications else publications + [Publication(id.value, g.session, g.rows)])
  }

  class OutboxStore {
    const jobs: JobStore
    var rows: map<EventId, Row>

    constructor ()
      ensures fresh(jobs) && jobs.State() == EMPTY && rows == map[]
    {
      jobs := new JobStore();
      rows := map[];
    }

    method InsertByStream(workspace: string, events: seq<OutboxEvent>, ids: seq<EventId>) returns (byStream: seq<Group>)
      requires |ids| == |events|
      modifies this`rows
      ensures rows == Insert(old(rows), workspace, Stamp(events, ids))
      ensures byStream == GroupAll(Stamp(events, ids))
    {
      byStream := [];
      ghost var stamped := Stamp(events, ids);
      for i := 0 to |events|
        invariant rows == Insert(old(rows), workspace, stamped[..i])
        invariant byStream == GroupAll(stamped[..i])
      {
        rows := rows[ids[i] := Row(workspace, events[i])];
        byStream := AddRow(byStream, Stamped(ids[i], events[i]));
        assert stamped[..i + 1][..i] == stamped[..i];
      }
      assert stamped[..|events|] == stamped;
    }

    method EnqueueByStream(workspace: string, byStream: seq<Group>, now: Time) returns (publications: seq<Publication>)
      requires forall i :: 0 <= i < |byStream| ==> byStream[i].rows != []
      modifies jobs
      ensures (jobs.State(), publications) == EnqueueGroups(old(jobs.State()), workspace, byStream, now)
    {
      publications := [];
      for i := 0 to |byStream|
        invariant (jobs.State(), publications) == EnqueueGroups(old(jobs.State()), workspace, byStream[..i], now)
      {
        var g := byStream[i];
        var first, last := g.rows[0].id, g.rows[|g.rows| - 1].id;
        assert byStream[..i + 1][..i] == byStream[..i];
        var jobId := jobs.EnqueueJob(workspace, Publish, PublishKey(g.session, first, last), Range(g.session, first, last), now);
        if jobId.Some? { publications := publications + [Publication(jobId.value, g.session, g.rows)]; }
      }
      assert byStream[..|byStream|] == byStream;
    }

    /** `ids` is what the sequence hands out to this transaction. */
    method PreparePublications(workspace: string, events: seq<OutboxEvent>, ids: seq<EventId>, now: Time)
      returns (publications: seq<Publication>)
      requires |ids| == |events|
      modifies this`rows, jobs
      ensures rows == Insert(old(rows), workspace, Stamp(events, ids))
      ensures Partitions(GroupAll(Stamp(events, ids)), Stamp(events, ids))
      ensures (jobs.State(), publications) == EnqueueGroups(old(jobs.State()), workspace, GroupAll(Stamp(events, ids)), now)
    {
      var byStream := InsertByStream(workspace, events, ids);
      GroupsPartition(Stamp(events, ids));
      publications := EnqueueByStream(workspace, byStream, now);
    }
  }
}
