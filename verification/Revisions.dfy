/**
  The append-only log of candle revisions, the two adapters' views of its newest entries, and the ingestion of a batch. A
  candle's prices are represented by their hash; a batch holds each time slot once and carries one source time.
 */
module Revisions {
  import opened Evidence

  /** A stored revision; its id is its position in the log. */
  datatype Row = Row(feed: string, slot: int, time: int, hash: string)

  datatype Revision = Revision(time: int, hash: string)

  datatype Incoming = Incoming(slot: int, hash: string)

  datatype Decision = Insert | Idempotent | Revise | Stale(existingTime: int)

  function ClassifyCandle(existing: Option<Revision>, hash: string, time: int): Decision {
    match existing
    case None => Insert
    case Some(e) => if e.hash == hash then Idempotent else if e.time < time then Revise else Stale(e.time)
  }

  // ---------- The history of a slot ----------

  /** The revisions of a slot in insertion order. */
  function History(rows: seq<Row>, feed: string, slot: int): seq<Revision> {
    if rows == [] then []
    else
      var r := rows[|rows| - 1];
      History(rows[..|rows| - 1], feed, slot) + if r.feed == feed && r.slot == slot then [Revision(r.time, r.hash)] else []
  }

  function Newest(h: seq<Revision>): Option<Revision> {
    if h == [] then None else Some(h[|h| - 1])
  }

  /** Source times increase strictly and neighbours differ. */
  ghost predicate Progressive(h: seq<Revision>) {
    && (forall i, j :: 0 <= i < j < |h| ==> h[i].time < h[j].time)
    && forall i :: 0 < i < |h| ==> h[i - 1].hash != h[i].hash
  }

  ghost predicate Valid(rows: seq<Row>) {
    forall feed, slot :: Progressive(History(rows, feed, slot))
  }

  /** What a report does to the history of its slot. */
  function Step(h: seq<Revision>, r: Revision): seq<Revision> {
    var d := ClassifyCandle(Newest(h), r.hash, r.time);
    if d == Insert || d == Revise then h + [r] else h
  }

  lemma StepProgressive(h: seq<Revision>, r: Revision)
    requires Progressive(h)
    ensures Progressive(Step(h, r))
  {
  }

  // ---------- The adapters' reads ----------

  /** Newest source time first, then newest id. */
  predicate NewerRow(rows: seq<Row>, i: nat, j: nat)
    requires i < |rows| && j < |rows|
  {
    rows[i].time > rows[j].time || (rows[i].time == rows[j].time && i > j)
  }

  predicate Concerns(r: Row, feed: string, slot: int) {
    r.feed == feed && r.slot == slot
  }

  /** The row that ORDER BY time DESC, id DESC puts first. */
  ghost predicate IsFirst(rows: seq<Row>, feed: string, slot: int, i: nat) {
    && i < |rows| && Concerns(rows[i], feed, slot)
    && forall j :: 0 <= j < |rows| && j != i && Concerns(rows[j], feed, slot) ==> NewerRow(rows, i, j)
  }

  function RevisionOf(r: Row): Revision {
    Revision(r.time, r.hash)
  }

  lemma {:induction false} HistoryHas(rows: seq<Row>, feed: string, slot: int)
    ensures forall v :: v in History(rows, feed, slot) <==> exists r :: r in rows && Concerns(r, feed, slot) && v == RevisionOf(r)
  {
    if rows != [] {
      var front, last := rows[..|rows| - 1], rows[|rows| - 1];
      assert rows == front + [last];
      HistoryHas(front, feed, slot);
      HistoryNext(front, last, feed, slot);
      hide History, Concerns;
      assert last in rows;
    }
  }

  lemma HistoryNext(rows: seq<Row>, r: Row, feed: string, slot: int)
    ensures History(rows + [r], feed, slot) == if Concerns(r, feed, slot) then History(rows, feed, slot) + [RevisionOf(r)] else History(rows, feed, slot)
  {
    assert (rows + [r])[..|rows|] == rows;
  }

  lemma HistoryEmpty(rows: seq<Row>, feed: string, slot: int)
    ensures History(rows, feed, slot) == [] <==> forall r :: r in rows ==> !Concerns(r, feed, slot)
  {
    var h := History(rows, feed, slot);
    assert h != [] ==> h[0] in h;
    HistoryHas(rows, feed, slot);
    if r :| r in rows && Concerns(r, feed, slot) {
      assert RevisionOf(r) in h;
    }
  }

  /** In a valid log the row that the queries put first is the last one inserted. */
  lemma {:induction false} FirstIsNewest(rows: seq<Row>, feed: string, slot: int, i: nat)
    requires Progressive(History(rows, feed, slot)) && IsFirst(rows, feed, slot, i)
    ensures Newest(History(rows, feed, slot)) == Some(RevisionOf(rows[i]))
  {
    var front, r := rows[..|rows| - 1], rows[|rows| - 1];
    assert rows == front + [r];
    HistoryNext(front, r, feed, slot);
    if Concerns(r, feed, slot) {
      if i < |rows| - 1 {
        NotLater(front, r, feed, slot, rows[i]);
      }
    } else {
      assert i < |front|;
      hide History, Progressive;
      FirstIsNewest(front, feed, slot, i);
    }
  }

  lemma NotLater(front: seq<Row>, r: Row, feed: string, slot: int, earlier: Row)
    requires Progressive(History(front + [r], feed, slot)) && Concerns(r, feed, slot)
    requires earlier in front && Concerns(earlier, feed, slot)
    ensures earlier.time < r.time
  {
    HistoryHas(front, feed, slot);
    HistoryNext(front, r, feed, slot);
    hide History;
    var h := History(front, feed, slot);
    assert RevisionOf(earlier) in h;
    var k :| 0 <= k < |h| && h[k] == RevisionOf(earlier);
    assert (h + [RevisionOf(r)])[k].time < (h + [RevisionOf(r)])[|h|].time;
  }

  /** The newest revision of each requested slot that has one. */
  ghost predicate IsLatestView(rows: seq<Row>, feed: string, slots: seq<int>, view: map<int, Revision>) {
    forall slot :: (slot in view <==> slot in slots && History(rows, feed, slot) != []) && (slot in view ==>
      Newest(History(rows, feed, slot)) == Some(view[slot]))
  }

  /** One query per slot. */
  method SqliteReadLatest(rows: seq<Row>, feed: string, slots: seq<int>) returns (view: map<int, Revision>)
    requires Valid(rows)
    ensures IsLatestView(rows, feed, slots, view)
  {
    hide History, Progressive;
    view := map[];
    for k := 0 to |slots|
      invariant IsLatestView(rows, feed, slots[..k], view)
    {
      var slot := slots[k];
      assert slots[..k + 1] == slots[..k] + [slot];
      var first := QueryFirst(rows, feed, slot);
      HistoryEmpty(rows, feed, slot);
      if first.Some? {
        assert rows[first.value] in rows;
        FirstIsNewest(rows, feed, slot, first.value);
        view := view[slot := RevisionOf(rows[first.value])];
      }
    }
    assert slots[..|slots|] == slots;
  }

  /** WHERE feed and slot, ORDER BY time DESC, id DESC LIMIT 1. */
  method QueryFirst(rows: seq<Row>, feed: string, slot: int) returns (first: Option<nat>)
    ensures first.None? ==> forall r :: r in rows ==> !Concerns(r, feed, slot)
    ensures first.Some? ==> IsFirst(rows, feed, slot, first.value)
  {
    first := None;
    for i := 0 to |rows|
      invariant first.None? ==> forall j :: 0 <= j < i ==> !Concerns(rows[j], feed, slot)
      invariant first.Some? ==> first.value < i && Concerns(rows[first.value], feed, slot)
      invariant first.Some? ==> forall j :: 0 <= j < i && j != first.value && Concerns(rows[j], feed, slot) ==>
          NewerRow(rows, first.value, j)
    {
      if Concerns(rows[i], feed, slot) && (first.None? || NewerRow(rows, i, first.value)) {
        first := Some(i);
      }
    }
  }

  predicate Wanted(r: Row, feed: string, slots: seq<int>) {
    r.feed == feed && r.slot in slots
  }

  /** Ids below the bound, newest row first. */
  ghost predicate NewestFirst(rows: seq<Row>, ids: seq<nat>, bound: nat) {
    && bound <= |rows| && (forall a :: 0 <= a < |ids| ==> ids[a] < bound)
    && (forall a, b :: 0 <= a < b < |ids| ==> NewerRow(rows, ids[a], ids[b]))
  }

  /** The ids of the wanted rows, newest first. */
  ghost predicate Ranked(rows: seq<Row>, feed: string, slots: seq<int>, ids: seq<nat>, bound: nat) {
    NewestFirst(rows, ids, bound) && forall i: nat :: i in ids <==> i < bound && Wanted(rows[i], feed, slots)
  }

  /** WHERE feed and slot IN (...), ORDER BY time DESC, id DESC. */
  method QueryRanked(rows: seq<Row>, feed: string, slots: seq<int>) returns (ids: seq<nat>)
    ensures Ranked(rows, feed, slots, ids, |rows|)
  {
    ids := [];
    for i := 0 to |rows|
      invariant Ranked(rows, feed, slots, ids, i)
    {
      if Wanted(rows[i], feed, slots) {
        ids := Place(rows, ids, i);
      }
    }
  }

  /** Puts the next row before the first one that it is newer than. */
  method Place(rows: seq<Row>, ids: seq<nat>, i: nat) returns (placed: seq<nat>)
    requires i < |rows| && NewestFirst(rows, ids, i)
    ensures NewestFirst(rows, placed, i + 1)
    ensures forall j :: j in placed <==> j in ids || j == i
  {
    var k := 0;
    while k < |ids| && rows[ids[k]].time > rows[i].time
      invariant k <= |ids| && forall a :: 0 <= a < k ==> rows[ids[a]].time > rows[i].time
    {
      k := k + 1;
    }
    placed := ids[..k] + [i] + ids[k..];
    PlacedInOrder(rows, ids, i, k);
  }

  lemma PlacedInOrder(rows: seq<Row>, ids: seq<nat>, i: nat, k: nat)
    requires i < |rows| && NewestFirst(rows, ids, i) && k <= |ids|
    requires forall a :: 0 <= a < k ==> rows[ids[a]].time > rows[i].time
    requires k < |ids| ==> rows[ids[k]].time <= rows[i].time
    ensures NewestFirst(rows, ids[..k] + [i] + ids[k..], i + 1)
    ensures forall j :: j in ids[..k] + [i] + ids[k..] <==> j in ids || j == i
  {
    assert ids == ids[..k] + ids[k..];
    forall a | k <= a < |ids|
      ensures NewerRow(rows, i, ids[a])
    {
      assert a == k || NewerRow(rows, ids[k], ids[a]);
    }
  }

  /** One ordered query; the first row of each slot wins. */
  method PostgresReadLatest(rows: seq<Row>, feed: string, slots: seq<int>) returns (view: map<int, Revision>)
    requires Valid(rows)
    ensures IsLatestView(rows, feed, slots, view)
  {
    hide History, Progressive;
    view := map[];
    if slots == [] {
      return;
    }
    var ids := QueryRanked(rows, feed, slots);
    for k := 0 to |ids|
      invariant FirstWins(rows, feed, ids, k, view)
    {
      assert ids[k] in ids;
      var row := rows[ids[k]];
      if row.slot !in view {
        RankedFirst(rows, feed, slots, ids, k, view);
        FirstIsNewest(rows, feed, row.slot, ids[k]);
        view := view[row.slot := RevisionOf(row)];
      }
    }
    AllWon(rows, feed, slots, ids, view);
  }

  /** The slots of the first k rows have their newest revision. */
  ghost predicate FirstWins(rows: seq<Row>, feed: string, ids: seq<nat>, k: nat, view: map<int, Revision>) {
    && k <= |ids| && (forall a :: 0 <= a < |ids| ==> ids[a] < |rows|)
    && (forall slot :: slot in view ==> Newest(History(rows, feed, slot)) == Some(view[slot]))
    && (forall a :: 0 <= a < k ==> rows[ids[a]].slot in view)
    && (forall slot :: slot in view ==> exists a :: 0 <= a < k && rows[ids[a]].slot == slot)
  }

  lemma RankedFirst(rows: seq<Row>, feed: string, slots: seq<int>, ids: seq<nat>, k: nat, view: map<int, Revision>)
    requires Ranked(rows, feed, slots, ids, |rows|) && k < |ids| && FirstWins(rows, feed, ids, k, view)
    requires rows[ids[k]].slot !in view
    ensures IsFirst(rows, feed, rows[ids[k]].slot, ids[k])
  {
    hide NewerRow, History, Newest;
    var slot := rows[ids[k]].slot;
    assert ids[k] in ids;
    forall j: nat | j < |rows| && j != ids[k] && Concerns(rows[j], feed, slot)
      ensures NewerRow(rows, ids[k], j)
    {
      assert Wanted(rows[j], feed, slots) && j in ids;
      var b :| 0 <= b < |ids| && ids[b] == j;
      assert b >= k;
    }
  }

  lemma AllWon(rows: seq<Row>, feed: string, slots: seq<int>, ids: seq<nat>, view: map<int, Revision>)
    requires Ranked(rows, feed, slots, ids, |rows|) && FirstWins(rows, feed, ids, |ids|, view)
    ensures IsLatestView(rows, feed, slots, view)
  {
    hide History;
    forall slot
      ensures slot in view <==> slot in slots && History(rows, feed, slot) != []
    {
      HistoryEmpty(rows, feed, slot);
      if slot in view {
        var a :| 0 <= a < |ids| && rows[ids[a]].slot == slot;
        assert ids[a] in ids && rows[ids[a]] in rows && Concerns(rows[ids[a]], feed, slot);
      }
      if slot in slots && History(rows, feed, slot) != [] {
        var r :| r in rows && Concerns(r, feed, slot);
        var i: nat :| i < |rows| && rows[i] == r;
        assert Wanted(rows[i], feed, slots) && i in ids;
      }
    }
  }

  /** Both adapters read the same view. */
  lemma ViewsAgree(rows: seq<Row>, feed: string, slots: seq<int>, a: map<int, Revision>, b: map<int, Revision>)
    requires IsLatestView(rows, feed, slots, a) && IsLatestView(rows, feed, slots, b)
    ensures a == b
  {
    hide History;
    assert forall slot :: slot in a <==> slot in b;
    assert forall slot :: slot in a ==> a[slot] == b[slot];
  }
}
