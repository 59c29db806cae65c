/**
  Ingesting batches of candles under the feed lock, and when the final view of a slot is independent of arrival order. Each
  ingestion is one atomic step.
 */
module Ingestion {
  import opened Evidence
  import opened Sorting
  import opened Revisions

  datatype Adapter = Sqlite | Postgres

  datatype Rejection = Rejection(slot: int, existingTime: int)

  datatype Report = Report(inserted: nat, revised: nat, idempotent: nat, rejected: nat, rejections: seq<Rejection>)

  function DecisionOf(rows: seq<Row>, feed: string, c: Incoming, time: int): Decision {
    ClassifyCandle(Newest(History(rows, feed, c.slot)), c.hash, time)
  }

  predicate Accepted(d: Decision) {
    d == Insert || d == Revise
  }

  /** The rows that a batch adds, in batch order. */
  function AcceptedRows(rows: seq<Row>, feed: string, candles: seq<Incoming>, time: int): seq<Row> {
    if candles == [] then []
    else
      var c := candles[|candles| - 1];
      AcceptedRows(rows, feed, candles[..|candles| - 1], time) +
      if Accepted(DecisionOf(rows, feed, c, time)) then [Row(feed, c.slot, time, c.hash)] else []
  }

  function Count(rows: seq<Row>, feed: string, candles: seq<Incoming>, time: int, kind: Decision -> bool): nat {
    if candles == [] then 0
    else
      Count(rows, feed, candles[..|candles| - 1], time, kind) + if kind(DecisionOf(rows, feed, candles[|candles| - 1], time)) then 1 else 0
  }

  function StaleOf(rows: seq<Row>, feed: string, candles: seq<Incoming>, time: int): seq<Rejection> {
    if candles == [] then []
    else
      var c := candles[|candles| - 1];
      var d := DecisionOf(rows, feed, c, time);
      StaleOf(rows, feed, candles[..|candles| - 1], time) + if d.Stale? then [Rejection(c.slot, d.existingTime)] else []
  }

  predicate SlotBefore(a: Rejection, b: Rejection) {
    a.slot < b.slot
  }

  /** No slot occurs twice; the request parser rejects duplicates. */
  ghost predicate DistinctSlots(candles: seq<Incoming>) {
    forall i, j :: 0 <= i < j < |candles| ==> candles[i].slot != candles[j].slot
  }

  function SlotsOf(candles: seq<Incoming>): (slots: seq<int>)
    ensures |slots| == |candles| && forall i :: 0 <= i < |candles| ==> slots[i] == candles[i].slot
  {
    seq(|candles|, i requires 0 <= i < |candles| => candles[i].slot)
  }

  // ---------- Histories after a batch ----------

  lemma {:induction false} HistoryAppend(rows: seq<Row>, more: seq<Row>, feed: string, slot: int)
    ensures History(rows + more, feed, slot) == History(rows, feed, slot) + History(more, feed, slot)
  {
    if more == [] {
      assert rows + more == rows;
    } else {
      var front, r := more[..|more| - 1], more[|more| - 1];
      assert rows + more == (rows + front) + [r] && more == front + [r];
      HistoryAppend(rows, front, feed, slot);
      HistoryNext(rows + front, r, feed, slot);
      HistoryNext(front, r, feed, slot);
    }
  }

  lemma AcceptedNext(rows: seq<Row>, feed: string, candles: seq<Incoming>, c: Incoming, time: int, f: string, slot: int)
    ensures History(AcceptedRows(rows, feed, candles + [c], time), f, slot) ==
            History(AcceptedRows(rows, feed, candles, time), f, slot) +
            if Accepted(DecisionOf(rows, feed, c, time)) && f == feed && c.slot == slot then [Revision(time, c.hash)] else []
  {
    hide DecisionOf, History;
    assert (candles + [c])[..|candles|] == candles;
    var before := AcceptedRows(rows, feed, candles, time);
    if Accepted(DecisionOf(rows, feed, c, time)) {
      HistoryNext(before, Row(feed, c.slot, time, c.hash), f, slot);
    } else {
      assert before + [] == before;
    }
  }

  /** The part of a batch that concerns a slot. */
  lemma {:induction false} AcceptedHistory(rows: seq<Row>, feed: string, candles: seq<Incoming>, time: int, f: string,
      slot: int)
    requires DistinctSlots(candles)
    ensures f != feed || (forall c :: c in candles ==> c.slot != slot) ==>
        History(AcceptedRows(rows, feed, candles, time), f, slot) == []
    ensures forall c :: c in candles && c.slot == slot && f == feed ==>
              History(AcceptedRows(rows, feed, candles, time), f, slot) == if Accepted(DecisionOf(rows, feed, c, time)) then [Revision(time, c.hash)] else []
  {
    if candles != [] {
      hide DecisionOf, History, AcceptedRows;
      var front, last := candles[..|candles| - 1], candles[|candles| - 1];
      assert candles == front + [last] && last in candles;
      AcceptedHistory(rows, feed, front, time, f, slot);
      AcceptedNext(rows, feed, front, last, time, f, slot);
      LastSlotNew(front, last);
    }
  }

  lemma LastSlotNew(front: seq<Incoming>, last: Incoming)
    requires DistinctSlots(front + [last])
    ensures forall c :: c in front ==> c.slot != last.slot
  {
    var all := front + [last];
    forall c | c in front
      ensures c.slot != last.slot
    {
      var i :| 0 <= i < |front| && front[i] == c;
      assert all[i].slot != all[|front|].slot;
    }
  }

  /** Each slot of the batch takes one step; all other histories stay as they are. */
  lemma BatchSteps(rows: seq<Row>, feed: string, candles: seq<Incoming>, time: int, f: string, slot: int)
    requires DistinctSlots(candles)
    ensures var h, h' := History(rows, f, slot), History(rows + AcceptedRows(rows, feed, candles, time), f, slot);
            && (f != feed || (forall c :: c in candles ==> c.slot != slot) ==> h' == h)
            && (forall c :: c in candles && c.slot == slot && f == feed ==> h' == Step(h, Revision(time, c.hash)))
  {
    AcceptedHistory(rows, feed, candles, time, f, slot);
    HistoryAppend(rows, AcceptedRows(rows, feed, candles, time), f, slot);
    hide History, AcceptedRows;
  }

  lemma BatchKeepsValid(rows: seq<Row>, feed: string, candles: seq<Incoming>, time: int)
    requires Valid(rows) && DistinctSlots(candles)
    ensures Valid(rows + AcceptedRows(rows, feed, candles, time))
  {
    hide History, AcceptedRows, Progressive;
    forall f, slot
      ensures Progressive(History(rows + AcceptedRows(rows, feed, candles, time), f, slot))
    {
      BatchSteps(rows, feed, candles, time, f, slot);
      if f == feed && exists c :: c in candles && c.slot == slot {
        var c :| c in candles && c.slot == slot;
        StepProgressive(History(rows, f, slot), Revision(time, c.hash));
      }
    }
  }

  /** Sending the same batch again at once adds nothing. */
  lemma ReplayAddsNothing(rows: seq<Row>, feed: string, candles: seq<Incoming>, time: int)
    requires DistinctSlots(candles)
    ensures AcceptedRows(rows + AcceptedRows(rows, feed, candles, time), feed, candles, time) == []
  {
    hide History, AcceptedRows;
    var rows' := rows + AcceptedRows(rows, feed, candles, time);
    forall c | c in candles
      ensures !Accepted(DecisionOf(rows', feed, c, time))
    {
      BatchSteps(rows, feed, candles, time, feed, c.slot);
      StepSettles(History(rows, feed, c.slot), Revision(time, c.hash));
    }
    NoneAccepted(rows', feed, candles, time);
  }

  lemma StepSettles(h: seq<Revision>, r: Revision)
    ensures !Accepted(ClassifyCandle(Newest(Step(h, r)), r.hash, r.time))
  {
  }

  lemma {:induction false} NoneAccepted(rows: seq<Row>, feed: string, candles: seq<Incoming>, time: int)
    requires forall c :: c in candles ==> !Accepted(DecisionOf(rows, feed, c, time))
    ensures AcceptedRows(rows, feed, candles, time) == []
  {
    if candles != [] {
      NoneAccepted(rows, feed, candles[..|candles| - 1], time);
    }
  }

  lemma {:induction false} EveryCandleCounted(rows: seq<Row>, feed: string, candles: seq<Incoming>, time: int)
    ensures Count(rows, feed, candles, time, d => d == Insert) + Count(rows, feed, candles, time, d => d == Revise)
            == |AcceptedRows(rows, feed, candles, time)|
    ensures Count(rows, feed, candles, time, (d: Decision) => d.Stale?) == |StaleOf(rows, feed, candles, time)|
    ensures |AcceptedRows(rows, feed, candles, time)| + Count(rows, feed, candles, time, d => d == Idempotent) + |StaleOf(rows, feed, candles, time)| == |candles|
  {
    if candles != [] {
      hide DecisionOf;
      EveryCandleCounted(rows, feed, candles[..|candles| - 1], time);
    }
  }

  // ---------- What a report says ----------

  /** The classification of a candle by the rows of its slot: by the newest row, or new if there is none. */
  lemma DecisionIs(rows: seq<Row>, feed: string, c: Incoming, time: int)
    requires Valid(rows)
    ensures DecisionOf(rows, feed, c, time) == Insert <==> forall r :: r in rows && r.feed == feed ==> r.slot != c.slot
    ensures forall i: nat :: IsFirst(rows, feed, c.slot, i) ==>
              DecisionOf(rows, feed, c, time) ==
              if c.hash == rows[i].hash then Idempotent else if rows[i].time < time then Revise else Stale(rows[i].time)
  {
    HistoryEmpty(rows, feed, c.slot);
    forall i: nat | IsFirst(rows, feed, c.slot, i)
      ensures Newest(History(rows, feed, c.slot)) == Some(RevisionOf(rows[i]))
    {
      hide History;
      FirstIsNewest(rows, feed, c.slot, i);
    }
    hide History;
  }

  /** The rejections listed by slot: exactly the candles whose slot already holds something else that is not older. */
  lemma RejectionsAre(rows: seq<Row>, feed: string, candles: seq<Incoming>, time: int)
    requires DistinctSlots(candles)
    ensures var list := SortBy(SlotBefore, StaleOf(rows, feed, candles, time));
            && (forall i, j :: 0 <= i < j < |list| ==> list[i].slot < list[j].slot)
            && forall x :: x in list <==> exists c :: c in candles && c.slot == x.slot && DecisionOf(rows, feed, c, time) == Stale(x.existingTime)
  {
    hide DecisionOf;
    var stale := StaleOf(rows, feed, candles, time);
    StaleIn(rows, feed, candles, time);
    StaleDistinct(rows, feed, candles, time);
    var slot := (x: Rejection) => x.slot;
    var before := (a: int, b: int) => a < b;
    SortStrictly(SlotBefore, before, slot, stale);
  }

  lemma {:induction false} StaleIn(rows: seq<Row>, feed: string, candles: seq<Incoming>, time: int)
    ensures forall x :: x in StaleOf(rows, feed, candles, time) <==>
              exists c :: c in candles && c.slot == x.slot && DecisionOf(rows, feed, c, time) == Stale(x.existingTime)
  {
    if candles != [] {
      hide DecisionOf;
      var front, last := candles[..|candles| - 1], candles[|candles| - 1];
      assert candles == front + [last];
      StaleIn(rows, feed, front, time);
    }
  }

  lemma {:induction false} StaleDistinct(rows: seq<Row>, feed: string, candles: seq<Incoming>, time: int)
    requires DistinctSlots(candles)
    ensures DistinctKeys((x: Rejection) => x.slot, StaleOf(rows, feed, candles, time))
  {
    if candles != [] {
      hide DecisionOf;
      var front, last := candles[..|candles| - 1], candles[|candles| - 1];
      assert candles == front + [last];
      StaleDistinct(rows, feed, front, time);
      StaleIn(rows, feed, front, time);
      LastSlotNew(front, last);
      var d := DecisionOf(rows, feed, last, time);
      if d.Stale? {
        AppendDistinctKey((x: Rejection) => x.slot, StaleOf(rows, feed, front, time), Rejection(last.slot, d.existingTime));
      }
    }
  }

  // ---------- The store ----------

  class CandleStore {
    var rows: seq<Row>

    constructor ()
      ensures rows == [] && Valid(rows)
    {
      rows := [];
    }

    method ReadLatest(adapter: Adapter, feed: string, slots: seq<int>) returns (view: map<int, Revision>)
      requires Valid(rows)
      ensures IsLatestView(rows, feed, slots, view)
    {
      match adapter
      case Sqlite => view := SqliteReadLatest(rows, feed, slots);
      case Postgres => view := PostgresReadLatest(rows, feed, slots);
    }

    method InsertRevisions(revisions: seq<Row>)
      modifies this
      ensures rows == old(rows) + revisions
    {
      for i := 0 to |revisions|
        invariant rows == old(rows) + revisions[..i]
      {
        rows := rows + [revisions[i]];
        assert revisions[..i + 1] == revisions[..i] + [revisions[i]];
      }
      assert revisions[..|revisions|] == revisions;
    }

    /** Classifies a batch against the view read at its start, and appends what is accepted. */
    method Ingest(adapter: Adapter, feed: string, candles: seq<Incoming>, time: int) returns (report: Report)
      requires Valid(rows) && DistinctSlots(candles)
      modifies this
      ensures Valid(rows) && rows == old(rows) + AcceptedRows(old(rows), feed, candles, time)
      ensures report.inserted == Count(old(rows), feed, candles, time, d => d == Insert)
      ensures report.revised == Count(old(rows), feed, candles, time, d => d == Revise)
      ensures report.idempotent == Count(old(rows), feed, candles, time, d => d == Idempotent)
      ensures report.rejected == |report.rejections|
      ensures report.rejections == SortBy(SlotBefore, StaleOf(old(rows), feed, candles, time))
    {
      hide Valid, AcceptedRows, Count, StaleOf, SortBy;
      var existingBySlot := ReadLatest(adapter, feed, SlotsOf(candles));
      var accepted, unsorted;
      accepted, unsorted := ClassifyBatch(existingBySlot, feed, candles, time, rows);
      BatchKeepsValid(rows, feed, candles, time);
      SortedLength(unsorted.rejections);
      report := unsorted.(rejections := SortBy(SlotBefore, unsorted.rejections));
      if |accepted| > 0 {
        InsertRevisions(accepted);
      } else {
        assert rows + accepted == rows;
      }
    }
  }

  ghost predicate Tallied(rows: seq<Row>, feed: string, candles: seq<Incoming>, time: int, accepted: seq<Row>,
      report: Report) {
    && accepted == AcceptedRows(rows, feed, candles, time) && report.rejections == StaleOf(rows, feed, candles, time)
    && report.inserted == Count(rows, feed, candles, time, d => d == Insert)
    && report.revised == Count(rows, feed, candles, time, d => d == Revise)
    && report.idempotent == Count(rows, feed, candles, time, d => d == Idempotent)
    && report.rejected == |report.rejections|
  }

  function Tally(report: Report, slot: int, decision: Decision): Report {
    match decision
    case Insert => report.(inserted := report.inserted + 1)
    case Revise => report.(revised := report.revised + 1)
    case Idempotent => report.(idempotent := report.idempotent + 1)
    case Stale(existingTime) => report.(rejected := report.rejected + 1, rejections := report.rejections + [Rejection(slot, existingTime)])
  }

  lemma TallyNext(rows: seq<Row>, feed: string, candles: seq<Incoming>, c: Incoming, time: int, accepted: seq<Row>,
      report: Report)
    requires Tallied(rows, feed, candles, time, accepted, report)
    ensures var d := DecisionOf(rows, feed, c, time);
            Tallied(rows, feed, candles + [c], time, if Accepted(d) then accepted + [Row(feed, c.slot, time, c.hash)] else accepted, Tally(report, c.slot, d))
  {
    hide DecisionOf;
    assert (candles + [c])[..|candles|] == candles;
  }

  /** One pass over the batch. */
  method ClassifyBatch(existingBySlot: map<int, Revision>, feed: string, candles: seq<Incoming>, time: int,
      ghost rows: seq<Row>)
    returns (accepted: seq<Row>, report: Report)
    requires IsLatestView(rows, feed, SlotsOf(candles), existingBySlot)
    ensures Tallied(rows, feed, candles, time, accepted, report)
  {
    accepted, report := [], Report(0, 0, 0, 0, []);
    for i := 0 to |candles|
      invariant Tallied(rows, feed, candles[..i], time, accepted, report)
    {
      hide Tallied, DecisionOf, ClassifyCandle, IsLatestView;
      var candle := candles[i];
      assert candles[..i + 1] == candles[..i] + [candle];
      assert SlotsOf(candles)[i] == candle.slot && candle.slot in SlotsOf(candles);
      ViewDecides(rows, feed, SlotsOf(candles), existingBySlot, candle, time);
      TallyNext(rows, feed, candles[..i], candle, time, accepted, report);
      var existing := if candle.slot in existingBySlot then Some(existingBySlot[candle.slot]) else None;
      var decision := ClassifyCandle(existing, candle.hash, time);
      report := Tally(report, candle.slot, decision);
      if Accepted(decision) {
        accepted := accepted + [Row(feed, candle.slot, time, candle.hash)];
      }
    }
    assert candles[..|candles|] == candles;
  }

  lemma ViewDecides(rows: seq<Row>, feed: string, slots: seq<int>, view: map<int, Revision>, c: Incoming, time: int)
    requires IsLatestView(rows, feed, slots, view) && c.slot in slots
    ensures ClassifyCandle(if c.slot in view then Some(view[c.slot]) else None, c.hash, time) == DecisionOf(rows, feed, c, time)
  {
  }

  lemma SortedLength(rejections: seq<Rejection>)
    ensures |SortBy(SlotBefore, rejections)| == |rejections|
  {
    SortSorts(SlotBefore, rejections);
    assert |multiset(SortBy(SlotBefore, rejections))| == |multiset(rejections)|;
  }

  // ---------- Runs of batches ----------

  datatype Batch = Batch(feed: string, candles: seq<Incoming>, time: int)

  function Run(batches: seq<Batch>): seq<Row> {
    if batches == [] then []
    else
      var rows, b := Run(batches[..|batches| - 1]), batches[|batches| - 1];
      rows + AcceptedRows(rows, b.feed, b.candles, b.time)
  }

  /** What a batch reports about a slot. */
  function ReportOf(candles: seq<Incoming>, slot: int, time: int): seq<Revision> {
    if candles == [] then []
    else ReportOf(candles[..|candles| - 1], slot, time) + if candles[|candles| - 1].slot == slot then [Revision(time, candles[|candles| - 1].hash)] else []
  }

  /** The reports about a slot in arrival order. */
  function Reports(batches: seq<Batch>, feed: string, slot: int): seq<Revision> {
    if batches == [] then []
    else
      var b := batches[|batches| - 1];
      Reports(batches[..|batches| - 1], feed, slot) + if b.feed == feed then ReportOf(b.candles, slot, b.time) else []
  }

  function Fold(h: seq<Revision>, reports: seq<Revision>): seq<Revision> {
    if reports == [] then h else Step(Fold(h, reports[..|reports| - 1]), reports[|reports| - 1])
  }

  lemma {:induction false} FoldAppend(h: seq<Revision>, a: seq<Revision>, b: seq<Revision>)
    ensures Fold(h, a + b) == Fold(Fold(h, a), b)
  {
    if b == [] {
      assert a + b == a;
    } else {
      assert (a + b)[..|a + b| - 1] == a + b[..|b| - 1];
      FoldAppend(h, a, b[..|b| - 1]);
    }
  }

  lemma {:induction false} ReportOfSlot(candles: seq<Incoming>, slot: int, time: int)
    requires DistinctSlots(candles)
    ensures (forall c :: c in candles ==> c.slot != slot) ==> ReportOf(candles, slot, time) == []
    ensures forall c :: c in candles && c.slot == slot ==> ReportOf(candles, slot, time) == [Revision(time, c.hash)]
  {
    if candles != [] {
      var front, last := candles[..|candles| - 1], candles[|candles| - 1];
      assert candles == front + [last];
      LastSlotIsNew(candles);
      hide DistinctSlots;
      ReportOfSlot(front, slot, time);
      assert last in candles;
      assert forall c :: c in candles <==> c in front || c == last;
    }
  }

  lemma LastSlotIsNew(candles: seq<Incoming>)
    requires DistinctSlots(candles) && candles != []
    ensures DistinctSlots(candles[..|candles| - 1])
    ensures forall c :: c in candles[..|candles| - 1] ==> c.slot != candles[|candles| - 1].slot
  {
  }

  ghost predicate WellFormedBatches(batches: seq<Batch>) {
    forall i :: 0 <= i < |batches| ==> DistinctSlots(batches[i].candles)
  }

  /** Over any run, a slot's history is what its own reports make of it, and the log stays valid. */
  lemma {:induction false} HistoryIsFold(batches: seq<Batch>, feed: string, slot: int)
    requires WellFormedBatches(batches)
    ensures History(Run(batches), feed, slot) == Fold([], Reports(batches, feed, slot))
  {
    if batches != [] {
      hide History, AcceptedRows, Step, ReportOf;
      var front, b := batches[..|batches| - 1], batches[|batches| - 1];
      HistoryIsFold(front, feed, slot);
      BatchSteps(Run(front), b.feed, b.candles, b.time, feed, slot);
      ReportOfSlot(b.candles, slot, b.time);
      if b.feed == feed && exists c :: c in b.candles && c.slot == slot {
        var c :| c in b.candles && c.slot == slot;
        FoldAppend([], Reports(front, feed, slot), [Revision(b.time, c.hash)]);
        FoldOne(Fold([], Reports(front, feed, slot)), Revision(b.time, c.hash));
      } else {
        assert Reports(batches, feed, slot) == Reports(front, feed, slot);
      }
    }
  }

  lemma FoldOne(h: seq<Revision>, r: Revision)
    ensures Fold(h, [r]) == Step(h, r)
  {
    assert [r][..0] == [];
    assert Fold(h, []) == h;
  }

  lemma {:induction false} RunValid(batches: seq<Batch>)
    requires WellFormedBatches(batches)
    ensures Valid(Run(batches))
  {
    if batches != [] {
      hide Valid, AcceptedRows;
      RunValid(batches[..|batches| - 1]);
      var b := batches[|batches| - 1];
      BatchKeepsValid(Run(batches[..|batches| - 1]), b.feed, b.candles, b.time);
    }
  }

  // ---------- Arrival order ----------

  function FinalView(reports: seq<Revision>): Option<Revision> {
    Newest(Fold([], reports))
  }

  ghost predicate IsLatestReport(reports: seq<Revision>, m: Revision) {
    m in reports && forall r :: r in reports ==> r.time <= m.time
  }

  /** The latest report's hash occurs at no other time, and its time with no other hash. */
  ghost predicate ClearWinner(reports: seq<Revision>, m: Revision) {
    IsLatestReport(reports, m) && forall r :: r in reports ==> (r.hash == m.hash <==> r.time == m.time)
  }

  /** A winner stays, and replaces whatever is older and different. */
  lemma WinnerStep(h: seq<Revision>, r: Revision, m: Revision)
    requires r.time <= m.time && (r.hash == m.hash <==> r.time == m.time)
    ensures Newest(h) == Some(m) ==> Newest(Step(h, r)) == Some(m)
    ensures Newest(h) == None || (Newest(h).value.time < m.time && Newest(h).value.hash != m.hash) ==>
              Newest(Step(h, r)) == Some(m)
              || (Newest(Step(h, r)).Some? && Newest(Step(h, r)).value.time < m.time && Newest(Step(h, r)).value.hash != m.hash)
    ensures r == m && (Newest(h) == None || Newest(h) == Some(m) || (Newest(h).value.time < m.time && Newest(h).value.hash != m.hash)) ==>
              Newest(Step(h, r)) == Some(m)
    ensures r != m && Newest(Step(h, r)) == Some(m) ==> Newest(h) == Some(m)
  {
  }

  lemma {:induction false} WinnerSoFar(reports: seq<Revision>, m: Revision)
    requires forall r :: r in reports ==> r.time <= m.time && (r.hash == m.hash <==> r.time == m.time)
    ensures m in reports ==> FinalView(reports) == Some(m)
    ensures m !in reports && FinalView(reports).Some? ==>
        FinalView(reports).value.time < m.time && FinalView(reports).value.hash != m.hash
  {
    if reports != [] {
      var front, r := reports[..|reports| - 1], reports[|reports| - 1];
      assert reports == front + [r] && r in reports;
      WinnerSoFar(front, m);
      WinnerStep(Fold([], front), r, m);
      hide Step, Newest;
    }
  }

  /** A clear winner is the final view whatever the arrival order. */
  lemma ClearWinnerWins(reports: seq<Revision>, permuted: seq<Revision>, m: Revision)
    requires ClearWinner(reports, m) && multiset(permuted) == multiset(reports)
    ensures FinalView(permuted) == Some(m)
  {
    forall r
      ensures r in permuted <==> r in reports
    {
      assert r in multiset(permuted) <==> r in multiset(reports);
    }
    WinnerSoFar(permuted, m);
  }

  lemma {:induction false} NothingLater(h: seq<Revision>, reports: seq<Revision>)
    requires h != [] && forall r :: r in reports ==> r.time <= h[|h| - 1].time || r.hash == h[|h| - 1].hash
    ensures Fold(h, reports) == h
  {
    if reports != [] {
      var front, r := reports[..|reports| - 1], reports[|reports| - 1];
      assert reports == front + [r] && r in reports;
      NothingLater(h, front);
    }
  }

  lemma {:induction false} StaysBelow(h: seq<Revision>, reports: seq<Revision>, bound: int)
    requires h != [] && h[|h| - 1].time < bound && forall r :: r in reports ==> r.time < bound
    ensures var g := Fold(h, reports); g != [] && g[|g| - 1].time < bound
  {
    if reports != [] {
      var front, r := reports[..|reports| - 1], reports[|reports| - 1];
      assert reports == front + [r] && r in reports;
      StaysBelow(h, front, bound);
    }
  }

  function Only(reports: seq<Revision>, m: Revision): seq<Revision> {
    if reports == [] then [] else Only(reports[..|reports| - 1], m) + if reports[|reports| - 1] == m then [m] else []
  }

  function Without(reports: seq<Revision>, m: Revision): seq<Revision> {
    if reports == [] then [] else Without(reports[..|reports| - 1], m) + if reports[|reports| - 1] == m then [] else [reports[|reports| - 1]]
  }

  lemma {:induction false} SplitBy(reports: seq<Revision>, m: Revision)
    ensures multiset(Only(reports, m) + Without(reports, m)) == multiset(reports)
    ensures forall r :: r in Only(reports, m) ==> r == m
    ensures forall r :: r in Without(reports, m) ==> r in reports && r != m
  {
    if reports != [] {
      var front, last := reports[..|reports| - 1], reports[|reports| - 1];
      assert reports == front + [last];
      SplitBy(front, m);
    }
  }

  lemma TakeOut(reports: seq<Revision>, r: Revision) returns (rest: seq<Revision>)
    requires r in reports
    ensures multiset([r] + rest) == multiset(reports) && forall x :: x in rest ==> x in reports
  {
    var i :| 0 <= i < |reports| && reports[i] == r;
    rest := reports[..i] + reports[i + 1..];
    assert reports == reports[..i] + [r] + reports[i + 1..];
  }

  lemma FoldStart(r: Revision, rest: seq<Revision>)
    ensures Fold([], [r] + rest) == Fold([r], rest)
  {
    FoldAppend([], [r], rest);
    FoldOne([], r);
    assert Step([], r) == [r];
  }

  /** Without a clear winner some arrival order ends in another view. */
  lemma UnclearLoses(reports: seq<Revision>, m: Revision) returns (permuted: seq<Revision>)
    requires IsLatestReport(reports, m) && !ClearWinner(reports, m)
    ensures multiset(permuted) == multiset(reports) && FinalView(permuted) != Some(m)
  {
    if r0 :| r0 in reports && r0.time == m.time && r0.hash != m.hash {
      var rest := TakeOut(reports, r0);
      permuted := [r0] + rest;
      FoldStart(r0, rest);
      NothingLater([r0], rest);
    } else {
      var r0 :| r0 in reports && r0.hash == m.hash && r0.time != m.time;
      var rest := TakeOut(reports, r0);
      SplitBy(rest, m);
      var copies, others := Only(rest, m), Without(rest, m);
      permuted := [r0] + (copies + others);
      assert multiset(permuted) == multiset([r0]) + multiset(copies + others);
      assert multiset([r0] + rest) == multiset([r0]) + multiset(rest);
      FoldStart(r0, copies + others);
      FoldAppend([r0], copies, others);
      NothingLater([r0], copies);
      StaysBelow([r0], others, m.time);
    }
  }

  /**
    The latest report is the final view in every arrival order exactly when its hash occurs at no other time and its time
    with no other hash.
   */
  lemma OrderIndependentExactly(reports: seq<Revision>, m: Revision)
    requires IsLatestReport(reports, m)
    ensures ClearWinner(reports, m) <==> forall permuted :: multiset(permuted) == multiset(reports) ==>
        FinalView(permuted) == Some(m)
  {
    if ClearWinner(reports, m) {
      forall permuted: seq<Revision> | multiset(permuted) == multiset(reports)
        ensures FinalView(permuted) == Some(m)
      {
        ClearWinnerWins(reports, permuted, m);
      }
    } else {
      var permuted := UnclearLoses(reports, m);
    }
  }

  /** In particular for pairwise distinct hashes and times. */
  lemma DistinctReportsAreClear(reports: seq<Revision>, m: Revision)
    requires IsLatestReport(reports, m)
    requires forall a, b :: a in reports && b in reports && (a.hash == b.hash || a.time == b.time) ==> a == b
    ensures ClearWinner(reports, m)
  {
  }

  lemma ThreeReports(a: Revision, b: Revision, c: Revision)
    ensures FinalView([a, b, c]) == Newest(Step(Step(Step([], a), b), c))
  {
    hide Step, Newest;
    assert [a, b, c][..2] == [a, b] && [a, b][..1] == [a] && [a][..0] == [];
    assert Fold([], [a]) == Step([], a);
    assert Fold([], [a, b]) == Step(Fold([], [a]), b);
  }

  /** An unchanged report does not advance the stored time, so a later revision can lose against an older one. */
  lemma OrderMatters()
    ensures FinalView([Revision(1, "a"), Revision(5, "a"), Revision(3, "b")]) == Some(Revision(3, "b"))
    ensures FinalView([Revision(5, "a"), Revision(1, "a"), Revision(3, "b")]) == Some(Revision(5, "a"))
  {
    ThreeReports(Revision(1, "a"), Revision(5, "a"), Revision(3, "b"));
    ThreeReports(Revision(5, "a"), Revision(1, "a"), Revision(3, "b"));
    hide FinalView;
  }
}
