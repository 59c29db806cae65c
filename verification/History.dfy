/** Keyset pagination over the evidence history: newest first by receipt time and id, one page and a cursor at a time. */
module History {
  import opened Evidence
  import opened Sorting

  datatype Row = Row(id: nat, receivedAt: int, scopeKey: string, publisher: string, sourceId: string)

  datatype Query = Query(scopeKey: string, publisher: Option<string>, sourceId: Option<string>)

  datatype Cursor = Cursor(receivedAt: int, id: nat)

  datatype Page = Page(records: seq<Row>, nextCursor: Option<Cursor>) | BadLimit

  predicate Matches(r: Row, q: Query) {
    r.scopeKey == q.scopeKey && (q.publisher.Some? ==> q.publisher.value == r.publisher) && (q.sourceId.Some? ==> q.sourceId.value == r.sourceId)
  }

  /** Strictly after the cursor in reading order. */
  predicate Beyond(r: Row, cursor: Option<Cursor>) {
    cursor.Some? ==> r.receivedAt < cursor.value.receivedAt || (r.receivedAt == cursor.value.receivedAt && r.id < cursor.value.id)
  }

  /** Reading order: receipt time, then id, both descending. */
  predicate Earlier(a: Row, b: Row) {
    a.receivedAt > b.receivedAt || (a.receivedAt == b.receivedAt && a.id > b.id)
  }

  function Where(rows: seq<Row>, q: Query, cursor: Option<Cursor>): seq<Row> {
    if rows == [] then []
    else
      var r := rows[|rows| - 1];
      Where(rows[..|rows| - 1], q, cursor) + if Matches(r, q) && Beyond(r, cursor) then [r] else []
  }

  /** The matching rows after the cursor, in reading order. */
  function Remaining(rows: seq<Row>, q: Query, cursor: Option<Cursor>): seq<Row> {
    SortBy(Earlier, Where(rows, q, cursor))
  }

  /** Ids are primary keys. */
  ghost predicate DistinctIds(rows: seq<Row>) {
    forall i, j :: 0 <= i < j < |rows| ==> rows[i].id != rows[j].id
  }

  lemma {:induction false} WhereIn(rows: seq<Row>, q: Query, cursor: Option<Cursor>)
    ensures forall r :: r in Where(rows, q, cursor) <==> r in rows && Matches(r, q) && Beyond(r, cursor)
  {
    if rows != [] {
      hide Matches, Beyond;
      WhereIn(rows[..|rows| - 1], q, cursor);
      assert rows == rows[..|rows| - 1] + [rows[|rows| - 1]];
    }
  }

  lemma {:induction false} WhereDistinct(rows: seq<Row>, q: Query, cursor: Option<Cursor>)
    requires DistinctIds(rows)
    ensures DistinctIds(Where(rows, q, cursor))
  {
    if rows != [] {
      hide Matches, Beyond;
      var front, last := rows[..|rows| - 1], rows[|rows| - 1];
      WhereDistinct(front, q, cursor);
      WhereIn(front, q, cursor);
      var w := Where(front, q, cursor);
      forall r | r in w
        ensures r.id != last.id
      {
        var i :| 0 <= i < |front| && front[i] == r;
        assert rows[i].id != rows[|rows| - 1].id;
      }
      assert forall i :: 0 <= i < |w| ==> w[i] in w;
    }
  }

  predicate PairBefore(p: (int, int), q: (int, int)) {
    p.0 > q.0 || (p.0 == q.0 && p.1 > q.1)
  }

  function KeyOf(r: Row): (int, int) {
    (r.receivedAt, r.id)
  }

  lemma ReadingOrder()
    ensures ComparesKeys(Earlier, PairBefore, KeyOf)
  {
  }

  /** What remains is strictly in reading order and holds exactly the matching rows after the cursor. */
  lemma RemainingIs(rows: seq<Row>, q: Query, cursor: Option<Cursor>)
    requires DistinctIds(rows)
    ensures StrictlySorted(Earlier, Remaining(rows, q, cursor))
    ensures forall r :: r in Remaining(rows, q, cursor) <==> r in rows && Matches(r, q) && Beyond(r, cursor)
  {
    ReadingOrder();
    WhereIn(rows, q, cursor);
    WhereDistinct(rows, q, cursor);
    var w := Where(rows, q, cursor);
    forall i, j | 0 <= i < j < |w|
      ensures KeyOf(w[i]) != KeyOf(w[j])
    {
      assert w[i].id != w[j].id;
    }
    SortStrictly(Earlier, PairBefore, KeyOf, w);
  }

  function CursorOf(r: Row): Cursor {
    Cursor(r.receivedAt, r.id)
  }

  function Min(a: nat, b: nat): nat {
    if a < b then a else b
  }

  /** The page that follows a cursor. */
  function PageOf(rows: seq<Row>, q: Query, limit: nat, cursor: Option<Cursor>): Page
    requires limit > 0
  {
    var remaining := Remaining(rows, q, cursor);
    var records := remaining[..Min(limit, |remaining|)];
    Page(records, if |remaining| > limit then Some(CursorOf(records[|records| - 1])) else None)
  }

  /** Fetches one row more than the page holds, to learn whether there is a next page. */
  method GetHistory(rows: seq<Row>, q: Query, limit: Option<int>, cursor: Option<Cursor>) returns (page: Page)
    ensures var effective := if limit.Some? then limit.value else 30;
            page == if 1 <= effective <= 100 then PageOf(rows, q, effective, cursor) else BadLimit
  {
    var effectiveLimit := if limit == None then 30 else limit.value;
    if effectiveLimit < 1 || effectiveLimit > 100 {
      return BadLimit;
    }
    var queryLimit := effectiveLimit + 1;
    var ordered := Remaining(rows, q, cursor);
    var rawRows := ordered[..Min(queryLimit, |ordered|)];
    var hasMore := |rawRows| > effectiveLimit;
    var records := [];
    var i := 0;
    while i < effectiveLimit && i < |rawRows|
      invariant i <= |rawRows| && i <= effectiveLimit && records == rawRows[..i]
    {
      records := records + [rawRows[i]];
      i := i + 1;
    }
    var nextCursor := None;
    if hasMore && |records| > 0 {
      nextCursor := Some(CursorOf(records[|records| - 1]));
    }
    page := Page(records, nextCursor);
  }

  // ---------- Following the cursor ----------

  /** The rows read by following the cursor, the k-th page being read from the k-th table. */
  function Traverse(tables: seq<seq<Row>>, q: Query, limit: nat, cursor: Option<Cursor>): seq<Row>
    requires limit > 0
  {
    if tables == [] then []
    else
      var page := PageOf(tables[0], q, limit, cursor);
      if page.nextCursor.None? then page.records else page.records + Traverse(tables[1..], q, limit, page.nextCursor)
  }

  /** The cursor becomes null before the tables run out. */
  predicate Finishes(tables: seq<seq<Row>>, q: Query, limit: nat, cursor: Option<Cursor>)
    requires limit > 0
  {
    tables != [] && var page := PageOf(tables[0], q, limit, cursor);
    page.nextCursor.None? || Finishes(tables[1..], q, limit, page.nextCursor)
  }

  /** Rows are only inserted between one page and the next. */
  ghost predicate Growing(tables: seq<seq<Row>>) {
    && (forall k :: 0 <= k < |tables| ==> DistinctIds(tables[k]))
    && forall j, k, r :: 0 <= j <= k < |tables| && r in tables[j] ==> r in tables[k]
  }

  lemma GrowingTail(tables: seq<seq<Row>>)
    requires Growing(tables) && tables != []
    ensures Growing(tables[1..]) && (|tables| > 1 ==> forall r :: r in tables[0] ==> r in tables[1])
  {
    var tail := tables[1..];
    forall j, k, r | 0 <= j <= k < |tail| && r in tail[j]
      ensures r in tail[k]
    {
      assert r in tables[j + 1] && tail[k] == tables[k + 1];
    }
  }

  lemma AppendInOrder(a: seq<Row>, b: seq<Row>)
    requires StrictlySorted(Earlier, a) && StrictlySorted(Earlier, b) && a != []
    requires forall r :: r in b ==> Earlier(a[|a| - 1], r)
    ensures StrictlySorted(Earlier, a + b)
  {
    var c := a + b;
    forall i, j | 0 <= i < j < |c|
      ensures Earlier(c[i], c[j])
    {
      if i < |a| <= j {
        assert b[j - |a|] in b;
        assert Earlier(a[|a| - 1], b[j - |a|]);
        assert i == |a| - 1 || Earlier(a[i], a[|a| - 1]);
      }
    }
  }

  lemma PageIs(rows: seq<Row>, q: Query, limit: nat, cursor: Option<Cursor>)
    requires DistinctIds(rows) && limit > 0
    ensures var page := PageOf(rows, q, limit, cursor);
            && StrictlySorted(Earlier, page.records)
            && (forall r :: r in page.records ==> r in rows && Matches(r, q) && Beyond(r, cursor))
            && (page.nextCursor.Some? ==> page.records != [] && page.nextCursor == Some(CursorOf(page.records[|page.records| - 1])))
            && forall r :: r in rows && Matches(r, q) && Beyond(r, cursor) ==>
                 r in page.records || (page.nextCursor.Some? && Earlier(page.records[|page.records| - 1], r))
  {
    RemainingIs(rows, q, cursor);
    hide Matches, Beyond, Remaining, Earlier;
    var remaining, page := Remaining(rows, q, cursor), PageOf(rows, q, limit, cursor);
    forall r | r in remaining
      ensures r in page.records || (page.nextCursor.Some? && Earlier(page.records[|page.records| - 1], r))
    {
      var i :| 0 <= i < |remaining| && remaining[i] == r;
      if i < |page.records| {
        assert page.records[i] == r;
      }
    }
  }

  /**
    Following the cursor reads strictly in reading order, so no row twice; and it reads every matching row that was there
    when the traversal started, whatever is inserted between pages.
   */
  lemma {:induction false} TraversalReadsAll(tables: seq<seq<Row>>, q: Query, limit: nat, cursor: Option<Cursor>)
    requires Growing(tables) && limit > 0 && Finishes(tables, q, limit, cursor)
    ensures StrictlySorted(Earlier, Traverse(tables, q, limit, cursor))
    ensures forall r :: r in Traverse(tables, q, limit, cursor) ==>
        Matches(r, q) && Beyond(r, cursor) && exists k :: 0 <= k < |tables| && r in tables[k]
    ensures forall r :: r in tables[0] && Matches(r, q) && Beyond(r, cursor) ==> r in Traverse(tables, q, limit, cursor)
  {
    PageIs(tables[0], q, limit, cursor);
    var page := PageOf(tables[0], q, limit, cursor);
    if page.nextCursor.Some? {
      hide PageOf, Matches;
      GrowingTail(tables);
      TraversalReadsAll(tables[1..], q, limit, page.nextCursor);
      var last, rest := page.records[|page.records| - 1], Traverse(tables[1..], q, limit, page.nextCursor);
      assert last in page.records;
      forall r
        ensures Beyond(r, page.nextCursor) <==> Earlier(last, r)
        ensures Beyond(last, cursor) && Earlier(last, r) ==> Beyond(r, cursor)
      {
      }
      AppendInOrder(page.records, rest);
      forall r | r in rest
        ensures exists k :: 0 <= k < |tables| && r in tables[k]
      {
        var k :| 0 <= k < |tables[1..]| && r in tables[1..][k];
        assert r in tables[k + 1];
      }
    }
  }

  // ---------- A fixed table ----------

  function Repeat(rows: seq<Row>, n: nat): (tables: seq<seq<Row>>)
    ensures |tables| == n && forall k :: 0 <= k < n ==> tables[k] == rows
  {
    seq(n, k => rows)
  }

  /** After a full page fewer rows remain. */
  lemma RemainingShrinks(rows: seq<Row>, q: Query, limit: nat, cursor: Option<Cursor>)
    requires DistinctIds(rows) && limit > 0 && PageOf(rows, q, limit, cursor).nextCursor.Some?
    ensures Remaining(rows, q, PageOf(rows, q, limit, cursor).nextCursor) == Remaining(rows, q, cursor)[limit..]
  {
    var page := PageOf(rows, q, limit, cursor);
    var remaining := Remaining(rows, q, cursor);
    var last := remaining[limit - 1];
    assert page.nextCursor == Some(CursorOf(last));
    RemainingIs(rows, q, cursor);
    RemainingIs(rows, q, page.nextCursor);
    hide Matches, Remaining;
    var next, suffix := Remaining(rows, q, page.nextCursor), remaining[limit..];
    forall r
      ensures r in next <==> r in suffix
    {
      if r in suffix {
        var i :| 0 <= i < |suffix| && suffix[i] == r;
        assert remaining[limit + i] == r && Earlier(last, r) && r in remaining;
      }
      if r in next {
        BeyondLast(rows, q, cursor, limit, r);
      }
    }
    ReadingOrder();
    KeysGiveWeakOrder(Earlier, PairBefore, KeyOf);
    SortedUnique(Earlier, next, suffix);
  }

  lemma BeyondLast(rows: seq<Row>, q: Query, cursor: Option<Cursor>, limit: nat, r: Row)
    requires DistinctIds(rows) && 0 < limit <= |Remaining(rows, q, cursor)|
    requires r in rows && Matches(r, q) && Earlier(Remaining(rows, q, cursor)[limit - 1], r)
    ensures r in Remaining(rows, q, cursor)[limit..]
  {
    RemainingIs(rows, q, cursor);
    hide Remaining, Matches;
    var remaining := Remaining(rows, q, cursor);
    var last := remaining[limit - 1];
    assert last in remaining;
    assert Beyond(r, cursor);
    var i :| 0 <= i < |remaining| && remaining[i] == r;
    assert i < limit - 1 ==> Earlier(r, last);
    assert i >= limit;
    assert remaining[limit..][i - limit] == r;
  }

  /** Over a fixed table the traversal finishes, and what it reads is the whole listing. */
  lemma {:induction false} FixedTraversal(rows: seq<Row>, q: Query, limit: nat, cursor: Option<Cursor>, n: nat)
    requires DistinctIds(rows) && limit > 0 && n > |Remaining(rows, q, cursor)|
    ensures Finishes(Repeat(rows, n), q, limit, cursor)
    ensures Traverse(Repeat(rows, n), q, limit, cursor) == Remaining(rows, q, cursor)
    decreases n
  {
    hide Remaining;
    var page := PageOf(rows, q, limit, cursor);
    var remaining := Remaining(rows, q, cursor);
    if page.nextCursor.Some? {
      RemainingShrinks(rows, q, limit, cursor);
      FixedTraversal(rows, q, limit, page.nextCursor, n - 1);
      assert Repeat(rows, n)[1..] == Repeat(rows, n - 1);
      assert remaining == remaining[..limit] + remaining[limit..];
    }
  }

  /** Starting without a cursor, every matching row is read exactly once, newest first. */
  lemma HistoryIsComplete(rows: seq<Row>, q: Query, limit: nat, n: nat)
    requires DistinctIds(rows) && limit > 0 && n > |Remaining(rows, q, None)|
    ensures var read := Traverse(Repeat(rows, n), q, limit, None);
            && StrictlySorted(Earlier, read)
            && forall r :: r in read <==> r in rows && Matches(r, q)
  {
    hide Remaining, Matches, Earlier;
    FixedTraversal(rows, q, limit, None, n);
    RemainingIs(rows, q, None);
  }

  // ---------- In the rows' own fields ----------

  /** The scope asked for, and the publisher and source if the query names them. */
  predicate Asked(r: Row, q: Query) {
    r.scopeKey == q.scopeKey && q.publisher in [None, Some(r.publisher)] && q.sourceId in [None, Some(r.sourceId)]
  }

  /** Received later, or at the same time under a higher id. */
  predicate IsNewer(a: Row, b: Row) {
    a.receivedAt > b.receivedAt || (a.receivedAt == b.receivedAt && a.id > b.id)
  }

  predicate IsOlderThan(r: Row, c: Cursor) {
    c.receivedAt > r.receivedAt || (c.receivedAt == r.receivedAt && c.id > r.id)
  }

  /** The row is to be read after the cursor. */
  predicate IsDue(r: Row, q: Query, cursor: Option<Cursor>) {
    Asked(r, q) && (cursor.Some? ==> IsOlderThan(r, cursor.value))
  }

  lemma AskedIs(r: Row, q: Query)
    ensures Asked(r, q) <==> Matches(r, q)
  {
  }

  lemma DueIs(r: Row, q: Query, cursor: Option<Cursor>)
    ensures IsDue(r, q, cursor) <==> Matches(r, q) && Beyond(r, cursor)
  {
    AskedIs(r, q);
    hide Asked, Matches;
  }

  lemma NewerIs(a: Row, b: Row)
    ensures IsNewer(a, b) <==> Earlier(a, b)
  {
  }

  /** One page: the newest rows asked for that are older than the cursor, and a next cursor if older ones are left. */
  lemma PageSays(rows: seq<Row>, q: Query, limit: nat, cursor: Option<Cursor>)
    requires DistinctIds(rows) && limit > 0
    ensures var page := PageOf(rows, q, limit, cursor);
            && page.Page? && |page.records| <= limit
            && (forall i, j :: 0 <= i < j < |page.records| ==> IsNewer(page.records[i], page.records[j]))
            && (forall r :: r in page.records ==> r in rows && IsDue(r, q, cursor))
            && forall r :: r in rows && IsDue(r, q, cursor) && r !in page.records ==>
                 page.nextCursor.Some? && forall x :: x in page.records ==> IsNewer(x, r)
  {
    PageIs(rows, q, limit, cursor);
    hide PageOf, Matches, Beyond, IsDue, Earlier, IsNewer;
    var page := PageOf(rows, q, limit, cursor);
    forall r
      ensures IsDue(r, q, cursor) <==> Matches(r, q) && Beyond(r, cursor)
    {
      DueIs(r, q, cursor);
    }
    forall x, r
      ensures IsNewer(x, r) <==> Earlier(x, r)
    {
      NewerIs(x, r);
    }
    PageFits(rows, q, limit, cursor);
    forall r, x | r in rows && IsDue(r, q, cursor) && r !in page.records && x in page.records
      ensures IsNewer(x, r)
    {
      LastIsOldest(page.records, x, r);
    }
  }

  lemma PageFits(rows: seq<Row>, q: Query, limit: nat, cursor: Option<Cursor>)
    requires limit > 0
    ensures PageOf(rows, q, limit, cursor).Page? && |PageOf(rows, q, limit, cursor).records| <= limit
  {
  }

  /** What comes after the last row comes after all of them. */
  lemma LastIsOldest(records: seq<Row>, x: Row, r: Row)
    requires StrictlySorted(Earlier, records) && x in records && Earlier(records[|records| - 1], r)
    ensures Earlier(x, r)
  {
    var i :| 0 <= i < |records| && records[i] == x;
    assert i == |records| - 1 || Earlier(x, records[|records| - 1]);
  }

  /** A next cursor names the last row of a full page, and there is a row to read after it. */
  lemma NextCursorSays(rows: seq<Row>, q: Query, limit: nat, cursor: Option<Cursor>)
    requires DistinctIds(rows) && limit > 0 && PageOf(rows, q, limit, cursor).nextCursor.Some?
    ensures var page := PageOf(rows, q, limit, cursor);
            && |page.records| == limit
            && page.nextCursor.value == Cursor(page.records[limit - 1].receivedAt, page.records[limit - 1].id)
            && exists r :: r in rows && Asked(r, q) && IsOlderThan(r, page.nextCursor.value)
  {
    RemainingIs(rows, q, cursor);
    var remaining := Remaining(rows, q, cursor);
    var r := remaining[limit];
    assert r in remaining && Earlier(remaining[limit - 1], r);
    AskedIs(r, q);
  }

  /** Following the cursor from the start reads exactly the rows asked for, newest first. */
  lemma ReadInOrder(rows: seq<Row>, q: Query, limit: nat, n: nat)
    requires DistinctIds(rows) && limit > 0 && n > |rows|
    ensures var read := Traverse(Repeat(rows, n), q, limit, None);
            && (forall i, j :: 0 <= i < j < |read| ==> IsNewer(read[i], read[j]))
            && forall r :: r in read <==> r in rows && Asked(r, q)
  {
    RemainingFits(rows, q);
    HistoryIsComplete(rows, q, limit, n);
    hide Remaining, Traverse;
    var read := Traverse(Repeat(rows, n), q, limit, None);
    forall i, j | 0 <= i < j < |read|
      ensures IsNewer(read[i], read[j])
    {
      assert Earlier(read[i], read[j]);
    }
  }

  lemma {:induction false} WhereFits(rows: seq<Row>, q: Query, cursor: Option<Cursor>)
    ensures |Where(rows, q, cursor)| <= |rows|
  {
    if rows != [] {
      WhereFits(rows[..|rows| - 1], q, cursor);
    }
  }

  lemma RemainingFits(rows: seq<Row>, q: Query)
    requires DistinctIds(rows)
    ensures |Remaining(rows, q, None)| <= |rows|
  {
    var w := Where(rows, q, None);
    WhereFits(rows, q, None);
    WhereDistinct(rows, q, None);
    ReadingOrder();
    SortStrictly(Earlier, PairBefore, KeyOf, w);
  }
}
