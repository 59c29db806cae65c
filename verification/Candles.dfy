/**
  Aggregation of 15-minute candles into hours, proved against what an hour is. Prices and volumes are reals; timestamps are
  reals too, since non-integral ones are counted and skipped.
 */
module Candles {
  import opened Evidence
  import opened Sorting

  const QUARTER := 900_000
  const HOUR := 3_600_000

  datatype Candle = Candle(unixMs: real, open: real, high: real, low: real, close: real, volume: real)

  datatype Telemetry = Telemetry(
    sourceCandleCount: nat,
    skippedNonInteger: nat,
    skippedMisaligned: nat,
    skippedIncomplete: nat,
    skippedGapInBucket: nat,
    completeBuckets: nat)

  predicate IsInteger(x: real) {
    x.Floor as real == x
  }

  /** An integral timestamp is a multiple of a quarter of an hour. */
  predicate OnQuarter(c: Candle) {
    c.unixMs.Floor % QUARTER == 0
  }

  predicate Aligned(c: Candle) {
    IsInteger(c.unixMs) && OnQuarter(c)
  }

  /** The hour a candle falls into. */
  function HourOf(c: Candle): int {
    c.unixMs.Floor / HOUR * HOUR
  }

  predicate InHour(c: Candle, hour: int) {
    Aligned(c) && HourOf(c) == hour
  }

  /** The aligned candles of an hour, in input order. */
  function Bucket(candles: seq<Candle>, hour: int): seq<Candle> {
    if candles == [] then []
    else
      var c := candles[|candles| - 1];
      Bucket(candles[..|candles| - 1], hour) + if InHour(c, hour) then [c] else []
  }

  function CountNonInteger(candles: seq<Candle>): nat {
    if candles == [] then 0
    else CountNonInteger(candles[..|candles| - 1]) + if IsInteger(candles[|candles| - 1].unixMs) then 0 else 1
  }

  function CountMisaligned(candles: seq<Candle>): nat {
    if candles == [] then 0
    else
      var c := candles[|candles| - 1];
      CountMisaligned(candles[..|candles| - 1]) + if IsInteger(c.unixMs) && !Aligned(c) then 1 else 0
  }

  /** The hours that hold at least one aligned candle. */
  ghost function Hours(candles: seq<Candle>): set<int> {
    set c | c in candles && Aligned(c) :: HourOf(c)
  }

  function At(hour: int, quarter: int): real {
    (hour + quarter * QUARTER) as real
  }

  ghost predicate Covers(cs: seq<Candle>, hour: int, quarter: int) {
    exists c :: c in cs && c.unixMs == At(hour, quarter)
  }

  /** Four candles, one for each quarter. */
  ghost predicate Complete(candles: seq<Candle>, hour: int) {
    |Bucket(candles, hour)| == 4 && forall q :: 0 <= q < 4 ==> Covers(Bucket(candles, hour), hour, q)
  }

  function Volume(candles: seq<Candle>): real {
    if candles == [] then 0.0 else Volume(candles[..|candles| - 1]) + candles[|candles| - 1].volume
  }

  /** The candle of an hour: first open, last close, highest high, lowest low, summed volume. */
  ghost predicate IsHour(candles: seq<Candle>, hour: int, h: Candle) {
    var cs := Bucket(candles, hour);
    && h.unixMs == hour as real
    && (exists c :: c in cs && c.unixMs == At(hour, 0) && h.open == c.open)
    && (exists c :: c in cs && c.unixMs == At(hour, 3) && h.close == c.close)
    && (exists c :: c in cs && c.high == h.high) && (forall c :: c in cs ==> c.high <= h.high)
    && (exists c :: c in cs && c.low == h.low) && (forall c :: c in cs ==> h.low <= c.low)
    && h.volume == Volume(cs)
  }

  // ---------- Buckets ----------

  lemma {:induction false} BucketIn(candles: seq<Candle>, hour: int)
    ensures forall c :: c in Bucket(candles, hour) <==> c in candles && InHour(c, hour)
  {
    if candles != [] {
      hide InHour;
      BucketIn(candles[..|candles| - 1], hour);
      assert candles == candles[..|candles| - 1] + [candles[|candles| - 1]];
    }
  }

  lemma NonEmptyHours(candles: seq<Candle>)
    ensures forall hour :: hour in Hours(candles) <==> Bucket(candles, hour) != []
  {
    hide Aligned, HourOf;
    forall hour
      ensures hour in Hours(candles) <==> Bucket(candles, hour) != []
    {
      var b := Bucket(candles, hour);
      assert b != [] ==> b[0] in b;
      BucketIn(candles, hour);
      if hour in Hours(candles) {
        var c :| c in candles && Aligned(c) && HourOf(c) == hour;
        assert c in b;
      }
    }
  }

  /** The groups so far, their keys in insertion order, and the counts of skipped candles. */
  ghost predicate Grouped(candles: seq<Candle>, order: seq<int>, buckets: map<int, seq<Candle>>) {
    && NoDuplicates(order) && (forall hour :: hour in order <==> hour in buckets)
    && forall hour :: (hour in buckets <==> Bucket(candles, hour) != []) && (hour in buckets ==>
      buckets[hour] == Bucket(candles, hour))
  }

  lemma BucketNext(candles: seq<Candle>, c: Candle, hour: int)
    ensures Bucket(candles + [c], hour) == Bucket(candles, hour) + if Aligned(c) && HourOf(c) == hour then [c] else []
  {
    hide Aligned, HourOf;
    assert (candles + [c])[..|candles|] == candles;
  }

  lemma GroupNext(candles: seq<Candle>, order: seq<int>, buckets: map<int, seq<Candle>>, c: Candle)
    requires Grouped(candles, order, buckets)
    ensures !Aligned(c) ==> Grouped(candles + [c], order, buckets)
    ensures Aligned(c) && HourOf(c) in buckets ==>
        Grouped(candles + [c], order, buckets[HourOf(c) := buckets[HourOf(c)] + [c]])
    ensures Aligned(c) && HourOf(c) !in buckets ==>
        Grouped(candles + [c], order + [HourOf(c)], buckets[HourOf(c) := [c]])
  {
    hide Aligned, HourOf, Bucket;
    forall hour
      ensures Bucket(candles + [c], hour) == Bucket(candles, hour) + if Aligned(c) && HourOf(c) == hour then [c] else []
    {
      BucketNext(candles, c, hour);
    }
  }

  lemma CountNext(candles: seq<Candle>, c: Candle)
    ensures CountNonInteger(candles + [c]) == CountNonInteger(candles) + if IsInteger(c.unixMs) then 0 else 1
    ensures CountMisaligned(candles + [c]) == CountMisaligned(candles) + if IsInteger(c.unixMs) && !Aligned(c) then 1 else 0
  {
    assert (candles + [c])[..|candles|] == candles;
  }

  method Place(order0: seq<int>, buckets0: map<int, seq<Candle>>, candle: Candle, ghost before: seq<Candle>)
    returns (order: seq<int>, buckets: map<int, seq<Candle>>)
    requires Grouped(before, order0, buckets0) && Aligned(candle)
    ensures Grouped(before + [candle], order, buckets)
  {
    GroupNext(before, order0, buckets0, candle);
    hide HourOf, Bucket, Aligned;
    order, buckets := order0, buckets0;
    var bucketOpen := HourOf(candle);
    if bucketOpen in buckets {
      buckets := buckets[bucketOpen := buckets[bucketOpen] + [candle]];
    } else {
      order, buckets := order + [bucketOpen], buckets[bucketOpen := [candle]];
    }
  }

  /** Groups the aligned candles by hour and counts the others. */
  method Partition(candles: seq<Candle>)
    returns (order: seq<int>, buckets: map<int, seq<Candle>>, nonInteger: nat, misaligned: nat)
    ensures Grouped(candles, order, buckets) && nonInteger == CountNonInteger(candles)
    ensures misaligned == CountMisaligned(candles)
  {
    hide Grouped, CountNonInteger, CountMisaligned, Aligned, IsInteger, OnQuarter;
    order, buckets, nonInteger, misaligned := [], map[], 0, 0;
    GroupNone();
    assert candles[..0] == [];
    for i := 0 to |candles|
      invariant Grouped(candles[..i], order, buckets)
      invariant nonInteger == CountNonInteger(candles[..i]) && misaligned == CountMisaligned(candles[..i])
    {
      var candle := candles[i];
      assert candles[..i + 1] == candles[..i] + [candle];
      CountNext(candles[..i], candle);
      AlignedIff(candle);
      if !IsInteger(candle.unixMs) {
        GroupNext(candles[..i], order, buckets, candle);
        nonInteger := nonInteger + 1;
      } else if !OnQuarter(candle) {
        GroupNext(candles[..i], order, buckets, candle);
        misaligned := misaligned + 1;
      } else {
        order, buckets := Place(order, buckets, candle, candles[..i]);
      }
    }
    assert candles[..|candles|] == candles;
  }

  lemma GroupNone()
    ensures Grouped([], [], map[]) && CountNonInteger([]) == 0 && CountMisaligned([]) == 0
  {
  }

  lemma AlignedIff(c: Candle)
    ensures Aligned(c) <==> IsInteger(c.unixMs) && OnQuarter(c)
  {
  }

  // ---------- One hour ----------

  predicate TimeBefore(a: Candle, b: Candle) {
    a.unixMs < b.unixMs
  }

  lemma TimeOrder()
    ensures WeakOrder(TimeBefore)
  {
  }

  lemma {:induction false} InsertVolume(s: seq<Candle>, c: Candle)
    ensures Volume(Insert(TimeBefore, s, c)) == Volume(s) + c.volume
  {
    if s == [] || !TimeBefore(c, s[|s| - 1]) {
      assert (s + [c])[..|s|] == s;
    } else {
      var front, last := s[..|s| - 1], s[|s| - 1];
      InsertVolume(front, c);
      assert (Insert(TimeBefore, front, c) + [last])[..|Insert(TimeBefore, front, c)|] == Insert(TimeBefore, front, c);
    }
  }

  lemma {:induction false} SortedVolume(s: seq<Candle>)
    ensures Volume(SortBy(TimeBefore, s)) == Volume(s)
  {
    if s != [] {
      SortedVolume(s[..|s| - 1]);
      InsertVolume(SortBy(TimeBefore, s[..|s| - 1]), s[|s| - 1]);
    }
  }

  lemma QuartersAscend(hour: int)
    ensures At(hour, 0) < At(hour, 1) < At(hour, 2) < At(hour, 3)
  {
  }

  /** If every quarter is covered by one of four sorted candles, the i-th candle is at the i-th quarter. */
  lemma QuartersInOrder(hour: int, sorted: seq<Candle>)
    requires |sorted| == 4 && Sorted(TimeBefore, sorted)
    requires forall q :: 0 <= q < 4 ==> Covers(sorted, hour, q)
    ensures forall i :: 0 <= i < 4 ==> sorted[i].unixMs == At(hour, i)
  {
    var i0 := PlaceOf(hour, sorted, 0);
    var i1 := PlaceOf(hour, sorted, 1);
    var i2 := PlaceOf(hour, sorted, 2);
    var i3 := PlaceOf(hour, sorted, 3);
    QuartersAscend(hour);
    hide At;
    Later(sorted, i0, i1);
    Later(sorted, i1, i2);
    Later(sorted, i2, i3);
  }

  lemma PlaceOf(hour: int, sorted: seq<Candle>, q: int) returns (i: nat)
    requires Covers(sorted, hour, q)
    ensures i < |sorted| && sorted[i].unixMs == At(hour, q)
  {
    hide At;
    var c :| c in sorted && c.unixMs == At(hour, q);
    i :| 0 <= i < |sorted| && sorted[i] == c;
  }

  lemma CoversSame(sources: seq<Candle>, sorted: seq<Candle>, hour: int, q: int)
    requires forall c :: c in sorted <==> c in sources
    ensures Covers(sources, hour, q) <==> Covers(sorted, hour, q)
  {
    hide At;
  }

  lemma CoversAt(sorted: seq<Candle>, hour: int, q: nat)
    requires q < |sorted| && sorted[q].unixMs == At(hour, q)
    ensures Covers(sorted, hour, q)
  {
    hide At;
    assert sorted[q] in sorted;
  }

  /** The sources, sorted, are at the four quarters exactly when every quarter is covered. */
  lemma QuartersCovered(hour: int, sources: seq<Candle>, sorted: seq<Candle>)
    requires |sorted| == 4 && Sorted(TimeBefore, sorted) && forall c :: c in sorted <==> c in sources
    ensures (forall i :: 0 <= i < 4 ==> sorted[i].unixMs == At(hour, i)) <==> forall q :: 0 <= q < 4 ==>
        Covers(sources, hour, q)
  {
    hide At, Sorted, Covers;
    forall q | 0 <= q < 4
      ensures Covers(sources, hour, q) <==> Covers(sorted, hour, q)
    {
      CoversSame(sources, sorted, hour, q);
    }
    if forall q :: 0 <= q < 4 ==> Covers(sorted, hour, q) {
      QuartersInOrder(hour, sorted);
    }
    if forall i :: 0 <= i < 4 ==> sorted[i].unixMs == At(hour, i) {
      forall q | 0 <= q < 4
        ensures Covers(sorted, hour, q)
      {
        CoversAt(sorted, hour, q);
      }
    }
  }

  lemma Later(sorted: seq<Candle>, i: nat, j: nat)
    requires i < |sorted| && j < |sorted| && Sorted(TimeBefore, sorted) && sorted[i].unixMs < sorted[j].unixMs
    ensures i < j
  {
    assert TimeBefore(sorted[i], sorted[j]);
  }

  /** Sums up four candles at the four quarters. */
  method Summarize(hour: int, sources: seq<Candle>) returns (h: Candle)
    requires |sources| == 4
    ensures h.unixMs == hour as real && h.open == sources[0].open && h.close == sources[3].close
    ensures h.volume == Volume(sources)
    ensures (exists c :: c in sources && c.high == h.high) && forall c :: c in sources ==> c.high <= h.high
    ensures (exists c :: c in sources && c.low == h.low) && forall c :: c in sources ==> h.low <= c.low
  {
    var high, low, volume := sources[0].high, sources[0].low, 0.0;
    assert sources[0] in sources;
    for i := 0 to |sources|
      invariant (exists c :: c in sources && c.high == high) && forall c :: c in sources[..i] ==> c.high <= high
      invariant (exists c :: c in sources && c.low == low) && forall c :: c in sources[..i] ==> low <= c.low
      invariant volume == Volume(sources[..i])
    {
      var src := sources[i];
      assert src in sources && sources[..i + 1] == sources[..i] + [src] && sources[..i + 1][..i] == sources[..i];
      if src.high > high {
        high := src.high;
      }
      if src.low < low {
        low := src.low;
      }
      volume := volume + src.volume;
    }
    assert sources[..|sources|] == sources;
    h := Candle(hour as real, sources[0].open, high, low, sources[3].close, volume);
  }

  method BuildHour(hour: int, sources: seq<Candle>, ghost candles: seq<Candle>) returns (h: Option<Candle>)
    requires sources == Bucket(candles, hour) && |sources| == 4
    ensures h.Some? <==> Complete(candles, hour)
    ensures h.Some? ==> IsHour(candles, hour, h.value)
  {
    var sorted := SortBy(TimeBefore, sources);
    SortedSources(sources);
    hide Bucket, SortBy, Sorted, At, Covers;
    QuartersCovered(hour, sources, sorted);
    for i := 0 to 4
      invariant forall j :: 0 <= j < i ==> sorted[j].unixMs == At(hour, j)
    {
      if sorted[i].unixMs != At(hour, i) {
        return None;
      }
    }
    var summary := Summarize(hour, sorted);
    assert sorted[0] in sorted && sorted[3] in sorted;
    h := Some(summary);
  }

  lemma SortedSources(sources: seq<Candle>)
    ensures var sorted := SortBy(TimeBefore, sources);
            && |sorted| == |sources| && Sorted(TimeBefore, sorted) && Volume(sorted) == Volume(sources)
            && forall c :: c in sorted <==> c in sources
  {
    TimeOrder();
    SortSorts(TimeBefore, sources);
    SortedVolume(sources);
    var sorted := SortBy(TimeBefore, sources);
    assert |multiset(sorted)| == |multiset(sources)|;
    forall c
      ensures c in sorted <==> c in sources
    {
      assert c in multiset(sorted) <==> c in multiset(sources);
    }
  }

  // ---------- Aggregation ----------

  ghost function CompleteHours(candles: seq<Candle>): set<int> {
    set hour | hour in Hours(candles) && Complete(candles, hour)
  }

  ghost function WrongSizeHours(candles: seq<Candle>): set<int> {
    set hour | hour in Hours(candles) && |Bucket(candles, hour)| != 4
  }

  ghost function GappyHours(candles: seq<Candle>): set<int> {
    set hour | hour in Hours(candles) && |Bucket(candles, hour)| == 4 && !Complete(candles, hour)
  }

  /** The candles of the given complete hours, in the same order. */
  ghost predicate Emits(candles: seq<Candle>, hours: seq<int>, out: seq<Candle>) {
    |hours| == |out| && NoDuplicates(hours) && forall i :: 0 <= i < |out| ==> Complete(candles, hours[i]) && IsHour(candles, hours[i], out[i])
  }

  lemma EmitOne(candles: seq<Candle>, hours: seq<int>, out: seq<Candle>, hour: int, h: Candle)
    requires Emits(candles, hours, out) && Complete(candles, hour) && IsHour(candles, hour, h) && hour !in hours
    ensures Emits(candles, hours + [hour], out + [h])
  {
    hide Complete, IsHour;
  }

  lemma EmittedTimes(candles: seq<Candle>, hours: seq<int>, out: seq<Candle>)
    requires Emits(candles, hours, out)
    ensures forall i :: 0 <= i < |out| ==> out[i].unixMs == hours[i] as real
    ensures DistinctTimes(out)
  {
    hide Complete, Bucket, At;
    forall i | 0 <= i < |out|
      ensures out[i].unixMs == hours[i] as real
    {
      assert IsHour(candles, hours[i], out[i]);
    }
  }

  lemma SetStep<T>(s: set<T>, done: set<T>, x: T)
    requires x !in done
    ensures |s * (done + {x})| == |s * done| + if x in s then 1 else 0
  {
    assert s * (done + {x}) == s * done + if x in s then {x} else {};
  }

  lemma CountHour(candles: seq<Candle>, done: set<int>, hour: int)
    requires hour !in done && hour in Hours(candles)
    ensures |CompleteHours(candles) * (done + {hour})| == |CompleteHours(candles) * done| + if Complete(candles, hour) then 1 else 0
    ensures |WrongSizeHours(candles) * (done + {hour})| == |WrongSizeHours(candles) * done| + if |Bucket(candles, hour)| != 4 then 1 else 0
    ensures |GappyHours(candles) * (done + {hour})| == |GappyHours(candles) * done| + if |Bucket(candles, hour)| == 4 && !Complete(candles, hour) then 1 else 0
  {
    hide Complete, Bucket, Hours;
    SetStep(CompleteHours(candles), done, hour);
    SetStep(WrongSizeHours(candles), done, hour);
    SetStep(GappyHours(candles), done, hour);
  }

  /**
    The output holds exactly one candle for each complete hour, in ascending order; every other hour and every skipped
    candle is counted under its own reason.
   */
  method Aggregate(candles: seq<Candle>) returns (out: seq<Candle>, telemetry: Telemetry)
    ensures StrictlySorted(TimeBefore, out)
    ensures forall h :: h in out ==> exists hour :: Complete(candles, hour) && IsHour(candles, hour, h)
    ensures forall hour :: Complete(candles, hour) ==> exists h :: h in out && h.unixMs == hour as real
    ensures telemetry == Telemetry(|candles|, CountNonInteger(candles), CountMisaligned(candles),
                                   |WrongSizeHours(candles)|, |GappyHours(candles)|, |CompleteHours(candles)|)
  {
    hide Complete, IsHour, Bucket, Hours, CompleteHours, WrongSizeHours, GappyHours, Emits, SortBy, CountNonInteger,
      CountMisaligned, StrictlySorted, DistinctTimes;
    var order, buckets, nonInteger, misaligned := Partition(candles);
    GroupedHours(candles, order, buckets);
    var unsorted := [];
    ghost var hours: seq<int> := [];
    var complete, incomplete, gappy := 0, 0, 0;
    CountNone(candles);
    assert SetOf(order[..0]) == {};
    for i := 0 to |order|
      invariant Emits(candles, hours, unsorted)
      invariant forall hour :: hour in hours <==> hour in SetOf(order[..i]) && Complete(candles, hour)
      invariant Counted(candles, SetOf(order[..i]), complete, incomplete, gappy)
    {
      hide Counted, SetOf;
      var hour := order[i];
      NextHour(order, i);
      CountedNext(candles, SetOf(order[..i]), hour, complete, incomplete, gappy);
      NotFour(candles, hour);
      if |buckets[hour]| != 4 {
        incomplete := incomplete + 1;
      } else {
        var h := BuildHour(hour, buckets[hour], candles);
        if h.None? {
          gappy := gappy + 1;
        } else {
          EmitOne(candles, hours, unsorted, hour, h.value);
          unsorted, hours := unsorted + [h.value], hours + [hour];
          complete := complete + 1;
        }
      }
    }
    assert order[..|order|] == order;
    ghost var done := SetOf(order);
    AllHours(candles, done);
    EmittedTimes(candles, hours, unsorted);
    SortedByTime(unsorted);
    out := SortBy(TimeBefore, unsorted);
    telemetry := Telemetry(|candles|, nonInteger, misaligned, incomplete, gappy, complete);
    EmittedAll(candles, hours, unsorted, out);
  }

  lemma GroupedHours(candles: seq<Candle>, order: seq<int>, buckets: map<int, seq<Candle>>)
    requires Grouped(candles, order, buckets)
    ensures NoDuplicates(order) && SetOf(order) == Hours(candles)
    ensures forall hour :: hour in order ==> hour in buckets && buckets[hour] == Bucket(candles, hour)
  {
    NonEmptyHours(candles);
    hide Bucket, Hours;
    assert forall hour :: hour in SetOf(order) <==> hour in Hours(candles);
  }

  /** How many of the hours fall into each class. */
  ghost predicate Counted(candles: seq<Candle>, done: set<int>, complete: nat, incomplete: nat, gappy: nat) {
    && complete == |CompleteHours(candles) * done|
    && incomplete == |WrongSizeHours(candles) * done|
    && gappy == |GappyHours(candles) * done|
  }

  lemma CountNone(candles: seq<Candle>)
    ensures Counted(candles, {}, 0, 0, 0) && Emits(candles, [], [])
  {
  }

  lemma CountedNext(candles: seq<Candle>, done: set<int>, hour: int, complete: nat, incomplete: nat, gappy: nat)
    requires Counted(candles, done, complete, incomplete, gappy) && hour !in done && hour in Hours(candles)
    ensures Counted(candles, done + {hour},
                    complete + if Complete(candles, hour) then 1 else 0,
                    incomplete + if |Bucket(candles, hour)| != 4 then 1 else 0,
                    gappy + if |Bucket(candles, hour)| == 4 && !Complete(candles, hour) then 1 else 0)
  {
    hide Complete, Bucket, Hours, CompleteHours, WrongSizeHours, GappyHours;
    CountHour(candles, done, hour);
  }

  lemma NextHour(order: seq<int>, i: nat)
    requires NoDuplicates(order) && i < |order|
    ensures SetOf(order[..i + 1]) == SetOf(order[..i]) + {order[i]} && order[i] !in SetOf(order[..i])
    ensures order[i] in SetOf(order)
  {
    assert order[..i + 1] == order[..i] + [order[i]];
  }

  lemma EmittedAll(candles: seq<Candle>, hours: seq<int>, unsorted: seq<Candle>, out: seq<Candle>)
    requires Emits(candles, hours, unsorted) && forall h :: h in out <==> h in unsorted
    requires forall hour :: Complete(candles, hour) ==> hour in hours
    ensures forall h :: h in out ==> exists hour :: Complete(candles, hour) && IsHour(candles, hour, h)
    ensures forall hour :: Complete(candles, hour) ==> exists h :: h in out && h.unixMs == hour as real
  {
    EmittedTimes(candles, hours, unsorted);
    hide Complete, IsHour;
    forall hour | Complete(candles, hour)
      ensures exists h :: h in out && h.unixMs == hour as real
    {
      var i :| 0 <= i < |hours| && hours[i] == hour;
      assert unsorted[i] in unsorted;
    }
  }

  lemma NotFour(candles: seq<Candle>, hour: int)
    ensures |Bucket(candles, hour)| != 4 ==> !Complete(candles, hour)
  {
  }

  lemma AllHours(candles: seq<Candle>, done: set<int>)
    requires done == Hours(candles)
    ensures CompleteHours(candles) * done == CompleteHours(candles)
    ensures WrongSizeHours(candles) * done == WrongSizeHours(candles)
    ensures GappyHours(candles) * done == GappyHours(candles)
    ensures forall hour :: Complete(candles, hour) ==> hour in done
  {
    NonEmptyHours(candles);
  }

  lemma SortedByTime(unsorted: seq<Candle>)
    requires DistinctTimes(unsorted)
    ensures StrictlySorted(TimeBefore, SortBy(TimeBefore, unsorted)) && forall h :: h in SortBy(TimeBefore, unsorted) <==> h in unsorted
  {
    TimeOrder();
    var key := (c: Candle) => c.unixMs;
    SortSorts(TimeBefore, unsorted);
    assert DistinctKeys(key, unsorted);
    SortDistinct(TimeBefore, key, unsorted);
    var out := SortBy(TimeBefore, unsorted);
    forall i, j | 0 <= i < j < |out|
      ensures TimeBefore(out[i], out[j])
    {
      assert key(out[i]) != key(out[j]) && !TimeBefore(out[j], out[i]);
    }
  }

  // ---------- Conservation, and a counter that stays zero ----------

  /** Every hour is counted exactly once. */
  lemma HoursConserved(candles: seq<Candle>)
    ensures |WrongSizeHours(candles)| + |GappyHours(candles)| + |CompleteHours(candles)| == |Hours(candles)|
  {
    NotFourAll(candles);
    hide Complete, Bucket, Hours;
    var a, b, c := WrongSizeHours(candles), GappyHours(candles), CompleteHours(candles);
    assert a + b + c == Hours(candles) && a !! b && (a + b) !! c;
  }

  lemma NotFourAll(candles: seq<Candle>)
    ensures forall hour :: Complete(candles, hour) ==> |Bucket(candles, hour)| == 4
  {
  }

  function BucketTotal(candles: seq<Candle>, hours: seq<int>): nat {
    if hours == [] then 0 else BucketTotal(candles, hours[..|hours| - 1]) + |Bucket(candles, hours[|hours| - 1])|
  }

  lemma {:induction false} TotalStep(candles: seq<Candle>, c: Candle, hours: seq<int>)
    requires NoDuplicates(hours)
    ensures BucketTotal(candles + [c], hours) == BucketTotal(candles, hours) + if Aligned(c) && HourOf(c) in hours then 1 else 0
  {
    if hours != [] {
      hide Aligned, HourOf;
      var front, hour := hours[..|hours| - 1], hours[|hours| - 1];
      assert hours == front + [hour];
      assert (candles + [c])[..|candles|] == candles;
      TotalStep(candles, c, front);
    }
  }

  lemma {:induction false} EmptyTotal(hours: seq<int>)
    ensures BucketTotal([], hours) == 0
  {
    if hours != [] {
      EmptyTotal(hours[..|hours| - 1]);
    }
  }

  /** Every source candle is skipped for one reason or lies in exactly one bucket. */
  lemma {:induction false} CandlesConserved(candles: seq<Candle>, hours: seq<int>)
    requires NoDuplicates(hours) && Hours(candles) <= SetOf(hours)
    ensures |candles| == CountNonInteger(candles) + CountMisaligned(candles) + BucketTotal(candles, hours)
  {
    if candles == [] {
      EmptyTotal(hours);
    } else {
      var front, c := candles[..|candles| - 1], candles[|candles| - 1];
      assert candles == front + [c];
      CandlesConserved(front, hours);
      TotalStep(front, c, hours);
      assert Aligned(c) ==> HourOf(c) in Hours(candles);
      hide HourOf, Bucket, BucketTotal;
    }
  }

  ghost predicate DistinctTimes(candles: seq<Candle>) {
    forall i, j :: 0 <= i < j < |candles| ==> candles[i].unixMs != candles[j].unixMs
  }

  lemma {:induction false} BucketDistinct(candles: seq<Candle>, hour: int)
    requires DistinctTimes(candles)
    ensures DistinctTimes(Bucket(candles, hour))
  {
    if candles != [] {
      hide InHour;
      var front, c := candles[..|candles| - 1], candles[|candles| - 1];
      BucketDistinct(front, hour);
      BucketIn(front, hour);
      forall d | d in Bucket(front, hour)
        ensures d.unixMs != c.unixMs
      {
        var i :| 0 <= i < |front| && front[i] == d;
        assert candles[i].unixMs != candles[|candles| - 1].unixMs;
      }
      assert forall i :: 0 <= i < |Bucket(front, hour)| ==> Bucket(front, hour)[i] in Bucket(front, hour);
    }
  }

  /** The quarter of an aligned candle within its hour. */
  lemma QuarterOf(c: Candle, hour: int) returns (q: int)
    requires InHour(c, hour)
    ensures 0 <= q < 4 && c.unixMs == At(hour, q)
  {
    var t := c.unixMs.Floor;
    q := (t - hour) / QUARTER;
    assert hour == t / HOUR * HOUR && 0 <= t - hour < HOUR;
    assert (t - hour) % QUARTER == 0 by {
      HourIsQuarters(t / HOUR);
      SubtractMultiples(t, hour);
    }
    assert t - hour == q * QUARTER;
  }

  lemma HourIsQuarters(n: int)
    ensures n * HOUR % QUARTER == 0
  {
    assert n * HOUR == (4 * n) * QUARTER;
  }

  lemma SubtractMultiples(t: int, u: int)
    requires t % QUARTER == 0 && u % QUARTER == 0
    ensures (t - u) % QUARTER == 0
  {
    var a, b := t / QUARTER, u / QUARTER;
    assert t == a * QUARTER && u == b * QUARTER;
    assert t - u == (a - b) * QUARTER;
  }

  /** Pigeonhole: four different quarters of one hour are all of them. */
  lemma FourDistinctComplete(candles: seq<Candle>, hour: int)
    requires DistinctTimes(candles) && |Bucket(candles, hour)| == 4
    ensures Complete(candles, hour)
  {
    BucketDistinct(candles, hour);
    BucketIn(candles, hour);
    var b := Bucket(candles, hour);
    assert b[0] in b && b[1] in b && b[2] in b && b[3] in b;
    var q0 := QuarterOf(b[0], hour);
    var q1 := QuarterOf(b[1], hour);
    var q2 := QuarterOf(b[2], hour);
    var q3 := QuarterOf(b[3], hour);
    assert q0 != q1 && q0 != q2 && q0 != q3 && q1 != q2 && q1 != q3 && q2 != q3;
    forall q | 0 <= q < 4
      ensures Covers(b, hour, q)
    {
      assert q == q0 || q == q1 || q == q2 || q == q3;
    }
  }

  /** With distinct timestamps no bucket of four has a gap: that counter is always zero. */
  lemma NoGapsWithDistinctTimes(candles: seq<Candle>)
    requires DistinctTimes(candles)
    ensures GappyHours(candles) == {}
  {
    forall hour | |Bucket(candles, hour)| == 4
      ensures Complete(candles, hour)
    {
      FourDistinctComplete(candles, hour);
    }
  }

  // ---------- In numbers ----------

  /** A candle belongs to an hour if its time is a whole multiple of 900000 within the 3600000 milliseconds from it. */
  lemma InHourSays(c: Candle, hour: int)
    ensures InHour(c, hour) <==>
            && hour % 3_600_000 == 0
            && exists t: int :: t % 900_000 == 0 && hour <= t < hour + 3_600_000 && c.unixMs == t as real
  {
    var t := c.unixMs.Floor;
    assert t == t / 3_600_000 * 3_600_000 + t % 3_600_000;
    if InHour(c, hour) {
      assert hour == t / 3_600_000 * 3_600_000 + 0;
      assert c.unixMs == t as real && t % 900_000 == 0;
    }
    if u: int :| hour % 3_600_000 == 0 && u % 900_000 == 0 && hour <= u < hour + 3_600_000 && c.unixMs == u as real {
      assert u == t;
      assert hour == hour / 3_600_000 * 3_600_000;
    }
  }

  /** The value at place i of four. */
  function Nth(i: nat, a: real, b: real, c: real, d: real): real {
    if i == 0 then a else if i == 1 then b else if i == 2 then c else d
  }

  lemma SumOfFour(i: nat, j: nat, k: nat, l: nat, a: real, b: real, c: real, d: real)
    requires i < 4 && j < 4 && k < 4 && l < 4 && i != j && i != k && i != l && j != k && j != l && k != l
    ensures Nth(i, a, b, c, d) + Nth(j, a, b, c, d) + Nth(k, a, b, c, d) + Nth(l, a, b, c, d) == a + b + c + d
  {
  }

  lemma VolumeOfFour(cs: seq<Candle>)
    requires |cs| == 4
    ensures Volume(cs) == cs[0].volume + cs[1].volume + cs[2].volume + cs[3].volume
  {
    var three, two, one := cs[..3], cs[..2], cs[..1];
    assert three[..2] == two && two[..1] == one && one[..0] == [];
    assert Volume(one) == cs[0].volume;
    assert Volume(two) == Volume(one) + cs[1].volume;
    assert Volume(three) == Volume(two) + cs[2].volume;
  }

  /** Where the four quarters of a complete hour stand in its bucket. */
  lemma FourPlaces(cs: seq<Candle>, hour: int) returns (i: nat, j: nat, k: nat, l: nat)
    requires |cs| == 4 && forall q :: 0 <= q < 4 ==> Covers(cs, hour, q)
    ensures i < 4 && j < 4 && k < 4 && l < 4
    ensures cs[i].unixMs == hour as real && cs[j].unixMs == (hour + 900_000) as real
    ensures cs[k].unixMs == (hour + 1_800_000) as real && cs[l].unixMs == (hour + 2_700_000) as real
  {
    assert Covers(cs, hour, 0) && Covers(cs, hour, 1) && Covers(cs, hour, 2) && Covers(cs, hour, 3);
    i :| i < 4 && cs[i].unixMs == At(hour, 0);
    j :| j < 4 && cs[j].unixMs == At(hour, 1);
    k :| k < 4 && cs[k].unixMs == At(hour, 2);
    l :| l < 4 && cs[l].unixMs == At(hour, 3);
  }

  lemma AmongFour(cs: seq<Candle>, i: nat, j: nat, k: nat, l: nat, x: Candle)
    requires |cs| == 4 && i < 4 && j < 4 && k < 4 && l < 4 && x in cs
    requires i != j && i != k && i != l && j != k && j != l && k != l
    ensures x in [cs[i], cs[j], cs[k], cs[l]]
  {
    var n :| 0 <= n < 4 && cs[n] == x;
    assert n == i || n == j || n == k || n == l;
  }

  /** The candle of an hour, from the four input candles that make it up. */
  lemma HourSays(candles: seq<Candle>, hour: int, h: Candle) returns (a: Candle, b: Candle, c: Candle, d: Candle)
    requires Complete(candles, hour) && IsHour(candles, hour, h)
    ensures a in candles && b in candles && c in candles && d in candles
    ensures a.unixMs == hour as real && b.unixMs == (hour + 900_000) as real
    ensures c.unixMs == (hour + 1_800_000) as real && d.unixMs == (hour + 2_700_000) as real
    ensures h.unixMs == hour as real && hour % 3_600_000 == 0
    ensures h.open == a.open && h.close == d.close && h.volume == a.volume + b.volume + c.volume + d.volume
    ensures h.high in [a.high, b.high, c.high, d.high] && forall x :: x in [a, b, c, d] ==> x.high <= h.high
    ensures h.low in [a.low, b.low, c.low, d.low] && forall x :: x in [a, b, c, d] ==> h.low <= x.low
    ensures forall x :: x in candles && InHour(x, hour) ==> x in [a, b, c, d]
  {
    var cs := Bucket(candles, hour);
    BucketIn(candles, hour);
    hide Bucket, Volume, InHour, Covers;
    var i, j, k, l := FourPlaces(cs, hour);
    a, b, c, d := cs[i], cs[j], cs[k], cs[l];
    forall x | x in cs
      ensures x in [a, b, c, d]
    {
      AmongFour(cs, i, j, k, l, x);
    }
    VolumeOfFour(cs);
    SumOfFour(i, j, k, l, cs[0].volume, cs[1].volume, cs[2].volume, cs[3].volume);
    InHourSays(a, hour);
    EndsOfHour(cs, hour, h, a, d);
  }

  /** Only one candle of four stands at each end of the hour. */
  lemma EndsOfHour(cs: seq<Candle>, hour: int, h: Candle, a: Candle, d: Candle)
    requires |cs| == 4 && a in cs && d in cs && a.unixMs == hour as real && d.unixMs == (hour + 2_700_000) as real
    requires forall x, y :: x in cs && y in cs && x.unixMs == y.unixMs ==> x == y
    requires exists c :: c in cs && c.unixMs == At(hour, 0) && h.open == c.open
    requires exists c :: c in cs && c.unixMs == At(hour, 3) && h.close == c.close
    ensures h.open == a.open && h.close == d.close
  {
  }
}
