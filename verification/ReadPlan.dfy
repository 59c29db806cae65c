/** Which candles a regime read fetches, and why an hourly read always has enough of them. Clock times are integers. */
module ReadPlan {
  import opened Graphs
  import opened Candles

  const READ_BUFFER := 50
  const DERIVED_SOURCE_READ_BUFFER := 32

  datatype Timeframe = FifteenMinutes | OneHour

  datatype TimeframeConfig = TimeframeConfig(timeframeMs: int, volLongWindow: int, minCandles: int, closedCandleDelayMs: int)

  function ConfigOf(t: Timeframe): TimeframeConfig {
    match t
    case FifteenMinutes => TimeframeConfig(QUARTER, 84, 120, 120_000)
    case OneHour => TimeframeConfig(HOUR, 21, 30, 300_000)
  }

  datatype Plan =
    | Direct(sourceCutoff: int, sourceLimit: nat)
    | Derived(sourceCutoff: int, sourceLimit: nat, derivedCutoff: int)

  function ClosedCandleCutoff(now: int, timeframeMs: int, delayMs: int): int
    requires timeframeMs > 0
  {
    (now - delayMs) / timeframeMs * timeframeMs - timeframeMs
  }

  function Max(a: int, b: int): int {
    if a < b then b else a
  }

  function RequiredBars(t: Timeframe): int {
    Max(ConfigOf(t).volLongWindow, ConfigOf(t).minCandles) + READ_BUFFER
  }

  function CutoffOf(t: Timeframe, now: int): int {
    ClosedCandleCutoff(now, ConfigOf(t).timeframeMs, ConfigOf(t).closedCandleDelayMs)
  }

  function BuildReadPlan(t: Timeframe, now: int): Plan {
    match t
    case FifteenMinutes => Direct(CutoffOf(FifteenMinutes, now), RequiredBars(FifteenMinutes))
    case OneHour =>
      Derived(CutoffOf(FifteenMinutes, now), RequiredBars(OneHour) * 4 + DERIVED_SOURCE_READ_BUFFER, CutoffOf(OneHour, now))
  }

  /** The cutoff is the newest aligned open whose candle has been closed for at least the delay. */
  lemma CutoffIsNewestClosed(now: int, timeframeMs: int, delayMs: int)
    requires timeframeMs > 0
    ensures var c := ClosedCandleCutoff(now, timeframeMs, delayMs);
            && c % timeframeMs == 0
            && c + timeframeMs + delayMs <= now
            && now < c + 2 * timeframeMs + delayMs
  {
    var q := (now - delayMs) / timeframeMs;
    assert q * timeframeMs - timeframeMs == (q - 1) * timeframeMs;
    MultipleOf(q - 1, timeframeMs);
  }

  lemma AtLeastOnce(d: int, m: int)
    requires m > 0
    ensures d >= 1 ==> d * m >= m
    ensures d <= -1 ==> d * m <= -m
  {
  }

  lemma MultipleOf(n: int, m: int)
    requires m > 0
    ensures n * m % m == 0
  {
    var q, r := n * m / m, n * m % m;
    assert q * m + r == n * m;
    assert (n - q) * m == r && 0 <= r < m;
    AtLeastOnce(n - q, m);
  }

  lemma NearMultiples(k: int, l: int, m: int)
    requires m > 0 && k * m < l * m + m
    ensures k * m <= l * m
  {
    AtLeastOnce(k - l, m);
    assert (k - l) * m == k * m - l * m;
    if k < l {
      AtLeastOnce(l - k, m);
      assert (l - k) * m == l * m - k * m;
    }
  }

  lemma WholeQuotient(n: int, m: int)
    requires m > 0 && n % m == 0
    ensures n == n / m * m
  {
  }

  /** An aligned open that is old enough is at or before the cutoff. */
  lemma ClosedIsAllowed(now: int, timeframeMs: int, delayMs: int, open: int)
    requires timeframeMs > 0 && open % timeframeMs == 0 && open + timeframeMs + delayMs <= now
    ensures open <= ClosedCandleCutoff(now, timeframeMs, delayMs)
  {
    CutoffIsNewestClosed(now, timeframeMs, delayMs);
    hide ClosedCandleCutoff;
    var c := ClosedCandleCutoff(now, timeframeMs, delayMs);
    WholeQuotient(open, timeframeMs);
    WholeQuotient(c, timeframeMs);
    NearMultiples(open / timeframeMs, c / timeframeMs, timeframeMs);
  }

  /** open is a multiple of the width, and of those the newest whose candle has been closed for the delay. */
  predicate IsNewestClosed(open: int, now: int, width: int, delay: int)
    requires width > 0
  {
    open % width == 0 && open + width + delay <= now < open + 2 * width + delay
  }

  /** The two plans in numbers. */
  lemma PlanNumbers(now: int)
    ensures var plan := BuildReadPlan(FifteenMinutes, now);
            plan.Direct? && plan.sourceLimit == 170 && IsNewestClosed(plan.sourceCutoff, now, 900_000, 120_000)
    ensures var plan := BuildReadPlan(OneHour, now);
            && plan.Derived? && plan.sourceLimit == 352 && IsNewestClosed(plan.sourceCutoff, now, 900_000, 120_000)
            && IsNewestClosed(plan.derivedCutoff, now, 3_600_000, 300_000)
    ensures RequiredBars(OneHour) == 80
  {
    CutoffIsNewestClosed(now, 900_000, 120_000);
    CutoffIsNewestClosed(now, 3_600_000, 300_000);
  }

  lemma HourOpenIsQuarter(open: int)
    requires open % HOUR == 0
    ensures open % QUARTER == 0
  {
    HourIsQuarters(open / HOUR);
  }

  /** All four sources of the newest allowed hour are themselves allowed, at every moment. */
  lemma SourcesAreClosed(now: int)
    ensures var plan := BuildReadPlan(OneHour, now);
            plan.derivedCutoff + 3 * QUARTER <= plan.sourceCutoff
  {
    var derived := CutoffOf(OneHour, now);
    CutoffIsNewestClosed(now, HOUR, 300_000);
    HourOpenIsQuarter(derived);
    assert (derived + 3 * QUARTER) % QUARTER == 0;
    ClosedIsAllowed(now, QUARTER, 120_000, derived + 3 * QUARTER);
  }

  /** The two cutoffs are at most seven quarters apart. */
  lemma CutoffsAreClose(now: int)
    ensures var plan := BuildReadPlan(OneHour, now);
            plan.sourceCutoff <= plan.derivedCutoff + 7 * QUARTER
  {
    var source, derived := CutoffOf(FifteenMinutes, now), CutoffOf(OneHour, now);
    CutoffIsNewestClosed(now, HOUR, 300_000);
    CutoffIsNewestClosed(now, QUARTER, 120_000);
    HourOpenIsQuarter(derived);
    var k, l := source / QUARTER, derived / QUARTER;
    assert source == k * QUARTER && derived == l * QUARTER;
    assert (k - l) * QUARTER < 8 * QUARTER;
  }

  // ---------- Enough bars ----------

  /** A history without gaps: one candle at the cutoff and at each of the preceding quarters, limit in all. */
  ghost predicate GapFree(candles: seq<Candle>, cutoff: int, limit: nat) {
    && |candles| == limit && DistinctTimes(candles)
    && forall k :: 0 <= k < limit ==> HasTime(candles, cutoff - k * QUARTER)
  }

  ghost predicate HasTime(candles: seq<Candle>, t: int) {
    exists c :: c in candles && c.unixMs == t as real
  }

  lemma CandleAt(candles: seq<Candle>, t: int) returns (c: Candle)
    requires HasTime(candles, t)
    ensures c in candles && c.unixMs == t as real
  {
    c :| c in candles && c.unixMs == t as real;
  }

  /** An hour whose four quarters are present, in a history of distinct times, is complete. */
  lemma QuartersPresent(candles: seq<Candle>, hour: int)
    requires DistinctTimes(candles) && hour % HOUR == 0
    requires forall q :: 0 <= q < 4 ==> HasTime(candles, hour + q * QUARTER)
    ensures Complete(candles, hour)
  {
    BucketIn(candles, hour);
    forall q | 0 <= q < 4
      ensures Covers(Bucket(candles, hour), hour, q)
    {
      var c := CandleAt(candles, hour + q * QUARTER);
      QuarterInHour(c, hour, q);
    }
    BucketDistinct(candles, hour);
    AtLeastFour(candles, hour);
    AtMostFour(candles, hour);
  }

  lemma QuarterInHour(c: Candle, hour: int, q: int)
    requires hour % HOUR == 0 && 0 <= q < 4 && c.unixMs == (hour + q * QUARTER) as real
    ensures InHour(c, hour)
  {
    var t := hour + q * QUARTER;
    assert c.unixMs.Floor == t;
    HourOpenIsQuarter(hour);
    assert t % QUARTER == 0 by {
      QuarterStep(hour, q);
    }
    assert t / HOUR == hour / HOUR by {
      WithinHour(hour, q * QUARTER);
    }
  }

  lemma QuarterStep(t: int, q: int)
    requires t % QUARTER == 0
    ensures (t + q * QUARTER) % QUARTER == 0
  {
    assert t + q * QUARTER == (t / QUARTER + q) * QUARTER;
    MultipleOf(t / QUARTER + q, QUARTER);
  }

  lemma WithinHour(hour: int, rest: int)
    requires hour % HOUR == 0 && 0 <= rest < HOUR
    ensures (hour + rest) / HOUR == hour / HOUR
  {
    assert hour == (hour / HOUR) * HOUR;
  }

  /** The times of a sequence of candles. */
  ghost function Times(cs: seq<Candle>): set<real> {
    set c | c in cs :: c.unixMs
  }

  lemma {:induction false} TimesSize(cs: seq<Candle>)
    ensures |Times(cs)| <= |cs|
    ensures DistinctTimes(cs) ==> |Times(cs)| == |cs|
  {
    if cs != [] {
      var front, last := cs[..|cs| - 1], cs[|cs| - 1];
      assert cs == front + [last];
      TimesSize(front);
      assert Times(cs) == Times(front) + {last.unixMs};
      if DistinctTimes(cs) {
        assert last.unixMs !in Times(front) by {
          assert forall i :: 0 <= i < |front| ==> front[i].unixMs != last.unixMs;
        }
      }
    }
  }

  lemma AtLeastFour(candles: seq<Candle>, hour: int)
    requires forall q :: 0 <= q < 4 ==> Covers(Bucket(candles, hour), hour, q)
    ensures |Bucket(candles, hour)| >= 4
  {
    var b := Bucket(candles, hour);
    var four := {At(hour, 0), At(hour, 1), At(hour, 2), At(hour, 3)};
    assert Covers(b, hour, 0) && Covers(b, hour, 1) && Covers(b, hour, 2) && Covers(b, hour, 3);
    QuartersAscend(hour);
    hide At;
    assert |four| == 4;
    assert four <= Times(b);
    SubsetNotLarger(four, Times(b));
    TimesSize(b);
  }

  lemma AtMostFour(candles: seq<Candle>, hour: int)
    requires DistinctTimes(Bucket(candles, hour))
    ensures |Bucket(candles, hour)| <= 4
  {
    var b := Bucket(candles, hour);
    BucketIn(candles, hour);
    var four := {At(hour, 0), At(hour, 1), At(hour, 2), At(hour, 3)};
    forall t | t in Times(b)
      ensures t in four
    {
      var c :| c in b && c.unixMs == t;
      var q := QuarterOf(c, hour);
      assert q == 0 || q == 1 || q == 2 || q == 3;
    }
    SubsetNotLarger(Times(b), four);
    FourAtMost(At(hour, 0), At(hour, 1), At(hour, 2), At(hour, 3));
    TimesSize(b);
  }

  lemma FourAtMost(a: real, b: real, c: real, d: real)
    ensures |{a, b, c, d}| <= 4
  {
    assert {a, b, c, d} == {a} + {b} + {c} + {d};
  }

  /** The first n quarters back from the cutoff. */
  ghost function QuartersBack(cutoff: int, n: nat): set<real> {
    set k | 0 <= k < n :: (cutoff - k * QUARTER) as real
  }

  lemma {:induction false} QuartersBackSize(cutoff: int, n: nat)
    ensures |QuartersBack(cutoff, n)| == n
  {
    if n > 0 {
      QuartersBackSize(cutoff, n - 1);
      assert QuartersBack(cutoff, n) == QuartersBack(cutoff, n - 1) + {(cutoff - (n - 1) * QUARTER) as real};
    }
  }

  lemma SameSize<T>(a: set<T>, b: set<T>)
    requires a <= b && |a| == |b|
    ensures a == b
  {
    if x :| x in b && x !in a {
      SubsetNotLarger(a, b - {x});
    }
  }

  /** A direct read of a gap-free history has enough candles, all of them closed for the delay. */
  lemma DirectReadIsClosed(candles: seq<Candle>, now: int)
    requires var plan := BuildReadPlan(FifteenMinutes, now); GapFree(candles, plan.sourceCutoff, plan.sourceLimit)
    ensures |candles| == 170 && forall c :: c in candles ==> c.unixMs + 1_020_000.0 <= now as real
  {
    PlanNumbers(now);
    var cutoff := BuildReadPlan(FifteenMinutes, now).sourceCutoff;
    hide BuildReadPlan;
    forall t | t in QuartersBack(cutoff, 170)
      ensures t in Times(candles)
    {
      var k :| 0 <= k < 170 && t == (cutoff - k * QUARTER) as real;
      var c := CandleAt(candles, cutoff - k * QUARTER);
    }
    QuartersBackSize(cutoff, 170);
    TimesSize(candles);
    SameSize(QuartersBack(cutoff, 170), Times(candles));
    forall c | c in candles
      ensures c.unixMs + 1_020_000.0 <= now as real
    {
      assert c.unixMs in Times(candles);
      var k :| 0 <= k < 170 && c.unixMs == (cutoff - k * QUARTER) as real;
      assert cutoff - k * QUARTER + 1_020_000 <= now;
    }
  }

  /** Derived bars at or before the cutoff, as the use case filters them. */
  function AllowedBars(bars: seq<Candle>, cutoff: int): seq<Candle> {
    if bars == [] then []
    else
      var b := bars[|bars| - 1];
      AllowedBars(bars[..|bars| - 1], cutoff) + if b.unixMs <= cutoff as real then [b] else []
  }

  lemma {:induction false} AllowedIn(bars: seq<Candle>, cutoff: int)
    ensures forall b :: b in AllowedBars(bars, cutoff) <==> b in bars && b.unixMs <= cutoff as real
  {
    if bars != [] {
      AllowedIn(bars[..|bars| - 1], cutoff);
      assert bars == bars[..|bars| - 1] + [bars[|bars| - 1]];
    }
  }

  /** The first n hours back from the cutoff. */
  ghost function HoursBack(cutoff: int, n: nat): set<real> {
    set j | 0 <= j < n :: (cutoff - j * HOUR) as real
  }

  lemma {:induction false} HoursBackSize(cutoff: int, n: nat)
    ensures |HoursBack(cutoff, n)| == n
  {
    if n > 0 {
      HoursBackSize(cutoff, n - 1);
      assert HoursBack(cutoff, n) == HoursBack(cutoff, n - 1) + {(cutoff - (n - 1) * HOUR) as real};
    }
  }

  /** Every hour from the 87th before the derived cutoff on has its four quarters in the history. */
  lemma RecentHoursComplete(candles: seq<Candle>, now: int, j: nat)
    requires var plan := BuildReadPlan(OneHour, now); GapFree(candles, plan.sourceCutoff, plan.sourceLimit)
    requires j < 87
    ensures Complete(candles, BuildReadPlan(OneHour, now).derivedCutoff - j * HOUR)
  {
    var plan := BuildReadPlan(OneHour, now);
    var source, hour := plan.sourceCutoff, plan.derivedCutoff - j * HOUR;
    SourcesAreClosed(now);
    CutoffsAreClose(now);
    CutoffIsNewestClosed(now, HOUR, 300_000);
    CutoffIsNewestClosed(now, QUARTER, 120_000);
    assert plan.sourceLimit == 352;
    HourBack(plan.derivedCutoff, j);
    HourOpenIsQuarter(hour);
    var d := (source - hour) / QUARTER;
    SubtractMultiples(source, hour);
    assert source - hour == d * QUARTER && 3 <= d <= 7 + 4 * j;
    forall q | 0 <= q < 4
      ensures HasTime(candles, hour + q * QUARTER)
    {
      var k := d - q;
      assert 0 <= k < 352 && source - k * QUARTER == hour + q * QUARTER;
      assert HasTime(candles, source - k * QUARTER);
    }
    QuartersPresent(candles, hour);
  }

  lemma HourBack(open: int, j: nat)
    requires open % HOUR == 0
    ensures (open - j * HOUR) % HOUR == 0
  {
    assert open - j * HOUR == (open / HOUR - j) * HOUR;
    MultipleOf(open / HOUR - j, HOUR);
  }

  /**
    A gap-free history that fills the source limit always yields at least the bars that an hourly read requires, after the
    bars beyond the derived cutoff have been dropped.
   */
  method ReadDerivedBars(candles: seq<Candle>, now: int) returns (bars: seq<Candle>)
    requires var plan := BuildReadPlan(OneHour, now); GapFree(candles, plan.sourceCutoff, plan.sourceLimit)
    ensures |bars| >= RequiredBars(OneHour)
    ensures forall b :: b in bars ==> exists hour :: hour <= CutoffOf(OneHour, now) && Complete(candles, hour) && IsHour(candles, hour, b)
  {
    var out, _ := Aggregate(candles);
    bars := AllowedBars(out, CutoffOf(OneHour, now));
    EnoughBars(candles, now, out);
    AllowedIn(out, CutoffOf(OneHour, now));
    AllowedAreHours(candles, CutoffOf(OneHour, now), bars);
  }

  lemma AllowedAreHours(candles: seq<Candle>, cutoff: int, bars: seq<Candle>)
    requires forall b :: b in bars ==> b.unixMs <= cutoff as real && exists hour :: Complete(candles, hour) && IsHour(candles, hour, b)
    ensures forall b :: b in bars ==> exists hour :: hour <= cutoff && Complete(candles, hour) && IsHour(candles, hour, b)
  {
    hide Complete, Bucket, At;
    forall b | b in bars
      ensures exists hour :: hour <= cutoff && Complete(candles, hour) && IsHour(candles, hour, b)
    {
      var hour :| Complete(candles, hour) && IsHour(candles, hour, b);
      assert hour as real <= cutoff as real;
    }
  }

  lemma EnoughBars(candles: seq<Candle>, now: int, out: seq<Candle>)
    requires var plan := BuildReadPlan(OneHour, now); GapFree(candles, plan.sourceCutoff, plan.sourceLimit)
    requires forall hour :: Complete(candles, hour) ==> exists h :: h in out && h.unixMs == hour as real
    ensures |AllowedBars(out, CutoffOf(OneHour, now))| >= 87
  {
    hide Complete, GapFree;
    var cutoff := CutoffOf(OneHour, now);
    var bars := AllowedBars(out, cutoff);
    AllowedIn(out, cutoff);
    forall t | t in HoursBack(cutoff, 87)
      ensures t in Times(bars)
    {
      var j :| 0 <= j < 87 && t == (cutoff - j * HOUR) as real;
      RecentHoursComplete(candles, now, j);
      var h :| h in out && h.unixMs == t;
      assert t <= cutoff as real;
    }
    SubsetNotLarger(HoursBack(cutoff, 87), Times(bars));
    HoursBackSize(cutoff, 87);
    TimesSize(bars);
  }
}
