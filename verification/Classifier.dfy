/** The regime classifier with hysteresis: how fast it can switch, what a switch needs, and what its stateless use returns. */
module Classifier {
  import opened Evidence

  datatype Regime = UP | DOWN | CHOP

  /** The two indicators that the classifier reads. */
  datatype Telemetry = Telemetry(volRatio: real, trendStrength: real)

  datatype Config = Config(
    confirmBars: int,
    minHoldBars: int,
    enterUpTrend: real,
    exitUpTrend: real,
    enterDownTrend: real,
    exitDownTrend: real,
    chopVolRatioMax: real)

  datatype State = State(current: Regime, barsInRegime: nat, pending: Option<Regime>, pendingBars: nat)

  const DEFAULT := State(CHOP, 0, None, 0)

  datatype Code = Stable | MinHoldActive | SwitchConfirmed | ConfirmPending

  datatype Decision = Decision(regime: Regime, nextState: State, code: Code)

  function EvaluateDesiredRegime(current: Regime, t: Telemetry, config: Config): Regime {
    var lowVol := t.volRatio <= config.chopVolRatioMax;
    if current == UP && lowVol && t.trendStrength >= config.exitUpTrend then UP
    else if current == DOWN && lowVol && t.trendStrength <= config.exitDownTrend then DOWN
    else if !lowVol then CHOP
    else if t.trendStrength >= config.enterUpTrend then UP
    else if t.trendStrength <= config.enterDownTrend then DOWN
    else CHOP
  }

  function ClassifyRegime(state: State, t: Telemetry, config: Config): Decision {
    var desired := EvaluateDesiredRegime(state.current, t, config);
    if desired == state.current then
      Decision(state.current, State(state.current, state.barsInRegime + 1, None, 0), Stable)
    else if state.barsInRegime < config.minHoldBars then
      Decision(state.current, state.(barsInRegime := state.barsInRegime + 1), MinHoldActive)
    else
      var pendingBars := if state.pending == Some(desired) then state.pendingBars + 1 else 1;
      if pendingBars >= config.confirmBars then Decision(desired, State(desired, 0, None, 0), SwitchConfirmed)
      else Decision(state.current, State(state.current, state.barsInRegime + 1, Some(desired), pendingBars), ConfirmPending)
  }

  // ---------- Runs ----------

  /** The state after a run of bars from the default state. */
  function After(bars: seq<Telemetry>, config: Config): State {
    if bars == [] then DEFAULT else ClassifyRegime(After(bars[..|bars| - 1], config), bars[|bars| - 1], config).nextState
  }

  /** The bar at i changes the regime. */
  predicate Switches(bars: seq<Telemetry>, config: Config, i: nat)
    requires i < |bars|
  {
    After(bars[..i + 1], config).current != After(bars[..i], config).current
  }

  /** What the bar at i asks for. */
  function DesiredAt(bars: seq<Telemetry>, config: Config, i: nat): Regime
    requires i < |bars|
  {
    EvaluateDesiredRegime(After(bars[..i], config).current, bars[i], config)
  }

  function Max(a: int, b: int): int {
    if a < b then b else a
  }

  lemma AfterNext(bars: seq<Telemetry>, config: Config, i: nat)
    requires i < |bars|
    ensures After(bars[..i + 1], config) == ClassifyRegime(After(bars[..i], config), bars[i], config).nextState
  {
    assert bars[..i + 1][..i] == bars[..i];
  }

  lemma {:induction false} KeepsWhatIsAskedFor(bars: seq<Telemetry>, more: seq<Telemetry>, config: Config)
    requires forall t :: t in more ==> EvaluateDesiredRegime(After(bars, config).current, t, config) == After(bars, config).current
    ensures After(bars + more, config).current == After(bars, config).current
  {
    if more == [] {
      assert bars + more == bars;
    } else {
      var front := more[..|more| - 1];
      assert (bars + more)[..|bars + more| - 1] == bars + front;
      KeepsWhatIsAskedFor(bars, front, config);
    }
  }

  /**
    Hysteresis: over any number of calm bars between the exit and the entry threshold of a trend, strong enough to keep it
    and too weak to enter either, a run in that trend stays in it, and a run in CHOP stays in CHOP. The same telemetry
    continues either regime, so the regime depends on how the band was reached.
   */
  lemma DeadBandRemembers(bars: seq<Telemetry>, more: seq<Telemetry>, config: Config, trend: Regime)
    requires trend != CHOP && forall t :: t in more ==>
               && t.volRatio <= config.chopVolRatioMax && config.enterDownTrend < t.trendStrength < config.enterUpTrend
               && (if trend == UP then t.trendStrength >= config.exitUpTrend else t.trendStrength <= config.exitDownTrend)
    requires After(bars, config).current == trend || After(bars, config).current == CHOP
    ensures After(bars + more, config).current == After(bars, config).current
  {
    KeepsWhatIsAskedFor(bars, more, config);
  }

  /** A pending regime has been asked for by each of the last pendingBars bars, all of them after the minimum hold. */
  ghost predicate Tracks(bars: seq<Telemetry>, config: Config, n: nat)
    requires n <= |bars|
  {
    var s := After(bars[..n], config);
    && s.barsInRegime <= n && s.pendingBars <= s.barsInRegime
    && (s.pending.None? <==> s.pendingBars == 0)
    && (s.pending.Some? ==> s.pending.value != s.current && s.barsInRegime >= Max(0, config.minHoldBars) + s.pendingBars)
    && (forall k :: n - s.pendingBars <= k < n ==> s.pending == Some(DesiredAt(bars, config, k)))
    && (forall k :: n - s.barsInRegime <= k < n ==> !Switches(bars, config, k))
    && (s.barsInRegime < n ==> Switches(bars, config, n - s.barsInRegime - 1))
  }

  lemma {:induction false} RunTracks(bars: seq<Telemetry>, config: Config, n: nat)
    requires n <= |bars|
    ensures Tracks(bars, config, n)
  {
    if n > 0 {
      RunTracks(bars, config, n - 1);
      AfterNext(bars, config, n - 1);
      TracksStep(bars, config, n - 1);
    }
  }

  lemma TracksStep(bars: seq<Telemetry>, config: Config, n: nat)
    requires n < |bars| && Tracks(bars, config, n)
    requires After(bars[..n + 1], config) == ClassifyRegime(After(bars[..n], config), bars[n], config).nextState
    ensures Tracks(bars, config, n + 1)
  {
    hide After, EvaluateDesiredRegime;
    var s, s' := After(bars[..n], config), After(bars[..n + 1], config);
    var desired := DesiredAt(bars, config, n);
    assert s'.barsInRegime == s.barsInRegime + 1 || (s'.barsInRegime == 0 && Switches(bars, config, n));
  }

  /** A switch to r needs the minimum hold to have passed and confirmBars bars in a row, up to its own, to ask for r. */
  lemma SwitchIsConfirmed(bars: seq<Telemetry>, config: Config, j: nat)
    requires j < |bars| && Switches(bars, config, j)
    ensures var need := Max(1, config.confirmBars);
            && need <= j + 1
            && After(bars[..j], config).barsInRegime + 1 >= Max(0, config.minHoldBars) + need
            && forall k :: j + 1 - need <= k <= j ==> DesiredAt(bars, config, k) == After(bars[..j + 1], config).current
  {
    RunTracks(bars, config, j);
    AfterNext(bars, config, j);
    hide After, EvaluateDesiredRegime;
  }

  /** Two switches are at least the minimum hold plus the confirmation apart, whatever the telemetry. */
  lemma SwitchesAreSpaced(bars: seq<Telemetry>, config: Config, i: nat, j: nat)
    requires i < j < |bars| && Switches(bars, config, i) && Switches(bars, config, j)
    ensures j - i >= Max(0, config.minHoldBars) + Max(1, config.confirmBars)
  {
    RunTracks(bars, config, j);
    SwitchIsConfirmed(bars, config, j);
    hide After, DesiredAt;
    var s := After(bars[..j], config);
    assert i < j - s.barsInRegime;
  }

  /** The first switch comes no earlier than that after the start. */
  lemma FirstSwitchIsLate(bars: seq<Telemetry>, config: Config, j: nat)
    requires j < |bars| && Switches(bars, config, j)
    ensures j + 1 >= Max(0, config.minHoldBars) + Max(1, config.confirmBars)
  {
    RunTracks(bars, config, j);
    SwitchIsConfirmed(bars, config, j);
  }

  /** How many bars a lasting demand needs. */
  function Span(config: Config): nat {
    Max(0, config.minHoldBars) + Max(1, config.confirmBars)
  }

  /** The bound is tight: from the default state, bars that all ask for r switch to it at exactly that bar and not before. */
  lemma {:induction false} SteadyDemandSwitches(bars: seq<Telemetry>, config: Config, r: Regime)
    requires r != CHOP && forall t :: t in bars ==> EvaluateDesiredRegime(CHOP, t, config) == r
    requires |bars| <= Span(config)
    ensures var pendingBars := Max(0, |bars| - Max(0, config.minHoldBars));
            After(bars, config) ==
            if |bars| == Span(config) then State(r, 0, None, 0)
            else State(CHOP, |bars|, if pendingBars > 0 then Some(r) else None, pendingBars)
  {
    hide EvaluateDesiredRegime;
    if bars != [] {
      SteadyDemandSwitches(bars[..|bars| - 1], config, r);
      assert bars[|bars| - 1] in bars;
    }
  }

  /** The bar asks for r, both from the given regime and from r itself. */
  predicate AsksFor(was: Regime, t: Telemetry, config: Config, r: Regime) {
    EvaluateDesiredRegime(was, t, config) == r && EvaluateDesiredRegime(r, t, config) == r
  }

  /** While bars ask for r from outside r, the hold and then the confirmation advance with every bar. */
  ghost predicate Approaches(was: Regime, s: State, config: Config, r: Regime, n: nat) {
    || s.current == r
    || (s.current == was && s.barsInRegime >= n
        && (n > Max(0, config.minHoldBars) ==>
              s.pending == Some(r) && n - Max(0, config.minHoldBars) <= s.pendingBars < Max(1, config.confirmBars)))
  }

  lemma ApproachStep(was: Regime, s: State, t: Telemetry, config: Config, r: Regime, n: nat)
    requires Approaches(was, s, config, r, n)
    requires AsksFor(was, t, config, r)
    ensures Approaches(was, ClassifyRegime(s, t, config).nextState, config, r, n + 1)
  {
    hide EvaluateDesiredRegime;
  }

  lemma {:induction false} DemandApproaches(bars: seq<Telemetry>, more: seq<Telemetry>, config: Config, r: Regime)
    requires forall t :: t in more ==> AsksFor(After(bars, config).current, t, config, r)
    ensures Approaches(After(bars, config).current, After(bars + more, config), config, r, |more|)
  {
    if more == [] {
      assert bars + more == bars;
    } else {
      var front := more[..|more| - 1];
      assert (bars + more)[..|bars + more| - 1] == bars + front && (bars + more)[|bars + more| - 1] == more[|more| - 1];
      DemandApproaches(bars, front, config, r);
      hide EvaluateDesiredRegime, Approaches;
      ApproachStep(After(bars, config).current, After(bars + front, config), more[|more| - 1], config, r, |front|);
    }
  }

  /** A demand that lasts for the hold and the confirmation prevails after any run. */
  lemma DemandPrevails(bars: seq<Telemetry>, more: seq<Telemetry>, config: Config, r: Regime)
    requires |more| >= Span(config)
    requires forall t :: t in more ==> AsksFor(After(bars, config).current, t, config, r)
    ensures After(bars + more, config).current == r
  {
    DemandApproaches(bars, more, config, r);
    hide EvaluateDesiredRegime, After;
  }

  predicate Calm(t: Telemetry, config: Config) {
    t.volRatio <= config.chopVolRatioMax
  }

  /**
    The thresholds decide: after any run, enough bars of high volatility end in CHOP; enough calm bars from the entry
    threshold on end in that trend, unless they still keep the opposite one; and enough calm bars between the entry
    thresholds that no longer keep a trend end in CHOP.
   */
  lemma ThresholdsDecide(bars: seq<Telemetry>, more: seq<Telemetry>, config: Config)
    requires |more| >= Span(config) && config.enterDownTrend < config.enterUpTrend
    ensures var was, now := After(bars, config).current, After(bars + more, config).current;
            && ((forall t :: t in more ==> !Calm(t, config)) ==> now == CHOP)
            && ((forall t :: t in more ==>
                   Calm(t, config) && t.trendStrength >= config.enterUpTrend && (was == DOWN ==> t.trendStrength > config.exitDownTrend)) ==> now == UP)
            && ((forall t :: t in more ==>
                   Calm(t, config) && t.trendStrength <= config.enterDownTrend && (was == UP ==> t.trendStrength < config.exitUpTrend)) ==> now == DOWN)
            && ((forall t :: t in more ==>
                   && Calm(t, config) && config.enterDownTrend < t.trendStrength < config.enterUpTrend
                   && (was == UP ==> t.trendStrength < config.exitUpTrend) && (was == DOWN ==> t.trendStrength > config.exitDownTrend)) ==>
                 now == CHOP)
  {
    var was := After(bars, config).current;
    AllAskFor(was, more, config);
    hide After, AsksFor, Calm;
    if forall t :: t in more ==> AsksFor(was, t, config, CHOP) {
      DemandPrevails(bars, more, config, CHOP);
    }
    if forall t :: t in more ==> AsksFor(was, t, config, UP) {
      DemandPrevails(bars, more, config, UP);
    }
    if forall t :: t in more ==> AsksFor(was, t, config, DOWN) {
      DemandPrevails(bars, more, config, DOWN);
    }
  }

  /** What such bars ask for, from the regime before them and from the one they lead to. */
  lemma AllAskFor(was: Regime, more: seq<Telemetry>, config: Config)
    requires config.enterDownTrend < config.enterUpTrend
    ensures forall t :: t in more && !Calm(t, config) ==> AsksFor(was, t, config, CHOP)
    ensures forall t :: t in more && Calm(t, config) && t.trendStrength >= config.enterUpTrend && (was == DOWN ==> t.trendStrength > config.exitDownTrend) ==>
              AsksFor(was, t, config, UP)
    ensures forall t :: t in more && Calm(t, config) && t.trendStrength <= config.enterDownTrend && (was == UP ==> t.trendStrength < config.exitUpTrend) ==>
              AsksFor(was, t, config, DOWN)
    ensures forall t :: t in more && Calm(t, config) && config.enterDownTrend < t.trendStrength < config.enterUpTrend
                        && (was == UP ==> t.trendStrength < config.exitUpTrend) && (was == DOWN ==> t.trendStrength > config.exitDownTrend) ==>
              AsksFor(was, t, config, CHOP)
  {
  }

  // ---------- Stateless use ----------

  /** The state after n bars of the same telemetry from the default state, as long as the confirmation is not complete. */
  function Repeated(config: Config, desired: Regime, n: nat): State {
    if desired == CHOP then State(CHOP, n, None, 0)
    else if n >= Max(1, config.confirmBars) && config.minHoldBars <= 0 then State(desired, 0, None, 0)
    else
      var pendingBars := Max(0, n - Max(0, config.minHoldBars));
      State(CHOP, n, if pendingBars > 0 then Some(desired) else None, pendingBars)
  }

  /** Classifies the same telemetry confirmBars times over and keeps the last decision. */
  method ClassifyMarketRegime(t: Telemetry, config: Config) returns (regime: Regime, reasons: seq<Code>)
    ensures var asksUp := Calm(t, config) && t.trendStrength >= config.enterUpTrend;
            var asksDown := Calm(t, config) && t.trendStrength <= config.enterDownTrend && !asksUp;
            && (regime == UP <==> config.minHoldBars <= 0 && asksUp)
            && (regime == DOWN <==> config.minHoldBars <= 0 && asksDown)
            && reasons == if !asksUp && !asksDown then [Stable] else if config.minHoldBars <= 0 then [SwitchConfirmed] else []
  {
    ghost var desired := EvaluateDesiredRegime(CHOP, t, config);
    var decision := ClassifyRegime(DEFAULT, t, config);
    var i := 1;
    while i < config.confirmBars
      invariant 1 <= i <= Max(1, config.confirmBars)
      invariant decision.nextState == Repeated(config, desired, i)
      invariant decision.regime == decision.nextState.current
      invariant decision.code == if desired == CHOP then Stable
                                 else if i >= Max(1, config.confirmBars) && config.minHoldBars <= 0 then SwitchConfirmed
                                 else if i <= config.minHoldBars then MinHoldActive else ConfirmPending
    {
      hide EvaluateDesiredRegime;
      decision := ClassifyRegime(decision.nextState, t, config);
      i := i + 1;
    }
    regime := decision.regime;
    reasons := if decision.code == Stable || decision.code == SwitchConfirmed then [decision.code] else [];
  }
}
