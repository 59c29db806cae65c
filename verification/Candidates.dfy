/**
  How the selector turns bundle records into early exclusions and scored candidates.
 */
module Candidates {
  import opened Evidence
  import opened ScopeKeys

  const BPS := 10_000

  datatype ProvenanceQuality = ProvenanceQuality(calculator: int, derived: int, collected: int, humanAuthored: int) {
    function Of(p: Provenance): int {
      match p
      case DeterministicCalculator => calculator
      case Derived => derived
      case Collected => collected
      case HumanAuthored => humanAuthored
    }
  }

  datatype Policy = Policy(
    version: string,
    minimumEffectiveScoreBps: int,
    staleWeightBps: int,
    maxSelectedPerFamily: int,
    defaultSourceQualityBps: int,
    sourceQualityBps: map<string, int>,
    provenanceQualityBps: ProvenanceQuality)

  predicate IsBps(n: int) {
    0 <= n <= BPS
  }

  /** The characters that String.prototype.trim removes. */
  predicate IsWhiteSpace(c: char) {
    || '\U{0009}' <= c <= '\U{000d}' || c == ' ' || c == '\U{00a0}' || c == '\U{1680}' || '\U{2000}' <= c <= '\U{200a}'
    || c == '\U{2028}' || c == '\U{2029}' || c == '\U{202f}' || c == '\U{205f}' || c == '\U{3000}' || c == '\U{feff}'
  }

  /** What trimming leaves. */
  function Trim(s: string): string {
    if s != "" && IsWhiteSpace(s[0]) then Trim(s[1..])
    else if s != "" && IsWhiteSpace(s[|s| - 1]) then Trim(s[..|s| - 1])
    else s
  }

  /** The policies that validation lets through. */
  predicate PolicyAccepted(p: Policy) {
    && (exists c :: c in p.version && !IsWhiteSpace(c))
    && IsBps(p.minimumEffectiveScoreBps) && IsBps(p.staleWeightBps) && IsBps(p.defaultSourceQualityBps)
    && p.maxSelectedPerFamily > 0
    && (forall k :: k in p.sourceQualityBps ==> IsBps(p.sourceQualityBps[k]))
    && forall m :: IsBps(p.provenanceQualityBps.Of(m))
  }

  datatype Kind = ContextualClaim | DeterministicFeature | BriefKind

  /** The parts of `hash/kind/localId`; hashes have a fixed length, so the order of the parts is the order of the text. */
  datatype CandidateId = CandidateId(bundleHash: string, kind: Kind, localId: Id)

  datatype Lifecycle = Fresh | Stale | Expired

  datatype Record = Record(id: int, bundle: Bundle, evidenceHash: string, receivedAt: int, lifecycle: Lifecycle)

  datatype Reason =
    | RecordMismatch
    | BundleDisabled
    | BundleExpired
    | FeatureUnavailable
    | FeatureInvalid
    | ClaimExpired
    | ResearchBriefUnavailable
    | StaleEvidenceDownweighted
    | ScoreThreshold
    | FamilySelectionLimit
    | FeatureDependencyExcluded
    | BriefReferencesExcludedEvidence
    | ExcludedReference(id: Id)
    | FreshInclusion
    | StaleInclusion

  /** Where a bundle came from; copied into everything made of it. */
  datatype Origin = Origin(publisher: string, sourceId: string, runId: string, correlationId: string, receivedAt: int)

  /** The item of the bundle that a candidate stands for. */
  datatype Item = FeatureItem(feature: Feature) | ClaimItem(claim: Claim) | BriefItem(brief: Brief)

  datatype Decision = Decision(
    id: CandidateId,
    origin: Origin,
    rawConfidence: int,
    sourceQuality: int,
    provenanceQuality: int,
    freshnessWeight: int,
    score: Option<int>,
    included: bool,
    reasons: seq<Reason>)

  datatype Candidate = Candidate(
    id: CandidateId,
    origin: Origin,
    item: Item,
    asOf: Timestamp,
    observedAt: Option<Timestamp>,
    rawConfidence: int,
    sourceQuality: int,
    provenanceQuality: int,
    freshnessWeight: int,
    score: Option<int>,
    refs: seq<Id>,
    reasons: seq<Reason>,
    family: Family,
    direction: Direction)

  /** What became of a bundle as a whole. */
  datatype BundleLineage = BundleLineage(bundleHash: string, origin: Origin, accepted: bool, reasons: seq<Reason>)

  /** What a slot of a bundle becomes: excluded on sight, or a registered candidate. */
  datatype Outcome = Early(decision: Decision) | Registered(candidate: Candidate) {
    function Id(): CandidateId {
      match this
      case Early(d) => d.id
      case Registered(c) => c.id
    }
  }

  function OriginOf(r: Record): Origin {
    Origin(r.bundle.publisher, r.bundle.sourceId, r.bundle.runId, r.bundle.correlationId, r.receivedAt)
  }

  function ComputedLifecycle(b: Bundle, now: int): Lifecycle {
    if now <= b.freshUntil then Fresh else if now <= b.expiresAt then Stale else Expired
  }

  function SourceQuality(policy: Policy, b: Bundle): int {
    var key := SourceQualityKey(b.publisher, b.sourceId);
    if key in policy.sourceQualityBps then policy.sourceQualityBps[key] else policy.defaultSourceQualityBps
  }

  /** Why a whole bundle is rejected, if it is. */
  function Rejection(r: Record, now: int, scopeKey: string, policy: Policy): Option<Reason> {
    if r.bundle.scopeKey != scopeKey || r.lifecycle != ComputedLifecycle(r.bundle, now) then Some(RecordMismatch)
    else if SourceQuality(policy, r.bundle) == 0 then Some(BundleDisabled)
    else if ComputedLifecycle(r.bundle, now) == Expired then Some(BundleExpired)
    else None
  }

  function LineageOf(r: Record, now: int, scopeKey: string, policy: Policy): BundleLineage {
    var rejected := Rejection(r, now, scopeKey, policy);
    BundleLineage(r.evidenceHash, OriginOf(r), rejected.None?, if rejected.Some? then [rejected.value] else [])
  }

  function BundleLineages(rs: seq<Record>, now: int, scopeKey: string, policy: Policy): (bs: seq<BundleLineage>)
    ensures |bs| == |rs| && forall i :: 0 <= i < |rs| ==> bs[i] == LineageOf(rs[i], now, scopeKey, policy)
  {
    seq(|rs|, i requires 0 <= i < |rs| => LineageOf(rs[i], now, scopeKey, policy))
  }

  /** Exact integer arithmetic, rounded down once at the end. */
  function Score(confidence: int, source: int, provenance: int, freshness: int): int {
    confidence * source * provenance * freshness / (BPS * BPS * BPS)
  }

  function BundleWeight(r: Record, now: int, policy: Policy): int {
    if ComputedLifecycle(r.bundle, now) == Fresh then BPS else policy.staleWeightBps
  }

  function StaleReasons(weight: int, policy: Policy): seq<Reason> {
    if weight == policy.staleWeightBps then [StaleEvidenceDownweighted] else []
  }

  function Excluded(r: Record, id: CandidateId, reason: Reason): Outcome {
    Early(Decision(id, OriginOf(r), 0, 0, 0, 0, None, false, [reason]))
  }

  function FeatureOutcome(r: Record, f: Feature, now: int, policy: Policy): Outcome {
    var id := CandidateId(r.evidenceHash, DeterministicFeature, f.featureId);
    var source := SourceQuality(policy, r.bundle);
    match f.status
    case Unavailable => Early(Decision(id, OriginOf(r), 0, source, 0, 0, None, false, [FeatureUnavailable]))
    case Invalid => Early(Decision(id, OriginOf(r), 0, source, 0, 0, None, false, [FeatureInvalid]))
    case Available =>
      var weight := if ComputedLifecycle(r.bundle, now) == Fresh && now <= f.freshUntil then BPS else policy.staleWeightBps;
      var provenance := policy.provenanceQualityBps.Of(DeterministicCalculator);
      Registered(Candidate(
        id, OriginOf(r), FeatureItem(f), r.bundle.asOf, f.observedAt, f.confidenceBps, source, provenance, weight,
        Some(Score(f.confidenceBps, source, provenance, weight)), f.inputLineage, StaleReasons(weight, policy), f.family, Unknown))
  }

  function ClaimOutcome(r: Record, family: Family, c: Claim, now: int, policy: Policy): Outcome {
    var id := CandidateId(r.evidenceHash, ContextualClaim, c.evidenceId);
    var source := SourceQuality(policy, r.bundle);
    var provenance := policy.provenanceQualityBps.Of(c.provenance);
    if c.expiresAt.Some? && now > c.expiresAt.value then
      Early(Decision(id, OriginOf(r), c.confidenceBps, source, provenance, 0, None, false, [ClaimExpired]))
    else
      var weight := BundleWeight(r, now, policy);
      Registered(Candidate(
        id, OriginOf(r), ClaimItem(c), r.bundle.asOf, Some(c.observedAt), c.confidenceBps, source, provenance, weight,
        Some(Score(c.confidenceBps, source, provenance, weight)), c.sourceReferenceIds, StaleReasons(weight, policy), family, c.direction))
  }

  const UNAVAILABLE := "<unavailable>"

  function BriefOutcome(r: Record, now: int, policy: Policy): Outcome {
    match r.bundle.brief
    case None => Excluded(r, CandidateId(r.evidenceHash, BriefKind, UNAVAILABLE), ResearchBriefUnavailable)
    case Some(b) =>
      var isBundleFresh := ComputedLifecycle(r.bundle, now) == Fresh;
      Registered(Candidate(
        CandidateId(r.evidenceHash, BriefKind, b.briefId), OriginOf(r), BriefItem(b), r.bundle.asOf, Some(b.generatedAt),
        BPS, SourceQuality(policy, r.bundle), BPS, BundleWeight(r, now, policy), None, b.sourceEvidenceIds,
        if isBundleFresh then [FreshInclusion] else [StaleInclusion, StaleEvidenceDownweighted], ResearchBrief, Unknown))
  }

  function BriefId(b: Bundle): Id {
    if b.brief.Some? then b.brief.value.briefId else UNAVAILABLE
  }

  function KindOf(family: Family): Kind {
    match family
    case ResearchBrief => BriefKind
    case SupportResistance | Flows | Derivatives | Events | NewsRegulatory => ContextualClaim
    case _ => DeterministicFeature
  }

  datatype TaggedClaim = TaggedClaim(family: Family, claim: Claim)

  function Tagged(family: Family, cs: seq<Claim>): (t: seq<TaggedClaim>)
    ensures |t| == |cs| && forall i :: 0 <= i < |cs| ==> t[i] == TaggedClaim(family, cs[i])
  {
    seq(|cs|, i requires 0 <= i < |cs| => TaggedClaim(family, cs[i]))
  }

  function TaggedClaims(ctx: Contextual): seq<TaggedClaim> {
    Tagged(SupportResistance, ctx.supportResistance) + Tagged(Flows, ctx.flows) + Tagged(Derivatives, ctx.derivatives)
    + Tagged(Events, ctx.events) + Tagged(NewsRegulatory, ctx.newsRegulatory)
  }

  /** The slots of a record and what becomes of each. */
  function FeatureSlot(r: Record, f: Feature, now: int, scopeKey: string, policy: Policy): Outcome {
    var rejected := Rejection(r, now, scopeKey, policy);
    if rejected.Some? then Excluded(r, CandidateId(r.evidenceHash, DeterministicFeature, f.featureId), rejected.value)
    else FeatureOutcome(r, f, now, policy)
  }

  function ClaimSlot(r: Record, t: TaggedClaim, now: int, scopeKey: string, policy: Policy): Outcome {
    var rejected := Rejection(r, now, scopeKey, policy);
    if rejected.Some? then Excluded(r, CandidateId(r.evidenceHash, ContextualClaim, t.claim.evidenceId), rejected.value)
    else ClaimOutcome(r, t.family, t.claim, now, policy)
  }

  function BriefSlot(r: Record, now: int, scopeKey: string, policy: Policy): Outcome {
    var rejected := Rejection(r, now, scopeKey, policy);
    if rejected.Some? then Excluded(r, CandidateId(r.evidenceHash, BriefKind, BriefId(r.bundle)), rejected.value)
    else BriefOutcome(r, now, policy)
  }

  function FeatureSlots(r: Record, now: int, scopeKey: string, policy: Policy): (outs: seq<Outcome>)
    ensures |outs| == |r.bundle.features|
    ensures forall i :: 0 <= i < |outs| ==> outs[i] == FeatureSlot(r, r.bundle.features[i], now, scopeKey, policy)
  {
    seq(|r.bundle.features|, i requires 0 <= i < |r.bundle.features| => FeatureSlot(r, r.bundle.features[i], now, scopeKey, policy))
  }

  function ClaimSlots(r: Record, now: int, scopeKey: string, policy: Policy): (outs: seq<Outcome>)
    ensures |outs| == |TaggedClaims(r.bundle.contextual)|
    ensures forall i :: 0 <= i < |outs| ==> outs[i] == ClaimSlot(r, TaggedClaims(r.bundle.contextual)[i], now, scopeKey, policy)
  {
    var claims := TaggedClaims(r.bundle.contextual);
    seq(|claims|, i requires 0 <= i < |claims| => ClaimSlot(r, claims[i], now, scopeKey, policy))
  }

  function RecordOutcomes(r: Record, now: int, scopeKey: string, policy: Policy): seq<Outcome> {
    FeatureSlots(r, now, scopeKey, policy) + ClaimSlots(r, now, scopeKey, policy) + [BriefSlot(r, now, scopeKey, policy)]
  }

  /** The outcomes of all slots of all records, in registration order. */
  function AllOutcomes(rs: seq<Record>, now: int, scopeKey: string, policy: Policy): seq<Outcome> {
    if rs == [] then []
    else AllOutcomes(rs[..|rs| - 1], now, scopeKey, policy) + RecordOutcomes(rs[|rs| - 1], now, scopeKey, policy)
  }

  function EarlyDecisions(outs: seq<Outcome>): seq<Decision> {
    if outs == [] then []
    else EarlyDecisions(outs[..|outs| - 1]) + (if outs[|outs| - 1].Early? then [outs[|outs| - 1].decision] else [])
  }

  function FamilyCandidates(outs: seq<Outcome>, family: Family): seq<Candidate> {
    if outs == [] then []
    else
      var o := outs[|outs| - 1];
      FamilyCandidates(outs[..|outs| - 1], family) + (if o.Registered? && o.candidate.family == family then [o.candidate] else [])
  }

  function RegisteredFeatures(outs: seq<Outcome>): nat {
    if outs == [] then 0
    else
      var o := outs[|outs| - 1];
      RegisteredFeatures(outs[..|outs| - 1]) + if o.Registered? && o.Id().kind == DeterministicFeature then 1 else 0
  }

  /** What one more slot adds to the lists. */
  lemma NextOutcome(outs: seq<Outcome>, o: Outcome)
    ensures EarlyDecisions(outs + [o]) == EarlyDecisions(outs) + if o.Early? then [o.decision] else []
    ensures RegisteredFeatures(outs + [o]) ==
            RegisteredFeatures(outs) + if o.Registered? && o.Id().kind == DeterministicFeature then 1 else 0
    ensures forall family :: FamilyCandidates(outs + [o], family) ==
              FamilyCandidates(outs, family) + if o.Registered? && o.candidate.family == family then [o.candidate] else []
  {
    assert (outs + [o])[..|outs|] == outs;
  }

  // ---------- Scores ----------

  lemma ProductBound(a: int, b: int, c: int, d: int)
    requires 0 <= a && IsBps(b) && IsBps(c) && IsBps(d)
    ensures 0 <= a * b * c * d <= a * (BPS * BPS * BPS)
  {
    assert 0 <= a * b <= a * BPS;
    ProductStep(a * b, c, a * BPS);
    ProductStep(a * b * c, d, a * BPS * BPS);
  }

  lemma ProductStep(x: int, w: int, bound: int)
    requires 0 <= x <= bound && IsBps(w)
    ensures 0 <= x * w <= bound * BPS
  {
    assert x * w <= x * BPS;
  }

  /** A score is a basis-point value and no factor can raise it above itself. */
  lemma ScoreBounded(confidence: int, source: int, provenance: int, freshness: int)
    requires IsBps(confidence) && IsBps(source) && IsBps(provenance) && IsBps(freshness)
    ensures var s := Score(confidence, source, provenance, freshness);
            IsBps(s) && s <= confidence && s <= source && s <= provenance && s <= freshness
  {
    var cube := BPS * BPS * BPS;
    var n := confidence * source * provenance * freshness;
    ProductBound(confidence, source, provenance, freshness);
    ProductBound(source, confidence, provenance, freshness);
    ProductBound(provenance, confidence, source, freshness);
    ProductBound(freshness, confidence, source, provenance);
    assert n == source * confidence * provenance * freshness;
    assert n == provenance * confidence * source * freshness by {
      assert confidence * source * provenance == provenance * confidence * source;
    }
    assert n == freshness * confidence * source * provenance by {
      assert freshness * (confidence * source * provenance) == freshness * confidence * source * provenance;
    }
    FloorBound(n, confidence);
    FloorBound(n, source);
    FloorBound(n, provenance);
    FloorBound(n, freshness);
  }

  lemma FloorBound(n: int, a: int)
    requires 0 <= n <= a * (BPS * BPS * BPS)
    ensures 0 <= n / (BPS * BPS * BPS) <= a
  {
  }

  // ---------- Registration ----------

  /** The bounds that the bundle's JSON schema enforces and scoring relies on. */
  ghost predicate WellFormed(r: Record) {
    && IsBps(r.bundle.overallConfidenceBps)
    && (forall f :: f in r.bundle.features ==> IsBps(f.confidenceBps) && KindOf(f.family) == DeterministicFeature)
    && (forall c :: c in AllClaims(r.bundle.contextual) ==> IsBps(c.confidenceBps))
  }

  lemma TaggedClaimIn(ctx: Contextual, t: TaggedClaim)
    requires t in TaggedClaims(ctx)
    ensures t.claim in AllClaims(ctx)
    ensures t.family in {SupportResistance, Flows, Derivatives, Events, NewsRegulatory}
  {
    if t in Tagged(SupportResistance, ctx.supportResistance) {
      assert t.claim in ctx.supportResistance;
    } else if t in Tagged(Flows, ctx.flows) {
      assert t.claim in ctx.flows;
    } else if t in Tagged(Derivatives, ctx.derivatives) {
      assert t.claim in ctx.derivatives;
    } else if t in Tagged(Events, ctx.events) {
      assert t.claim in ctx.events;
    } else {
      assert t in Tagged(NewsRegulatory, ctx.newsRegulatory);
      assert t.claim in ctx.newsRegulatory;
    }
  }

  /** The lists the selector pushes to while it walks the records. */
  class Registry {
    var decisions: seq<Decision>
    var candidatesByFamily: map<Family, seq<Candidate>>
    var registeredDeterministicCount: nat
    var bundles: seq<BundleLineage>
    var impossibleScore: bool
    ghost var outcomes: seq<Outcome>

    constructor ()
      ensures Valid() && outcomes == [] && bundles == [] && !impossibleScore
    {
      decisions, candidatesByFamily, registeredDeterministicCount := [], map[], 0;
      bundles, impossibleScore, outcomes := [], false, [];
    }

    ghost predicate Valid()
      reads this
    {
      && decisions == EarlyDecisions(outcomes)
      && registeredDeterministicCount == RegisteredFeatures(outcomes)
      && forall family :: FamilyCandidates(outcomes, family) == if family in candidatesByFamily then candidatesByFamily[family] else []
    }

    method PushDecision(d: Decision)
      requires Valid()
      modifies this
      ensures Valid() && outcomes == old(outcomes) + [Early(d)] && impossibleScore == old(impossibleScore) && bundles == old(bundles)
    {
      hide EarlyDecisions, RegisteredFeatures, FamilyCandidates;
      NextOutcome(outcomes, Early(d));
      decisions := decisions + [d];
      outcomes := outcomes + [Early(d)];
    }

    method RegisterCandidate(c: Candidate)
      requires Valid()
      modifies this
      ensures Valid() && outcomes == old(outcomes) + [Registered(c)] && impossibleScore == old(impossibleScore) && bundles == old(bundles)
    {
      hide EarlyDecisions, RegisteredFeatures, FamilyCandidates;
      NextOutcome(outcomes, Registered(c));
      if c.id.kind == DeterministicFeature {
        registeredDeterministicCount := registeredDeterministicCount + 1;
      }
      if c.family !in candidatesByFamily {
        candidatesByFamily := candidatesByFamily[c.family := []];
      }
      candidatesByFamily := candidatesByFamily[c.family := candidatesByFamily[c.family] + [c]];
      outcomes := outcomes + [Registered(c)];
    }

    /** Scores are computed once, exactly, and range-checked; the check is what throws "Impossible final score". */
    method ComputeScore(confidence: int, source: int, provenance: int, freshness: int) returns (score: int)
      requires IsBps(confidence) && IsBps(source) && IsBps(provenance) && IsBps(freshness)
      modifies this`impossibleScore
      ensures score == Score(confidence, source, provenance, freshness)
      ensures impossibleScore == old(impossibleScore)
    {
      var numerator := confidence * source * provenance * freshness;
      var denominator := BPS * BPS * BPS;
      score := numerator / denominator;
      ScoreBounded(confidence, source, provenance, freshness);
      impossibleScore := impossibleScore || score < 0 || score > BPS;
    }

    method RejectFeatures(r: Record, reason: Reason, ghost now: int, ghost scopeKey: string, ghost policy: Policy)
      requires Valid() && Rejection(r, now, scopeKey, policy) == Some(reason)
      modifies this
      ensures Valid() && impossibleScore == old(impossibleScore) && bundles == old(bundles)
      ensures outcomes == old(outcomes) + FeatureSlots(r, now, scopeKey, policy)
    {
      hide Valid, Rejection, FeatureSlots, ClaimSlots, FeatureOutcome, ClaimOutcome, PolicyAccepted;
      ghost var start, slots := outcomes, FeatureSlots(r, now, scopeKey, policy);
      var items := r.bundle.features;
      for i := 0 to |items|
        invariant Valid() && impossibleScore == old(impossibleScore) && bundles == old(bundles)
        invariant outcomes == start + slots[..i]
      {
        PushDecision(Decision(CandidateId(r.evidenceHash, DeterministicFeature, items[i].featureId), OriginOf(r), 0, 0, 0, 0, None, false, [reason]));
        assert slots[..i + 1] == slots[..i] + [slots[i]];
      }
      assert slots[..|items|] == slots;
    }

    method RejectClaims(r: Record, reason: Reason, ghost now: int, ghost scopeKey: string, ghost policy: Policy)
      requires Valid() && Rejection(r, now, scopeKey, policy) == Some(reason)
      modifies this
      ensures Valid() && impossibleScore == old(impossibleScore) && bundles == old(bundles)
      ensures outcomes == old(outcomes) + ClaimSlots(r, now, scopeKey, policy)
    {
      hide Valid, Rejection, FeatureSlots, ClaimSlots, FeatureOutcome, ClaimOutcome, PolicyAccepted;
      ghost var start, slots := outcomes, ClaimSlots(r, now, scopeKey, policy);
      var items := TaggedClaims(r.bundle.contextual);
      for i := 0 to |items|
        invariant Valid() && impossibleScore == old(impossibleScore) && bundles == old(bundles)
        invariant outcomes == start + slots[..i]
      {
        PushDecision(Decision(CandidateId(r.evidenceHash, ContextualClaim, items[i].claim.evidenceId), OriginOf(r), 0, 0, 0, 0, None, false, [reason]));
        assert slots[..i + 1] == slots[..i] + [slots[i]];
      }
      assert slots[..|items|] == slots;
    }

    /** Excludes every slot of a rejected bundle for the same reason. */
    method RejectBundle(r: Record, reason: Reason, ghost now: int, ghost scopeKey: string, ghost policy: Policy)
      requires Valid() && Rejection(r, now, scopeKey, policy) == Some(reason)
      modifies this
      ensures Valid() && impossibleScore == old(impossibleScore) && bundles == old(bundles)
      ensures outcomes == old(outcomes) + RecordOutcomes(r, now, scopeKey, policy)
    {
      hide Valid, Rejection, FeatureSlots, ClaimSlots;
      RejectFeatures(r, reason, now, scopeKey, policy);
      RejectClaims(r, reason, now, scopeKey, policy);
      var d := Decision(CandidateId(r.evidenceHash, BriefKind, BriefId(r.bundle)), OriginOf(r), 0, 0, 0, 0, None, false, [reason]);
      assert BriefSlot(r, now, scopeKey, policy) == Early(d);
      PushDecision(d);
    }

    method RegisterFeature(r: Record, f: Feature, now: int, policy: Policy)
      requires Valid() && PolicyAccepted(policy) && IsBps(f.confidenceBps)
      modifies this
      ensures Valid() && impossibleScore == old(impossibleScore) && bundles == old(bundles)
      ensures outcomes == old(outcomes) + [FeatureOutcome(r, f, now, policy)]
    {
      var id := CandidateId(r.evidenceHash, DeterministicFeature, f.featureId);
      var source := SourceQuality(policy, r.bundle);
      if f.status == Unavailable {
        PushDecision(Decision(id, OriginOf(r), 0, source, 0, 0, None, false, [FeatureUnavailable]));
        return;
      }
      if f.status == Invalid {
        PushDecision(Decision(id, OriginOf(r), 0, source, 0, 0, None, false, [FeatureInvalid]));
        return;
      }
      var isFeatureFresh := now <= f.freshUntil;
      var isBundleFresh := ComputedLifecycle(r.bundle, now) == Fresh;
      var weight := if isBundleFresh && isFeatureFresh then BPS else policy.staleWeightBps;
      var provenance := policy.provenanceQualityBps.calculator;
      assert provenance == policy.provenanceQualityBps.Of(DeterministicCalculator);
      var score := ComputeScore(f.confidenceBps, source, provenance, weight);
      var reasons := [];
      if weight == policy.staleWeightBps {
        reasons := reasons + [StaleEvidenceDownweighted];
      }
      assert reasons == StaleReasons(weight, policy);
      RegisterCandidate(Candidate(
        id, OriginOf(r), FeatureItem(f), r.bundle.asOf, f.observedAt, f.confidenceBps, source, provenance, weight,
        Some(score), f.inputLineage, reasons, f.family, Unknown));
    }

    method RegisterClaim(r: Record, t: TaggedClaim, now: int, policy: Policy)
      requires Valid() && PolicyAccepted(policy) && IsBps(t.claim.confidenceBps)
      modifies this
      ensures Valid() && impossibleScore == old(impossibleScore) && bundles == old(bundles)
      ensures outcomes == old(outcomes) + [ClaimOutcome(r, t.family, t.claim, now, policy)]
    {
      var c := t.claim;
      var id := CandidateId(r.evidenceHash, ContextualClaim, c.evidenceId);
      var source := SourceQuality(policy, r.bundle);
      var provenance := policy.provenanceQualityBps.Of(c.provenance);
      if c.expiresAt != None && now > c.expiresAt.value {
        PushDecision(Decision(id, OriginOf(r), c.confidenceBps, source, provenance, 0, None, false, [ClaimExpired]));
        return;
      }
      var weight := BundleWeight(r, now, policy);
      var score := ComputeScore(c.confidenceBps, source, provenance, weight);
      var reasons := [];
      if weight == policy.staleWeightBps {
        reasons := reasons + [StaleEvidenceDownweighted];
      }
      assert reasons == StaleReasons(weight, policy);
      RegisterCandidate(Candidate(
        id, OriginOf(r), ClaimItem(c), r.bundle.asOf, Some(c.observedAt), c.confidenceBps, source, provenance, weight,
        Some(score), c.sourceReferenceIds, reasons, t.family, c.direction));
    }

    method PushBundle(r: Record, accepted: bool, reasons: seq<Reason>)
      requires Valid()
      modifies this
      ensures Valid() && outcomes == old(outcomes) && impossibleScore == old(impossibleScore)
      ensures bundles == old(bundles) + [BundleLineage(r.evidenceHash, OriginOf(r), accepted, reasons)]
    {
      bundles := bundles + [BundleLineage(r.evidenceHash, OriginOf(r), accepted, reasons)];
    }

    method RegisterRecord(r: Record, now: int, scopeKey: string, policy: Policy)
      requires Valid() && PolicyAccepted(policy) && WellFormed(r)
      modifies this
      ensures Valid() && impossibleScore == old(impossibleScore)
      ensures bundles == old(bundles) + [LineageOf(r, now, scopeKey, policy)]
      ensures outcomes == old(outcomes) + RecordOutcomes(r, now, scopeKey, policy)
    {
      hide Valid, FeatureSlots, ClaimSlots, SourceQuality;
      var lifecycle := ComputedLifecycle(r.bundle, now);
      if r.bundle.scopeKey != scopeKey || r.lifecycle != lifecycle {
        PushBundle(r, false, [RecordMismatch]);
        RejectBundle(r, RecordMismatch, now, scopeKey, policy);
        return;
      }
      if SourceQuality(policy, r.bundle) == 0 {
        PushBundle(r, false, [BundleDisabled]);
        RejectBundle(r, BundleDisabled, now, scopeKey, policy);
        return;
      }
      if lifecycle == Expired {
        PushBundle(r, false, [BundleExpired]);
        RejectBundle(r, BundleExpired, now, scopeKey, policy);
        return;
      }
      PushBundle(r, true, []);
      AcceptFeatures(r, now, scopeKey, policy);
      AcceptClaims(r, now, scopeKey, policy);
      RegisterBrief(r, now, policy);
    }

    method AcceptFeatures(r: Record, now: int, ghost scopeKey: string, policy: Policy)
      requires Valid() && PolicyAccepted(policy) && WellFormed(r) && Rejection(r, now, scopeKey, policy) == None
      modifies this
      ensures Valid() && impossibleScore == old(impossibleScore) && bundles == old(bundles)
      ensures outcomes == old(outcomes) + FeatureSlots(r, now, scopeKey, policy)
    {
      hide Valid, Rejection, FeatureSlots, ClaimSlots, FeatureOutcome, ClaimOutcome, PolicyAccepted;
      ghost var start, slots := outcomes, FeatureSlots(r, now, scopeKey, policy);
      var items := r.bundle.features;
      for i := 0 to |items|
        invariant Valid() && impossibleScore == old(impossibleScore) && bundles == old(bundles)
        invariant outcomes == start + slots[..i]
      {
        RegisterFeature(r, items[i], now, policy);
        assert slots[..i + 1] == slots[..i] + [slots[i]];
      }
      assert slots[..|items|] == slots;
    }

    method AcceptClaims(r: Record, now: int, ghost scopeKey: string, policy: Policy)
      requires Valid() && PolicyAccepted(policy) && WellFormed(r) && Rejection(r, now, scopeKey, policy) == None
      modifies this
      ensures Valid() && impossibleScore == old(impossibleScore) && bundles == old(bundles)
      ensures outcomes == old(outcomes) + ClaimSlots(r, now, scopeKey, policy)
    {
      hide Valid, Rejection, FeatureSlots, ClaimSlots, FeatureOutcome, ClaimOutcome, PolicyAccepted;
      ghost var start, slots := outcomes, ClaimSlots(r, now, scopeKey, policy);
      var items := TaggedClaims(r.bundle.contextual);
      for i := 0 to |items|
        invariant Valid() && impossibleScore == old(impossibleScore) && bundles == old(bundles)
        invariant outcomes == start + slots[..i]
      {
        TaggedClaimIn(r.bundle.contextual, items[i]);
        RegisterClaim(r, items[i], now, policy);
        assert slots[..i + 1] == slots[..i] + [slots[i]];
      }
      assert slots[..|items|] == slots;
    }

    method RegisterBrief(r: Record, now: int, policy: Policy)
      requires Valid()
      modifies this
      ensures Valid() && impossibleScore == old(impossibleScore) && bundles == old(bundles)
      ensures outcomes == old(outcomes) + [BriefOutcome(r, now, policy)]
    {
      if r.bundle.brief.None? {
        PushDecision(Decision(CandidateId(r.evidenceHash, BriefKind, UNAVAILABLE), OriginOf(r), 0, 0, 0, 0, None, false, [ResearchBriefUnavailable]));
        return;
      }
      var b := r.bundle.brief.value;
      var isBundleFresh := ComputedLifecycle(r.bundle, now) == Fresh;
      var reasons := if isBundleFresh then [FreshInclusion] else [StaleInclusion, StaleEvidenceDownweighted];
      RegisterCandidate(Candidate(
        CandidateId(r.evidenceHash, BriefKind, b.briefId), OriginOf(r), BriefItem(b), r.bundle.asOf, Some(b.generatedAt),
        BPS, SourceQuality(policy, r.bundle), BPS, if isBundleFresh then BPS else policy.staleWeightBps, None, b.sourceEvidenceIds,
        reasons, ResearchBrief, Unknown));
    }

    method RegisterAll(rs: seq<Record>, now: int, scopeKey: string, policy: Policy)
      requires Valid() && outcomes == [] && bundles == [] && PolicyAccepted(policy) && forall r :: r in rs ==> WellFormed(r)
      modifies this
      ensures Valid() && impossibleScore == old(impossibleScore)
      ensures bundles == BundleLineages(rs, now, scopeKey, policy)
      ensures outcomes == AllOutcomes(rs, now, scopeKey, policy)
    {
      hide Valid, RecordOutcomes, LineageOf, WellFormed, PolicyAccepted;
      for i := 0 to |rs|
        invariant Valid() && impossibleScore == old(impossibleScore)
        invariant bundles == BundleLineages(rs[..i], now, scopeKey, policy)
        invariant outcomes == AllOutcomes(rs[..i], now, scopeKey, policy)
      {
        assert rs[..i + 1][..i] == rs[..i];
        assert BundleLineages(rs[..i + 1], now, scopeKey, policy)[..i] == BundleLineages(rs[..i], now, scopeKey, policy);
        RegisterRecord(rs[i], now, scopeKey, policy);
      }
      assert rs[..|rs|] == rs;
    }
  }
}
