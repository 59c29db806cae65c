/**
  What a summary says about one bundle, feature, claim or brief, in terms of the record's own fields, the policy's numbers
  and the other decisions of the summary.
 */
module Verdicts {
  import opened Evidence
  import opened Sorting
  import opened ScopeKeys
  import Lineage
  import opened Candidates
  import opened Ranking
  import opened SelectionSpec
  import opened Selection
  import opened SourceUnion
  import opened Coverage
  import opened Summary
  import opened Reporting
  import opened Slots
  import opened Selector

  // ---------- Bundles ----------

  /** The record has the asked scope, and its stored lifecycle is what its own times say. */
  predicate Matches(r: Record, e: Setting) {
    && r.bundle.scopeKey == e.scopeKey
    && (r.lifecycle == Fresh <==> e.now <= r.bundle.freshUntil)
    && (r.lifecycle == Stale <==> r.bundle.freshUntil < e.now <= r.bundle.expiresAt)
  }

  /** The quality that the policy lists for a publisher and source, or else the default. */
  predicate IsQuality(policy: Policy, b: Bundle, quality: int) {
    var key := SourceQualityKey(b.publisher, b.sourceId);
    && (key in policy.sourceQualityBps ==> quality == policy.sourceQualityBps[key])
    && (key !in policy.sourceQualityBps ==> quality == policy.defaultSourceQualityBps)
  }

  /** The one reason for which a whole bundle is rejected. */
  predicate RejectedFor(r: Record, e: Setting, reason: Reason) {
    match reason
    case RecordMismatch => !Matches(r, e)
    case BundleDisabled => Matches(r, e) && IsQuality(e.policy, r.bundle, 0)
    case BundleExpired => Matches(r, e) && !IsQuality(e.policy, r.bundle, 0) && r.lifecycle == Expired
    case _ => false
  }

  predicate Accepted(r: Record, e: Setting) {
    Matches(r, e) && !IsQuality(e.policy, r.bundle, 0) && r.lifecycle != Expired
  }

  predicate IsOrigin(r: Record, o: Origin) {
    && o.publisher == r.bundle.publisher && o.sourceId == r.bundle.sourceId
    && o.runId == r.bundle.runId && o.correlationId == r.bundle.correlationId && o.receivedAt == r.receivedAt
  }

  lemma RejectionIs(r: Record, e: Setting)
    ensures Rejection(r, e.now, e.scopeKey, e.policy).None? <==> Accepted(r, e)
    ensures forall reason :: Rejection(r, e.now, e.scopeKey, e.policy) == Some(reason) <==> RejectedFor(r, e, reason)
    ensures IsQuality(e.policy, r.bundle, SourceQuality(e.policy, r.bundle))
  {
  }

  /** Each bundle is listed once: accepted, or rejected for the reason that its fields give. */
  lemma BundleVerdict(rs: seq<Record>, e: Setting, res: Result, r: Record, b: BundleLineage)
    requires Stored(rs) && Correct(rs, e, res) && r in rs && b in res.bundles && b.bundleHash == r.evidenceHash
    ensures IsOrigin(r, b.origin) && (b.accepted <==> Accepted(r, e))
    ensures b.accepted ==> b.reasons == []
    ensures !b.accepted ==> |b.reasons| == 1 && RejectedFor(r, e, b.reasons[0])
  {
    hide SlotsOf, Chosen, CountsFeatures, WellFormed, Rejection, RejectedFor, Accepted;
    RejectionIs(r, e);
    assert ListsBundles(rs, e.now, e.scopeKey, e.policy, res.bundles);
    var q :| q in rs && b == LineageOf(q, e.now, e.scopeKey, e.policy);
    SameHashSame(rs, q, r);
  }

  // ---------- Decisions and slots ----------

  /** The decision listed under a slot's id is the slot's verdict. */
  lemma SlotDecision(rs: seq<Record>, e: Setting, res: Result, o: Outcome, d: Decision)
    requires Stored(rs) && Correct(rs, e, res) && o in SlotsOf(rs, e) && d in res.decisions && d.id == o.Id()
    ensures d == Decide(SlotsOf(rs, e), e.policy, Confidence(rs), o)
  {
    hide Decide, SlotsOf, Stored, Accounted, Presents, AreWarnings, DecisionOrder;
    var s := SlotsOf(rs, e);
    SlotsWellSlotted(rs, e);
    assert IsDecisionList(s, e.policy, Confidence(rs), res.decisions);
    var q :| q in s && d == Decide(s, e.policy, Confidence(rs), q);
    DecideId(s, e.policy, Confidence(rs), q);
  }

  /** Every feature and claim of a record, and its brief, have exactly one decision. */
  lemma EachItemDecided(rs: seq<Record>, e: Setting, res: Result, r: Record, id: CandidateId)
    requires Stored(rs) && Correct(rs, e, res) && r in rs && NamesSlot(r, id)
    ensures exists d :: d in res.decisions && d.id == id
    ensures forall i, j :: 0 <= i < j < |res.decisions| ==> res.decisions[i].id != res.decisions[j].id
  {
    hide Decide, SlotsOf, Stored, Accounted, Presents, AreWarnings, DecisionOrder, NamesSlot;
    DecisionsHaveDistinctIds(res.decisions);
    var o := NamedSlot(rs, e, r, id);
    DecideId(SlotsOf(rs, e), e.policy, Confidence(rs), o);
    assert Decide(SlotsOf(rs, e), e.policy, Confidence(rs), o) in res.decisions;
  }

  lemma NamedSlot(rs: seq<Record>, e: Setting, r: Record, id: CandidateId) returns (o: Outcome)
    requires Stored(rs) && r in rs && NamesSlot(r, id)
    ensures o in SlotsOf(rs, e) && o.Id() == id
  {
    hide FeatureSlot, ClaimSlot, BriefSlot, TaggedClaims, AllClaims, RecordOutcomes;
    SlotFound(r, e);
    match id.kind
    case DeterministicFeature =>
      var i :| 0 <= i < |r.bundle.features| && r.bundle.features[i].featureId == id.localId;
      o := FeatureSlot(r, r.bundle.features[i], e.now, e.scopeKey, e.policy);
      FeatureSlotId(r, r.bundle.features[i], e);
    case ContextualClaim =>
      var i :| 0 <= i < |AllClaims(r.bundle.contextual)| && AllClaims(r.bundle.contextual)[i].evidenceId == id.localId;
      var t := ClaimTagged(r.bundle.contextual, AllClaims(r.bundle.contextual)[i]);
      o := ClaimSlot(r, t, e.now, e.scopeKey, e.policy);
      ClaimSlotId(r, t, e);
    case BriefKind =>
      o := BriefSlot(r, e.now, e.scopeKey, e.policy);
      BriefSlotId(r, e);
  }

  /** Every slot of a rejected bundle is excluded for the bundle's reason, without any number. */
  lemma RejectedVerdict(rs: seq<Record>, e: Setting, res: Result, r: Record, reason: Reason, d: Decision)
    requires Stored(rs) && Correct(rs, e, res) && r in rs && RejectedFor(r, e, reason)
    requires d in res.decisions && d.id.bundleHash == r.evidenceHash
    ensures d == Decision(d.id, d.origin, 0, 0, 0, 0, None, false, [reason]) && IsOrigin(r, d.origin)
  {
    hide Decide, Stored, Accounted, Presents, AreWarnings, DecisionOrder, RecordOutcomes, Rejection, RejectedFor,
      WellKinded, NamesSlot;
    var s := SlotsOf(rs, e);
    assert IsDecisionList(s, e.policy, Confidence(rs), res.decisions);
    var o :| o in s && d == Decide(s, e.policy, Confidence(rs), o);
    DecideId(s, e.policy, Confidence(rs), o);
    var q :| q in rs && o in OutcomesOf(q, e);
    SlotOfRecord(rs, e, q, r, o);
    RejectionIs(r, e);
    RejectedSlot(r, e, reason, o);
    EarlyDecided(s, e.policy, Confidence(rs), o.decision);
  }

  lemma SlotOfRecord(rs: seq<Record>, e: Setting, q: Record, r: Record, o: Outcome)
    requires Stored(rs) && q in rs && r in rs && o in OutcomesOf(q, e) && o.Id().bundleHash == r.evidenceHash
    ensures q == r
  {
    hide RecordOutcomes, Lineage.UniqueIds, WellFormed, WellKinded;
    RecordSlotsDistinct(q, e);
    assert NamesSlot(q, o.Id());
  }

  lemma RejectedSlot(r: Record, e: Setting, reason: Reason, o: Outcome)
    requires o in OutcomesOf(r, e) && Rejection(r, e.now, e.scopeKey, e.policy) == Some(reason)
    ensures o.Early? && o.decision == Decision(o.Id(), OriginOf(r), 0, 0, 0, 0, None, false, [reason])
  {
    hide Rejection, OutcomesOf, RecordOutcomes, FeatureOutcome, ClaimOutcome, BriefOutcome, TaggedClaims;
    if f :| f in r.bundle.features && o == FeatureSlot(r, f, e.now, e.scopeKey, e.policy) {
    } else if t :| t in TaggedClaims(r.bundle.contextual) && o == ClaimSlot(r, t, e.now, e.scopeKey, e.policy) {
    } else {
      NeitherFeatureNorClaim(r, e, o);
    }
  }

  // ---------- Features and claims ----------

  /** The product over 10^12, rounded down. */
  predicate IsScore(score: int, confidence: int, source: int, provenance: int, freshness: int) {
    score * 1_000_000_000_000 <= confidence * source * provenance * freshness < (score + 1) * 1_000_000_000_000
  }

  lemma ScoreIsFloor(confidence: int, source: int, provenance: int, freshness: int)
    ensures IsScore(Score(confidence, source, provenance, freshness), confidence, source, provenance, freshness)
  {
    var n := confidence * source * provenance * freshness;
    assert BPS * BPS * BPS == 1_000_000_000_000;
    assert n == n / 1_000_000_000_000 * 1_000_000_000_000 + n % 1_000_000_000_000;
  }

  /** What a scored decision says: the threshold is inclusive, and stale weight shows in the reasons. */
  predicate Judged(policy: Policy, d: Decision, dependent: bool) {
    var stale := d.freshnessWeight == policy.staleWeightBps;
    var base := if stale then [StaleEvidenceDownweighted] else [];
    && d.score.Some?
    && IsScore(d.score.value, d.rawConfidence, d.sourceQuality, d.provenanceQuality, d.freshnessWeight)
    && if d.score.value < policy.minimumEffectiveScoreBps then !d.included && d.reasons == base + [ScoreThreshold]
       else if d.included then d.reasons == base + [if stale then StaleInclusion else FreshInclusion]
       else d.reasons == base + [FamilySelectionLimit] || (dependent && d.reasons == base + [FeatureDependencyExcluded])
  }

  /** The decision on a feature of an accepted bundle. */
  lemma FeatureVerdict(rs: seq<Record>, e: Setting, res: Result, r: Record, f: Feature, d: Decision)
    requires Stored(rs) && Correct(rs, e, res) && r in rs && Accepted(r, e) && f in r.bundle.features
    requires d in res.decisions && d.id == CandidateId(r.evidenceHash, DeterministicFeature, f.featureId)
    ensures IsOrigin(r, d.origin) && IsQuality(e.policy, r.bundle, d.sourceQuality)
    ensures f.status == Unavailable ==> d == Decision(d.id, d.origin, 0, d.sourceQuality, 0, 0, None, false, [FeatureUnavailable])
    ensures f.status == Invalid ==> d == Decision(d.id, d.origin, 0, d.sourceQuality, 0, 0, None, false, [FeatureInvalid])
    ensures f.status == Available ==>
              && d.rawConfidence == f.confidenceBps && d.provenanceQuality == e.policy.provenanceQualityBps.calculator
              && d.freshnessWeight == (if e.now <= r.bundle.freshUntil && e.now <= f.freshUntil then 10_000 else e.policy.staleWeightBps)
              && Judged(e.policy, d, true)
  {
    hide Decide, Stored, Correct, RecordOutcomes, Rejection, SourceQuality, Accepted, Judged, Score;
    var o := FeatureSlot(r, f, e.now, e.scopeKey, e.policy);
    FeatureSlotId(r, f, e);
    SlotFound(r, e);
    assert o in SlotsOf(rs, e);
    SlotDecision(rs, e, res, o, d);
    RejectionIs(r, e);
    FeatureFields(r, f, e);
    match o
    case Early(x) =>
      EarlyDecided(SlotsOf(rs, e), e.policy, Confidence(rs), x);
    case Registered(c) =>
      assert r in rs && Registered(c) in SlotsOf(rs, e);
      NotABrief(rs, r, f);
      EvidenceJudged(SlotsOf(rs, e), e.policy, Confidence(rs), c);
  }

  lemma NotABrief(rs: seq<Record>, r: Record, f: Feature)
    requires Stored(rs) && r in rs && f in r.bundle.features
    ensures f.family != ResearchBrief
  {
    assert WellFormed(r);
  }

  lemma FeatureFields(r: Record, f: Feature, e: Setting)
    requires Rejection(r, e.now, e.scopeKey, e.policy).None?
    ensures var o := FeatureSlot(r, f, e.now, e.scopeKey, e.policy);
            var quality := SourceQuality(e.policy, r.bundle);
            match f.status
            case Available =>
              && o.Registered? && o.candidate.family == f.family && o.candidate.origin == OriginOf(r) && IsScored(e.policy, o.candidate)
              && o.candidate.rawConfidence == f.confidenceBps && o.candidate.sourceQuality == quality
              && o.candidate.provenanceQuality == e.policy.provenanceQualityBps.calculator
              && o.candidate.freshnessWeight ==
                 (if e.now <= r.bundle.freshUntil && e.now <= f.freshUntil then 10_000 else e.policy.staleWeightBps)
            case Unavailable => o.Early? && o.decision == Decision(o.Id(), OriginOf(r), 0, quality, 0, 0, None, false, [FeatureUnavailable])
            case Invalid => o.Early? && o.decision == Decision(o.Id(), OriginOf(r), 0, quality, 0, 0, None, false, [FeatureInvalid])
  {
    hide Rejection, SourceQuality, Score;
    var c := FeatureSlot(r, f, e.now, e.scopeKey, e.policy);
    if c.Registered? {
      ScoreIsFloor(c.candidate.rawConfidence, c.candidate.sourceQuality, c.candidate.provenanceQuality, c.candidate.freshnessWeight);
    }
  }

  /** Registered with the score of its own numbers, and marked when its weight is the stale one. */
  predicate IsScored(policy: Policy, c: Candidate) {
    && c.score.Some?
    && IsScore(c.score.value, c.rawConfidence, c.sourceQuality, c.provenanceQuality, c.freshnessWeight)
    && c.reasons == if c.freshnessWeight == policy.staleWeightBps then [StaleEvidenceDownweighted] else []
  }

  /** The verdict on a scored candidate repeats its numbers and is judged by its score. */
  lemma EvidenceJudged(s: set<Outcome>, policy: Policy, confidence: map<string, int>, c: Candidate)
    requires c.family != ResearchBrief && IsScored(policy, c)
    ensures var d := Decide(s, policy, confidence, Registered(c));
            && Judged(policy, d, true) && d.origin == c.origin && d.rawConfidence == c.rawConfidence
            && d.sourceQuality == c.sourceQuality && d.provenanceQuality == c.provenanceQuality
            && d.freshnessWeight == c.freshnessWeight && d.id == c.id && d.score == c.score
  {
    hide Preliminary, Survivors, IsScore;
  }

  /** The bundle's list for the family holds the claim. */
  predicate HasClaim(ctx: Contextual, family: Family, c: Claim) {
    || (family == SupportResistance && c in ctx.supportResistance)
    || (family == Flows && c in ctx.flows)
    || (family == Derivatives && c in ctx.derivatives)
    || (family == Events && c in ctx.events)
    || (family == NewsRegulatory && c in ctx.newsRegulatory)
  }

  lemma HasClaimTagged(ctx: Contextual, family: Family, c: Claim)
    requires HasClaim(ctx, family, c)
    ensures TaggedClaim(family, c) in TaggedClaims(ctx)
  {
    var cs := match family
              case SupportResistance => ctx.supportResistance
              case Flows => ctx.flows
              case Derivatives => ctx.derivatives
              case Events => ctx.events
              case _ => ctx.newsRegulatory;
    var i :| 0 <= i < |cs| && cs[i] == c;
    assert Tagged(family, cs)[i] == TaggedClaim(family, c);
  }

  predicate IsProvenanceQuality(policy: Policy, p: Provenance, quality: int) {
    && (p == DeterministicCalculator ==> quality == policy.provenanceQualityBps.calculator)
    && (p == Derived ==> quality == policy.provenanceQualityBps.derived)
    && (p == Collected ==> quality == policy.provenanceQualityBps.collected)
    && (p == HumanAuthored ==> quality == policy.provenanceQualityBps.humanAuthored)
  }

  lemma ClaimFields(r: Record, family: Family, c: Claim, e: Setting)
    requires Rejection(r, e.now, e.scopeKey, e.policy).None?
    ensures var o := ClaimSlot(r, TaggedClaim(family, c), e.now, e.scopeKey, e.policy);
            var quality := SourceQuality(e.policy, r.bundle);
            if c.expiresAt.Some? && e.now > c.expiresAt.value then
              && o.Early? && IsProvenanceQuality(e.policy, c.provenance, o.decision.provenanceQuality)
              && o.decision == Decision(o.Id(), OriginOf(r), c.confidenceBps, quality, o.decision.provenanceQuality, 0, None,
                                        false, [ClaimExpired])
            else
              && o.Registered? && o.candidate.family == family && o.candidate.origin == OriginOf(r) && IsScored(e.policy, o.candidate)
              && o.candidate.direction == c.direction
              && o.candidate.rawConfidence == c.confidenceBps && o.candidate.sourceQuality == quality
              && IsProvenanceQuality(e.policy, c.provenance, o.candidate.provenanceQuality)
              && o.candidate.freshnessWeight == (if e.now <= r.bundle.freshUntil then 10_000 else e.policy.staleWeightBps)
  {
    hide Rejection, SourceQuality, Score;
    var o := ClaimSlot(r, TaggedClaim(family, c), e.now, e.scopeKey, e.policy);
    if o.Registered? {
      ScoreIsFloor(o.candidate.rawConfidence, o.candidate.sourceQuality, o.candidate.provenanceQuality, o.candidate.freshnessWeight);
    }
  }

  /** A claim depends on nothing: only the threshold and the cap can exclude it. */
  lemma ClaimsAreFree(s: set<Outcome>, policy: Policy, confidence: map<string, int>, c: Candidate)
    requires WellSlotted(s) && Registered(c) in s && KindOf(c.family) == ContextualClaim && IsScored(policy, c)
    ensures Judged(policy, Decide(s, policy, confidence, Registered(c)), false)
  {
    hide Ahead, IsScore;
    assert WellKinded(Registered(c));
    forall p: seq<CandidateId> | |p| >= 2 && p[0] == c.id
      ensures !Dependencies(s).IsWalk(p)
    {
      assert !Dependencies(s).Edge(p[0], p[1]);
    }
    if Preliminary(s, policy, c) {
      assert Registered(c).candidate.id in PreliminaryIds(s, policy);
      assert c.id in Survivors(s, policy);
    }
  }

  /** The decision on a claim of an accepted bundle. */
  lemma ClaimVerdict(rs: seq<Record>, e: Setting, res: Result, r: Record, family: Family, c: Claim, d: Decision)
    requires Stored(rs) && Correct(rs, e, res) && r in rs && Accepted(r, e) && HasClaim(r.bundle.contextual, family, c)
    requires d in res.decisions && d.id == CandidateId(r.evidenceHash, ContextualClaim, c.evidenceId)
    ensures IsOrigin(r, d.origin) && IsQuality(e.policy, r.bundle, d.sourceQuality)
    ensures d.rawConfidence == c.confidenceBps && IsProvenanceQuality(e.policy, c.provenance, d.provenanceQuality)
    ensures if c.expiresAt.Some? && e.now > c.expiresAt.value then
              d.freshnessWeight == 0 && d.score.None? && !d.included && d.reasons == [ClaimExpired]
            else
              && d.freshnessWeight == (if e.now <= r.bundle.freshUntil then 10_000 else e.policy.staleWeightBps)
              && Judged(e.policy, d, false)
  {
    hide Decide, Stored, Correct, RecordOutcomes, Rejection, SourceQuality, Accepted, Judged, Score, ClaimSlot, TaggedClaims,
      HasClaim, IsScored, IsProvenanceQuality;
    var t := TaggedClaim(family, c);
    var o := ClaimSlot(r, t, e.now, e.scopeKey, e.policy);
    HasClaimTagged(r.bundle.contextual, family, c);
    ClaimSlotId(r, t, e);
    SlotFound(r, e);
    assert o in SlotsOf(rs, e);
    SlotDecision(rs, e, res, o, d);
    RejectionIs(r, e);
    ClaimFields(r, family, c, e);
    match o
    case Early(x) =>
      EarlyDecided(SlotsOf(rs, e), e.policy, Confidence(rs), x);
    case Registered(x) =>
      SlotsWellSlotted(rs, e);
      TaggedClaimIn(r.bundle.contextual, t);
      ClaimsAreFree(SlotsOf(rs, e), e.policy, Confidence(rs), x);
      EvidenceJudged(SlotsOf(rs, e), e.policy, Confidence(rs), x);
  }

  // ---------- Briefs ----------

  /** An included feature or claim of the bundle has the cited id. */
  ghost predicate CitesIncluded(res: Result, hash: string, ref: Id) {
    exists d :: d in res.decisions && d.included && d.id.bundleHash == hash && d.id.localId == ref && d.id.kind != BriefKind
  }

  lemma IncludedDecision(rs: seq<Record>, e: Setting, res: Result, id: CandidateId)
    requires Stored(rs) && Correct(rs, e, res) && id.kind != BriefKind
    ensures id in Survivors(SlotsOf(rs, e), e.policy) <==> exists d :: d in res.decisions && d.included && d.id == id
    ensures id in Survivors(SlotsOf(rs, e), e.policy) ==> exists d :: d in res.decisions && d.included && d.id == id
                                                                && d.score == SlotScore(SlotsOf(rs, e), id)
  {
    hide Decide, SlotsOf, Stored, Accounted, Presents, AreWarnings, DecisionOrder, Survivors, Preliminary;
    var s, confidence := SlotsOf(rs, e), Confidence(rs);
    SlotsWellSlotted(rs, e);
    if id in Survivors(s, e.policy) {
      SurvivorRegistered(s, e.policy, id);
      var c := CandidateOf(s, id);
      IncludedIffSurvives(s, e.policy, confidence, c);
      SurvivorDecision(s, e.policy, confidence, c);
      assert Decide(s, e.policy, confidence, Registered(c)) in res.decisions;
    }
    if d :| d in res.decisions && d.included && d.id == id {
      var o :| o in s && d == Decide(s, e.policy, confidence, o);
      DecideId(s, e.policy, confidence, o);
      Kinded(s, o);
      match o
      case Early(x) => EarlyDecided(s, e.policy, confidence, x);
      case Registered(c) => IncludedIffSurvives(s, e.policy, confidence, c);
    }
  }

  lemma SurvivorRegistered(s: set<Outcome>, policy: Policy, id: CandidateId)
    requires WellSlotted(s) && id in Survivors(s, policy)
    ensures IsRegistered(s, id) && CandidateOf(s, id).family != ResearchBrief
  {
    var o :| o in s && o.Registered? && Preliminary(s, policy, o.candidate) && o.candidate.id == id;
    assert Registered(o.candidate) in s;
    RegisteredUnique(s, o.candidate);
  }

  lemma SurvivorDecision(s: set<Outcome>, policy: Policy, confidence: map<string, int>, c: Candidate)
    requires WellSlotted(s) && Registered(c) in s && c.family != ResearchBrief
    ensures Decide(s, policy, confidence, Registered(c)).score == c.score == SlotScore(s, c.id)
    ensures Decide(s, policy, confidence, Registered(c)).id == c.id
  {
    hide Preliminary, Survivors;
    RegisteredUnique(s, c);
  }

  lemma CitesIncludedIs(rs: seq<Record>, e: Setting, res: Result, hash: string, ref: Id)
    requires Stored(rs) && Correct(rs, e, res)
    ensures CitesIncluded(res, hash, ref) <==> CitesSurvivor(SlotsOf(rs, e), e.policy, hash, ref)
  {
    hide SlotsOf, Stored, Correct, Survivors;
    IncludedDecision(rs, e, res, FeatureRef(hash, ref));
    IncludedDecision(rs, e, res, ClaimRef(hash, ref));
    if d :| d in res.decisions && d.included && d.id.bundleHash == hash && d.id.localId == ref && d.id.kind != BriefKind {
      assert d.id == FeatureRef(hash, ref) || d.id == ClaimRef(hash, ref);
    }
  }

  function Sum(ns: seq<int>): int {
    if ns == [] then 0 else Sum(ns[..|ns| - 1]) + ns[|ns| - 1]
  }

  /** One score per citation, each the score of an included decision on the cited id. */
  ghost predicate CitedScores(res: Result, hash: string, refs: seq<Id>, scores: seq<int>) {
    |scores| == |refs| && forall i :: 0 <= i < |refs| ==> CitedWith(res, hash, refs[i], scores[i])
  }

  ghost predicate CitedWith(res: Result, hash: string, ref: Id, score: int) {
    exists d :: d in res.decisions && d.included && d.id.bundleHash == hash && d.id.localId == ref && d.id.kind != BriefKind
                && d.score == Some(score)
  }

  /** The greatest integer that exceeds neither the confidence nor the average; 0 when nothing is cited. */
  predicate IsCappedAverage(score: int, confidence: int, scores: seq<int>) {
    if scores == [] then score == 0
    else
      && score <= confidence && score * |scores| <= Sum(scores)
      && (score == confidence || Sum(scores) < (score + 1) * |scores|)
  }

  lemma FloorAverage(sum: int, count: nat)
    requires count > 0
    ensures sum / count * count <= sum < (sum / count + 1) * count
  {
    assert sum == sum / count * count + sum % count;
  }

  lemma CappedAverage(confidence: int, scores: seq<int>)
    requires confidence >= 0
    ensures IsCappedAverage(Min(confidence, Average(Sum(scores), |scores|)), confidence, scores)
  {
    if scores != [] {
      var average := Sum(scores) / |scores|;
      FloorAverage(Sum(scores), |scores|);
      if confidence < average {
        assert confidence * |scores| <= average * |scores|;
      }
    }
  }

  lemma SlotNamed(rs: seq<Record>, e: Setting, id: CandidateId) returns (r: Record)
    requires Stored(rs) && id in SlotIds(SlotsOf(rs, e))
    ensures r in rs && NamesSlot(r, id)
  {
    hide RecordOutcomes, WellKinded, WellFormed, Lineage.UniqueIds;
    var o :| o in SlotsOf(rs, e) && o.Id() == id;
    r :| r in rs && o in OutcomesOf(r, e);
    RecordSlotsDistinct(r, e);
  }

  lemma IdsApart(b: Bundle, id: Id)
    requires Lineage.UniqueIds(b)
    ensures !(id in FeatureIds(b.features) && id in ClaimIds(AllClaims(b.contextual)))
  {
    hide NoDuplicates, AllClaims;
    assert id in FeatureIds(b.features) ==> id in SetOf(FeatureIds(b.features));
    assert id in ClaimIds(AllClaims(b.contextual)) ==> id in SetOf(ClaimIds(AllClaims(b.contextual)));
  }

  /** No id names both a feature and a claim of a bundle. */
  lemma KindsApart(rs: seq<Record>, e: Setting, hash: string, ref: Id)
    requires Stored(rs)
    ensures !(FeatureRef(hash, ref) in SlotIds(SlotsOf(rs, e)) && ClaimRef(hash, ref) in SlotIds(SlotsOf(rs, e)))
  {
    hide SlotsOf, Lineage.UniqueIds, WellFormed, AllClaims;
    if FeatureRef(hash, ref) in SlotIds(SlotsOf(rs, e)) && ClaimRef(hash, ref) in SlotIds(SlotsOf(rs, e)) {
      var r := SlotNamed(rs, e, FeatureRef(hash, ref));
      var t := SlotNamed(rs, e, ClaimRef(hash, ref));
      SameHashSame(rs, r, t);
      IdsApart(r.bundle, ref);
    }
  }

  /** The score counted for a citation of included evidence is that of the included decision. */
  lemma CitedScored(rs: seq<Record>, e: Setting, res: Result, hash: string, ref: Id)
    requires Stored(rs) && Correct(rs, e, res) && CitesSurvivor(SlotsOf(rs, e), e.policy, hash, ref)
    ensures var score := CitedScore(SlotsOf(rs, e), hash, ref);
            score.Some? && CitedWith(res, hash, ref, score.value)
  {
    hide SlotsOf, Stored, Correct, Survivors, WellSlotted;
    var s := SlotsOf(rs, e);
    var id := if FeatureRef(hash, ref) in Survivors(s, e.policy) then FeatureRef(hash, ref) else ClaimRef(hash, ref);
    SlotsWellSlotted(rs, e);
    SurvivorRegistered(s, e.policy, id);
    var c := CandidateOf(s, id);
    Kinded(s, Registered(c));
    assert Registered(c).Id() in SlotIds(s);
    KindsApart(rs, e, hash, ref);
    assert CitedScore(s, hash, ref) == SlotScore(s, id) == c.score;
    IncludedDecision(rs, e, res, id);
  }

  lemma {:induction false} ScoresOfCitations(rs: seq<Record>, e: Setting, res: Result, hash: string, refs: seq<Id>)
    returns (scores: seq<int>)
    requires Stored(rs) && Correct(rs, e, res)
    requires forall ref :: ref in refs ==> CitesSurvivor(SlotsOf(rs, e), e.policy, hash, ref)
    ensures CitedScores(res, hash, refs, scores)
    ensures Sum(scores) == ScoreSum(SlotsOf(rs, e), hash, refs) && |scores| == ScoreCount(SlotsOf(rs, e), hash, refs)
  {
    hide SlotsOf, Stored, Correct, CitesSurvivor, CitedScore, CitedWith;
    if refs == [] {
      scores := [];
    } else {
      var front, last := refs[..|refs| - 1], refs[|refs| - 1];
      assert refs == front + [last] && last in refs;
      var firsts := ScoresOfCitations(rs, e, res, hash, front);
      CitedScored(rs, e, res, hash, last);
      scores := firsts + [CitedScore(SlotsOf(rs, e), hash, last).value];
      assert scores[..|firsts|] == firsts;
    }
  }

  /** The brief's reasons name exactly the citations of nothing included, in ascending order. */
  ghost predicate NamesMissing(res: Result, hash: string, refs: seq<Id>, reasons: seq<Reason>) {
    && |reasons| > 1 && reasons[0] == BriefReferencesExcludedEvidence
    && (forall i :: 1 <= i < |reasons| ==> reasons[i].ExcludedReference?)
    && (forall ref :: ExcludedReference(ref) in reasons <==> ref in refs && !CitesIncluded(res, hash, ref))
    && forall i, j :: 1 <= i < j < |reasons| ==> !Ascends(reasons[j].id, reasons[i].id)
  }

  function BriefReasons(r: Record, e: Setting): seq<Reason> {
    if e.now <= r.bundle.freshUntil then [FreshInclusion] else [StaleInclusion, StaleEvidenceDownweighted]
  }

  /** What the decision on a brief of an accepted bundle says, given what its bundle's other decisions include. */
  ghost predicate BriefJudged(res: Result, r: Record, e: Setting, b: Brief, d: Decision) {
    var hash := r.evidenceHash;
    && d.rawConfidence == d.provenanceQuality == 10_000
    && d.freshnessWeight == (if e.now <= r.bundle.freshUntil then 10_000 else e.policy.staleWeightBps)
    && if exists ref :: ref in b.sourceEvidenceIds && !CitesIncluded(res, hash, ref) then
         !d.included && d.score.None? && NamesMissing(res, hash, b.sourceEvidenceIds, d.reasons)
       else
         && d.score.Some?
         && (exists scores :: CitedScores(res, hash, b.sourceEvidenceIds, scores)
                              && IsCappedAverage(d.score.value, r.bundle.overallConfidenceBps, scores))
         && (d.included <==> d.score.value >= e.policy.minimumEffectiveScoreBps)
         && d.reasons == BriefReasons(r, e) + if d.included then [] else [ScoreThreshold]
  }

  lemma MissingIsCitesNothing(rs: seq<Record>, e: Setting, res: Result, hash: string, refs: seq<Id>)
    requires Stored(rs) && Correct(rs, e, res)
    ensures forall ref :: ref in Missing(SlotsOf(rs, e), e.policy, hash, refs) <==> ref in refs && !CitesIncluded(res, hash, ref)
  {
    hide SlotsOf, Stored, Correct, CitesSurvivor, CitesIncluded, Missing;
    MissingIn(SlotsOf(rs, e), e.policy, hash, refs);
    forall ref
      ensures CitesIncluded(res, hash, ref) <==> CitesSurvivor(SlotsOf(rs, e), e.policy, hash, ref)
    {
      CitesIncludedIs(rs, e, res, hash, ref);
    }
  }

  /** Sorting texts keeps them and makes them ascend. */
  lemma SortIdsAscend(ids: seq<Id>)
    ensures multiset(SortIds(ids)) == multiset(ids) && |SortIds(ids)| == |ids|
    ensures forall x :: x in SortIds(ids) <==> x in ids
    ensures forall i, j :: 0 <= i < j < |ids| ==> !Ascends(SortIds(ids)[j], SortIds(ids)[i])
  {
    hide Ascends, StringLess;
    StringStrictTotal();
    SortSorts(StringLess, ids);
    var sorted := SortIds(ids);
    assert |multiset(sorted)| == |sorted| && |multiset(ids)| == |ids|;
    forall x
      ensures x in sorted <==> x in ids
    {
      assert x in multiset(sorted) <==> x in multiset(ids);
    }
    forall i, j | 0 <= i < j < |ids|
      ensures !Ascends(sorted[j], sorted[i])
    {
      StringsAscend(sorted[j], sorted[i]);
    }
  }

  lemma MissingNamed(res: Result, hash: string, refs: seq<Id>, missing: seq<Id>)
    requires missing != [] && forall ref :: ref in missing <==> ref in refs && !CitesIncluded(res, hash, ref)
    ensures NamesMissing(res, hash, refs, [BriefReferencesExcludedEvidence] + ExcludedReferences(SortIds(missing)))
  {
    hide CitesIncluded, Ascends, SortIds;
    SortIdsAscend(missing);
    var sorted := SortIds(missing);
    var reasons := [BriefReferencesExcludedEvidence] + ExcludedReferences(sorted);
    forall i | 1 <= i < |reasons|
      ensures reasons[i] == ExcludedReference(sorted[i - 1])
    {
    }
    forall ref | ref in missing
      ensures ExcludedReference(ref) in reasons
    {
      var i :| 0 <= i < |sorted| && sorted[i] == ref;
      assert reasons[i + 1] == ExcludedReference(ref);
    }
  }

  lemma BriefFields(r: Record, b: Brief, e: Setting)
    requires Rejection(r, e.now, e.scopeKey, e.policy).None? && r.bundle.brief == Some(b)
    ensures var o := BriefSlot(r, e.now, e.scopeKey, e.policy);
            && o.Registered? && o.candidate.family == ResearchBrief && o.candidate.origin == OriginOf(r)
            && o.candidate.id == CandidateId(r.evidenceHash, BriefKind, b.briefId) && o.candidate.refs == b.sourceEvidenceIds
            && o.candidate.rawConfidence == o.candidate.provenanceQuality == 10_000
            && o.candidate.sourceQuality == SourceQuality(e.policy, r.bundle)
            && o.candidate.freshnessWeight == (if e.now <= r.bundle.freshUntil then 10_000 else e.policy.staleWeightBps)
            && o.candidate.reasons == BriefReasons(r, e)
  {
    hide Rejection, SourceQuality;
  }

  lemma ConfidenceOf(rs: seq<Record>, r: Record)
    requires Stored(rs) && r in rs
    ensures r.evidenceHash in Confidence(rs) && Confidence(rs)[r.evidenceHash] == r.bundle.overallConfidenceBps
    ensures r.bundle.overallConfidenceBps >= 0
  {
    FindByHash(rs, r);
    assert WellFormed(r);
  }

  /** The decision on the brief of an accepted bundle. */
  lemma BriefVerdict(rs: seq<Record>, e: Setting, res: Result, r: Record, b: Brief, d: Decision)
    requires Stored(rs) && Correct(rs, e, res) && r in rs && Accepted(r, e) && r.bundle.brief == Some(b)
    requires d in res.decisions && d.id == CandidateId(r.evidenceHash, BriefKind, b.briefId)
    ensures IsOrigin(r, d.origin) && IsQuality(e.policy, r.bundle, d.sourceQuality) && BriefJudged(res, r, e, b, d)
  {
    hide Stored, Correct, SlotsOf, Rejection, SourceQuality, Accepted, BriefSlot, Decide, IsQuality, BriefScored, NamesMissing,
      CitesIncluded, CitedScores, IsCappedAverage;
    var o := BriefSlot(r, e.now, e.scopeKey, e.policy);
    BriefListed(rs, e, r);
    RejectionIs(r, e);
    BriefFields(r, b, e);
    SlotDecision(rs, e, res, o, d);
    BriefDecided(SlotsOf(rs, e), e.policy, Confidence(rs), o.candidate);
    ConfidenceOf(rs, r);
    BriefCites(rs, e, res, r, b, o.candidate, d);
  }

  /** The verdict on a brief candidate by its missing citations and its score. */
  ghost predicate BriefScored(s: set<Outcome>, policy: Policy, confidence: int, c: Candidate, d: Decision) {
    var missing := Missing(s, policy, c.id.bundleHash, c.refs);
    if missing != [] then
      !d.included && d.score.None? && d.reasons == [BriefReferencesExcludedEvidence] + ExcludedReferences(SortIds(missing))
    else
      && d.score == Some(BriefScore(s, confidence, c)) && (d.included <==> d.score.value >= policy.minimumEffectiveScoreBps)
      && d.reasons == c.reasons + if d.included then [] else [ScoreThreshold]
  }

  lemma BriefDecided(s: set<Outcome>, policy: Policy, confidence: map<string, int>, c: Candidate)
    requires c.family == ResearchBrief && c.id.bundleHash in confidence
    ensures var d := Decide(s, policy, confidence, Registered(c));
            && BriefScored(s, policy, confidence[c.id.bundleHash], c, d) && d.origin == c.origin && d.rawConfidence == c.rawConfidence
            && d.sourceQuality == c.sourceQuality && d.provenanceQuality == c.provenanceQuality && d.freshnessWeight == c.freshnessWeight
  {
    hide Missing, BriefScore, ExcludedReferences, SortIds;
  }

  /** In terms of the other decisions. */
  lemma BriefCites(rs: seq<Record>, e: Setting, res: Result, r: Record, b: Brief, c: Candidate, d: Decision)
    requires Stored(rs) && Correct(rs, e, res) && r in rs
    requires c.id.bundleHash == r.evidenceHash && c.refs == b.sourceEvidenceIds && c.reasons == BriefReasons(r, e)
    requires BriefScored(SlotsOf(rs, e), e.policy, r.bundle.overallConfidenceBps, c, d)
    ensures if exists ref :: ref in b.sourceEvidenceIds && !CitesIncluded(res, r.evidenceHash, ref) then
              !d.included && d.score.None? && NamesMissing(res, r.evidenceHash, b.sourceEvidenceIds, d.reasons)
            else
              && d.score.Some?
              && (exists scores :: CitedScores(res, r.evidenceHash, b.sourceEvidenceIds, scores)
                                   && IsCappedAverage(d.score.value, r.bundle.overallConfidenceBps, scores))
              && (d.included <==> d.score.value >= e.policy.minimumEffectiveScoreBps)
              && d.reasons == BriefReasons(r, e) + if d.included then [] else [ScoreThreshold]
  {
    hide Stored, Correct, SlotsOf, Missing, ScoreSum, ScoreCount, NamesMissing, CitesIncluded, CitedScores, Average, Min, Survivors,
      IsCappedAverage, CitesSurvivor, ExcludedReferences, SortIds, Sum;
    var s, hash := SlotsOf(rs, e), r.evidenceHash;
    var missing := Missing(s, e.policy, hash, b.sourceEvidenceIds);
    MissingIsCitesNothing(rs, e, res, hash, b.sourceEvidenceIds);
    if missing != [] {
      assert missing[0] in missing;
      MissingNamed(res, hash, b.sourceEvidenceIds, missing);
    } else {
      MissingIn(s, e.policy, hash, b.sourceEvidenceIds);
      var scores := ScoresOfCitations(rs, e, res, hash, b.sourceEvidenceIds);
      ConfidenceOf(rs, r);
      CappedAverage(r.bundle.overallConfidenceBps, scores);
    }
  }

  lemma BriefListed(rs: seq<Record>, e: Setting, r: Record)
    requires Stored(rs) && r in rs
    ensures BriefSlot(r, e.now, e.scopeKey, e.policy) in SlotsOf(rs, e)
  {
    hide BriefSlot, RecordOutcomes;
    SlotFound(r, e);
  }

  /** A bundle without a brief has one decision that says so. */
  lemma NoBriefVerdict(rs: seq<Record>, e: Setting, res: Result, r: Record, d: Decision)
    requires Stored(rs) && Correct(rs, e, res) && r in rs && Accepted(r, e) && r.bundle.brief.None?
    requires d in res.decisions && d.id == CandidateId(r.evidenceHash, BriefKind, "<unavailable>")
    ensures d == Decision(d.id, d.origin, 0, 0, 0, 0, None, false, [ResearchBriefUnavailable]) && IsOrigin(r, d.origin)
  {
    hide Stored, Correct, SlotsOf, Rejection, Accepted;
    BriefListed(rs, e, r);
    RejectionIs(r, e);
    SlotDecision(rs, e, res, BriefSlot(r, e.now, e.scopeKey, e.policy), d);
  }

  // ---------- The cap ----------

  /** The id names a feature or claim of the record that competes in the family, observed at the given time if any. */
  ghost predicate Competes(r: Record, id: CandidateId, family: Family, observedAt: Option<Timestamp>) {
    || (exists f :: f in r.bundle.features && f.family == family && f.observedAt == observedAt
                    && id == CandidateId(r.evidenceHash, DeterministicFeature, f.featureId))
    || (exists c :: HasClaim(r.bundle.contextual, family, c) && Some(c.observedAt) == observedAt
                    && id == CandidateId(r.evidenceHash, ContextualClaim, c.evidenceId))
  }

  /** What the record offers in the family under the id, if anything, is a candidate of that family and those times. */
  lemma Competitor(rs: seq<Record>, e: Setting, r: Record, id: CandidateId, family: Family,
      observedAt: Option<Timestamp>)
    returns (o: Outcome)
    requires Stored(rs) && r in rs && Competes(r, id, family, observedAt)
    ensures o in SlotsOf(rs, e) && o.Id() == id
    ensures o.Early? ==> FamilySelectionLimit !in o.decision.reasons && !o.decision.included
    ensures o.Registered? ==>
              && o.candidate.family == family && o.candidate.family != ResearchBrief && o.candidate.asOf == r.bundle.asOf
              && o.candidate.observedAt == observedAt && o.candidate.origin == OriginOf(r) && FamilySelectionLimit !in o.candidate.reasons
  {
    hide Rejection, SourceQuality, Score, ComputedLifecycle, BundleWeight, RecordOutcomes, HasClaim, TaggedClaims, AllClaims,
      Lineage.UniqueIds;
    SlotFound(r, e);
    RejectionReasons(r, e);
    if f :| f in r.bundle.features && f.family == family && f.observedAt == observedAt
            && id == CandidateId(r.evidenceHash, DeterministicFeature, f.featureId) {
      o := FeatureSlot(r, f, e.now, e.scopeKey, e.policy);
      NotABrief(rs, r, f);
    } else {
      var c :| HasClaim(r.bundle.contextual, family, c) && Some(c.observedAt) == observedAt
               && id == CandidateId(r.evidenceHash, ContextualClaim, c.evidenceId);
      HasClaimTagged(r.bundle.contextual, family, c);
      TaggedClaimIn(r.bundle.contextual, TaggedClaim(family, c));
      o := ClaimSlot(r, TaggedClaim(family, c), e.now, e.scopeKey, e.policy);
    }
  }

  lemma RejectionReasons(r: Record, e: Setting)
    ensures Rejection(r, e.now, e.scopeKey, e.policy) in {None, Some(RecordMismatch), Some(BundleDisabled), Some(BundleExpired)}
  {
  }

  /** Only what passes the threshold outside the cap gets the family-limit verdict. */
  lemma CutBy(s: set<Outcome>, policy: Policy, confidence: map<string, int>, c: Candidate)
    requires c.family != ResearchBrief && FamilySelectionLimit !in c.reasons
    requires FamilySelectionLimit in Decide(s, policy, confidence, Registered(c)).reasons
    ensures Passes(policy, c) && !Preliminary(s, policy, c) && Decide(s, policy, confidence, Registered(c)).score == c.score
  {
    hide Preliminary, Survivors, Passes;
  }

  lemma KeptBy(s: set<Outcome>, policy: Policy, confidence: map<string, int>, c: Candidate)
    requires c.family != ResearchBrief && Decide(s, policy, confidence, Registered(c)).included
    ensures Preliminary(s, policy, c) && Decide(s, policy, confidence, Registered(c)).score == c.score
  {
    hide Preliminary, Survivors;
  }

  /**
    Whoever loses to the family limit loses to something no worse: a score at least as high; for equal scores an as-of
    time at least as late; and then an observation at least as late, a missing one counting as the earliest.
   */
  lemma CapVerdict(rs: seq<Record>, e: Setting, res: Result, family: Family, r: Record, d: Decision,
      seen: Option<Timestamp>, q: Record, x: Decision, seen': Option<Timestamp>)
    requires Stored(rs) && Correct(rs, e, res) && r in rs && q in rs && d in res.decisions && x in res.decisions
    requires Competes(r, d.id, family, seen) && Competes(q, x.id, family, seen')
    requires d.included && FamilySelectionLimit in x.reasons
    ensures d.score.Some? && x.score.Some? && d.score.value >= x.score.value
    ensures d.score == x.score ==> r.bundle.asOf == q.bundle.asOf || Ascends(q.bundle.asOf, r.bundle.asOf)
    ensures d.score == x.score && r.bundle.asOf == q.bundle.asOf ==>
              seen == seen' || seen'.None? || (seen.Some? && Ascends(seen'.value, seen.value))
    ensures d.score == x.score && r.bundle.asOf == q.bundle.asOf && seen == seen' ==>
              TupleAscends([r.bundle.publisher, r.bundle.sourceId, d.id.localId, d.id.bundleHash],
                           [q.bundle.publisher, q.bundle.sourceId, x.id.localId, x.id.bundleHash])
  {
    hide Stored, Correct, SlotsOf, Competes, Decide, Passes, Preliminary, Ascends, TupleAscends;
    var s, confidence := SlotsOf(rs, e), Confidence(rs);
    var o := Competitor(rs, e, r, d.id, family, seen);
    var p := Competitor(rs, e, q, x.id, family, seen');
    SlotDecision(rs, e, res, o, d);
    SlotDecision(rs, e, res, p, x);
    if o.Early? {
      EarlyDecided(s, e.policy, confidence, o.decision);
    }
    if p.Early? {
      EarlyDecided(s, e.policy, confidence, p.decision);
    }
    KeptBy(s, e.policy, confidence, o.candidate);
    CutBy(s, e.policy, confidence, p.candidate);
    SlotsWellSlotted(rs, e);
    CapKeepsTheBest(s, e.policy, o.candidate, p.candidate);
  }

  // ---------- Dependencies ----------

  /** The summary includes the feature. */
  ghost predicate IncludesFeature(res: Result, r: Record, g: Feature) {
    exists x :: x in res.decisions && x.included && x.id == FeatureRef(r.evidenceHash, g.featureId)
  }

  lemma FeatureSurvives(rs: seq<Record>, e: Setting, res: Result, r: Record, g: Feature)
    requires Stored(rs) && Correct(rs, e, res)
    ensures IncludesFeature(res, r, g) <==> FeatureRef(r.evidenceHash, g.featureId) in Survivors(SlotsOf(rs, e), e.policy)
  {
    hide Stored, Correct, SlotsOf, Survivors;
    IncludedDecision(rs, e, res, FeatureRef(r.evidenceHash, g.featureId));
  }

  /** The edges from a feature's candidate lead to the features of its bundle that it depends on. */
  lemma DependencyEdges(rs: seq<Record>, e: Setting, r: Record, f: Feature, c: Candidate)
    requires Stored(rs) && r in rs && f in r.bundle.features && Registered(c) in SlotsOf(rs, e)
    requires c.id == FeatureRef(r.evidenceHash, f.featureId) && c.refs == f.inputLineage
    ensures forall g :: g in r.bundle.features && g.featureId in f.inputLineage ==>
              Dependencies(SlotsOf(rs, e)).Edge(c.id, FeatureRef(r.evidenceHash, g.featureId))
    ensures forall v :: Dependencies(SlotsOf(rs, e)).Edge(c.id, v) ==>
              exists g :: g in r.bundle.features && g.featureId in f.inputLineage && v == FeatureRef(r.evidenceHash, g.featureId)
  {
    hide SlotsOf, Stored;
    var s := SlotsOf(rs, e);
    SlotsWellSlotted(rs, e);
    RegisteredUnique(s, c);
    FeatureSlotsOfRecord(rs, e, r);
    assert Registered(c).Id() in FeatureSlotIds(s);
    forall g | g in r.bundle.features && g.featureId in f.inputLineage
      ensures Dependencies(s).Edge(c.id, FeatureRef(r.evidenceHash, g.featureId))
    {
      var i :| 0 <= i < |r.bundle.features| && r.bundle.features[i] == g;
      assert FeatureIds(r.bundle.features)[i] == g.featureId;
    }
    forall v | Dependencies(s).Edge(c.id, v)
      ensures exists g :: g in r.bundle.features && g.featureId in f.inputLineage && v == FeatureRef(r.evidenceHash, g.featureId)
    {
      assert v == FeatureRef(r.evidenceHash, v.localId);
      var i :| 0 <= i < |r.bundle.features| && FeatureIds(r.bundle.features)[i] == v.localId;
      assert r.bundle.features[i] in r.bundle.features;
    }
  }

  /** A preliminary candidate whose every dependency survives survives too. */
  lemma SurvivesWithDependencies(s: set<Outcome>, policy: Policy, c: Candidate)
    requires Preliminary(s, policy, c) && forall v :: Dependencies(s).Edge(c.id, v) ==> v in Survivors(s, policy)
    ensures c.id in Survivors(s, policy)
  {
    hide Preliminary;
    var t := Survivors(s, policy) + {c.id};
    assert Registered(c) in s && Registered(c).candidate.id in PreliminaryIds(s, policy) by { PreliminaryIn(s, policy, c); }
    SurvivorsClosed(s, policy);
    hide Survivors;
    assert Survivors(s, policy) <= PreliminaryIds(s, policy) by { SurvivorsPreliminary(s, policy); }
    SurvivorsLargest(s, policy, t);
  }

  lemma PreliminaryIn(s: set<Outcome>, policy: Policy, c: Candidate)
    requires Preliminary(s, policy, c)
    ensures Registered(c) in s && c.id in PreliminaryIds(s, policy)
  {
    assert Registered(c).candidate == c;
  }

  lemma SurvivorsPreliminary(s: set<Outcome>, policy: Policy)
    ensures Survivors(s, policy) <= PreliminaryIds(s, policy)
  {
  }

  lemma DroppedBy(s: set<Outcome>, policy: Policy, confidence: map<string, int>, c: Candidate)
    requires c.family != ResearchBrief && FeatureDependencyExcluded !in c.reasons
    requires FeatureDependencyExcluded in Decide(s, policy, confidence, Registered(c)).reasons
    ensures Preliminary(s, policy, c) && c.id !in Survivors(s, policy)
  {
    hide Preliminary, Survivors, Passes;
  }

  /**
    Features stand or fall with the features of their bundle that they are derived from: an included one has them all
    included, and one excluded for its dependencies has one that is not.
   */
  lemma DependencyVerdict(rs: seq<Record>, e: Setting, res: Result, r: Record, f: Feature, d: Decision)
    requires Stored(rs) && Correct(rs, e, res) && r in rs && f in r.bundle.features
    requires d in res.decisions && d.id == FeatureRef(r.evidenceHash, f.featureId)
    ensures d.included ==> forall g :: g in r.bundle.features && g.featureId in f.inputLineage ==> IncludesFeature(res, r, g)
    ensures FeatureDependencyExcluded in d.reasons ==>
              exists g :: g in r.bundle.features && g.featureId in f.inputLineage && !IncludesFeature(res, r, g)
  {
    hide Stored, Correct, SlotsOf, Decide, Preliminary, Survivors, FeatureSlot, IncludesFeature, WellSlotted;
    var s, confidence := SlotsOf(rs, e), Confidence(rs);
    var o := FeatureSlot(r, f, e.now, e.scopeKey, e.policy);
    FeatureListed(rs, e, r, f);
    SlotDecision(rs, e, res, o, d);
    match o
    case Early(x) =>
      EarlyDecided(s, e.policy, confidence, x);
    case Registered(c) =>
      SlotsWellSlotted(rs, e);
      DependencyEdges(rs, e, r, f, c);
      forall g | g in r.bundle.features
        ensures IncludesFeature(res, r, g) <==> FeatureRef(r.evidenceHash, g.featureId) in Survivors(s, e.policy)
      {
        FeatureSurvives(rs, e, res, r, g);
      }
      if d.included {
        IncludedIffSurvives(s, e.policy, confidence, c);
        SurvivorsClosed(s, e.policy);
      }
      if FeatureDependencyExcluded in d.reasons {
        DroppedBy(s, e.policy, confidence, c);
        if forall v :: Dependencies(s).Edge(c.id, v) ==> v in Survivors(s, e.policy) {
          SurvivesWithDependencies(s, e.policy, c);
        }
      }
  }

  lemma FeatureListed(rs: seq<Record>, e: Setting, r: Record, f: Feature)
    requires Stored(rs) && r in rs && f in r.bundle.features
    ensures var o := FeatureSlot(r, f, e.now, e.scopeKey, e.policy);
            && o in SlotsOf(rs, e) && o.Id() == FeatureRef(r.evidenceHash, f.featureId)
            && (o.Early? ==> FeatureDependencyExcluded !in o.decision.reasons && !o.decision.included)
            && (o.Registered? ==>
                  o.candidate.refs == f.inputLineage && o.candidate.family != ResearchBrief && FeatureDependencyExcluded !in o.candidate.reasons)
  {
    hide Rejection, SourceQuality, Score, ComputedLifecycle, RecordOutcomes;
    SlotFound(r, e);
    RejectionReasons(r, e);
    NotABrief(rs, r, f);
  }
}
