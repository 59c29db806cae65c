/**
  What evidence selection decides, stated over the set of slots without reference to any scan order: ranks within a
  family, the largest dependency-closed set of features, and the verdict on each slot.
 */
module SelectionSpec {
  import opened Evidence
  import opened Sorting
  import opened Graphs
  import opened Candidates
  import opened Ranking

  /** A candidate's family fits its kind, only briefs lack a score, and early decisions are exclusions without one. */
  predicate WellKinded(o: Outcome) {
    match o
    case Early(d) => !d.included && d.score.None?
    case Registered(c) => c.id.kind == KindOf(c.family) && (c.score.None? <==> c.family == ResearchBrief)
  }

  /** Ids name one slot each. */
  ghost predicate WellSlotted(s: set<Outcome>) {
    && (forall a, b :: a in s && b in s && a.Id() == b.Id() ==> a == b)
    && (forall o :: o in s ==> WellKinded(o))
  }

  ghost function SlotIds(s: set<Outcome>): set<CandidateId> {
    set o | o in s :: o.Id()
  }

  predicate Passes(policy: Policy, c: Candidate) {
    c.score.None? || c.score.value >= policy.minimumEffectiveScoreBps
  }

  /** The same-family candidates over the threshold that rank before c. */
  ghost function Ahead(s: set<Outcome>, policy: Policy, c: Candidate): set<CandidateId> {
    set o | o in s && o.Registered? && o.candidate.family == c.family && Passes(policy, o.candidate)
            && CandidateBefore(o.candidate, c) :: o.candidate.id
  }

  /** Over the threshold and within the family cap. */
  ghost predicate Preliminary(s: set<Outcome>, policy: Policy, c: Candidate) {
    && Registered(c) in s && c.family != ResearchBrief && Passes(policy, c)
    && |Ahead(s, policy, c)| < policy.maxSelectedPerFamily
  }

  ghost function PreliminaryIds(s: set<Outcome>, policy: Policy): set<CandidateId> {
    set o | o in s && o.Registered? && Preliminary(s, policy, o.candidate) :: o.candidate.id
  }

  ghost function FeatureSlotIds(s: set<Outcome>): set<CandidateId> {
    set o | o in s && o.Id().kind == DeterministicFeature :: o.Id()
  }

  ghost predicate IsRegistered(s: set<Outcome>, id: CandidateId) {
    exists c :: Registered(c) in s && c.id == id
  }

  ghost function CandidateOf(s: set<Outcome>, id: CandidateId): (c: Candidate)
    requires IsRegistered(s, id)
    ensures Registered(c) in s && c.id == id
  {
    var c :| Registered(c) in s && c.id == id;
    c
  }

  function FeatureRef(bundleHash: string, ref: Id): CandidateId {
    CandidateId(bundleHash, DeterministicFeature, ref)
  }

  function ClaimRef(bundleHash: string, ref: Id): CandidateId {
    CandidateId(bundleHash, ContextualClaim, ref)
  }

  function FeatureRefs(bundleHash: string, refs: seq<Id>): (ids: seq<CandidateId>)
    ensures |ids| == |refs| && forall i :: 0 <= i < |refs| ==> ids[i] == FeatureRef(bundleHash, refs[i])
    ensures forall id :: id in ids <==> id.bundleHash == bundleHash && id.kind == DeterministicFeature && id.localId in refs
  {
    var ids := seq(|refs|, i requires 0 <= i < |refs| => FeatureRef(bundleHash, refs[i]));
    assert forall r :: r in refs ==> FeatureRef(bundleHash, r) in ids by {
      forall r | r in refs
        ensures FeatureRef(bundleHash, r) in ids
      {
        var i :| 0 <= i < |refs| && refs[i] == r;
        assert ids[i] == FeatureRef(bundleHash, r);
      }
    }
    ids
  }

  /** Registered features with the features of their own bundle that their lineage names. */
  ghost function Dependencies(s: set<Outcome>): Graph<CandidateId> {
    Graph(map id | id in FeatureSlotIds(s) && IsRegistered(s, id) :: FeatureRefs(id.bundleHash, CandidateOf(s, id).refs), FeatureSlotIds(s))
  }

  /** The preliminary candidates all of whose transitive feature dependencies are preliminary too. */
  ghost function Survivors(s: set<Outcome>, policy: Policy): set<CandidateId> {
    set id | id in PreliminaryIds(s, policy) && forall d :: Dependencies(s).Reaches(id, d) ==> d in PreliminaryIds(s, policy)
  }

  /** No survivor depends on a feature that did not survive. */
  lemma SurvivorsClosed(s: set<Outcome>, policy: Policy)
    ensures Dependencies(s).Closed(Survivors(s, policy))
  {
    var g := Dependencies(s);
    forall u, v | u in Survivors(s, policy) && g.Edge(u, v)
      ensures v in Survivors(s, policy)
    {
      g.EdgeReaches(u, v);
      forall d | g.Reaches(v, d)
        ensures d in PreliminaryIds(s, policy)
      {
        g.ReachesTrans(u, v, d);
      }
    }
  }

  /** Every dependency-closed set of preliminary candidates consists of survivors: they are the largest such set. */
  lemma SurvivorsLargest(s: set<Outcome>, policy: Policy, t: set<CandidateId>)
    requires t <= PreliminaryIds(s, policy) && Dependencies(s).Closed(t)
    ensures t <= Survivors(s, policy)
  {
    forall id | id in t
      ensures id in Survivors(s, policy)
    {
      forall d | Dependencies(s).Reaches(id, d)
        ensures d in PreliminaryIds(s, policy)
      {
        Dependencies(s).ClosedReaches(t, id, d);
      }
    }
  }

  function CandidateDecision(c: Candidate, included: bool, reasons: seq<Reason>, score: Option<int>): Decision {
    Decision(c.id, c.origin, c.rawConfidence, c.sourceQuality, c.provenanceQuality, c.freshnessWeight, score, included, reasons)
  }

  function InclusionReasons(policy: Policy, c: Candidate): seq<Reason> {
    var reason := if c.freshnessWeight == policy.staleWeightBps then StaleInclusion else FreshInclusion;
    if reason in c.reasons then c.reasons else c.reasons + [reason]
  }

  /** The verdict on a feature or claim candidate. */
  ghost function DecideEvidence(s: set<Outcome>, policy: Policy, c: Candidate): Decision {
    if !Passes(policy, c) then CandidateDecision(c, false, c.reasons + [ScoreThreshold], c.score)
    else if !Preliminary(s, policy, c) then CandidateDecision(c, false, c.reasons + [FamilySelectionLimit], c.score)
    else if c.id !in Survivors(s, policy) then CandidateDecision(c, false, c.reasons + [FeatureDependencyExcluded], c.score)
    else CandidateDecision(c, true, InclusionReasons(policy, c), c.score)
  }

  ghost predicate CitesSurvivor(s: set<Outcome>, policy: Policy, bundleHash: string, ref: Id) {
    FeatureRef(bundleHash, ref) in Survivors(s, policy) || ClaimRef(bundleHash, ref) in Survivors(s, policy)
  }

  /** The cited ids that name no surviving evidence, in citation order. */
  ghost function Missing(s: set<Outcome>, policy: Policy, bundleHash: string, refs: seq<Id>): seq<Id> {
    if refs == [] then []
    else
      var last := refs[|refs| - 1];
      Missing(s, policy, bundleHash, refs[..|refs| - 1]) + if CitesSurvivor(s, policy, bundleHash, last) then [] else [last]
  }

  /** The score that a decision on the slot carries. */
  ghost function SlotScore(s: set<Outcome>, id: CandidateId): Option<int> {
    if IsRegistered(s, id) then CandidateOf(s, id).score else None
  }

  /** A citation is scored by the feature of that id, or else by the claim. */
  ghost function CitedScore(s: set<Outcome>, bundleHash: string, ref: Id): Option<int> {
    SlotScore(s, if FeatureRef(bundleHash, ref) in SlotIds(s) then FeatureRef(bundleHash, ref) else ClaimRef(bundleHash, ref))
  }

  ghost function ScoreSum(s: set<Outcome>, bundleHash: string, refs: seq<Id>): int {
    if refs == [] then 0
    else
      var score := CitedScore(s, bundleHash, refs[|refs| - 1]);
      ScoreSum(s, bundleHash, refs[..|refs| - 1]) + if score.Some? then score.value else 0
  }

  ghost function ScoreCount(s: set<Outcome>, bundleHash: string, refs: seq<Id>): nat {
    if refs == [] then 0
    else ScoreCount(s, bundleHash, refs[..|refs| - 1]) + if CitedScore(s, bundleHash, refs[|refs| - 1]).Some? then 1 else 0
  }

  function Min(a: int, b: int): int {
    if a < b then a else b
  }

  function Average(sum: int, count: nat): int {
    if count > 0 then sum / count else 0
  }

  ghost function BriefScore(s: set<Outcome>, confidence: int, c: Candidate): int {
    Min(confidence, Average(ScoreSum(s, c.id.bundleHash, c.refs), ScoreCount(s, c.id.bundleHash, c.refs)))
  }

  function SortIds(ids: seq<Id>): seq<Id> {
    SortBy(StringLess, ids)
  }

  function ExcludedReferences(ids: seq<Id>): seq<Reason> {
    seq(|ids|, i requires 0 <= i < |ids| => ExcludedReference(ids[i]))
  }

  /** The verdict on a brief, given the overall confidence of each bundle. */
  ghost function DecideBrief(s: set<Outcome>, policy: Policy, confidence: map<string, int>, c: Candidate): Decision {
    var missing := Missing(s, policy, c.id.bundleHash, c.refs);
    if missing != [] then
      CandidateDecision(c, false, [BriefReferencesExcludedEvidence] + ExcludedReferences(SortIds(missing)), None)
    else
      var score := BriefScore(s, if c.id.bundleHash in confidence then confidence[c.id.bundleHash] else 0, c);
      if score >= policy.minimumEffectiveScoreBps then CandidateDecision(c, true, c.reasons, Some(score))
      else CandidateDecision(c, false, c.reasons + [ScoreThreshold], Some(score))
  }

  ghost function Decide(s: set<Outcome>, policy: Policy, confidence: map<string, int>, o: Outcome): Decision {
    match o
    case Early(d) => d
    case Registered(c) => if c.family == ResearchBrief then DecideBrief(s, policy, confidence, c) else DecideEvidence(s, policy, c)
  }

  // ---------- What the verdicts guarantee ----------

  lemma RegisteredUnique(s: set<Outcome>, c: Candidate)
    requires WellSlotted(s) && Registered(c) in s
    ensures IsRegistered(s, c.id) && CandidateOf(s, c.id) == c
  {
    assert Registered(CandidateOf(s, c.id)) in s && Registered(CandidateOf(s, c.id)).Id() == Registered(c).Id();
  }

  /** Feature and claim candidates are included exactly when they survive. */
  lemma IncludedIffSurvives(s: set<Outcome>, policy: Policy, confidence: map<string, int>, c: Candidate)
    requires WellSlotted(s) && Registered(c) in s && c.family != ResearchBrief
    ensures Decide(s, policy, confidence, Registered(c)).included <==> c.id in Survivors(s, policy)
  {
    if c.id in PreliminaryIds(s, policy) {
      var o :| o in s && o.Registered? && Preliminary(s, policy, o.candidate) && o.candidate.id == c.id;
      assert o == Registered(c);
    }
  }

  /** An included feature depends only on included features of its bundle. */
  lemma IncludedDependenciesIncluded(s: set<Outcome>, policy: Policy, confidence: map<string, int>, c: Candidate,
      dep: Id)
    requires WellSlotted(s) && Registered(c) in s && KindOf(c.family) == DeterministicFeature
    requires Decide(s, policy, confidence, Registered(c)).included
    requires dep in c.refs && FeatureRef(c.id.bundleHash, dep) in FeatureSlotIds(s)
    ensures IsRegistered(s, FeatureRef(c.id.bundleHash, dep))
    ensures Decide(s, policy, confidence, Registered(CandidateOf(s, FeatureRef(c.id.bundleHash, dep)))).included
  {
    var id := FeatureRef(c.id.bundleHash, dep);
    IncludedIffSurvives(s, policy, confidence, c);
    RegisteredUnique(s, c);
    assert Registered(c).Id() in FeatureSlotIds(s);
    assert Dependencies(s).Edge(c.id, id);
    SurvivorsClosed(s, policy);
    assert id in PreliminaryIds(s, policy);
    assert IsRegistered(s, id);
    var d := CandidateOf(s, id);
    assert d.family != ResearchBrief;
    IncludedIffSurvives(s, policy, confidence, d);
  }

  lemma {:induction false} MissingIn(s: set<Outcome>, policy: Policy, bundleHash: string, refs: seq<Id>)
    ensures forall r :: r in Missing(s, policy, bundleHash, refs) <==> r in refs && !CitesSurvivor(s, policy, bundleHash, r)
  {
    if refs != [] {
      assert refs == refs[..|refs| - 1] + [refs[|refs| - 1]];
      MissingIn(s, policy, bundleHash, refs[..|refs| - 1]);
    }
  }

  /** An included brief cites only included evidence of its own bundle, and its score stays below its bundle's confidence. */
  lemma IncludedBriefCitesIncluded(s: set<Outcome>, policy: Policy, confidence: map<string, int>, c: Candidate, ref: Id)
    requires WellSlotted(s) && Registered(c) in s && c.family == ResearchBrief && ref in c.refs
    requires Decide(s, policy, confidence, Registered(c)).included
    ensures exists e :: Registered(e) in s && e.id.bundleHash == c.id.bundleHash && e.id.localId == ref
                        && Decide(s, policy, confidence, Registered(e)).included && KindOf(e.family) != BriefKind
  {
    MissingIn(s, policy, c.id.bundleHash, c.refs);
    assert CitesSurvivor(s, policy, c.id.bundleHash, ref);
    var id := if FeatureRef(c.id.bundleHash, ref) in Survivors(s, policy) then FeatureRef(c.id.bundleHash, ref) else ClaimRef(c.id.bundleHash, ref);
    assert id in PreliminaryIds(s, policy);
    var o :| o in s && o.Registered? && Preliminary(s, policy, o.candidate) && o.candidate.id == id;
    IncludedIffSurvives(s, policy, confidence, o.candidate);
    assert Registered(o.candidate) in s;
  }

  /** Within a family, whatever the cap excludes ranks after everything it keeps. */
  lemma CapExcludesTheLowest(s: set<Outcome>, policy: Policy, kept: Candidate, cut: Candidate)
    requires WellSlotted(s) && Registered(cut) in s && cut.family == kept.family
    requires Preliminary(s, policy, kept) && Passes(policy, cut) && !Preliminary(s, policy, cut)
    ensures CandidateBefore(kept, cut)
  {
    CandidateOrder();
    if CandidateBefore(cut, kept) {
      forall id | id in Ahead(s, policy, cut)
        ensures id in Ahead(s, policy, kept)
      {
        var o :| o in s && o.Registered? && o.candidate.family == cut.family && Passes(policy, o.candidate) && CandidateBefore(o.candidate, cut) && o.candidate.id == id;
        KeysGiveWeakOrder(CandidateBefore, KeyLess, CandidateKey);
        assert CandidateBefore(o.candidate, kept);
      }
      Subset(Ahead(s, policy, cut), Ahead(s, policy, kept));
      assert false;
    }
    assert kept != cut;
    DistinctCandidateKeys(s, kept, cut);
  }

  /** The cap keeps the best: the higher score, then the later as-of time, then the later observation, none last. */
  lemma CapKeepsTheBest(s: set<Outcome>, policy: Policy, kept: Candidate, cut: Candidate)
    requires WellSlotted(s) && Registered(cut) in s && cut.family == kept.family
    requires Preliminary(s, policy, kept) && Passes(policy, cut) && !Preliminary(s, policy, cut)
    ensures kept.score.Some? && cut.score.Some? && kept.score.value >= cut.score.value
    ensures kept.score == cut.score ==> kept.asOf == cut.asOf || Ascends(cut.asOf, kept.asOf)
    ensures kept.score == cut.score && kept.asOf == cut.asOf ==>
              kept.observedAt == cut.observedAt || cut.observedAt.None?
              || (kept.observedAt.Some? && Ascends(cut.observedAt.value, kept.observedAt.value))
    ensures kept.score == cut.score && kept.asOf == cut.asOf && kept.observedAt == cut.observedAt ==>
              TupleAscends([kept.origin.publisher, kept.origin.sourceId, kept.id.localId, kept.id.bundleHash],
                           [cut.origin.publisher, cut.origin.sourceId, cut.id.localId, cut.id.bundleHash])
  {
    CapExcludesTheLowest(s, policy, kept, cut);
    assert WellKinded(Registered(kept)) && WellKinded(Registered(cut));
    hide CandidateBefore, Ascends, TupleAscends, Preliminary, Passes;
    BetterFirst(kept, cut);
  }

  lemma Subset<T>(a: set<T>, b: set<T>)
    requires a <= b
    ensures |a| <= |b|
  {
    SubsetNotLarger(a, b);
  }

  /** Two candidates of one family with the same key are the same. */
  lemma DistinctCandidateKeys(s: set<Outcome>, a: Candidate, b: Candidate)
    requires WellSlotted(s) && Registered(a) in s && Registered(b) in s && a.family == b.family
    ensures CandidateKey(a) == CandidateKey(b) ==> a == b
  {
    if CandidateKey(a) == CandidateKey(b) {
      assert CandidateKey(a)[6] == CandidateKey(b)[6] && CandidateKey(a)[7] == CandidateKey(b)[7];
      assert a.id == b.id;
      assert Registered(a).Id() == Registered(b).Id();
    }
  }
}
