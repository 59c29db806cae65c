/** The whole selection, from records to checked summary. */
module Selector {
  import opened Evidence
  import opened Sorting
  import Lineage
  import opened Candidates
  import opened Ranking
  import opened SelectionSpec
  import opened Selection
  import opened SourceUnion
  import opened Coverage
  import opened Summary
  import opened Reporting
  import opened Slots

  /** What the selector returns or throws. */
  datatype Response = Summarized(result: Result) | BadTime | BadPolicy | ImpossibleScore | IntegrityViolated

  // ---------- Closing integrity checks ----------

  function DecisionsFor(ds: seq<Decision>, id: CandidateId): seq<Decision> {
    if ds == [] then []
    else DecisionsFor(ds[..|ds| - 1], id) + if ds[|ds| - 1].id == id then [ds[|ds| - 1]] else []
  }

  predicate SelectedIsIncluded(ds: seq<Decision>, c: Candidate) {
    exists d :: d in ds && d.id == c.id && d.included
  }

  predicate ScoreInRange(score: Option<int>) {
    score.Some? ==> IsBps(score.value)
  }

  /** One decision per registered candidate, selected items decided as included, scores in range. */
  predicate IntegrityHolds(registered: set<CandidateId>, r: Result) {
    && (forall id :: id in registered ==> |DecisionsFor(r.decisions, id)| == 1)
    && (forall g :: g in r.selected.Keys - {Briefs} ==> forall c :: c in r.selected[g] ==>
          SelectedIsIncluded(r.decisions, c) && ScoreInRange(c.score))
    && (r.brief.Some? ==> SelectedIsIncluded(r.decisions, r.brief.value) && ScoreInRange(r.brief.value.score))
    && (forall d :: d in r.decisions ==> ScoreInRange(d.score))
  }

  lemma {:induction false} NoneFor(ds: seq<Decision>, id: CandidateId)
    requires forall d :: d in ds ==> d.id != id
    ensures DecisionsFor(ds, id) == []
  {
    if ds != [] {
      NoneFor(ds[..|ds| - 1], id);
    }
  }

  lemma {:induction false} OneFor(ds: seq<Decision>, d: Decision)
    requires d in ds && forall i, j :: 0 <= i < j < |ds| ==> ds[i].id != ds[j].id
    ensures DecisionsFor(ds, d.id) == [d]
  {
    var front, last := ds[..|ds| - 1], ds[|ds| - 1];
    assert ds == front + [last];
    if d == last {
      forall x | x in front
        ensures x.id != d.id
      {
        var i :| 0 <= i < |front| && front[i] == x;
        assert ds[i].id != ds[|ds| - 1].id;
      }
      NoneFor(front, d.id);
    } else {
      assert d in front;
      var i :| 0 <= i < |front| && front[i] == d;
      assert ds[i].id != ds[|ds| - 1].id;
      OneFor(front, d);
    }
  }

  lemma DecisionsHaveDistinctIds(ds: seq<Decision>)
    requires StrictlySorted(DecisionOrder, ds)
    ensures forall i, j :: 0 <= i < j < |ds| ==> ds[i].id != ds[j].id
  {
    IdOrder();
    KeysGiveWeakOrder(IdBefore, KeyLess, IdKey);
    hide IdBefore, KeyLess, IdKey;
    forall i, j | 0 <= i < j < |ds|
      ensures ds[i].id != ds[j].id
    {
      assert DecisionOrder(ds[i], ds[j]);
    }
  }

  /** Candidate scores and bundle confidences are basis points. */
  ghost predicate ScoresInRange(s: set<Outcome>, confidence: map<string, int>) {
    && (forall c :: Registered(c) in s ==> ScoreInRange(c.score))
    && forall h :: h in confidence ==> IsBps(confidence[h])
  }

  lemma CitedInRange(s: set<Outcome>, confidence: map<string, int>, hash: string, ref: Id)
    requires ScoresInRange(s, confidence)
    ensures ScoreInRange(CitedScore(s, hash, ref))
  {
  }

  lemma {:induction false} ScoreSumBounded(s: set<Outcome>, confidence: map<string, int>, hash: string, refs: seq<Id>)
    requires ScoresInRange(s, confidence)
    ensures 0 <= ScoreSum(s, hash, refs) <= BPS * ScoreCount(s, hash, refs)
  {
    hide CitedScore, ScoresInRange;
    if refs != [] {
      ScoreSumBounded(s, confidence, hash, refs[..|refs| - 1]);
      CitedInRange(s, confidence, hash, refs[|refs| - 1]);
    }
  }

  lemma AverageBounded(sum: int, count: nat)
    requires 0 <= sum <= BPS * count
    ensures IsBps(Average(sum, count))
  {
    if count > 0 {
      QuotientAtMost(sum, count, BPS);
    }
  }

  /** Every decision's score is in range: a brief's is the lesser of its bundle's confidence and a floored average. */
  lemma DecideInRange(s: set<Outcome>, policy: Policy, confidence: map<string, int>, o: Outcome)
    requires WellSlotted(s) && ScoresInRange(s, confidence) && o in s
    ensures ScoreInRange(Decide(s, policy, confidence, o).score)
  {
    hide WellSlotted, Preliminary, Survivors, Missing, ScoreSum, ScoreCount;
    match o
    case Early(d) =>
      assert WellKinded(o) by { Kinded(s, o); }
    case Registered(c) =>
      if c.family == ResearchBrief {
        ScoreSumBounded(s, confidence, c.id.bundleHash, c.refs);
        AverageBounded(ScoreSum(s, c.id.bundleHash, c.refs), ScoreCount(s, c.id.bundleHash, c.refs));
      }
  }

  lemma Kinded(s: set<Outcome>, o: Outcome)
    requires WellSlotted(s) && o in s
    ensures WellKinded(o)
  {
  }

  /** An included slot's decision is listed under the candidate's id, with the candidate's score. */
  lemma ChosenDecision(s: set<Outcome>, policy: Policy, confidence: map<string, int>, id: CandidateId)
    requires WellSlotted(s) && id in Chosen(s, policy, confidence)
    ensures exists o :: o in s && Decide(s, policy, confidence, o).id == id && Decide(s, policy, confidence, o).included
                        && Chosen(s, policy, confidence)[id].score == Decide(s, policy, confidence, o).score
    ensures Chosen(s, policy, confidence)[id].id == id
  {
    hide Decide, WellSlotted;
    var o := Registered(CandidateOf(s, id));
    DecideId(s, policy, confidence, o);
    assert o in s && o.Id() == id;
  }

  lemma ListedIncluded(s: set<Outcome>, policy: Policy, confidence: map<string, int>, ds: seq<Decision>, c: Candidate,
      id: CandidateId)
    requires WellSlotted(s) && ScoresInRange(s, confidence) && IsDecisionList(s, policy, confidence, ds)
    requires id in Chosen(s, policy, confidence) && c == Normalized(Chosen(s, policy, confidence)[id])
    ensures SelectedIsIncluded(ds, c) && ScoreInRange(c.score)
  {
    hide Decide, WellSlotted, Chosen, ScoresInRange, DecisionOrder;
    ChosenDecision(s, policy, confidence, id);
    var o :| o in s && Decide(s, policy, confidence, o).id == id && Decide(s, policy, confidence, o).included
             && Chosen(s, policy, confidence)[id].score == Decide(s, policy, confidence, o).score;
    DecideInRange(s, policy, confidence, o);
    assert Decide(s, policy, confidence, o) in ds;
  }

  lemma {:induction false} LastIncludedChosen(chosen: map<CandidateId, Candidate>, briefs: seq<CandidateId>)
    ensures LastIncluded(chosen, briefs).Some? ==>
        exists id :: id in chosen && chosen[id] == LastIncluded(chosen, briefs).value
  {
    if briefs != [] && briefs[|briefs| - 1] !in chosen {
      LastIncludedChosen(chosen, briefs[..|briefs| - 1]);
    }
  }

  /** A summary that meets the specification passes every closing check. */
  lemma SummaryHasIntegrity(s: set<Outcome>, policy: Policy, confidence: map<string, int>, briefs: seq<CandidateId>,
      registered: set<CandidateId>, r: Result)
    requires WellSlotted(s) && ScoresInRange(s, confidence) && Summarizes(s, policy, confidence, briefs, r)
    requires forall id :: id in registered ==> IsRegistered(s, id)
    ensures IntegrityHolds(registered, r)
  {
    hide Decide, WellSlotted, Chosen, ScoresInRange, DecisionOrder, SelectedIsIncluded, ScoreInRange, Normalized,
      GroupOf, IdOrderOfCandidates, LastIncluded, IsMode, AreConflicts, AreWarnings, Groups;
    forall id | id in registered
      ensures |DecisionsFor(r.decisions, id)| == 1
    {
      DecidedOnce(s, policy, confidence, r.decisions, Registered(CandidateOf(s, id)));
    }
    forall g, c | g in r.selected.Keys - {Briefs} && c in r.selected[g]
      ensures SelectedIsIncluded(r.decisions, c) && ScoreInRange(c.score)
    {
      assert IsSelection(Chosen(s, policy, confidence), g, r.selected[g]);
      var id :| id in Chosen(s, policy, confidence) && GroupOf(Chosen(s, policy, confidence)[id]) == g && c == Normalized(Chosen(s, policy, confidence)[id]);
      ListedIncluded(s, policy, confidence, r.decisions, c, id);
    }
    if r.brief.Some? {
      LastIncludedChosen(Chosen(s, policy, confidence), briefs);
      var id :| id in Chosen(s, policy, confidence) && r.brief.value == Normalized(Chosen(s, policy, confidence)[id]);
      ListedIncluded(s, policy, confidence, r.decisions, r.brief.value, id);
    }
    forall d | d in r.decisions
      ensures ScoreInRange(d.score)
    {
      var o :| o in s && d == Decide(s, policy, confidence, o);
      DecideInRange(s, policy, confidence, o);
    }
  }

  /** Every slot has exactly one decision, the specified one. */
  lemma DecidedOnce(s: set<Outcome>, policy: Policy, confidence: map<string, int>, ds: seq<Decision>, o: Outcome)
    requires IsDecisionList(s, policy, confidence, ds) && o in s
    ensures DecisionsFor(ds, o.Id()) == [Decide(s, policy, confidence, o)]
  {
    hide Decide, DecisionOrder;
    DecideId(s, policy, confidence, o);
    DecisionsHaveDistinctIds(ds);
    OneFor(ds, Decide(s, policy, confidence, o));
  }

  // ---------- The whole run ----------

  /** The brief slots in record order. */
  function BriefOrder(rs: seq<Record>): (ids: seq<CandidateId>)
    ensures |ids| == |rs| && forall i :: 0 <= i < |rs| ==>
        ids[i] == CandidateId(rs[i].evidenceHash, BriefKind, BriefId(rs[i].bundle))
  {
    seq(|rs|, i requires 0 <= i < |rs| => CandidateId(rs[i].evidenceHash, BriefKind, BriefId(rs[i].bundle)))
  }

  /** The accounts of the summary that are taken from whole records. */
  ghost predicate Accounted(records: seq<Record>, e: Setting, a: Accounts) {
    && a.header == Header(e.policy.version, e.now, e.scopeKey)
    && CountsFeatures(records, a.availability)
    && IsUnion(records, Chosen(SlotsOf(records, e), e.policy, Confidence(records)).Keys, a.sourceReferences)
    && ListsBundles(records, e.now, e.scopeKey, e.policy, a.bundles)
  }

  /** The summary that selection must produce for the given records. */
  ghost predicate Correct(records: seq<Record>, e: Setting, r: Result) {
    && Summarizes(SlotsOf(records, e), e.policy, Confidence(records), BriefOrder(SortBy(RecordBefore, records)), r)
    && Accounted(records, e, AccountsOf(r))
  }

  /** The accounts do not depend on the order of the records. */
  lemma AccountsForgetOrder(rs: seq<Record>, rs': seq<Record>, e: Setting, a: Accounts)
    requires forall x :: x in rs <==> x in rs'
    requires Confidence(rs) == Confidence(rs') && Accounted(rs, e, a)
    ensures Accounted(rs', e, a)
  {
    hide RecordOutcomes, LineageOf, UseOrder, BundleOrder, Used, Confidence, Chosen;
    assert SlotsOf(rs, e) == SlotsOf(rs', e);
    forall status
      ensures FeaturesIn(rs, status) == FeaturesIn(rs', status)
    {
      SameFeatures(rs, rs', status);
    }
    hide FeaturesIn, SlotsOf;
    forall r, x
      ensures HasReference(rs, r, x) <==> HasReference(rs', r, x)
    {
    }
    hide HasReference;
  }

  lemma SameFeatures(rs: seq<Record>, rs': seq<Record>, status: FeatureStatus)
    requires forall x :: x in rs <==> x in rs'
    ensures FeaturesIn(rs, status) == FeaturesIn(rs', status)
  {
  }

  lemma SortKeepsRecords(records: seq<Record>, e: Setting)
    requires Stored(records)
    ensures var rs := SortBy(RecordBefore, records);
            && Stored(rs) && SlotsOf(rs, e) == SlotsOf(records, e) && Confidence(rs) == Confidence(records)
            && forall r :: r in rs <==> r in records
  {
    hide RecordBefore, RecordOutcomes, RecordKey, KeyLess, WellFormed, Lineage.UniqueIds;
    var rs := SortBy(RecordBefore, records);
    RecordOrder();
    DistinctHashesKeys(records);
    SortStrictly(RecordBefore, KeyLess, RecordKey, records);
    MultisetKeepsDistinct(records, rs);
    SameConfidence(rs, records);
  }

  lemma SameConfidence(rs: seq<Record>, rs': seq<Record>)
    requires DistinctHashes(rs) && DistinctHashes(rs') && forall r :: r in rs <==> r in rs'
    ensures Confidence(rs) == Confidence(rs')
  {
    forall h
      ensures FindRecord(rs, h) == FindRecord(rs', h)
    {
      if FindRecord(rs, h).Some? {
        var r := FindRecord(rs, h).value;
        FindByHash(rs', r);
      }
    }
  }

  lemma SlotScoresInRange(rs: seq<Record>, e: Setting)
    requires Stored(rs) && PolicyAccepted(e.policy)
    ensures ScoresInRange(SlotsOf(rs, e), Confidence(rs))
  {
    hide RecordOutcomes, Lineage.UniqueIds, PolicyAccepted, ScoreInRange;
    forall c | Registered(c) in SlotsOf(rs, e)
      ensures ScoreInRange(c.score)
    {
      var r :| r in rs && Registered(c) in OutcomesOf(r, e);
      RecordScoreInRange(r, e, c);
    }
  }

  lemma SourceQualityInRange(policy: Policy, b: Bundle)
    requires PolicyAccepted(policy)
    ensures IsBps(SourceQuality(policy, b)) && IsBps(policy.staleWeightBps) && forall m :: IsBps(policy.provenanceQualityBps.Of(m))
  {
  }

  lemma RecordScoreInRange(r: Record, e: Setting, c: Candidate)
    requires WellFormed(r) && PolicyAccepted(e.policy)
    ensures Registered(c) in OutcomesOf(r, e) ==> ScoreInRange(c.score)
  {
    hide Rejection, SourceQuality, Score, PolicyAccepted, ComputedLifecycle, TaggedClaims, AllClaims, RecordOutcomes;
    SourceQualityInRange(e.policy, r.bundle);
    var source := SourceQuality(e.policy, r.bundle);
    if f :| f in r.bundle.features && Registered(c) == FeatureSlot(r, f, e.now, e.scopeKey, e.policy) {
      ScoreBounded(f.confidenceBps, source, c.provenanceQuality, c.freshnessWeight);
    } else if t :| t in TaggedClaims(r.bundle.contextual) && Registered(c) == ClaimSlot(r, t, e.now, e.scopeKey, e.policy) {
      TaggedClaimIn(r.bundle.contextual, t);
      ScoreBounded(t.claim.confidenceBps, source, c.provenanceQuality, c.freshnessWeight);
    } else if Registered(c) in OutcomesOf(r, e) {
      NeitherFeatureNorClaim(r, e, Registered(c));
    }
  }

  lemma NeitherFeatureNorClaim(r: Record, e: Setting, o: Outcome)
    requires o in OutcomesOf(r, e)
    requires !exists f :: f in r.bundle.features && o == FeatureSlot(r, f, e.now, e.scopeKey, e.policy)
    requires !exists t :: t in TaggedClaims(r.bundle.contextual) && o == ClaimSlot(r, t, e.now, e.scopeKey, e.policy)
    ensures o == BriefSlot(r, e.now, e.scopeKey, e.policy)
  {
    hide FeatureSlot, ClaimSlot, BriefSlot, TaggedClaims;
    var fs, cs := FeatureSlots(r, e.now, e.scopeKey, e.policy), ClaimSlots(r, e.now, e.scopeKey, e.policy);
    assert forall i :: 0 <= i < |fs| ==> r.bundle.features[i] in r.bundle.features && fs[i] != o;
    assert forall i :: 0 <= i < |cs| ==> TaggedClaims(r.bundle.contextual)[i] in TaggedClaims(r.bundle.contextual) && cs[i] != o;
  }

  /** The registered briefs, in registration order, are the brief slots in record order that were registered. */
  lemma {:induction false} BriefsInRecordOrder(rs: seq<Record>, e: Setting, chosen: map<CandidateId, Candidate>)
    requires Stored(rs)
    requires forall r :: r in rs && BriefSlot(r, e.now, e.scopeKey, e.policy).Early? ==>
        BriefSlot(r, e.now, e.scopeKey, e.policy).Id() !in chosen
    ensures LastIncluded(chosen, CandidateIds(FamilyCandidates(OutcomesOfAll(rs, e), ResearchBrief))) == LastIncluded(chosen, BriefOrder(rs))
  {
    hide Lineage.UniqueIds, WellFormed, RecordOutcomes, BriefSlot, LastIncluded, FamilyCandidates;
    if rs == [] {
      NoBriefs(OutcomesOfAll(rs, e));
      assert CandidateIds([]) == BriefOrder([]);
    } else {
      var front, last := rs[..|rs| - 1], rs[|rs| - 1];
      assert rs == front + [last] && last in rs;
      BriefsInRecordOrder(front, e, chosen);
      var brief := BriefSlot(last, e.now, e.scopeKey, e.policy);
      BriefSlotId(last, e);
      RecordBriefs(last, e);
      assert OutcomesOfAll(rs, e) == OutcomesOfAll(front, e) + OutcomesOf(last, e);
      FamilyCandidatesAppend(OutcomesOfAll(front, e), OutcomesOf(last, e), ResearchBrief);
      var briefs, brief' := FamilyCandidates(OutcomesOfAll(front, e), ResearchBrief), CandidateId(last.evidenceHash, BriefKind, BriefId(last.bundle));
      if brief.Registered? {
        assert brief.candidate.id == brief';
        assert CandidateIds(briefs + [brief.candidate]) == CandidateIds(briefs) + [brief.candidate.id];
        LastIncludedStep(chosen, CandidateIds(briefs), brief.candidate.id);
      }
      assert BriefOrder(rs) == BriefOrder(front) + [brief'];
      LastIncludedStep(chosen, BriefOrder(front), brief');
      assert brief.Early? ==> brief' !in chosen;
      assert brief.Early? ==> FamilyCandidates(OutcomesOfAll(rs, e), ResearchBrief) == briefs;
      assert brief.Registered? ==> FamilyCandidates(OutcomesOfAll(rs, e), ResearchBrief) == briefs + [brief.candidate];
    }
  }

  lemma LastIncludedStep(chosen: map<CandidateId, Candidate>, ids: seq<CandidateId>, id: CandidateId)
    ensures LastIncluded(chosen, ids + [id]) == if id in chosen then Some(chosen[id]) else LastIncluded(chosen, ids)
  {
    assert (ids + [id])[..|ids|] == ids;
  }

  lemma {:induction false} FamilyCandidatesAppend(a: seq<Outcome>, b: seq<Outcome>, family: Family)
    ensures FamilyCandidates(a + b, family) == FamilyCandidates(a, family) + FamilyCandidates(b, family)
  {
    if b == [] {
      assert a + b == a;
    } else {
      assert (a + b)[..|a + b| - 1] == a + b[..|b| - 1];
      FamilyCandidatesAppend(a, b[..|b| - 1], family);
    }
  }

  lemma RecordBriefs(r: Record, e: Setting)
    requires WellFormed(r) && Lineage.UniqueIds(r.bundle)
    ensures var brief := BriefSlot(r, e.now, e.scopeKey, e.policy);
            FamilyCandidates(OutcomesOf(r, e), ResearchBrief) == if brief.Registered? then [brief.candidate] else []
  {
    hide FeatureSlots, ClaimSlots, BriefSlot, Lineage.UniqueIds, WellFormed;
    var fs, cs := FeatureSlots(r, e.now, e.scopeKey, e.policy), ClaimSlots(r, e.now, e.scopeKey, e.policy);
    FeatureSlotsDistinct(r, e);
    ClaimSlotsDistinct(r, e);
    BriefSlotId(r, e);
    FamilyCandidatesAppend(fs + cs, [BriefSlot(r, e.now, e.scopeKey, e.policy)], ResearchBrief);
    NoBriefs(fs + cs);
    assert [BriefSlot(r, e.now, e.scopeKey, e.policy)][..0] == [];
  }

  lemma NoBriefs(outs: seq<Outcome>)
    requires forall o :: o in outs ==> WellKinded(o) && o.Id().kind != BriefKind
    ensures FamilyCandidates(outs, ResearchBrief) == []
  {
    var cs := FamilyCandidates(outs, ResearchBrief);
    assert |cs| > 0 ==> cs[0] in cs;
    forall c | Registered(c) in outs
      ensures c.family != ResearchBrief
    {
      assert Registered(c).Id().kind != BriefKind;
    }
    FamilyCandidatesIn(outs, ResearchBrief);
  }

  /** Before the briefs are judged no chosen brief is in the map; the ids that follow are briefs. */
  lemma BriefsFollow(s: set<Outcome>, policy: Policy, confidence: map<string, int>, m: DecisionMap,
      briefs: seq<Candidate>)
    requires WellSlotted(s) && Settled(s, policy, confidence, m, DecidedBut(s, {})) && ListsBriefs(s, briefs)
    ensures BriefsLast(Chosen(s, policy, confidence), m.order, CandidateIds(briefs))
  {
    hide Decide, Settled;
    var chosen := Chosen(s, policy, confidence);
    SettledKeys(s, policy, confidence, m, DecidedBut(s, {}));
    forall id | id in m.order && id in chosen
      ensures GroupOf(chosen[id]) != Briefs
    {
      PreliminaryRegistered(s, policy, CandidateOf(s, id));
      assert Registered(CandidateOf(s, id)).Id() == id;
    }
    forall id | id in CandidateIds(briefs) && id in chosen
      ensures GroupOf(chosen[id]) == Briefs
    {
      var i :| 0 <= i < |briefs| && briefs[i].id == id;
      assert briefs[i] in briefs;
      RegisteredUnique(s, briefs[i]);
    }
  }

  lemma SettledKeys(s: set<Outcome>, policy: Policy, confidence: map<string, int>, m: DecisionMap,
      ids: set<CandidateId>)
    requires Settled(s, policy, confidence, m, ids)
    ensures forall id :: id in m.order <==> id in ids
  {
  }

  lemma EarlyBriefsNotChosen(rs: seq<Record>, e: Setting, r: Record, confidence: map<string, int>)
    requires Stored(rs) && r in rs && BriefSlot(r, e.now, e.scopeKey, e.policy).Early?
    ensures BriefSlot(r, e.now, e.scopeKey, e.policy).Id() !in Chosen(SlotsOf(rs, e), e.policy, confidence)
  {
    hide Decide, BriefSlot, Stored;
    var o := BriefSlot(r, e.now, e.scopeKey, e.policy);
    var s := SlotsOf(rs, e);
    assert o in OutcomesOf(r, e) && o in s;
    SlotsWellSlotted(rs, e);
    assert forall c :: Registered(c) in s ==> Registered(c).Id() != o.Id();
    assert !IsRegistered(s, o.Id()) by {
      assert forall c :: Registered(c) in s ==> c.id == Registered(c).Id();
    }
  }

  /** Trimming leaves something exactly when some character is not white space. */
  lemma {:induction false} TrimBlank(s: string)
    ensures Trim(s) != "" <==> exists c :: c in s && !IsWhiteSpace(c)
  {
    if s == "" {
    } else if IsWhiteSpace(s[0]) {
      TrimBlank(s[1..]);
      assert s == [s[0]] + s[1..];
    } else if IsWhiteSpace(s[|s| - 1]) {
      TrimBlank(s[..|s| - 1]);
      assert s == s[..|s| - 1] + [s[|s| - 1]];
    } else {
      assert s[0] in s;
    }
  }

  /** White space as ECMA-262 trims it, sections 12.2 and 12.3, by code point. */
  predicate IsBlank(code: int) {
    9 <= code <= 13 || 8_192 <= code <= 8_202 || code in [32, 160, 5_760, 8_232, 8_233, 8_239, 8_287, 12_288, 65_279]
  }

  /** The accepted policies: something in the version besides white space, shares of 10000, and a positive cap. */
  lemma PolicyBounds(p: Policy)
    ensures PolicyAccepted(p) <==>
            && (exists c :: c in p.version && !IsBlank(c as int))
            && 0 <= p.minimumEffectiveScoreBps <= 10_000 && 0 <= p.staleWeightBps <= 10_000
            && 0 <= p.defaultSourceQualityBps <= 10_000 && p.maxSelectedPerFamily >= 1
            && (forall k :: k in p.sourceQualityBps ==> 0 <= p.sourceQualityBps[k] <= 10_000)
            && 0 <= p.provenanceQualityBps.calculator <= 10_000 && 0 <= p.provenanceQualityBps.derived <= 10_000
            && 0 <= p.provenanceQualityBps.collected <= 10_000 && 0 <= p.provenanceQualityBps.humanAuthored <= 10_000
  {
    var q := p.provenanceQualityBps;
    assert q.Of(DeterministicCalculator) == q.calculator && q.Of(Derived) == q.derived;
    assert q.Of(Collected) == q.collected && q.Of(HumanAuthored) == q.humanAuthored;
    assert (forall m :: IsBps(q.Of(m))) <==>
           IsBps(q.calculator) && IsBps(q.derived) && IsBps(q.collected) && IsBps(q.humanAuthored);
  }

  /** Field by field; the first one out of range makes the selector throw. */
  method ValidatePolicy(policy: Policy) returns (accepted: bool)
    ensures accepted <==> PolicyAccepted(policy)
  {
    TrimBlank(policy.version);
    if Trim(policy.version) == "" {
      return false;
    }
    if !IsBps(policy.minimumEffectiveScoreBps) || !IsBps(policy.staleWeightBps) || !IsBps(policy.defaultSourceQualityBps) {
      return false;
    }
    if policy.maxSelectedPerFamily <= 0 {
      return false;
    }
    var todo := policy.sourceQualityBps.Keys;
    while todo != {}
      invariant todo <= policy.sourceQualityBps.Keys
      invariant forall k :: k in policy.sourceQualityBps && k !in todo ==> IsBps(policy.sourceQualityBps[k])
      decreases todo
    {
      var key :| key in todo;
      if !IsBps(policy.sourceQualityBps[key]) {
        return false;
      }
      todo := todo - {key};
    }
    var classes := [DeterministicCalculator, Derived, Collected, HumanAuthored];
    for i := 0 to |classes|
      invariant forall j :: 0 <= j < i ==> IsBps(policy.provenanceQualityBps.Of(classes[j]))
    {
      if !IsBps(policy.provenanceQualityBps.Of(classes[i])) {
        return false;
      }
    }
    assert IsBps(policy.provenanceQualityBps.Of(classes[0])) && IsBps(policy.provenanceQualityBps.Of(classes[1]));
    assert IsBps(policy.provenanceQualityBps.Of(classes[2])) && IsBps(policy.provenanceQualityBps.Of(classes[3]));
    return true;
  }

  /** Judges all slots of the sorted records. */
  method DecideAll(registry: Registry, rs: seq<Record>, e: Setting)
    returns (m: DecisionMap, ghost order: seq<CandidateId>, ghost briefs: seq<CandidateId>)
    requires Stored(rs) && registry.Valid() && registry.outcomes == OutcomesOfAll(rs, e)
    ensures Settled(SlotsOf(rs, e), e.policy, Confidence(rs), m, SlotIds(SlotsOf(rs, e)))
    ensures m.order == order + briefs && BriefsLast(Chosen(SlotsOf(rs, e), e.policy, Confidence(rs)), order, briefs)
    ensures briefs == CandidateIds(FamilyCandidates(OutcomesOfAll(rs, e), ResearchBrief))
  {
    hide OutcomesOfAll, SlotsOf, Stored, WellSlotted, Settled, FamilyCandidates, Holds, EvidenceIds, BriefsLast,
      Chosen, SlotIds, RecordsMatch, Lists, ListsBriefs, EarlyIds, Preliminary, Survivors;
    ghost var s, confidence := SlotsOf(rs, e), Confidence(rs);
    SlotsWellSlotted(rs, e);
    SlotsMatchRecords(rs, e);
    RegistryLists(rs, e, registry.candidatesByFamily);
    EarlyListed(rs, e);
    m := SeedDecisions(registry.decisions, e.policy, s, confidence);
    var prelim;
    m, prelim := CapFamilies(registry.candidatesByFamily, e.policy, m, s, confidence);
    OpenIds(s, prelim.Keys);
    m, prelim := ResolveDependencies(m, prelim, rs, e.policy, s, confidence);
    m := IncludeSurvivors(m, prelim, e.policy, s, confidence);
    order := m.order;
    var briefCandidates := if ResearchBrief in registry.candidatesByFamily then registry.candidatesByFamily[ResearchBrief] else [];
    briefs := CandidateIds(briefCandidates);
    BriefsFollow(s, e.policy, confidence, m, briefCandidates);
    m := EvaluateBriefs(briefCandidates, m, rs, e.policy, s);
  }

  lemma OpenIds(s: set<Outcome>, open: set<CandidateId>)
    ensures DecidedBut(s, open) == EarlyIds(s) + (FamilyIds(s, EVIDENCE_FAMILIES) - open)
  {
  }

  lemma EarlyListed(rs: seq<Record>, e: Setting)
    ensures forall d :: d in EarlyDecisions(OutcomesOfAll(rs, e)) <==> Early(d) in SlotsOf(rs, e)
  {
    hide OutcomesOfAll, SlotsOf;
    EarlyDecisionsIn(OutcomesOfAll(rs, e));
    OutcomesAreSlots(rs, e);
  }

  /** Counts the features, collects the source references of all decided items, and sorts the bundles. */
  method TakeAccounts(rs: seq<Record>, e: Setting, m: DecisionMap, bundles: seq<BundleLineage>)
    returns (accounts: Accounts)
    requires Stored(rs) && Settled(SlotsOf(rs, e), e.policy, Confidence(rs), m, SlotIds(SlotsOf(rs, e)))
    requires bundles == BundleLineages(rs, e.now, e.scopeKey, e.policy)
    ensures Accounted(rs, e, accounts)
  {
    hide SlotsOf, Settled, SlotIds, Chosen, IsUnion, CountsFeatures, ListsBundles, BundleLineages, WellFormed;
    StoredIds(rs);
    var availability := CountFeatures(rs);
    MapTells(rs, e, m);
    var sources := BuildUnion(rs, m, Chosen(SlotsOf(rs, e), e.policy, Confidence(rs)).Keys);
    BundlesListed(rs, e.now, e.scopeKey, e.policy);
    accounts := Accounts(Header(e.policy.version, e.now, e.scopeKey), availability, sources, SortBy(BundleOrder, bundles));
  }

  lemma StoredIds(rs: seq<Record>)
    requires Stored(rs)
    ensures DistinctHashes(rs)
    ensures forall r :: r in rs ==> NoDuplicates(FeatureIds(r.bundle.features)) && NoDuplicates(ReferenceIds(r.bundle.sourceReferences))
  {
  }

  /** Selection never throws on stored records with an accepted policy, and returns the specified summary. */
  method SelectEvidence(records: seq<Record>, e: Setting) returns (response: Response)
    requires Stored(records)
    ensures response == BadTime <==> e.now < 0
    ensures response == BadPolicy <==> e.now >= 0 && !PolicyAccepted(e.policy)
    ensures e.now >= 0 && PolicyAccepted(e.policy) ==> response.Summarized? && Correct(records, e, response.result)
  {
    if e.now < 0 {
      return BadTime;
    }
    var accepted := ValidatePolicy(e.policy);
    if !accepted {
      return BadPolicy;
    }
    hide RecordBefore, WellSlotted, Settled, BriefsLast, Chosen, SlotIds, Lists, SlotsOf, Stored, Summarizes,
      IntegrityHolds, PolicyAccepted, Catalogs, Accounted, Supplied, OutcomesOfAll, Confidence, BundleLineages;
    SortKeepsRecords(records, e);
    var rs := SortBy(RecordBefore, records);
    StoredWellFormed(rs);
    var registry := new Registry();
    registry.RegisterAll(rs, e.now, e.scopeKey, e.policy);
    if registry.impossibleScore {
      return ImpossibleScore;
    }
    ghost var s, confidence := SlotsOf(rs, e), Confidence(rs);
    SlotsWellSlotted(rs, e);
    RegistryLists(rs, e, registry.candidatesByFamily);
    ghost var order, briefs;
    var m;
    m, order, briefs := DecideAll(registry, rs, e);
    var registered := Catalog(registry.candidatesByFamily, s);
    FeaturesSupplied(rs, e);
    var accounts := TakeAccounts(rs, e, m, registry.bundles);
    var result := BuildSummary(m, registered, registry.candidatesByFamily, registry.registeredDeterministicCount, accounts,
                               e.policy, s, confidence, order, briefs);
    BriefOrderSame(rs, e, briefs, result);
    AccountsForgetOrder(rs, records, e, accounts);
    SlotScoresInRange(rs, e);
    CatalogsRegistered(s, registered);
    SummaryHasIntegrity(s, e.policy, confidence, BriefOrder(rs), registered.Keys, result);
    if !IntegrityHolds(registered.Keys, result) {
      return IntegrityViolated;
    }
    return Summarized(result);
  }

  lemma StoredWellFormed(rs: seq<Record>)
    requires Stored(rs)
    ensures forall r :: r in rs ==> WellFormed(r)
  {
  }

  lemma CatalogsRegistered(s: set<Outcome>, registered: map<CandidateId, Candidate>)
    requires Catalogs(s, registered)
    ensures forall id :: id in registered ==> IsRegistered(s, id)
  {
  }

  lemma BriefOrderSame(rs: seq<Record>, e: Setting, briefs: seq<CandidateId>, result: Result)
    requires Stored(rs) && briefs == CandidateIds(FamilyCandidates(OutcomesOfAll(rs, e), ResearchBrief))
    requires Summarizes(SlotsOf(rs, e), e.policy, Confidence(rs), briefs, result)
    ensures Summarizes(SlotsOf(rs, e), e.policy, Confidence(rs), BriefOrder(rs), result)
  {
    hide Stored, SlotsOf, Chosen, BriefSlot, OutcomesOfAll, FamilyCandidates, IsDecisionList, Presents, LastIncluded,
      AreWarnings;
    forall r | r in rs && BriefSlot(r, e.now, e.scopeKey, e.policy).Early?
      ensures BriefSlot(r, e.now, e.scopeKey, e.policy).Id() !in Chosen(SlotsOf(rs, e), e.policy, Confidence(rs))
    {
      EarlyBriefsNotChosen(rs, e, r, Confidence(rs));
    }
    BriefsInRecordOrder(rs, e, Chosen(SlotsOf(rs, e), e.policy, Confidence(rs)));
    PresentsSame(Chosen(SlotsOf(rs, e), e.policy, Confidence(rs)), briefs, BriefOrder(rs), result);
  }

  lemma PresentsSame(chosen: map<CandidateId, Candidate>, briefs: seq<CandidateId>, briefs': seq<CandidateId>,
      r: Result)
    requires Presents(chosen, briefs, r) && LastIncluded(chosen, briefs) == LastIncluded(chosen, briefs')
    ensures Presents(chosen, briefs', r)
  {
    hide IsSelection, Groups, AreConflicts, IsMode, LastIncluded;
  }
}
