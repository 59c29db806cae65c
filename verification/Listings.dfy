/**
  What the lists of a summary hold, and in which order, in terms of its decisions and of the records' own fields.
 */
module Listings {
  import opened Evidence
  import opened Sorting
  import opened ScopeKeys
  import Lineage
  import opened Candidates
  import opened Ranking
  import opened SelectionSpec
  import opened Selection
  import opened SourceUnion
  import opened Coverage
  import opened Summary
  import opened Reporting
  import opened Slots
  import opened Selector
  import opened Verdicts

  // ---------- Included decisions ----------

  /** The summary's decision on a slot includes it. */
  ghost predicate Includes(res: Result, id: CandidateId) {
    exists d :: d in res.decisions && d.id == id && d.included
  }

  lemma ChosenIsIncluded(rs: seq<Record>, e: Setting, res: Result, id: CandidateId)
    requires Stored(rs) && Correct(rs, e, res)
    ensures id in Chosen(SlotsOf(rs, e), e.policy, Confidence(rs)) <==> Includes(res, id)
  {
    hide Decide, SlotsOf, Stored, Accounted, Presents, AreWarnings, DecisionOrder;
    var s, confidence := SlotsOf(rs, e), Confidence(rs);
    SlotsWellSlotted(rs, e);
    if id in Chosen(s, e.policy, confidence) {
      ChosenDecision(s, e.policy, confidence, id);
    }
    if d :| d in res.decisions && d.id == id && d.included {
      var o :| o in s && d == Decide(s, e.policy, confidence, o);
      IncludedIsChosen(s, e.policy, confidence, o);
    }
  }

  lemma IncludedIsChosen(s: set<Outcome>, policy: Policy, confidence: map<string, int>, o: Outcome)
    requires WellSlotted(s) && o in s && Decide(s, policy, confidence, o).included
    ensures o.Registered? && o.candidate.id in Chosen(s, policy, confidence)
    ensures Decide(s, policy, confidence, o).id == o.candidate.id
    ensures Chosen(s, policy, confidence)[o.candidate.id] == Select(o.candidate, Decide(s, policy, confidence, o))
  {
    hide Decide;
    Kinded(s, o);
    DecideId(s, policy, confidence, o);
    match o
    case Early(d) => EarlyDecided(s, policy, confidence, d);
    case Registered(c) => RegisteredUnique(s, c);
  }

  // ---------- Source references ----------

  /** The item with the given id is a feature or claim of the record that cites the reference. */
  ghost predicate ItemCites(r: Record, item: CandidateId, ref: Id) {
    && item.bundleHash == r.evidenceHash
    && ((item.kind == DeterministicFeature && exists f :: f in r.bundle.features && f.featureId == item.localId && ref in f.inputLineage)
        || (item.kind == ContextualClaim && exists family, c :: HasClaim(r.bundle.contextual, family, c) && c.evidenceId == item.localId
                                                              && ref in c.sourceReferenceIds))
  }

  /** A decision of the given kind is on an item that cites the reference. */
  ghost predicate CitedBy(res: Result, r: Record, ref: Id, included: bool) {
    exists d :: d in res.decisions && d.included == included && ItemCites(r, d.id, ref)
  }

  /** A reference that is cited at all, marked by the included and by the excluded evidence that cites it. */
  ghost predicate Marks(res: Result, r: Record, x: SourceReference, u: SourceUse) {
    && u.reference == x && u.bundleHash == r.evidenceHash && IsOrigin(r, u.origin)
    && (u.isSelectedLineage <==> CitedBy(res, r, x.referenceId, true))
    && (u.isAuditOnly <==> CitedBy(res, r, x.referenceId, false))
    && (u.isSelectedLineage || u.isAuditOnly)
  }

  lemma ClaimListed(ctx: Contextual, c: Claim)
    ensures c in AllClaims(ctx) <==> exists family :: HasClaim(ctx, family, c)
  {
    if c in AllClaims(ctx) {
      var family := if c in ctx.supportResistance then SupportResistance else if c in ctx.flows then Flows
                    else if c in ctx.derivatives then Derivatives else if c in ctx.events then Events else NewsRegulatory;
      assert HasClaim(ctx, family, c);
    }
  }

  lemma CitesIs(r: Record, item: CandidateId, ref: Id)
    ensures ItemCites(r, item, ref) <==> Cites(r, ref, item)
  {
    hide AllClaims, HasClaim;
    forall c
      ensures c in AllClaims(r.bundle.contextual) <==> exists family :: HasClaim(r.bundle.contextual, family, c)
    {
      ClaimListed(r.bundle.contextual, c);
    }
  }

  lemma CitedByIs(rs: seq<Record>, e: Setting, res: Result, r: Record, ref: Id)
    requires Stored(rs) && Correct(rs, e, res) && r in rs
    ensures var included := Chosen(SlotsOf(rs, e), e.policy, Confidence(rs)).Keys;
            && (CitedBy(res, r, ref, true) <==> CitedByIncluded(included, r, ref))
            && (CitedBy(res, r, ref, false) <==> CitedByExcluded(included, r, ref))
  {
    hide Stored, Correct, SlotsOf, Chosen, ItemCites, Cites;
    forall item
      ensures ItemCites(r, item, ref) <==> Cites(r, ref, item)
      ensures item in Chosen(SlotsOf(rs, e), e.policy, Confidence(rs)) <==> Includes(res, item)
      ensures Cites(r, ref, item) ==> exists d :: d in res.decisions && d.id == item
    {
      CitesIs(r, item, ref);
      ChosenIsIncluded(rs, e, res, item);
      if Cites(r, ref, item) {
        CiterDecided(rs, e, res, r, ref, item);
      }
    }
    forall d | d in res.decisions
      ensures d.included <==> Includes(res, d.id)
    {
      OneDecision(rs, e, res, d);
    }
  }

  lemma CiterDecided(rs: seq<Record>, e: Setting, res: Result, r: Record, ref: Id, item: CandidateId)
    requires Stored(rs) && Correct(rs, e, res) && r in rs && Cites(r, ref, item)
    ensures exists d :: d in res.decisions && d.id == item
  {
    hide Stored, SlotsOf, Decide, Accounted, Presents, AreWarnings, DecisionOrder, Cites;
    CitingSlot(rs, e, r, ref, item);
    var o :| o in SlotsOf(rs, e) && o.Id() == item;
    DecideId(SlotsOf(rs, e), e.policy, Confidence(rs), o);
    assert Decide(SlotsOf(rs, e), e.policy, Confidence(rs), o) in res.decisions;
  }

  lemma OneDecision(rs: seq<Record>, e: Setting, res: Result, d: Decision)
    requires Stored(rs) && Correct(rs, e, res) && d in res.decisions
    ensures d.included <==> Includes(res, d.id)
  {
    hide Stored, SlotsOf, Decide, Accounted, Presents, AreWarnings, DecisionOrder;
    DecisionsHaveDistinctIds(res.decisions);
    var i :| 0 <= i < |res.decisions| && res.decisions[i] == d;
    if x :| x in res.decisions && x.id == d.id && x.included {
      var j :| 0 <= j < |res.decisions| && res.decisions[j] == x;
    }
  }

  /** The references listed are exactly those that some decided feature or claim of their bundle cites. */
  lemma ReferencesListed(rs: seq<Record>, e: Setting, res: Result, u: SourceUse)
    requires Stored(rs) && Correct(rs, e, res)
    ensures u in res.sourceReferences <==> exists r, x :: r in rs && x in r.bundle.sourceReferences && Marks(res, r, x, u)
  {
    hide Stored, Correct, SlotsOf, Chosen, CitedBy, CitedByIncluded, CitedByExcluded;
    var included := Chosen(SlotsOf(rs, e), e.policy, Confidence(rs)).Keys;
    UnionOf(rs, e, res);
    forall r, x | r in rs && x in r.bundle.sourceReferences
      ensures HasReference(rs, r, x) && (Marks(res, r, x, u) <==> Used(included, r, x, u))
    {
      CitedByIs(rs, e, res, r, x.referenceId);
    }
  }

  lemma UnionOf(rs: seq<Record>, e: Setting, res: Result)
    requires Correct(rs, e, res)
    ensures IsUnion(rs, Chosen(SlotsOf(rs, e), e.policy, Confidence(rs)).Keys, res.sourceReferences)
  {
  }

  // ---------- Selected items ----------

  /** The same texts, ascending. */
  ghost predicate SortedCopy(copy: seq<string>, original: seq<string>) {
    multiset(copy) == multiset(original) && forall i, j :: 0 <= i < j < |copy| ==> !Ascends(copy[j], copy[i])
  }

  /** The candidate repeats its decision's origin, numbers, score and reasons. */
  predicate Repeats(c: Candidate, d: Decision) {
    && c.id == d.id && c.origin == d.origin && c.score == d.score && c.reasons == d.reasons
    && c.rawConfidence == d.rawConfidence && c.sourceQuality == d.sourceQuality
    && c.provenanceQuality == d.provenanceQuality && c.freshnessWeight == d.freshnessWeight
  }

  ghost predicate ShowsFeature(r: Record, c: Candidate, f: Feature) {
    && f in r.bundle.features && c.id == CandidateId(r.evidenceHash, DeterministicFeature, f.featureId) && c.family == f.family
    && SortedCopy(c.refs, f.inputLineage)
    && c.item.FeatureItem? && SortedCopy(c.item.feature.warnings, f.warnings)
    && c.item.feature == f.(inputLineage := c.refs, warnings := c.item.feature.warnings)
  }

  ghost predicate ShowsClaim(r: Record, c: Candidate, family: Family, x: Claim) {
    && HasClaim(r.bundle.contextual, family, x) && c.id == CandidateId(r.evidenceHash, ContextualClaim, x.evidenceId)
    && c.family == family && c.direction == x.direction
    && SortedCopy(c.refs, x.sourceReferenceIds) && c.item == ClaimItem(x.(sourceReferenceIds := c.refs))
  }

  ghost predicate ShowsBrief(r: Record, c: Candidate, b: Brief) {
    && r.bundle.brief == Some(b) && c.id == CandidateId(r.evidenceHash, BriefKind, b.briefId)
    && SortedCopy(c.refs, b.sourceEvidenceIds)
    && c.item.BriefItem? && SortedCopy(c.item.brief.keyFindings, b.keyFindings)
    && SortedCopy(c.item.brief.uncertainties, b.uncertainties)
    && c.item.brief == b.(sourceEvidenceIds := c.refs, keyFindings := c.item.brief.keyFindings,
                          uncertainties := c.item.brief.uncertainties)
  }

  /** The candidate shows the record's feature, claim or brief of its id, with the publisher's lists in sorted copies. */
  ghost predicate Shows(r: Record, group: Group, c: Candidate) {
    match group
    case Deterministic => exists f :: ShowsFeature(r, c, f)
    case ClaimsOf(family) => exists x :: ShowsClaim(r, c, family, x)
    case Briefs => exists b :: ShowsBrief(r, c, b)
  }

  lemma SortIdsCopy(ids: seq<Id>)
    ensures SortedCopy(SortIds(ids), ids)
  {
    SortIdsAscend(ids);
  }

  lemma TidyShows(r: Record, e: Setting, c: Candidate, score: Option<int>, reasons: seq<Reason>)
    requires Registered(c) in OutcomesOf(r, e) && WellFormed(r)
    ensures var shown := Normalized(c.(score := score, reasons := reasons));
            Shows(r, GroupOf(shown), shown) && GroupOf(shown) in Groups() && IsOrigin(r, c.origin)
  {
    hide Rejection, SourceQuality, Score, PolicyAccepted, ComputedLifecycle, RecordOutcomes, SortIds, SortedCopy, BundleWeight,
      StaleReasons, TaggedClaims, AllClaims;
    if f :| f in r.bundle.features && Registered(c) == FeatureSlot(r, f, e.now, e.scopeKey, e.policy) {
      FeatureShown(r, e, c, f, score, reasons);
    } else if t :| t in TaggedClaims(r.bundle.contextual) && Registered(c) == ClaimSlot(r, t, e.now, e.scopeKey, e.policy) {
      TaggedHas(r.bundle.contextual, t);
      ClaimShown(r, e, c, t, score, reasons);
    } else {
      NeitherFeatureNorClaim(r, e, Registered(c));
      BriefShown(r, e, c, score, reasons);
    }
  }

  lemma TaggedHas(ctx: Contextual, t: TaggedClaim)
    requires t in TaggedClaims(ctx)
    ensures HasClaim(ctx, t.family, t.claim)
  {
  }

  lemma FeatureShown(r: Record, e: Setting, c: Candidate, f: Feature, score: Option<int>, reasons: seq<Reason>)
    requires f in r.bundle.features && Registered(c) == FeatureSlot(r, f, e.now, e.scopeKey, e.policy) && WellFormed(r)
    ensures var shown := Normalized(c.(score := score, reasons := reasons));
            GroupOf(shown) == Deterministic && Shows(r, Deterministic, shown) && IsOrigin(r, c.origin)
  {
    hide Rejection, SourceQuality, Score, ComputedLifecycle, SortIds, SortedCopy, StaleReasons;
    SortIdsCopy(f.inputLineage);
    SortIdsCopy(f.warnings);
    assert ShowsFeature(r, Normalized(c.(score := score, reasons := reasons)), f);
  }

  lemma ClaimShown(r: Record, e: Setting, c: Candidate, t: TaggedClaim, score: Option<int>, reasons: seq<Reason>)
    requires HasClaim(r.bundle.contextual, t.family, t.claim) && Registered(c) == ClaimSlot(r, t, e.now, e.scopeKey, e.policy)
    ensures var shown := Normalized(c.(score := score, reasons := reasons));
            && GroupOf(shown) == ClaimsOf(t.family) && Shows(r, ClaimsOf(t.family), shown) && IsOrigin(r, c.origin)
            && ClaimsOf(t.family) in Groups()
  {
    hide Rejection, SourceQuality, Score, BundleWeight, SortIds, SortedCopy, StaleReasons;
    SortIdsCopy(t.claim.sourceReferenceIds);
    assert ShowsClaim(r, Normalized(c.(score := score, reasons := reasons)), t.family, t.claim);
  }

  lemma BriefShown(r: Record, e: Setting, c: Candidate, score: Option<int>, reasons: seq<Reason>)
    requires Registered(c) == BriefSlot(r, e.now, e.scopeKey, e.policy)
    ensures var shown := Normalized(c.(score := score, reasons := reasons));
            GroupOf(shown) == Briefs && Shows(r, Briefs, shown) && IsOrigin(r, c.origin)
  {
    hide Rejection, SourceQuality, BundleWeight, SortIds, SortedCopy;
    var b := r.bundle.brief.value;
    SortIdsCopy(b.sourceEvidenceIds);
    SortIdsCopy(b.keyFindings);
    SortIdsCopy(b.uncertainties);
    assert ShowsBrief(r, Normalized(c.(score := score, reasons := reasons)), b);
  }

  /** Every selected item shows an item of some record as its including decision says. */
  lemma SelectedAreIncluded(rs: seq<Record>, e: Setting, res: Result, group: Group, c: Candidate)
    requires Stored(rs) && Correct(rs, e, res) && group in res.selected && c in res.selected[group]
    ensures exists r, d :: r in rs && Shows(r, group, c) && d in res.decisions && d.included && Repeats(c, d)
  {
    hide Stored, SlotsOf, Chosen, Shows, Decide, Normalized, GroupOf, Groups, Accounted, AreWarnings, DecisionOrder, IdOrderOfCandidates,
      AreConflicts, IsMode, LastIncluded, RecordOutcomes;
    var s, confidence := SlotsOf(rs, e), Confidence(rs);
    var chosen := Chosen(s, e.policy, confidence);
    assert IsSelection(chosen, group, res.selected[group]);
    var id :| id in chosen && GroupOf(chosen[id]) == group && c == Normalized(chosen[id]);
    var r, d := ChosenShown(rs, e, res, id);
  }

  lemma ChosenShown(rs: seq<Record>, e: Setting, res: Result, id: CandidateId) returns (r: Record, d: Decision)
    requires Stored(rs) && Correct(rs, e, res) && id in Chosen(SlotsOf(rs, e), e.policy, Confidence(rs))
    ensures var c := Chosen(SlotsOf(rs, e), e.policy, Confidence(rs))[id];
            && r in rs && Shows(r, GroupOf(c), Normalized(c)) && d in res.decisions && d.included && Repeats(Normalized(c), d)
            && c.id == d.id == id && GroupOf(c) in Groups() && id.bundleHash == r.evidenceHash
  {
    hide Stored, SlotsOf, Chosen, Shows, Decide, Normalized, GroupOf, Groups, Accounted, AreWarnings, DecisionOrder, RecordOutcomes,
      Presents, WellFormed;
    var s, confidence := SlotsOf(rs, e), Confidence(rs);
    ChosenEntry(s, e.policy, confidence, id);
    var x := CandidateOf(s, id);
    d := Decide(s, e.policy, confidence, Registered(x));
    assert d in res.decisions;
    r := SlotRecord(rs, e, Registered(x));
    RecordWellFormed(rs, r);
    TidyShows(r, e, x, d.score, d.reasons);
    NormalizedGroups(Select(x, d));
    DecisionRepeats(s, e.policy, confidence, x);
    SlotNamedBy(rs, e, r, x);
  }

  lemma ChosenEntry(s: set<Outcome>, policy: Policy, confidence: map<string, int>, id: CandidateId)
    requires id in Chosen(s, policy, confidence)
    ensures IsRegistered(s, id)
    ensures var d := Decide(s, policy, confidence, Registered(CandidateOf(s, id)));
            d.included && d.id == id && Chosen(s, policy, confidence)[id] == Select(CandidateOf(s, id), d)
  {
    hide Decide;
    DecideId(s, policy, confidence, Registered(CandidateOf(s, id)));
  }

  lemma SlotRecord(rs: seq<Record>, e: Setting, o: Outcome) returns (r: Record)
    requires o in SlotsOf(rs, e)
    ensures r in rs && o in OutcomesOf(r, e)
  {
    hide RecordOutcomes;
    r :| r in rs && o in OutcomesOf(r, e);
  }

  lemma SlotNamedBy(rs: seq<Record>, e: Setting, r: Record, c: Candidate)
    requires Stored(rs) && r in rs && Registered(c) in OutcomesOf(r, e)
    ensures c.id.bundleHash == r.evidenceHash
  {
    hide RecordOutcomes, Lineage.UniqueIds, WellFormed, WellKinded;
    RecordSlotsDistinct(r, e);
    assert NamesSlot(r, Registered(c).Id());
  }

  lemma RecordWellFormed(rs: seq<Record>, r: Record)
    requires Stored(rs) && r in rs
    ensures WellFormed(r)
  {
  }

  lemma NormalizedGroups(c: Candidate)
    ensures GroupOf(Normalized(c)) == GroupOf(c) && Normalized(c).id == c.id
  {
  }

  lemma DecisionRepeats(s: set<Outcome>, policy: Policy, confidence: map<string, int>, c: Candidate)
    ensures var d := Decide(s, policy, confidence, Registered(c));
            Repeats(Normalized(Select(c, d)), d)
  {
    hide Preliminary, Survivors, Missing, BriefScore, SortIds, InclusionReasons;
  }

  /** Every including decision has its item in the list of its group. */
  lemma IncludedAreSelected(rs: seq<Record>, e: Setting, res: Result, d: Decision)
    requires Stored(rs) && Correct(rs, e, res) && d in res.decisions && d.included
    ensures exists r, group, c :: r in rs && group in res.selected && c in res.selected[group] && Shows(r, group, c) && Repeats(c, d)
  {
    hide Stored, SlotsOf, Chosen, Shows, Normalized, GroupOf, Groups, Accounted, AreWarnings, DecisionOrder, IdOrderOfCandidates,
      AreConflicts, IsMode, LastIncluded, RecordOutcomes, Decide;
    var chosen := Chosen(SlotsOf(rs, e), e.policy, Confidence(rs));
    ChosenIsIncluded(rs, e, res, d.id);
    assert d.id in chosen;
    var r, x := ChosenShown(rs, e, res, d.id);
    SameDecision(rs, e, res, d, x);
    var group := GroupOf(chosen[d.id]);
    assert IsSelection(chosen, group, res.selected[group]);
    assert Normalized(chosen[d.id]) in res.selected[group];
  }

  lemma SameDecision(rs: seq<Record>, e: Setting, res: Result, d: Decision, x: Decision)
    requires Stored(rs) && Correct(rs, e, res) && d in res.decisions && x in res.decisions && d.id == x.id
    ensures d == x
  {
    hide Stored, SlotsOf, Decide, Accounted, Presents, AreWarnings, DecisionOrder;
    DecisionsHaveDistinctIds(res.decisions);
    var i :| 0 <= i < |res.decisions| && res.decisions[i] == d;
    var j :| 0 <= j < |res.decisions| && res.decisions[j] == x;
  }

  // ---------- The attached brief ----------

  /** The last of the ids that is chosen. */
  lemma {:induction false} LastIncludedIs(chosen: map<CandidateId, Candidate>, ids: seq<CandidateId>)
    ensures LastIncluded(chosen, ids).None? <==> forall i :: 0 <= i < |ids| ==> ids[i] !in chosen
    ensures LastIncluded(chosen, ids).Some? ==>
              exists k :: 0 <= k < |ids| && ids[k] in chosen && chosen[ids[k]] == LastIncluded(chosen, ids).value
                          && forall i :: k < i < |ids| ==> ids[i] !in chosen
  {
    if ids != [] && ids[|ids| - 1] !in chosen {
      var front := ids[..|ids| - 1];
      LastIncludedIs(chosen, front);
      assert forall i :: 0 <= i < |front| ==> ids[i] == front[i];
    }
  }

  /** An included brief is its record's entry in the brief order. */
  lemma BriefPlaced(rs: seq<Record>, e: Setting, res: Result, sorted: seq<Record>, d: Decision) returns (i: nat)
    requires Stored(rs) && Correct(rs, e, res) && d in res.decisions && d.included && d.id.kind == BriefKind
    requires sorted == SortBy(RecordBefore, rs)
    ensures i < |sorted| && sorted[i] in rs && BriefOrder(sorted)[i] == d.id && sorted[i].evidenceHash == d.id.bundleHash
  {
    hide Stored, SlotsOf, Chosen, RecordOutcomes, Decide, RecordBefore, Accounted, Presents, AreWarnings, DecisionOrder;
    SortKeepsRecords(rs, e);
    var o :| o in SlotsOf(rs, e) && d == Decide(SlotsOf(rs, e), e.policy, Confidence(rs), o);
    DecideId(SlotsOf(rs, e), e.policy, Confidence(rs), o);
    var r := SlotRecord(rs, e, o);
    BriefNamed(rs, e, r, o);
    i :| 0 <= i < |sorted| && sorted[i] == r;
  }

  lemma BriefNamed(rs: seq<Record>, e: Setting, r: Record, o: Outcome)
    requires Stored(rs) && r in rs && o in OutcomesOf(r, e) && o.Id().kind == BriefKind
    ensures o.Id() == CandidateId(r.evidenceHash, BriefKind, BriefId(r.bundle))
  {
    hide RecordOutcomes, Lineage.UniqueIds, WellFormed, WellKinded;
    RecordSlotsDistinct(r, e);
    assert NamesSlot(r, o.Id());
  }

  lemma RecordsAscend(rs: seq<Record>)
    requires Stored(rs)
    ensures StrictlySorted(RecordBefore, SortBy(RecordBefore, rs))
  {
    hide RecordBefore, RecordKey, KeyLess, WellFormed, Lineage.UniqueIds;
    RecordOrder();
    DistinctHashesKeys(rs);
    SortStrictly(RecordBefore, KeyLess, RecordKey, rs);
  }

  /** No brief is attached exactly if none is included. */
  lemma NoBriefAttached(rs: seq<Record>, e: Setting, res: Result)
    requires Stored(rs) && Correct(rs, e, res)
    ensures res.brief.None? <==> forall d :: d in res.decisions && d.included ==> d.id.kind != BriefKind
  {
    hide Stored, SlotsOf, Chosen, Decide, Normalized, Accounted, AreWarnings, DecisionOrder, LastIncluded, IsDecisionList,
      IsSelection, AreConflicts, IsMode, RecordBefore;
    var chosen := Chosen(SlotsOf(rs, e), e.policy, Confidence(rs));
    var sorted := SortBy(RecordBefore, rs);
    var briefs := BriefOrder(sorted);
    LastIncludedIs(chosen, briefs);
    assert res.brief.None? <==> LastIncluded(chosen, briefs).None?;
    if d :| d in res.decisions && d.included && d.id.kind == BriefKind {
      var i := BriefPlaced(rs, e, res, sorted, d);
      ChosenIsIncluded(rs, e, res, d.id);
    }
    if i :| 0 <= i < |briefs| && briefs[i] in chosen {
      ChosenIsIncluded(rs, e, res, briefs[i]);
      var d :| d in res.decisions && d.id == briefs[i] && d.included;
    }
  }

  /** The place of the attached brief in the brief order; no brief after it is included. */
  lemma AttachedAt(rs: seq<Record>, e: Setting, res: Result, sorted: seq<Record>) returns (k: nat)
    requires Stored(rs) && Correct(rs, e, res) && res.brief.Some? && sorted == SortBy(RecordBefore, rs)
    ensures var chosen := Chosen(SlotsOf(rs, e), e.policy, Confidence(rs));
            && k < |sorted| && BriefOrder(sorted)[k] in chosen && res.brief.value == Normalized(chosen[BriefOrder(sorted)[k]])
            && forall i :: k < i < |sorted| ==> !Includes(res, BriefOrder(sorted)[i])
  {
    hide Stored, SlotsOf, Chosen, Decide, Normalized, Accounted, AreWarnings, DecisionOrder, LastIncluded, IsDecisionList,
      IsSelection, AreConflicts, IsMode, RecordBefore, Includes;
    var chosen := Chosen(SlotsOf(rs, e), e.policy, Confidence(rs));
    var briefs := BriefOrder(sorted);
    LastIncludedIs(chosen, briefs);
    k :| 0 <= k < |briefs| && briefs[k] in chosen && chosen[briefs[k]] == LastIncluded(chosen, briefs).value
         && forall i :: k < i < |briefs| ==> briefs[i] !in chosen;
    forall i | k < i < |sorted|
      ensures !Includes(res, briefs[i])
    {
      ChosenIsIncluded(rs, e, res, briefs[i]);
    }
  }

  ghost predicate IncludedBriefOf(res: Result, r: Record, d: Decision) {
    d in res.decisions && d.included && d.id.kind == BriefKind && d.id.bundleHash == r.evidenceHash
  }

  /** The attached brief is that of the last record, in record order, whose brief is included. */
  lemma LastBriefAttached(rs: seq<Record>, e: Setting, res: Result) returns (r: Record, d: Decision)
    requires Stored(rs) && Correct(rs, e, res) && res.brief.Some?
    ensures r in rs && Shows(r, Briefs, res.brief.value) && d in res.decisions && d.included && Repeats(res.brief.value, d)
    ensures forall q, x :: q in rs && q != r && IncludedBriefOf(res, q, x) ==> RecordBefore(q, r)
  {
    hide Stored, Correct, SlotsOf, Chosen, Normalized, RecordBefore, Shows, GroupOf, WellFormed;
    var sorted := SortBy(RecordBefore, rs);
    var k := AttachedAt(rs, e, res, sorted);
    r, d := ChosenShown(rs, e, res, BriefOrder(sorted)[k]);
    BriefGroup(rs, e, BriefOrder(sorted)[k]);
    SortKeepsRecords(rs, e);
    RecordsAscend(rs);
    StoredIds(rs);
    assert sorted[k] in rs;
    SameHashSame(rs, sorted[k], r);
    hide StrictlySorted, Includes, Stored;
    forall q, x | q in rs && q != r && IncludedBriefOf(res, q, x)
      ensures RecordBefore(q, r)
    {
      EarlierBrief(rs, e, res, sorted, k, q, x);
    }
  }

  lemma EarlierBrief(rs: seq<Record>, e: Setting, res: Result, sorted: seq<Record>, k: nat, q: Record, x: Decision)
    requires Stored(rs) && Correct(rs, e, res) && sorted == SortBy(RecordBefore, rs) && StrictlySorted(RecordBefore, sorted)
    requires k < |sorted| && forall i :: k < i < |sorted| ==> !Includes(res, BriefOrder(sorted)[i])
    requires q in rs && q != sorted[k] && IncludedBriefOf(res, q, x)
    ensures RecordBefore(q, sorted[k])
  {
    hide Stored, Correct, RecordBefore, WellFormed;
    var i := BriefPlaced(rs, e, res, sorted, x);
    StoredIds(rs);
    SameHashSame(rs, sorted[i], q);
    assert Includes(res, BriefOrder(sorted)[i]);
  }

  lemma BriefGroup(rs: seq<Record>, e: Setting, id: CandidateId)
    requires Stored(rs) && id in Chosen(SlotsOf(rs, e), e.policy, Confidence(rs)) && id.kind == BriefKind
    ensures GroupOf(Chosen(SlotsOf(rs, e), e.policy, Confidence(rs))[id]) == Briefs
  {
    hide Stored, SlotsOf, Chosen, Decide;
    var s := SlotsOf(rs, e);
    SlotsWellSlotted(rs, e);
    ChosenEntry(s, e.policy, Confidence(rs), id);
    Kinded(s, Registered(CandidateOf(s, id)));
  }

  // ---------- Conflicts ----------

  /** The summary includes a claim of the family that points in the direction. */
  ghost predicate Points(rs: seq<Record>, res: Result, family: Family, direction: Direction, id: CandidateId) {
    Includes(res, id) && exists r, c :: r in rs && IsClaim(r, family, c, id) && c.direction == direction
  }

  ghost predicate IsClaim(r: Record, family: Family, c: Claim, id: CandidateId) {
    HasClaim(r.bundle.contextual, family, c) && id == CandidateId(r.evidenceHash, ContextualClaim, c.evidenceId)
  }

  lemma PointingIs(rs: seq<Record>, e: Setting, res: Result, family: Family, direction: Direction, id: CandidateId)
    requires Stored(rs) && Correct(rs, e, res)
    ensures id in Pointing(Chosen(SlotsOf(rs, e), e.policy, Confidence(rs)), family, direction) <==> Points(rs, res, family, direction, id)
  {
    hide Stored, Correct, SlotsOf, Chosen, Normalized, GroupOf, Includes, IsClaim, Shows;
    var chosen := Chosen(SlotsOf(rs, e), e.policy, Confidence(rs));
    ChosenIsIncluded(rs, e, res, id);
    if id in chosen {
      var r, d := ChosenShown(rs, e, res, id);
      ClaimDirection(rs, r, family, direction, chosen[id]);
    }
  }

  /** The claim that an item shows is the only one with its id. */
  lemma ClaimDirection(rs: seq<Record>, r: Record, family: Family, direction: Direction, x: Candidate)
    requires Stored(rs) && r in rs && Shows(r, GroupOf(x), Normalized(x)) && x.id.bundleHash == r.evidenceHash
    ensures GroupOf(x) == ClaimsOf(family) && x.direction == direction <==>
            exists q, c :: q in rs && IsClaim(q, family, c, x.id) && c.direction == direction
  {
    hide Stored, Normalized, GroupOf, IsClaim, Shows;
    ShownClaim(r, x, family);
    if q, c :| q in rs && IsClaim(q, family, c, x.id) && c.direction == direction {
      SameClaim(rs, q, r, family, c, x);
    }
  }

  /** What is shown as a claim of the family is one of the record's claims in it, with its direction. */
  lemma ShownClaim(r: Record, x: Candidate, family: Family)
    requires Shows(r, GroupOf(x), Normalized(x))
    ensures GroupOf(x) == ClaimsOf(family) ==> exists c :: IsClaim(r, family, c, x.id) && c.direction == x.direction
  {
    hide SortedCopy, HasClaim, SortIds;
    if GroupOf(x) == ClaimsOf(family) {
      var c :| ShowsClaim(r, Normalized(x), family, c);
      assert IsClaim(r, family, c, x.id);
    }
  }

  /** Ids are unique within a bundle, so an id names one claim. */
  lemma SameClaim(rs: seq<Record>, q: Record, r: Record, family: Family, c: Claim, x: Candidate)
    requires Stored(rs) && q in rs && r in rs && IsClaim(q, family, c, x.id)
    requires Shows(r, GroupOf(x), Normalized(x)) && x.id.bundleHash == r.evidenceHash
    ensures GroupOf(x) == ClaimsOf(family) && x.direction == c.direction
  {
    hide SortedCopy, HasClaim, SortIds, WellFormed, Lineage.UniqueIds;
    SameHashSame(rs, q, r);
    assert GroupOf(x).ClaimsOf?;
    var y :| ShowsClaim(r, Normalized(x), GroupOf(x).family, y);
    ClaimsApart(r, family, c, GroupOf(x).family, y);
  }

  lemma ClaimsApart(r: Record, f: Family, c: Claim, g: Family, d: Claim)
    requires Lineage.UniqueIds(r.bundle) && c.evidenceId == d.evidenceId
    requires HasClaim(r.bundle.contextual, f, c) && HasClaim(r.bundle.contextual, g, d)
    ensures f == g && c == d
  {
    hide HasClaim, AllClaims, TaggedClaims;
    HasClaimTagged(r.bundle.contextual, f, c);
    HasClaimTagged(r.bundle.contextual, g, d);
    var ts := TaggedClaims(r.bundle.contextual);
    ClaimIdsTagged(r.bundle.contextual);
    var i :| 0 <= i < |ts| && ts[i] == TaggedClaim(f, c);
    var j :| 0 <= j < |ts| && ts[j] == TaggedClaim(g, d);
    assert ClaimIds(AllClaims(r.bundle.contextual))[i] == ClaimIds(AllClaims(r.bundle.contextual))[j];
  }

  /** A listing of decided ids with the score of each. */
  ghost predicate ScoredListing(res: Result, ids: seq<CandidateId>, scores: seq<int>) {
    && NoDuplicates(ids) && |scores| == |ids|
    && forall i :: 0 <= i < |ids| ==> ScoredAt(res, ids[i], scores[i])
  }

  ghost predicate ScoredAt(res: Result, id: CandidateId, score: int) {
    exists d :: d in res.decisions && d.id == id && d.included && d.score == Some(score)
  }

  lemma NothingListed(res: Result)
    ensures ScoredListing(res, [], []) && SetOf<CandidateId>([]) == {} && Sum([]) == 0
  {
  }

  lemma ExtendListing(res: Result, ids: seq<CandidateId>, scores: seq<int>, id: CandidateId, score: int)
    requires ScoredListing(res, ids, scores) && id !in SetOf(ids) && ScoredAt(res, id, score)
    ensures ScoredListing(res, ids + [id], scores + [score])
    ensures SetOf(ids + [id]) == SetOf(ids) + {id} && Sum(scores + [score]) == Sum(scores) + score
  {
    hide ScoredAt;
    assert (scores + [score])[..|scores|] == scores;
    assert forall i :: 0 <= i < |ids| ==> ids[i] in SetOf(ids);
  }

  /** The total over a set of included claims is the sum over any listing of it; here is one. */
  lemma {:induction false} TotalListed(rs: seq<Record>, e: Setting, res: Result, todo: set<CandidateId>)
    returns (ids: seq<CandidateId>, scores: seq<int>)
    requires Stored(rs) && Correct(rs, e, res)
    requires todo <= Chosen(SlotsOf(rs, e), e.policy, Confidence(rs)).Keys && forall id :: id in todo ==> id.kind != BriefKind
    ensures ScoredListing(res, ids, scores) && SetOf(ids) == todo
    ensures Sum(scores) == TotalScore(Chosen(SlotsOf(rs, e), e.policy, Confidence(rs)), todo)
    decreases |todo|
  {
    hide Stored, Correct, SlotsOf, Chosen, ScoredAt, Keyed, SetOf;
    var chosen := Chosen(SlotsOf(rs, e), e.policy, Confidence(rs));
    if todo == {} {
      NothingListed(res);
      ids, scores := [], [];
    } else {
      var id :| id in todo;
      TotalScoreAny(chosen, todo, id);
      var ids0, scores0 := TotalListed(rs, e, res, todo - {id});
      ChosenScored(rs, e, res, id);
      ExtendListing(res, ids0, scores0, id, ScoreOf(chosen[id]));
      ids, scores := ids0 + [id], scores0 + [ScoreOf(chosen[id])];
    }
  }

  lemma ChosenScored(rs: seq<Record>, e: Setting, res: Result, id: CandidateId)
    requires Stored(rs) && Correct(rs, e, res) && id in Chosen(SlotsOf(rs, e), e.policy, Confidence(rs)) && id.kind != BriefKind
    ensures ScoredAt(res, id, ScoreOf(Chosen(SlotsOf(rs, e), e.policy, Confidence(rs))[id]))
  {
    hide Stored, SlotsOf, Chosen, Decide, Accounted, Presents, AreWarnings, DecisionOrder;
    var s, confidence := SlotsOf(rs, e), Confidence(rs);
    SlotsWellSlotted(rs, e);
    ChosenEntry(s, e.policy, confidence, id);
    Kinded(s, Registered(CandidateOf(s, id)));
    SurvivorDecision(s, e.policy, confidence, CandidateOf(s, id));
    assert Decide(s, e.policy, confidence, Registered(CandidateOf(s, id))) in res.decisions;
  }

  /** The scores of the included claims of the family in the direction add up to the total. */
  ghost predicate AddsUp(rs: seq<Record>, res: Result, family: Family, direction: Direction, total: int) {
    exists ids, scores :: ScoredListing(res, ids, scores) && Sum(scores) == total
                          && forall id :: id in ids <==> Points(rs, res, family, direction, id)
  }

  /** The gap between the totals in basis points of their sum, rounded down. */
  predicate IsConsensus(consensus: int, bullish: int, bearish: int) {
    var total := bullish + bearish;
    var gap := if bullish < bearish then bearish - bullish else bullish - bearish;
    if total == 0 then consensus == 0 else consensus * total <= gap * 10_000 < (consensus + 1) * total
  }

  lemma ConsensusIsFloor(bullish: int, bearish: int)
    requires bullish + bearish >= 0
    ensures IsConsensus(Consensus(bullish, bearish), bullish, bearish)
  {
    var total := bullish + bearish;
    if total != 0 {
      FloorAverage(Abs(bullish - bearish) * BPS, total);
    }
  }

  /** What a listed conflict says: who is affected, both totals, and the consensus between them. */
  lemma ConflictVerdict(rs: seq<Record>, e: Setting, res: Result, c: Conflict)
    requires Stored(rs) && Correct(rs, e, res) && PolicyAccepted(e.policy) && c in res.conflicts
    ensures forall id :: id in c.affected <==>
              Points(rs, res, c.family, Bullish, id) || Points(rs, res, c.family, Bearish, id)
    ensures exists id :: Points(rs, res, c.family, Bullish, id)
    ensures exists id :: Points(rs, res, c.family, Bearish, id)
    ensures AddsUp(rs, res, c.family, Bullish, c.bullish) && AddsUp(rs, res, c.family, Bearish, c.bearish)
    ensures IsConsensus(c.consensus, c.bullish, c.bearish)
  {
    hide Stored, SlotsOf, Chosen, Points, Accounted, AreWarnings, IsDecisionList, IsSelection, IsMode, TotalScore, Consensus,
      LastIncluded, IdBefore, AddsUp, IsConsensus, Pointing, PolicyAccepted;
    var chosen := Chosen(SlotsOf(rs, e), e.policy, Confidence(rs));
    assert IsConflict(chosen, c);
    forall id, direction
      ensures id in Pointing(chosen, c.family, direction) <==> Points(rs, res, c.family, direction, id)
    {
      PointingIs(rs, e, res, c.family, direction, id);
    }
    assert forall id :: id in c.affected <==> id in SetOf(c.affected);
    DirectionAddsUp(rs, e, res, c.family, Bullish);
    DirectionAddsUp(rs, e, res, c.family, Bearish);
    ConsensusIsFloor(c.bullish, c.bearish);
  }

  lemma DirectionAddsUp(rs: seq<Record>, e: Setting, res: Result, family: Family, direction: Direction)
    requires Stored(rs) && Correct(rs, e, res) && PolicyAccepted(e.policy)
    ensures var chosen := Chosen(SlotsOf(rs, e), e.policy, Confidence(rs));
            var total := TotalScore(chosen, Pointing(chosen, family, direction));
            AddsUp(rs, res, family, direction, total) && total >= 0
  {
    hide Stored, Correct, SlotsOf, Chosen, Points, TotalScore, GroupOf, ScoredListing, PolicyAccepted;
    var chosen := Chosen(SlotsOf(rs, e), e.policy, Confidence(rs));
    var todo := Pointing(chosen, family, direction);
    forall id
      ensures id in todo <==> Points(rs, res, family, direction, id)
    {
      PointingIs(rs, e, res, family, direction, id);
    }
    forall id | id in todo
      ensures id.kind != BriefKind
    {
      ClaimKind(rs, res, family, direction, id);
    }
    var ids, scores := TotalListed(rs, e, res, todo);
    assert forall id :: id in ids <==> id in SetOf(ids);
    ListingNonNegative(rs, e, res, ids, scores);
  }

  lemma ClaimKind(rs: seq<Record>, res: Result, family: Family, direction: Direction, id: CandidateId)
    requires Points(rs, res, family, direction, id)
    ensures id.kind != BriefKind
  {
  }

  lemma {:induction false} ListingNonNegative(rs: seq<Record>, e: Setting, res: Result, ids: seq<CandidateId>,
      scores: seq<int>)
    requires Stored(rs) && Correct(rs, e, res) && PolicyAccepted(e.policy) && ScoredListing(res, ids, scores)
    ensures Sum(scores) >= 0
  {
    hide Stored, Correct, SlotsOf, PolicyAccepted;
    if ids != [] {
      var n := |ids| - 1;
      assert ScoredAt(res, ids[n], scores[n]);
      var d :| d in res.decisions && d.id == ids[n] && d.included && d.score == Some(scores[n]);
      DecisionInRange(rs, e, res, d);
      ListingNonNegative(rs, e, res, ids[..n], scores[..n]);
    }
  }

  lemma DecisionInRange(rs: seq<Record>, e: Setting, res: Result, d: Decision)
    requires Stored(rs) && Correct(rs, e, res) && PolicyAccepted(e.policy) && d in res.decisions
    ensures ScoreInRange(d.score)
  {
    hide Stored, SlotsOf, Decide, PolicyAccepted, ScoreInRange, Accounted, Presents, AreWarnings, DecisionOrder;
    SlotsWellSlotted(rs, e);
    SlotScoresInRange(rs, e);
    var o :| o in SlotsOf(rs, e) && d == Decide(SlotsOf(rs, e), e.policy, Confidence(rs), o);
    DecideInRange(SlotsOf(rs, e), e.policy, Confidence(rs), o);
  }

  // ---------- Orders ----------

  /** Digests have one length. */
  ghost predicate OneLength(rs: seq<Record>, n: nat) {
    forall r :: r in rs ==> |r.evidenceHash| == n
  }

  lemma DecidedHash(rs: seq<Record>, e: Setting, res: Result, d: Decision, n: nat)
    requires Stored(rs) && Correct(rs, e, res) && OneLength(rs, n) && d in res.decisions
    ensures |d.id.bundleHash| == n
  {
    hide SlotsOf, Decide, RecordOutcomes, Accounted, Presents, AreWarnings, DecisionOrder, WellFormed, Lineage.UniqueIds, WellKinded;
    var o :| o in SlotsOf(rs, e) && d == Decide(SlotsOf(rs, e), e.policy, Confidence(rs), o);
    DecideId(SlotsOf(rs, e), e.policy, Confidence(rs), o);
    var r := SlotRecord(rs, e, o);
    RecordSlotsDistinct(r, e);
    assert NamesSlot(r, o.Id());
  }

  /** Decisions ascend by the texts of their ids. */
  lemma DecisionsAscend(rs: seq<Record>, e: Setting, res: Result, n: nat, i: nat, j: nat)
    requires Stored(rs) && Correct(rs, e, res) && OneLength(rs, n) && i < j < |res.decisions|
    ensures Ascends(IdText(res.decisions[i].id), IdText(res.decisions[j].id))
  {
    hide Stored, SlotsOf, Decide, Accounted, Presents, AreWarnings, IdBefore, IdText, Ascends;
    DecidedHash(rs, e, res, res.decisions[i], n);
    DecidedHash(rs, e, res, res.decisions[j], n);
    assert DecisionOrder(res.decisions[i], res.decisions[j]);
    IdTextOrder(res.decisions[i].id, res.decisions[j].id);
  }

  /** So do the selected items of a group. */
  lemma SelectedAscend(rs: seq<Record>, e: Setting, res: Result, n: nat, group: Group, i: nat, j: nat)
    requires Stored(rs) && Correct(rs, e, res) && OneLength(rs, n) && group in res.selected && i < j < |res.selected[group]|
    ensures Ascends(IdText(res.selected[group][i].id), IdText(res.selected[group][j].id))
  {
    hide Stored, SlotsOf, Chosen, Decide, Accounted, AreWarnings, IdBefore, IdText, Ascends, Normalized, GroupOf, IsDecisionList,
      AreConflicts, IsMode, LastIncluded, Groups, Shows;
    var a, b := res.selected[group][i], res.selected[group][j];
    assert IsSelection(Chosen(SlotsOf(rs, e), e.policy, Confidence(rs)), group, res.selected[group]);
    SelectedHash(rs, e, res, n, group, a);
    SelectedHash(rs, e, res, n, group, b);
    assert IdOrderOfCandidates(a, b);
    IdTextOrder(a.id, b.id);
  }

  lemma SelectedHash(rs: seq<Record>, e: Setting, res: Result, n: nat, group: Group, c: Candidate)
    requires Stored(rs) && Correct(rs, e, res) && OneLength(rs, n) && group in res.selected && c in res.selected[group]
    ensures |c.id.bundleHash| == n
  {
    hide Stored, Correct, Shows;
    SelectedAreIncluded(rs, e, res, group, c);
    var r, d :| r in rs && Shows(r, group, c) && d in res.decisions && d.included && Repeats(c, d);
    DecidedHash(rs, e, res, d, n);
  }

  /** Affected claims ascend by the texts of their ids. */
  lemma AffectedAscend(rs: seq<Record>, e: Setting, res: Result, n: nat, c: Conflict, i: nat, j: nat)
    requires Stored(rs) && Correct(rs, e, res) && OneLength(rs, n) && c in res.conflicts && i < j < |c.affected|
    ensures Ascends(IdText(c.affected[i]), IdText(c.affected[j]))
  {
    hide Stored, SlotsOf, Chosen, Accounted, AreWarnings, IsDecisionList, IsSelection, IsMode, TotalScore, Consensus, LastIncluded,
      IdBefore, Pointing, Ascends, IdText, Points;
    var chosen := Chosen(SlotsOf(rs, e), e.policy, Confidence(rs));
    assert IsConflict(chosen, c);
    AffectedHash(rs, e, res, n, c, c.affected[i]);
    AffectedHash(rs, e, res, n, c, c.affected[j]);
    assert IdBefore(c.affected[i], c.affected[j]);
    IdTextOrder(c.affected[i], c.affected[j]);
  }

  lemma AffectedHash(rs: seq<Record>, e: Setting, res: Result, n: nat, c: Conflict, id: CandidateId)
    requires Stored(rs) && Correct(rs, e, res) && OneLength(rs, n) && c in res.conflicts && id in c.affected
    ensures |id.bundleHash| == n
  {
    hide Stored, SlotsOf, Chosen, Accounted, AreWarnings, IsDecisionList, IsSelection, IsMode, TotalScore, Consensus, LastIncluded,
      IdBefore;
    var chosen := Chosen(SlotsOf(rs, e), e.policy, Confidence(rs));
    assert IsConflict(chosen, c);
    assert id in SetOf(c.affected);
    ChosenIsIncluded(rs, e, res, id);
    var d :| d in res.decisions && d.id == id && d.included;
    DecidedHash(rs, e, res, d, n);
  }

  /** The place of a conflict's family by its message. */
  function MessagePlace(family: Family): nat {
    match family
    case Derivatives => 0
    case Events => 1
    case Flows => 2
    case NewsRegulatory => 3
    case _ => 4
  }

  lemma MessagesAscend(f: Family, g: Family)
    requires f in CONTEXTUAL && g in CONTEXTUAL && StringLess(ConflictMessage(f), ConflictMessage(g))
    ensures MessagePlace(f) < MessagePlace(g)
  {
    hide StringLess;
    var rest := " has conflicting bullish and bearish claims";
    assert ConflictMessage(f) == "Family " + (FamilyName(f) + rest) && ConflictMessage(g) == "Family " + (FamilyName(g) + rest);
    SharedFront("Family ", FamilyName(f) + rest, FamilyName(g) + rest);
    FirstDecides(f, g, rest);
  }

  lemma FirstDecides(f: Family, g: Family, rest: string)
    requires f in CONTEXTUAL && g in CONTEXTUAL && StringLess(FamilyName(f) + rest, FamilyName(g) + rest)
    ensures MessagePlace(f) < MessagePlace(g)
  {
    assert (FamilyName(f) + rest)[0] == FamilyName(f)[0] && (FamilyName(g) + rest)[0] == FamilyName(g)[0];
    if f == g {
      StringIrreflexive(FamilyName(f) + rest);
    }
  }

  /** Conflicts are listed in the order derivatives, events, flows, news, support and resistance. */
  lemma ConflictsAscend(rs: seq<Record>, e: Setting, res: Result, i: nat, j: nat)
    requires Correct(rs, e, res) && i < j < |res.conflicts|
    ensures MessagePlace(res.conflicts[i].family) < MessagePlace(res.conflicts[j].family)
  {
    hide SlotsOf, Chosen, Accounted, AreWarnings, IsDecisionList, IsSelection, IsMode, LastIncluded, Clashes, TotalScore, Consensus,
      Pointing, StringLess, ConflictMessage, MessagePlace;
    var chosen := Chosen(SlotsOf(rs, e), e.policy, Confidence(rs));
    assert IsConflict(chosen, res.conflicts[i]) && IsConflict(chosen, res.conflicts[j]);
    assert ConflictOrder(res.conflicts[i], res.conflicts[j]);
    MessagesAscend(res.conflicts[i].family, res.conflicts[j].family);
  }

  /** Where a warning belongs: by code, then by the family it names. */
  ghost predicate WarningAt(w: Warning, i: nat, j: nat) {
    var codes := [StaleInput, ConflictedFamily, MissingFamily, RejectedFamily, NoSelectedResearch];
    var groups := [Deterministic, ClaimsOf(SupportResistance), ClaimsOf(Flows), ClaimsOf(Derivatives), ClaimsOf(Events), ClaimsOf(NewsRegulatory)];
    && i < |codes| && codes[i] == w.code
    && (if w.group.Some? && w.group != Some(Briefs) then j < |groups| && w.group == Some(groups[j]) else j == 0)
  }

  /** Warnings are listed by code, and those of one code by family. */
  lemma WarningsAscend(rs: seq<Record>, e: Setting, res: Result, k: nat, l: nat, a: nat, b: nat, c: nat, d: nat)
    requires Correct(rs, e, res) && k < l < |res.warnings|
    requires WarningAt(res.warnings[k], a, b) && WarningAt(res.warnings[l], c, d)
    ensures a < c || (a == c && b < d)
  {
    hide SlotsOf, Chosen, Accounted, Presents, IsDecisionList, StaleSelected, FamilyWarns;
    var v, w := res.warnings[k], res.warnings[l];
    assert v in res.warnings && w in res.warnings;
    assert WarningOrder(v, w);
  }

  /** Source references ascend by publisher, source, hash and reference id. */
  lemma ReferencesAscend(rs: seq<Record>, e: Setting, res: Result, i: nat, j: nat)
    requires Correct(rs, e, res) && i < j < |res.sourceReferences|
    ensures var a, b := res.sourceReferences[i], res.sourceReferences[j];
            TupleAscends([a.origin.publisher, a.origin.sourceId, a.bundleHash, a.reference.referenceId],
                         [b.origin.publisher, b.origin.sourceId, b.bundleHash, b.reference.referenceId])
  {
    hide SlotsOf, Chosen, Summarizes, StringLess, Ascends;
    UnionOf(rs, e, res);
    var a, b := res.sourceReferences[i], res.sourceReferences[j];
    assert UseOrder(a, b);
    var p := [a.origin.publisher, a.origin.sourceId, a.bundleHash, a.reference.referenceId];
    var q := [b.origin.publisher, b.origin.sourceId, b.bundleHash, b.reference.referenceId];
    var k := if p[0] != q[0] then 0 else if p[1] != q[1] then 1 else if p[2] != q[2] then 2 else 3;
    StringsAscend(p[k], q[k]);
    assert p[..k] == q[..k];
  }

  /** Bundles ascend by publisher, source and hash. */
  lemma BundlesAscend(rs: seq<Record>, e: Setting, res: Result, i: nat, j: nat)
    requires Correct(rs, e, res) && i < j < |res.bundles|
    ensures var a, b := res.bundles[i], res.bundles[j];
            TupleAscends([a.origin.publisher, a.origin.sourceId, a.bundleHash], [b.origin.publisher, b.origin.sourceId, b.bundleHash])
  {
    hide SlotsOf, Chosen, Summarizes, StringLess, Ascends, LineageOf;
    var a, b := res.bundles[i], res.bundles[j];
    assert ListsBundles(rs, e.now, e.scopeKey, e.policy, res.bundles);
    assert BundleOrder(a, b);
    var p, q := [a.origin.publisher, a.origin.sourceId, a.bundleHash], [b.origin.publisher, b.origin.sourceId, b.bundleHash];
    var k := if p[0] != q[0] then 0 else if p[1] != q[1] then 1 else 2;
    StringsAscend(p[k], q[k]);
    assert p[..k] == q[..k];
  }
}
