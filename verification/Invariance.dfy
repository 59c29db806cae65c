/** The selection result does not depend on any input order: not of records, nor of items or references inside a bundle. */
module Invariance {
  import opened Evidence
  import opened Sorting
  import opened Graphs
  import Lineage
  import opened Candidates
  import opened Ranking
  import opened SelectionSpec
  import opened Selection
  import opened SourceUnion
  import opened Coverage
  import opened Summary
  import opened Conflicts
  import opened Warnings
  import opened Reporting
  import opened Slots
  import opened Selector

  // ---------- The specification determines the result ----------

  lemma DecisionsUnique(s: set<Outcome>, policy: Policy, confidence: map<string, int>, a: seq<Decision>,
      b: seq<Decision>)
    requires IsDecisionList(s, policy, confidence, a) && IsDecisionList(s, policy, confidence, b)
    ensures a == b
  {
    hide Decide, DecisionOrder, KeyLess, IdKey;
    DecisionIdOrder();
    KeysGiveWeakOrder(DecisionOrder, KeyLess, (d: Decision) => IdKey(d.id));
    SortedUnique(DecisionOrder, a, b);
  }

  lemma SelectionUnique(chosen: map<CandidateId, Candidate>, g: Group, a: seq<Candidate>, b: seq<Candidate>)
    requires IsSelection(chosen, g, a) && IsSelection(chosen, g, b)
    ensures a == b
  {
    hide GroupOf, Normalized, IdOrderOfCandidates, KeyLess, IdKey;
    CandidateIdOrder();
    KeysGiveWeakOrder(IdOrderOfCandidates, KeyLess, (c: Candidate) => IdKey(c.id));
    SortedUnique(IdOrderOfCandidates, a, b);
  }

  lemma ModeUnique(chosen: map<CandidateId, Candidate>, brief: bool, a: Mode, b: Mode)
    requires IsMode(chosen, brief, a) && IsMode(chosen, brief, b)
    ensures a == b
  {
  }

  lemma PresentationUnique(chosen: map<CandidateId, Candidate>, briefs: seq<CandidateId>, a: Result, b: Result)
    requires Presents(chosen, briefs, a) && Presents(chosen, briefs, b)
    ensures a.selected == b.selected && a.counts == b.counts && a.brief == b.brief
    ensures a.conflicts == b.conflicts && a.mode == b.mode
  {
    hide IsSelection, Groups, AreConflicts, IsMode, LastIncluded;
    forall g | g in Groups()
      ensures a.selected[g] == b.selected[g] && a.counts[g] == b.counts[g]
    {
      SelectionUnique(chosen, g, a.selected[g], b.selected[g]);
    }
    assert a.selected == b.selected && a.counts == b.counts;
    ConflictsUnique(chosen, a.conflicts, b.conflicts);
    ModeUnique(chosen, a.brief.Some?, a.mode, b.mode);
  }

  /** At most one summary meets the specification, apart from the accounts. */
  lemma SummaryUnique(s: set<Outcome>, policy: Policy, confidence: map<string, int>, briefs: seq<CandidateId>,
      a: Result, b: Result)
    requires AccountsOf(a) == AccountsOf(b)
    ensures Summarizes(s, policy, confidence, briefs, a) && Summarizes(s, policy, confidence, briefs, b) ==> a == b
  {
    hide IsDecisionList, Chosen, Presents, AreWarnings;
    if Summarizes(s, policy, confidence, briefs, a) && Summarizes(s, policy, confidence, briefs, b) {
      DecisionsUnique(s, policy, confidence, a.decisions, b.decisions);
      PresentationUnique(Chosen(s, policy, confidence), briefs, a, b);
      WarningsUnique(s, policy, Chosen(s, policy, confidence), a.brief, a.warnings, b.warnings);
    }
  }

  /** The records determine the accounts. */
  lemma AccountsUnique(rs: seq<Record>, e: Setting, a: Accounts, b: Accounts)
    requires Accounted(rs, e, a) && Accounted(rs, e, b)
    ensures a == b
  {
    hide FeaturesIn, IsUnion, ListsBundles, Chosen, SlotsOf, Confidence;
    UnionUnique(rs, Chosen(SlotsOf(rs, e), e.policy, Confidence(rs)).Keys, a.sourceReferences, b.sourceReferences);
    BundlesUnique(rs, e.now, e.scopeKey, e.policy, a.bundles, b.bundles);
  }

  // ---------- References may be permuted ----------

  function Tidy(o: Outcome): Outcome {
    match o
    case Early(_) => o
    case Registered(c) => Registered(Normalized(c))
  }

  ghost function TidyAll(s: set<Outcome>): set<Outcome> {
    set o | o in s :: Tidy(o)
  }

  lemma SortIdsFacts(ids: seq<Id>)
    ensures multiset(SortIds(ids)) == multiset(ids) && SortIds(SortIds(ids)) == SortIds(ids)
    ensures forall x :: x in SortIds(ids) <==> x in ids
  {
    StringStrictTotal();
    SortSorts(StringLess, ids);
    SortPermutation(StringLess, SortIds(ids), ids);
    forall x
      ensures x in SortIds(ids) <==> x in ids
    {
      assert x in multiset(ids) <==> x in multiset(SortIds(ids));
    }
  }

  lemma TidyWellSlotted(s: set<Outcome>)
    requires WellSlotted(s)
    ensures WellSlotted(TidyAll(s)) && SlotIds(TidyAll(s)) == SlotIds(s)
  {
    forall a, b | a in TidyAll(s) && b in TidyAll(s) && a.Id() == b.Id()
      ensures a == b
    {
      var x :| x in s && a == Tidy(x);
      var y :| y in s && b == Tidy(y);
      assert x.Id() == y.Id();
    }
    forall id
      ensures id in SlotIds(s) <==> id in SlotIds(TidyAll(s))
    {
      if o :| o in s && o.Id() == id {
        assert Tidy(o) in TidyAll(s) && Tidy(o).Id() == id;
      }
    }
    assert SlotIds(TidyAll(s)) == SlotIds(s);
  }

  lemma TidyRegistered(s: set<Outcome>, id: CandidateId)
    requires WellSlotted(s)
    ensures IsRegistered(TidyAll(s), id) <==> IsRegistered(s, id)
    ensures IsRegistered(s, id) ==> CandidateOf(TidyAll(s), id) == Normalized(CandidateOf(s, id))
  {
    var t := TidyAll(s);
    hide WellSlotted, TidyAll, Normalized;
    TidyWellSlotted(s);
    if IsRegistered(s, id) {
      TidyMember(s, CandidateOf(s, id));
      RegisteredUnique(t, Normalized(CandidateOf(s, id)));
    }
    if IsRegistered(t, id) {
      var d := TidySource(s, CandidateOf(t, id));
      KeepsFamily(d);
    }
  }

  lemma TidyMember(s: set<Outcome>, c: Candidate)
    requires Registered(c) in s
    ensures Registered(Normalized(c)) in TidyAll(s) && Normalized(c).id == c.id && Normalized(c).family == c.family
  {
    assert Tidy(Registered(c)) in TidyAll(s);
  }

  lemma TidySource(s: set<Outcome>, c: Candidate) returns (d: Candidate)
    requires Registered(c) in TidyAll(s)
    ensures Registered(d) in s && c == Normalized(d)
  {
    var o :| o in s && Tidy(o) == Registered(c);
    d := o.candidate;
  }

  lemma TidyBefore(a: Candidate, b: Candidate)
    ensures CandidateBefore(Normalized(a), Normalized(b)) <==> CandidateBefore(a, b)
    ensures forall policy :: Passes(policy, Normalized(a)) <==> Passes(policy, a)
  {
    hide StringLess;
  }

  lemma TidyAhead(s: set<Outcome>, policy: Policy, c: Candidate)
    ensures Ahead(TidyAll(s), policy, Normalized(c)) == Ahead(s, policy, c)
  {
    var t := TidyAll(s);
    hide TidyAll, Normalized, CandidateBefore, Passes;
    forall id | id in Ahead(s, policy, c)
      ensures id in Ahead(t, policy, Normalized(c))
    {
      var o :| o in s && o.Registered? && o.candidate.family == c.family && Passes(policy, o.candidate) && CandidateBefore(o.candidate, c) && o.candidate.id == id;
      TidyMember(s, o.candidate);
      TidyBefore(o.candidate, c);
      KeepsFamily(c);
      assert Registered(Normalized(o.candidate)) in t;
    }
    forall id | id in Ahead(t, policy, Normalized(c))
      ensures id in Ahead(s, policy, c)
    {
      var o :| o in t && o.Registered? && o.candidate.family == Normalized(c).family && Passes(policy, o.candidate) && CandidateBefore(o.candidate, Normalized(c)) && o.candidate.id == id;
      var d := TidySource(s, o.candidate);
      TidyBefore(d, c);
      KeepsFamily(c);
      KeepsFamily(d);
      assert Registered(d) in s;
    }
  }

  lemma KeepsFamily(c: Candidate)
    ensures Normalized(c).family == c.family && Normalized(c).id == c.id
  {
  }

  lemma TidyPreliminary(s: set<Outcome>, policy: Policy, c: Candidate)
    requires Registered(c) in s
    ensures Preliminary(TidyAll(s), policy, Normalized(c)) <==> Preliminary(s, policy, c)
  {
    TidyAhead(s, policy, c);
    TidyMember(s, c);
    TidyBefore(c, c);
    hide TidyAll, Ahead, Normalized, Passes;
  }

  lemma TidyPreliminaryIds(s: set<Outcome>, policy: Policy)
    ensures PreliminaryIds(TidyAll(s), policy) == PreliminaryIds(s, policy)
  {
    var t := TidyAll(s);
    hide TidyAll, Preliminary, Normalized;
    forall id | id in PreliminaryIds(s, policy)
      ensures id in PreliminaryIds(t, policy)
    {
      var o :| o in s && o.Registered? && Preliminary(s, policy, o.candidate) && o.candidate.id == id;
      TidyMember(s, o.candidate);
      TidyPreliminary(s, policy, o.candidate);
      assert Registered(Normalized(o.candidate)) in t;
    }
    forall id | id in PreliminaryIds(t, policy)
      ensures id in PreliminaryIds(s, policy)
    {
      var o :| o in t && o.Registered? && Preliminary(t, policy, o.candidate) && o.candidate.id == id;
      var d := TidySource(s, o.candidate);
      TidyPreliminary(s, policy, d);
      KeepsFamily(d);
      assert Registered(d) in s;
    }
  }

  lemma TidyFeatureSlotIds(s: set<Outcome>)
    requires WellSlotted(s)
    ensures FeatureSlotIds(TidyAll(s)) == FeatureSlotIds(s)
  {
    TidyWellSlotted(s);
    hide TidyAll, WellSlotted;
    assert forall u :: FeatureSlotIds(u) == set id | id in SlotIds(u) && id.kind == DeterministicFeature by {
      forall u: set<Outcome>
        ensures FeatureSlotIds(u) == set id | id in SlotIds(u) && id.kind == DeterministicFeature
      {
      }
    }
  }

  lemma TidySurvivors(s: set<Outcome>, policy: Policy)
    requires WellSlotted(s)
    ensures Survivors(TidyAll(s), policy) == Survivors(s, policy)
  {
    var t := TidyAll(s);
    var g, h := Dependencies(s), Dependencies(t);
    TidyFeatureSlotIds(s);
    TidyPreliminaryIds(s, policy);
    forall u, v
      ensures g.Edge(u, v) <==> h.Edge(u, v)
    {
      SameDependencies(s, u, v);
    }
    hide Dependencies, PreliminaryIds;
    forall u, v
      ensures g.Reaches(u, v) <==> h.Reaches(u, v)
    {
      SameEdgesSameReach(g, h, u, v);
    }
  }

  lemma SameDependencies(s: set<Outcome>, u: CandidateId, v: CandidateId)
    requires WellSlotted(s)
    ensures Dependencies(s).Edge(u, v) <==> Dependencies(TidyAll(s)).Edge(u, v)
  {
    TidyFeatureSlotIds(s);
    TidyRegistered(s, u);
    hide TidyAll, WellSlotted, FeatureSlotIds, IsRegistered;
    if IsRegistered(s, u) {
      SortIdsFacts(CandidateOf(s, u).refs);
    }
  }

  // ---------- Briefs ----------

  lemma TidyCites(s: set<Outcome>, policy: Policy, hash: string, ref: Id)
    requires WellSlotted(s)
    ensures CitesSurvivor(TidyAll(s), policy, hash, ref) <==> CitesSurvivor(s, policy, hash, ref)
    ensures CitedScore(TidyAll(s), hash, ref) == CitedScore(s, hash, ref)
  {
    TidySurvivors(s, policy);
    TidyWellSlotted(s);
    TidyRegistered(s, FeatureRef(hash, ref));
    TidyRegistered(s, ClaimRef(hash, ref));
    hide TidyAll, WellSlotted, Survivors, SlotIds, IsRegistered;
  }

  lemma {:induction false} MissingCount(s: set<Outcome>, policy: Policy, hash: string, refs: seq<Id>, x: Id)
    ensures multiset(Missing(s, policy, hash, refs))[x] == if CitesSurvivor(s, policy, hash, x) then 0 else multiset(refs)[x]
  {
    hide CitesSurvivor;
    if refs != [] {
      var front, last := refs[..|refs| - 1], refs[|refs| - 1];
      assert refs == front + [last];
      MissingCount(s, policy, hash, front, x);
    }
  }

  lemma TidyMissing(s: set<Outcome>, policy: Policy, hash: string, refs: seq<Id>)
    requires WellSlotted(s)
    ensures var a, b := Missing(s, policy, hash, refs), Missing(TidyAll(s), policy, hash, SortIds(refs));
            SortIds(a) == SortIds(b) && (a == [] <==> b == [])
  {
    hide WellSlotted, CitesSurvivor, Missing, TidyAll, SortIds;
    var a, b := Missing(s, policy, hash, refs), Missing(TidyAll(s), policy, hash, SortIds(refs));
    SortIdsFacts(refs);
    forall x
      ensures multiset(a)[x] == multiset(b)[x]
    {
      MissingCount(s, policy, hash, refs, x);
      MissingCount(TidyAll(s), policy, hash, SortIds(refs), x);
      TidyCites(s, policy, hash, x);
    }
    SameSort(a, b);
  }

  lemma SameSort(a: seq<Id>, b: seq<Id>)
    requires forall x :: multiset(a)[x] == multiset(b)[x]
    ensures SortIds(a) == SortIds(b) && (a == [] <==> b == [])
  {
    assert multiset(a) == multiset(b);
    assert |multiset(a)| == |a| && |multiset(b)| == |b|;
    StringStrictTotal();
    SortPermutation(StringLess, a, b);
  }

  lemma ScoresAppend(s: set<Outcome>, hash: string, refs: seq<Id>, x: Id)
    ensures ScoreSum(s, hash, refs + [x]) == ScoreSum(s, hash, refs) + if CitedScore(s, hash, x).Some? then CitedScore(s, hash, x).value else 0
    ensures ScoreCount(s, hash, refs + [x]) == ScoreCount(s, hash, refs) + if CitedScore(s, hash, x).Some? then 1 else 0
  {
    hide CitedScore;
    assert (refs + [x])[..|refs|] == refs;
  }

  lemma {:induction false} ScoresInsert(s: set<Outcome>, hash: string, refs: seq<Id>, x: Id)
    ensures ScoreSum(s, hash, Insert(StringLess, refs, x)) == ScoreSum(s, hash, refs + [x])
    ensures ScoreCount(s, hash, Insert(StringLess, refs, x)) == ScoreCount(s, hash, refs + [x])
  {
    hide CitedScore, ScoreSum, ScoreCount, StringLess;
    if refs != [] && StringLess(x, refs[|refs| - 1]) {
      var front, last := refs[..|refs| - 1], refs[|refs| - 1];
      assert refs == front + [last];
      ScoresInsert(s, hash, front, x);
      ScoresAppend(s, hash, front, x);
      ScoresAppend(s, hash, front, last);
      ScoresAppend(s, hash, refs, x);
      ScoresAppend(s, hash, Insert(StringLess, front, x), last);
    }
  }

  lemma {:induction false} ScoresSorted(s: set<Outcome>, hash: string, refs: seq<Id>)
    ensures ScoreSum(s, hash, SortIds(refs)) == ScoreSum(s, hash, refs)
    ensures ScoreCount(s, hash, SortIds(refs)) == ScoreCount(s, hash, refs)
  {
    hide CitedScore;
    if refs != [] {
      hide ScoreSum, ScoreCount;
      var front, last := refs[..|refs| - 1], refs[|refs| - 1];
      assert refs == front + [last];
      ScoresSorted(s, hash, front);
      ScoresInsert(s, hash, SortIds(front), last);
      ScoresAppend(s, hash, SortIds(front), last);
      ScoresAppend(s, hash, front, last);
    }
  }

  lemma {:induction false} TidyScores(s: set<Outcome>, policy: Policy, hash: string, refs: seq<Id>)
    requires WellSlotted(s)
    ensures ScoreSum(TidyAll(s), hash, refs) == ScoreSum(s, hash, refs)
    ensures ScoreCount(TidyAll(s), hash, refs) == ScoreCount(s, hash, refs)
  {
    hide CitedScore, WellSlotted, TidyAll;
    if refs != [] {
      TidyScores(s, policy, hash, refs[..|refs| - 1]);
      TidyCites(s, policy, hash, refs[|refs| - 1]);
    }
  }

  /** Sorting the references of every candidate changes no verdict. */
  lemma TidyDecide(s: set<Outcome>, policy: Policy, confidence: map<string, int>, o: Outcome)
    requires WellSlotted(s) && o in s
    ensures Decide(TidyAll(s), policy, confidence, Tidy(o)) == Decide(s, policy, confidence, o)
  {
    hide WellSlotted, TidyAll, Missing, ScoreSum, ScoreCount, SortIds, Preliminary, Survivors;
    match o
    case Early(_) =>
    case Registered(c) =>
      TidyMissing(s, policy, c.id.bundleHash, c.refs);
      ScoresSorted(TidyAll(s), c.id.bundleHash, c.refs);
      TidyScores(s, policy, c.id.bundleHash, c.refs);
      TidyPreliminary(s, policy, c);
      TidySurvivors(s, policy);
  }

  lemma NormalizedTwice(c: Candidate)
    ensures Normalized(Normalized(c)) == Normalized(c)
  {
    SortIdsFacts(c.refs);
    match c.item
    case FeatureItem(f) =>
      SortIdsFacts(f.inputLineage);
      SortIdsFacts(f.warnings);
    case ClaimItem(claim) =>
      SortIdsFacts(claim.sourceReferenceIds);
    case BriefItem(b) =>
      SortIdsFacts(b.sourceEvidenceIds);
      SortIdsFacts(b.keyFindings);
      SortIdsFacts(b.uncertainties);
  }

  lemma TidyChosen(s: set<Outcome>, policy: Policy, confidence: map<string, int>)
    requires WellSlotted(s)
    ensures var a, b := Chosen(s, policy, confidence), Chosen(TidyAll(s), policy, confidence);
            a.Keys == b.Keys && forall id :: id in a ==> b[id] == Normalized(a[id])
  {
    hide WellSlotted, TidyAll, Decide, SlotIds, IsRegistered;
    TidyWellSlotted(s);
    forall id
      ensures Included(TidyAll(s), policy, confidence, id) <==> Included(s, policy, confidence, id)
      ensures IsRegistered(s, id) ==> IsRegistered(TidyAll(s), id) && CandidateOf(TidyAll(s), id) == Normalized(CandidateOf(s, id))
      ensures IsRegistered(s, id) ==>
                Decide(TidyAll(s), policy, confidence, Registered(CandidateOf(TidyAll(s), id))) == Decide(s, policy, confidence, Registered(CandidateOf(s, id)))
    {
      TidyRegistered(s, id);
      if IsRegistered(s, id) {
        TidyDecide(s, policy, confidence, Registered(CandidateOf(s, id)));
      }
    }
  }

  lemma TidyDecisionList(s: set<Outcome>, policy: Policy, confidence: map<string, int>, list: seq<Decision>)
    requires WellSlotted(s) && IsDecisionList(s, policy, confidence, list)
    ensures IsDecisionList(TidyAll(s), policy, confidence, list)
  {
    hide WellSlotted, Decide, Tidy, DecisionOrder;
    forall o | o in s
      ensures Decide(TidyAll(s), policy, confidence, Tidy(o)) == Decide(s, policy, confidence, o)
    {
      TidyDecide(s, policy, confidence, o);
    }
    forall d
      ensures d in list <==> exists p :: p in TidyAll(s) && d == Decide(TidyAll(s), policy, confidence, p)
    {
      if o :| o in s && d == Decide(s, policy, confidence, o) {
        assert Tidy(o) in TidyAll(s) && d == Decide(TidyAll(s), policy, confidence, Tidy(o));
      }
    }
  }

  lemma {:induction false} TidyLastIncluded(chosen: map<CandidateId, Candidate>, tidy: map<CandidateId, Candidate>,
      briefs: seq<CandidateId>)
    requires chosen.Keys == tidy.Keys && forall id :: id in chosen ==> tidy[id] == Normalized(chosen[id])
    ensures LastIncluded(tidy, briefs) == match LastIncluded(chosen, briefs) case None => None case Some(b) => Some(Normalized(b))
  {
    hide Normalized;
    if briefs != [] && briefs[|briefs| - 1] !in chosen {
      TidyLastIncluded(chosen, tidy, briefs[..|briefs| - 1]);
    }
  }

  lemma NormalizedGroup(c: Candidate)
    ensures GroupOf(Normalized(c)) == GroupOf(c)
  {
  }

  /** The same candidates, with sorted references. */
  ghost predicate TidiedFrom(chosen: map<CandidateId, Candidate>, tidy: map<CandidateId, Candidate>) {
    chosen.Keys == tidy.Keys && forall id :: id in chosen ==> tidy[id] == Normalized(chosen[id])
  }

  lemma TidyPointing(chosen: map<CandidateId, Candidate>, tidy: map<CandidateId, Candidate>, family: Family,
      direction: Direction)
    requires TidiedFrom(chosen, tidy)
    ensures Pointing(tidy, family, direction) == Pointing(chosen, family, direction)
  {
    hide SortIds;
    assert forall id :: id in chosen ==> GroupOf(tidy[id]) == GroupOf(chosen[id]) && tidy[id].direction == chosen[id].direction;
    hide GroupOf;
  }

  lemma TidyClashes(chosen: map<CandidateId, Candidate>, tidy: map<CandidateId, Candidate>, family: Family)
    requires TidiedFrom(chosen, tidy)
    ensures Clashes(tidy, family) <==> Clashes(chosen, family)
  {
    hide TidiedFrom, Pointing;
    TidyPointing(chosen, tidy, family, Bullish);
    TidyPointing(chosen, tidy, family, Bearish);
  }

  lemma TidyOffers(chosen: map<CandidateId, Candidate>, tidy: map<CandidateId, Candidate>, group: Group)
    requires TidiedFrom(chosen, tidy)
    ensures Offers(tidy, group) <==> Offers(chosen, group)
  {
    hide SortIds;
    assert forall id :: id in chosen ==> GroupOf(tidy[id]) == GroupOf(chosen[id]);
  }

  lemma {:induction false} TidyTotal(chosen: map<CandidateId, Candidate>, tidy: map<CandidateId, Candidate>,
      ids: set<CandidateId>)
    requires TidiedFrom(chosen, tidy) && ids <= chosen.Keys
    ensures TotalScore(tidy, ids) == TotalScore(chosen, ids)
    decreases |ids|
  {
    hide SortIds;
    if ids != {} {
      var id :| id in ids;
      TotalScoreAny(chosen, ids, id);
      TotalScoreAny(tidy, ids, id);
      TidyTotal(chosen, tidy, ids - {id});
    }
  }

  lemma PointingChosen(chosen: map<CandidateId, Candidate>, family: Family, direction: Direction)
    ensures Pointing(chosen, family, direction) <= chosen.Keys
  {
  }

  lemma TidyConflict(chosen: map<CandidateId, Candidate>, tidy: map<CandidateId, Candidate>, c: Conflict)
    requires TidiedFrom(chosen, tidy) && IsConflict(chosen, c)
    ensures IsConflict(tidy, c)
  {
    hide TidiedFrom, Pointing, TotalScore, IdBefore, Consensus;
    PointingChosen(chosen, c.family, Bullish);
    PointingChosen(chosen, c.family, Bearish);
    TidyPointing(chosen, tidy, c.family, Bullish);
    TidyPointing(chosen, tidy, c.family, Bearish);
    TidyClashes(chosen, tidy, c.family);
    TidyTotal(chosen, tidy, Pointing(chosen, c.family, Bullish));
    TidyTotal(chosen, tidy, Pointing(chosen, c.family, Bearish));
  }

  lemma TidyConflicts(chosen: map<CandidateId, Candidate>, tidy: map<CandidateId, Candidate>, list: seq<Conflict>)
    requires TidiedFrom(chosen, tidy) && AreConflicts(chosen, list)
    ensures AreConflicts(tidy, list)
  {
    hide TidiedFrom, IsConflict, Clashes, ConflictOrder;
    forall c | c in list
      ensures IsConflict(tidy, c)
    {
      TidyConflict(chosen, tidy, c);
    }
    forall f
      ensures Clashes(tidy, f) <==> Clashes(chosen, f)
    {
      TidyClashes(chosen, tidy, f);
    }
  }

  lemma TidyMode(chosen: map<CandidateId, Candidate>, tidy: map<CandidateId, Candidate>, brief: bool, mode: Mode)
    requires TidiedFrom(chosen, tidy) && IsMode(chosen, brief, mode)
    ensures IsMode(tidy, brief, mode)
  {
    hide TidiedFrom, Clashes, Offers;
    forall f
      ensures Clashes(tidy, f) <==> Clashes(chosen, f)
      ensures Offers(tidy, ClaimsOf(f)) <==> Offers(chosen, ClaimsOf(f))
    {
      TidyClashes(chosen, tidy, f);
      TidyOffers(chosen, tidy, ClaimsOf(f));
    }
  }

  lemma TidySupplied(s: set<Outcome>, group: Group)
    ensures Supplied(TidyAll(s), group) <==> Supplied(s, group)
  {
    hide SortIds;
    if c :| Registered(c) in s && GroupOf(c) == group {
      TidyMember(s, c);
      assert GroupOf(Normalized(c)) == group;
    }
    if c :| Registered(c) in TidyAll(s) && GroupOf(c) == group {
      var d := TidySource(s, c);
      assert GroupOf(d) == group;
    }
  }

  lemma TidyWarnings(s: set<Outcome>, policy: Policy, chosen: map<CandidateId, Candidate>,
      tidy: map<CandidateId, Candidate>, brief: Option<Candidate>, list: seq<Warning>)
    requires TidiedFrom(chosen, tidy) && AreWarnings(s, policy, chosen, brief, list)
    ensures AreWarnings(TidyAll(s), policy, tidy, brief, list)
  {
    TidyStale(policy, chosen, tidy, brief);
    hide TidiedFrom, TidyAll, Clashes, Offers, Supplied, StaleSelected, Groups, WarningOrder;
    forall g: Group
      ensures Offers(tidy, g) <==> Offers(chosen, g)
      ensures Supplied(TidyAll(s), g) <==> Supplied(s, g)
      ensures g.ClaimsOf? ==> (Clashes(tidy, g.family) <==> Clashes(chosen, g.family))
    {
      TidyOffers(chosen, tidy, g);
      TidySupplied(s, g);
      if g.ClaimsOf? {
        TidyClashes(chosen, tidy, g.family);
      }
    }
    forall code, g
      ensures FamilyWarns(TidyAll(s), tidy, code, g) <==> FamilyWarns(s, chosen, code, g)
    {
    }
    hide FamilyWarns;
    forall w
      ensures Warns(TidyAll(s), policy, tidy, brief, w) <==> Warns(s, policy, chosen, brief, w)
    {
    }
  }

  lemma TidyStale(policy: Policy, chosen: map<CandidateId, Candidate>, tidy: map<CandidateId, Candidate>,
      brief: Option<Candidate>)
    requires TidiedFrom(chosen, tidy)
    ensures StaleSelected(policy, tidy, brief) <==> StaleSelected(policy, chosen, brief)
  {
    hide SortIds;
    assert forall id :: id in chosen ==> GroupOf(tidy[id]) == GroupOf(chosen[id]) && tidy[id].freshnessWeight == chosen[id].freshnessWeight;
  }

  lemma TidyPresents(chosen: map<CandidateId, Candidate>, tidy: map<CandidateId, Candidate>, briefs: seq<CandidateId>,
      r: Result)
    requires TidiedFrom(chosen, tidy)
    requires Presents(chosen, briefs, r)
    ensures Presents(tidy, briefs, r)
  {
    hide Normalized, GroupOf, Groups, AreConflicts, IsMode, LastIncluded, IdOrderOfCandidates;
    TidyLastIncluded(chosen, tidy, briefs);
    TidyConflicts(chosen, tidy, r.conflicts);
    TidyMode(chosen, tidy, r.brief.Some?, r.mode);
    forall id | id in chosen
      ensures GroupOf(tidy[id]) == GroupOf(chosen[id]) && Normalized(tidy[id]) == Normalized(chosen[id])
    {
      NormalizedGroup(chosen[id]);
      NormalizedTwice(chosen[id]);
    }
    if LastIncluded(chosen, briefs).Some? {
      NormalizedTwice(LastIncluded(chosen, briefs).value);
    }
    forall g | g in Groups()
      ensures IsSelection(tidy, g, r.selected[g])
    {
      SameSelection(chosen, tidy, g, r.selected[g]);
    }
  }

  lemma SameSelection(chosen: map<CandidateId, Candidate>, tidy: map<CandidateId, Candidate>, g: Group,
      list: seq<Candidate>)
    requires chosen.Keys == tidy.Keys && IsSelection(chosen, g, list)
    requires forall id :: id in chosen ==> GroupOf(tidy[id]) == GroupOf(chosen[id]) && Normalized(tidy[id]) == Normalized(chosen[id])
    ensures IsSelection(tidy, g, list)
  {
    hide Normalized, GroupOf, IdOrderOfCandidates;
    forall c
      ensures c in list <==> exists id :: id in tidy && GroupOf(tidy[id]) == g && c == Normalized(tidy[id])
    {
      if c in list {
        var id :| id in chosen && GroupOf(chosen[id]) == g && c == Normalized(chosen[id]);
        assert id in tidy && GroupOf(tidy[id]) == g;
      }
      if id :| id in tidy && GroupOf(tidy[id]) == g && c == Normalized(tidy[id]) {
        assert id in chosen && GroupOf(chosen[id]) == g;
      }
    }
  }

  /** The summary of the slots is also the summary of the slots with sorted references. */
  lemma TidySummarizes(s: set<Outcome>, policy: Policy, confidence: map<string, int>, briefs: seq<CandidateId>,
      r: Result)
    requires WellSlotted(s) && Summarizes(s, policy, confidence, briefs, r)
    ensures Summarizes(TidyAll(s), policy, confidence, briefs, r)
  {
    hide WellSlotted, TidyAll, IsDecisionList, Chosen, Presents, AreWarnings;
    TidyDecisionList(s, policy, confidence, r.decisions);
    TidyChosen(s, policy, confidence);
    TidyWarnings(s, policy, Chosen(s, policy, confidence), Chosen(TidyAll(s), policy, confidence), r.brief, r.warnings);
    TidyPresents(Chosen(s, policy, confidence), Chosen(TidyAll(s), policy, confidence), briefs, r);
  }

  // ---------- Items inside a bundle may be permuted ----------

  function Map<T, U>(f: T -> U, s: seq<T>): (t: seq<U>)
    ensures |t| == |s| && forall i :: 0 <= i < |s| ==> t[i] == f(s[i])
  {
    seq(|s|, i requires 0 <= i < |s| => f(s[i]))
  }

  /** The same items in some order, up to what tidy forgets. */
  ghost predicate Shuffled<T>(tidy: T -> T, a: seq<T>, b: seq<T>) {
    multiset(Map(tidy, a)) == multiset(Map(tidy, b))
  }

  lemma ShuffledHas<T>(tidy: T -> T, a: seq<T>, b: seq<T>, x: T) returns (y: T)
    requires Shuffled(tidy, a, b) && x in a
    ensures y in b && tidy(y) == tidy(x)
  {
    var i :| 0 <= i < |a| && a[i] == x;
    assert Map(tidy, a)[i] in multiset(Map(tidy, a));
    assert tidy(x) in multiset(Map(tidy, b));
    var j :| 0 <= j < |b| && Map(tidy, b)[j] == tidy(x);
    y := b[j];
  }

  /**
    The same record with features, claims, source references, and the lists inside its items (cited references, warnings,
    key findings, uncertainties), in another order.
   */
  ghost predicate Rearranged(r: Record, r': Record) {
    var b, b' := r.bundle, r'.bundle;
    && r' == r.(bundle := b')
    && b' == b.(features := b'.features, contextual := b'.contextual, brief := b'.brief, sourceReferences := b'.sourceReferences)
    && Shuffled(TidyFeature, b.features, b'.features)
    && Shuffled(TidyClaim, b.contextual.supportResistance, b'.contextual.supportResistance)
    && Shuffled(TidyClaim, b.contextual.flows, b'.contextual.flows)
    && Shuffled(TidyClaim, b.contextual.derivatives, b'.contextual.derivatives)
    && Shuffled(TidyClaim, b.contextual.events, b'.contextual.events)
    && Shuffled(TidyClaim, b.contextual.newsRegulatory, b'.contextual.newsRegulatory)
    && (b.brief.Some? <==> b'.brief.Some?)
    && (b.brief.Some? ==> TidyBrief(b.brief.value) == TidyBrief(b'.brief.value))
    && multiset(b.sourceReferences) == multiset(b'.sourceReferences)
  }

  /** The scalars that outcomes depend on are the same. */
  predicate SameFrame(r: Record, r': Record) {
    && r'.evidenceHash == r.evidenceHash && r'.lifecycle == r.lifecycle && r'.receivedAt == r.receivedAt && r'.id == r.id
    && r'.bundle.publisher == r.bundle.publisher && r'.bundle.sourceId == r.bundle.sourceId && r'.bundle.scopeKey == r.bundle.scopeKey
    && r'.bundle.runId == r.bundle.runId && r'.bundle.correlationId == r.bundle.correlationId
    && r'.bundle.asOf == r.bundle.asOf && r'.bundle.freshUntil == r.bundle.freshUntil && r'.bundle.expiresAt == r.bundle.expiresAt
  }

  lemma SameRejection(r: Record, r': Record, e: Setting)
    requires SameFrame(r, r')
    ensures Rejection(r', e.now, e.scopeKey, e.policy) == Rejection(r, e.now, e.scopeKey, e.policy)
    ensures SourceQuality(e.policy, r'.bundle) == SourceQuality(e.policy, r.bundle)
    ensures ComputedLifecycle(r'.bundle, e.now) == ComputedLifecycle(r.bundle, e.now)
  {
  }

  lemma SameButLists(f: Feature, f': Feature)
    requires TidyFeature(f) == TidyFeature(f')
    ensures f' == f.(inputLineage := f'.inputLineage, warnings := f'.warnings)
  {
    var g := TidyFeature(f);
    assert f == g.(inputLineage := f.inputLineage, warnings := f.warnings);
    assert f' == g.(inputLineage := f'.inputLineage, warnings := f'.warnings);
  }

  lemma TidyFeatureSlot(r: Record, r': Record, f: Feature, f': Feature, e: Setting)
    requires SameFrame(r, r') && TidyFeature(f) == TidyFeature(f')
    ensures Tidy(FeatureSlot(r', f', e.now, e.scopeKey, e.policy)) == Tidy(FeatureSlot(r, f, e.now, e.scopeKey, e.policy))
  {
    hide Rejection, SourceQuality, Score, SortIds, ComputedLifecycle;
    SameRejection(r, r', e);
    assert f' == f.(inputLineage := f'.inputLineage, warnings := f'.warnings) by {
      SameButLists(f, f');
    }
    assert TidyFeature(f).inputLineage == TidyFeature(f').inputLineage;
  }

  lemma TidyClaimSlot(r: Record, r': Record, family: Family, c: Claim, c': Claim, e: Setting)
    requires SameFrame(r, r') && TidyClaim(c) == TidyClaim(c')
    ensures Tidy(ClaimSlot(r', TaggedClaim(family, c'), e.now, e.scopeKey, e.policy)) == Tidy(ClaimSlot(r, TaggedClaim(family, c), e.now, e.scopeKey, e.policy))
  {
    hide Rejection, SourceQuality, Score, SortIds, ComputedLifecycle;
    SameRejection(r, r', e);
    assert c' == c.(sourceReferenceIds := c'.sourceReferenceIds) && SortIds(c.sourceReferenceIds) == SortIds(c'.sourceReferenceIds);
  }

  lemma TidyBriefSlot(r: Record, r': Record, e: Setting)
    requires SameFrame(r, r') && (r.bundle.brief.Some? <==> r'.bundle.brief.Some?)
    requires r.bundle.brief.Some? ==> TidyBrief(r.bundle.brief.value) == TidyBrief(r'.bundle.brief.value)
    ensures Tidy(BriefSlot(r', e.now, e.scopeKey, e.policy)) == Tidy(BriefSlot(r, e.now, e.scopeKey, e.policy))
    ensures BriefId(r'.bundle) == BriefId(r.bundle)
  {
    hide Rejection, SourceQuality, SortIds, ComputedLifecycle;
    SameRejection(r, r', e);
  }

  /** The list of a contextual family. */
  function ClaimsOfFamily(ctx: Contextual, family: Family): seq<Claim> {
    match family
    case SupportResistance => ctx.supportResistance
    case Flows => ctx.flows
    case Derivatives => ctx.derivatives
    case Events => ctx.events
    case NewsRegulatory => ctx.newsRegulatory
    case _ => []
  }

  lemma TaggedIn(family: Family, cs: seq<Claim>, t: TaggedClaim)
    ensures t in Tagged(family, cs) <==> t.family == family && t.claim in cs
  {
    if t.family == family && t.claim in cs {
      var i :| 0 <= i < |cs| && cs[i] == t.claim;
      assert Tagged(family, cs)[i] == t;
    }
  }

  lemma TaggedClaimsIn(ctx: Contextual, t: TaggedClaim)
    ensures t in TaggedClaims(ctx) <==> t.claim in ClaimsOfFamily(ctx, t.family)
  {
    hide Tagged;
    TaggedIn(SupportResistance, ctx.supportResistance, t);
    TaggedIn(Flows, ctx.flows, t);
    TaggedIn(Derivatives, ctx.derivatives, t);
    TaggedIn(Events, ctx.events, t);
    TaggedIn(NewsRegulatory, ctx.newsRegulatory, t);
  }

  /** Every slot of a record has a counterpart in the rearranged record. */
  lemma Counterpart(r: Record, r': Record, e: Setting, o: Outcome) returns (o': Outcome)
    requires Rearranged(r, r')
    ensures o in OutcomesOf(r, e) ==> o' in OutcomesOf(r', e) && Tidy(o') == Tidy(o)
  {
    hide FeatureSlot, ClaimSlot, BriefSlot, RecordOutcomes, Tidy, TidyFeature, TidyClaim, TidyBrief, Shuffled, TaggedClaims,
      ClaimsOfFamily;
    SlotFound(r', e);
    if o !in OutcomesOf(r, e) {
      o' := o;
    } else if f :| f in r.bundle.features && o == FeatureSlot(r, f, e.now, e.scopeKey, e.policy) {
      var f' := ShuffledHas(TidyFeature, r.bundle.features, r'.bundle.features, f);
      TidyFeatureSlot(r, r', f, f', e);
      o' := FeatureSlot(r', f', e.now, e.scopeKey, e.policy);
    } else if t :| t in TaggedClaims(r.bundle.contextual) && o == ClaimSlot(r, t, e.now, e.scopeKey, e.policy) {
      var ctx, ctx' := r.bundle.contextual, r'.bundle.contextual;
      TaggedClaimsIn(ctx, t);
      FamilyShuffled(r, r', t.family);
      var c' := ShuffledHas(TidyClaim, ClaimsOfFamily(ctx, t.family), ClaimsOfFamily(ctx', t.family), t.claim);
      TaggedClaimsIn(ctx', TaggedClaim(t.family, c'));
      TidyClaimSlot(r, r', t.family, t.claim, c', e);
      o' := ClaimSlot(r', TaggedClaim(t.family, c'), e.now, e.scopeKey, e.policy);
    } else {
      NeitherFeatureNorClaim(r, e, o);
      TidyBriefSlot(r, r', e);
      o' := BriefSlot(r', e.now, e.scopeKey, e.policy);
    }
  }

  lemma FamilyShuffled(r: Record, r': Record, family: Family)
    requires Rearranged(r, r')
    ensures Shuffled(TidyClaim, ClaimsOfFamily(r.bundle.contextual, family), ClaimsOfFamily(r'.bundle.contextual, family))
  {
    hide TidyClaim;
  }

  lemma RearrangedSymmetric(r: Record, r': Record)
    requires Rearranged(r, r')
    ensures Rearranged(r', r)
  {
    hide TidyFeature, TidyClaim, TidyBrief;
  }

  ghost predicate AllRearranged(rs: seq<Record>, rs': seq<Record>) {
    |rs| == |rs'| && forall i :: 0 <= i < |rs| ==> Rearranged(rs[i], rs'[i])
  }

  lemma TidySlotsWithin(rs: seq<Record>, rs': seq<Record>, e: Setting)
    requires AllRearranged(rs, rs')
    ensures TidyAll(SlotsOf(rs, e)) <= TidyAll(SlotsOf(rs', e))
  {
    hide RecordOutcomes, Tidy, Rearranged;
    forall p | p in TidyAll(SlotsOf(rs, e))
      ensures p in TidyAll(SlotsOf(rs', e))
    {
      var o :| o in SlotsOf(rs, e) && p == Tidy(o);
      var r :| r in rs && o in OutcomesOf(r, e);
      var i :| 0 <= i < |rs| && rs[i] == r;
      var o' := Counterpart(r, rs'[i], e, o);
      assert rs'[i] in rs' && o' in SlotsOf(rs', e);
    }
  }

  lemma SameTidySlots(rs: seq<Record>, rs': seq<Record>, e: Setting)
    requires AllRearranged(rs, rs')
    ensures TidyAll(SlotsOf(rs, e)) == TidyAll(SlotsOf(rs', e))
  {
    hide RecordOutcomes, Tidy, Rearranged;
    TidySlotsWithin(rs, rs', e);
    forall i | 0 <= i < |rs|
      ensures Rearranged(rs'[i], rs[i])
    {
      RearrangedSymmetric(rs[i], rs'[i]);
    }
    TidySlotsWithin(rs', rs, e);
  }

  // ---------- Record order ----------

  lemma RearrangedKey(r: Record, r': Record)
    requires Rearranged(r, r')
    ensures SameFrame(r, r') && r'.bundle.overallConfidenceBps == r.bundle.overallConfidenceBps
    ensures BriefId(r'.bundle) == BriefId(r.bundle)
  {
    hide TidyFeature, TidyClaim, SortIds;
  }

  lemma SameRecordOrder(a: Record, a': Record, b: Record, b': Record)
    requires SameFrame(a, a') && SameFrame(b, b')
    ensures RecordBefore(a, b) <==> RecordBefore(a', b')
  {
    hide StringLess;
  }

  lemma {:induction false} InsertRearranged(rs: seq<Record>, rs': seq<Record>, r: Record, r': Record)
    requires AllRearranged(rs, rs') && Rearranged(r, r')
    ensures AllRearranged(Insert(RecordBefore, rs, r), Insert(RecordBefore, rs', r'))
  {
    hide RecordBefore, Rearranged;
    if rs != [] {
      var last, last' := rs[|rs| - 1], rs'[|rs| - 1];
      RearrangedKey(r, r');
      RearrangedKey(last, last');
      SameRecordOrder(r, r', last, last');
      if RecordBefore(r, last) {
        InsertRearranged(rs[..|rs| - 1], rs'[..|rs| - 1], r, r');
      }
    }
  }

  lemma {:induction false} SortRearranged(rs: seq<Record>, rs': seq<Record>)
    requires AllRearranged(rs, rs')
    ensures AllRearranged(SortBy(RecordBefore, rs), SortBy(RecordBefore, rs'))
  {
    hide RecordBefore, Rearranged;
    if rs != [] {
      SortRearranged(rs[..|rs| - 1], rs'[..|rs| - 1]);
      InsertRearranged(SortBy(RecordBefore, rs[..|rs| - 1]), SortBy(RecordBefore, rs'[..|rs| - 1]), rs[|rs| - 1], rs'[|rs| - 1]);
    }
  }

  lemma SameBriefOrder(rs: seq<Record>, rs': seq<Record>)
    requires AllRearranged(rs, rs')
    ensures BriefOrder(rs) == BriefOrder(rs')
  {
    hide Rearranged;
    forall i | 0 <= i < |rs|
      ensures BriefOrder(rs)[i] == BriefOrder(rs')[i]
    {
      RearrangedKey(rs[i], rs'[i]);
    }
  }

  lemma {:induction false} RearrangedFound(rs: seq<Record>, rs': seq<Record>, hash: string)
    requires AllRearranged(rs, rs')
    ensures var a, b := FindRecord(rs, hash), FindRecord(rs', hash);
            (a.Some? <==> b.Some?) && (a.Some? ==> a.value.bundle.overallConfidenceBps == b.value.bundle.overallConfidenceBps)
  {
    hide Rearranged;
    if rs != [] {
      RearrangedKey(rs[0], rs'[0]);
      RearrangedFound(rs[1..], rs'[1..], hash);
    }
  }

  lemma RearrangedConfidence(rs: seq<Record>, rs': seq<Record>)
    requires AllRearranged(rs, rs')
    ensures Confidence(rs) == Confidence(rs')
  {
    hide Rearranged;
    forall h
      ensures var a, b := FindRecord(rs, h), FindRecord(rs', h);
              (a.Some? <==> b.Some?) && (a.Some? ==> a.value.bundle.overallConfidenceBps == b.value.bundle.overallConfidenceBps)
    {
      RearrangedFound(rs, rs', h);
    }
  }

  // ---------- Accounts ----------

  lemma SameMembers<T>(a: seq<T>, b: seq<T>)
    requires multiset(a) == multiset(b)
    ensures forall x :: x in a <==> x in b
  {
    forall x
      ensures x in a <==> x in b
    {
      assert x in multiset(a) <==> x in multiset(b);
    }
  }

  /** What a record cites, its rearrangement cites too. */
  lemma CitesRearranged(r: Record, r': Record, ref: Id, item: CandidateId)
    requires Rearranged(r, r') && Cites(r, ref, item)
    ensures Cites(r', ref, item)
  {
    hide TidyFeature, TidyClaim, TidyBrief, Shuffled, AllClaims;
    RearrangedKey(r, r');
    if f :| f in r.bundle.features && ref in f.inputLineage && item == FeatureRef(r.evidenceHash, f.featureId) {
      var f' := ShuffledHas(TidyFeature, r.bundle.features, r'.bundle.features, f);
      SameLineage(f, f', ref);
    } else {
      var c :| c in AllClaims(r.bundle.contextual) && ref in c.sourceReferenceIds && item == ClaimRef(r.evidenceHash, c.evidenceId);
      var c' := ClaimRearranged(r, r', c);
      SameSources(c, c', ref);
    }
  }

  lemma SameLineage(f: Feature, f': Feature, ref: Id)
    requires TidyFeature(f) == TidyFeature(f')
    ensures f'.featureId == f.featureId && f'.status == f.status && (ref in f'.inputLineage <==> ref in f.inputLineage)
  {
    hide SortIds;
    SortIdsFacts(f.inputLineage);
    SortIdsFacts(f'.inputLineage);
    assert TidyFeature(f).inputLineage == TidyFeature(f').inputLineage && TidyFeature(f).featureId == TidyFeature(f').featureId;
    assert TidyFeature(f).status == TidyFeature(f').status;
  }

  lemma SameSources(c: Claim, c': Claim, ref: Id)
    requires TidyClaim(c) == TidyClaim(c')
    ensures c'.evidenceId == c.evidenceId && (ref in c'.sourceReferenceIds <==> ref in c.sourceReferenceIds)
  {
    hide SortIds;
    SortIdsFacts(c.sourceReferenceIds);
    SortIdsFacts(c'.sourceReferenceIds);
    assert TidyClaim(c).sourceReferenceIds == TidyClaim(c').sourceReferenceIds && TidyClaim(c).evidenceId == TidyClaim(c').evidenceId;
  }

  lemma ClaimRearranged(r: Record, r': Record, c: Claim) returns (c': Claim)
    requires Rearranged(r, r') && c in AllClaims(r.bundle.contextual)
    ensures c' in AllClaims(r'.bundle.contextual) && TidyClaim(c') == TidyClaim(c)
  {
    hide TidyFeature, TidyClaim, TidyBrief, Shuffled, TaggedClaims, ClaimsOfFamily, AllClaims, Rearranged;
    var t := ClaimTagged(r.bundle.contextual, c);
    var ctx, ctx' := r.bundle.contextual, r'.bundle.contextual;
    TaggedClaimsIn(ctx, t);
    FamilyShuffled(r, r', t.family);
    c' := ShuffledHas(TidyClaim, ClaimsOfFamily(ctx, t.family), ClaimsOfFamily(ctx', t.family), c);
    TaggedClaimsIn(ctx', TaggedClaim(t.family, c'));
    TaggedClaimIn(ctx', TaggedClaim(t.family, c'));
  }

  lemma UsedRearranged(included: set<CandidateId>, r: Record, r': Record, x: SourceReference, u: SourceUse)
    requires Rearranged(r, r')
    ensures Used(included, r, x, u) <==> Used(included, r', x, u)
  {
    hide Cites, Rearranged;
    RearrangedSymmetric(r, r');
    RearrangedKey(r, r');
    RearrangedNames(r, r');
    forall item
      ensures Cites(r, x.referenceId, item) <==> Cites(r', x.referenceId, item)
    {
      if Cites(r, x.referenceId, item) {
        CitesRearranged(r, r', x.referenceId, item);
      }
      if Cites(r', x.referenceId, item) {
        CitesRearranged(r', r, x.referenceId, item);
      }
    }
  }

  lemma RearrangedNames(r: Record, r': Record)
    requires Rearranged(r, r')
    ensures r'.bundle.runId == r.bundle.runId && r'.bundle.correlationId == r.bundle.correlationId
    ensures forall x :: x in r.bundle.sourceReferences <==> x in r'.bundle.sourceReferences
  {
    hide TidyFeature, TidyClaim, TidyBrief, Shuffled;
    SameMembers(r.bundle.sourceReferences, r'.bundle.sourceReferences);
  }

  lemma UsedWithin(rs: seq<Record>, rs': seq<Record>, included: set<CandidateId>, r: Record, x: SourceReference,
      u: SourceUse)
    requires AllRearranged(rs, rs') && HasReference(rs, r, x) && Used(included, r, x, u)
    ensures exists r' :: HasReference(rs', r', x) && Used(included, r', x, u)
  {
    hide Rearranged, Used;
    var i :| 0 <= i < |rs| && rs[i] == r;
    UsedRearranged(included, r, rs'[i], x, u);
    RearrangedNames(r, rs'[i]);
    assert HasReference(rs', rs'[i], x);
  }

  lemma UnionRearranged(rs: seq<Record>, rs': seq<Record>, included: set<CandidateId>, list: seq<SourceUse>)
    requires AllRearranged(rs, rs') && IsUnion(rs, included, list)
    ensures IsUnion(rs', included, list)
  {
    hide AllRearranged, HasReference, Used, UseOrder;
    AllSymmetric(rs, rs');
    forall u
      ensures u in list <==> exists r, x :: HasReference(rs', r, x) && Used(included, r, x, u)
    {
      if r, x :| HasReference(rs, r, x) && Used(included, r, x, u) {
        UsedWithin(rs, rs', included, r, x, u);
      }
      if r, x :| HasReference(rs', r, x) && Used(included, r, x, u) {
        UsedWithin(rs', rs, included, r, x, u);
      }
    }
  }

  lemma AllSymmetric(rs: seq<Record>, rs': seq<Record>)
    requires AllRearranged(rs, rs')
    ensures AllRearranged(rs', rs)
  {
    hide Rearranged;
    forall i | 0 <= i < |rs|
      ensures Rearranged(rs'[i], rs[i])
    {
      RearrangedSymmetric(rs[i], rs'[i]);
    }
  }

  lemma FeaturesWithin(rs: seq<Record>, rs': seq<Record>, status: FeatureStatus)
    requires AllRearranged(rs, rs')
    ensures FeaturesIn(rs, status) <= FeaturesIn(rs', status)
  {
    hide Rearranged;
    forall id | id in FeaturesIn(rs, status)
      ensures id in FeaturesIn(rs', status)
    {
      var r, f :| r in rs && f in r.bundle.features && f.status == status && id == FeatureId(r, f);
      var i :| 0 <= i < |rs| && rs[i] == r;
      var f' := FeatureRearranged(r, rs'[i], f);
      assert rs'[i] in rs' && FeatureId(rs'[i], f') == id;
    }
  }

  lemma FeatureRearranged(r: Record, r': Record, f: Feature) returns (f': Feature)
    requires Rearranged(r, r') && f in r.bundle.features
    ensures f' in r'.bundle.features && f'.status == f.status && FeatureId(r', f') == FeatureId(r, f)
  {
    hide TidyFeature, TidyClaim, TidyBrief, Shuffled;
    RearrangedKey(r, r');
    f' := ShuffledHas(TidyFeature, r.bundle.features, r'.bundle.features, f);
    SameLineage(f, f', f.featureId);
  }

  lemma LineageRearranged(r: Record, r': Record, e: Setting)
    requires Rearranged(r, r')
    ensures LineageOf(r', e.now, e.scopeKey, e.policy) == LineageOf(r, e.now, e.scopeKey, e.policy)
  {
    hide Rearranged, Rejection;
    RearrangedKey(r, r');
    RearrangedNames(r, r');
    SameRejection(r, r', e);
  }

  lemma BundlesRearranged(rs: seq<Record>, rs': seq<Record>, e: Setting, list: seq<BundleLineage>)
    requires AllRearranged(rs, rs') && ListsBundles(rs, e.now, e.scopeKey, e.policy, list)
    ensures ListsBundles(rs', e.now, e.scopeKey, e.policy, list)
  {
    hide Rearranged, LineageOf, BundleOrder;
    forall i | 0 <= i < |rs|
      ensures LineageOf(rs[i], e.now, e.scopeKey, e.policy) == LineageOf(rs'[i], e.now, e.scopeKey, e.policy)
    {
      LineageRearranged(rs[i], rs'[i], e);
    }
    hide AllRearranged;
    forall b
      ensures b in list <==> exists r :: r in rs' && b == LineageOf(r, e.now, e.scopeKey, e.policy)
    {
      if r :| r in rs && b == LineageOf(r, e.now, e.scopeKey, e.policy) {
        var i :| 0 <= i < |rs| && rs[i] == r;
        assert rs'[i] in rs';
      }
      if r :| r in rs' && b == LineageOf(r, e.now, e.scopeKey, e.policy) {
        var i :| 0 <= i < |rs'| && rs'[i] == r;
        assert rs[i] in rs;
      }
    }
  }

  /** Rearranging bundles changes which slots are chosen in no way. */
  lemma ChosenRearranged(rs: seq<Record>, rs': seq<Record>, e: Setting)
    requires Stored(rs) && Stored(rs') && AllRearranged(rs, rs')
    ensures Chosen(SlotsOf(rs, e), e.policy, Confidence(rs)).Keys == Chosen(SlotsOf(rs', e), e.policy, Confidence(rs')).Keys
  {
    hide SlotsOf, TidyAll, Stored, AllRearranged, Confidence, Chosen;
    SlotsWellSlotted(rs, e);
    SlotsWellSlotted(rs', e);
    SameTidySlots(rs, rs', e);
    RearrangedConfidence(rs, rs');
    TidyChosen(SlotsOf(rs, e), e.policy, Confidence(rs));
    TidyChosen(SlotsOf(rs', e), e.policy, Confidence(rs));
  }

  /** Rearranging bundles leaves the accounts the same. */
  lemma AccountsForgetItemOrder(rs: seq<Record>, rs': seq<Record>, e: Setting, a: Accounts)
    requires Stored(rs) && Stored(rs') && AllRearranged(rs, rs')
    ensures Accounted(rs, e, a) ==> Accounted(rs', e, a)
  {
    hide SlotsOf, Stored, AllRearranged, Confidence, Chosen, IsUnion, ListsBundles, FeaturesIn;
    ChosenRearranged(rs, rs', e);
    AllSymmetric(rs, rs');
    forall status
      ensures FeaturesIn(rs, status) == FeaturesIn(rs', status)
    {
      FeaturesWithin(rs, rs', status);
      FeaturesWithin(rs', rs, status);
    }
    if Accounted(rs, e, a) {
      UnionRearranged(rs, rs', Chosen(SlotsOf(rs, e), e.policy, Confidence(rs)).Keys, a.sourceReferences);
      BundlesRearranged(rs, rs', e, a.bundles);
    }
  }

  // ---------- The whole summary ----------

  /** Permuting records leaves the specified summary the same. */
  lemma CorrectForgetsRecordOrder(rs: seq<Record>, rs': seq<Record>, e: Setting, r: Result)
    requires Stored(rs) && multiset(rs) == multiset(rs') && Correct(rs, e, r)
    ensures Stored(rs') && Correct(rs', e, r)
  {
    hide RecordBefore, RecordOutcomes, Summarizes, WellFormed, Lineage.UniqueIds, Accounted;
    RecordSortForgetsOrder(rs, rs');
    MultisetKeepsDistinct(rs, rs');
    SameMembers(rs, rs');
    SameConfidence(rs, rs');
    AccountsForgetOrder(rs, rs', e, AccountsOf(r));
    assert SlotsOf(rs, e) == SlotsOf(rs', e);
  }

  /** Rearranging the inside of bundles leaves the specified summary the same. */
  lemma CorrectForgetsItemOrder(rs: seq<Record>, rs': seq<Record>, e: Setting, a: Result, b: Result)
    requires Stored(rs) && Stored(rs') && AllRearranged(rs, rs')
    ensures Correct(rs, e, a) && Correct(rs', e, b) ==> a == b
  {
    hide RecordBefore, SlotsOf, TidyAll, Summarizes, Stored, AllRearranged, BriefOrder, Confidence, Accounted;
    SlotsWellSlotted(rs, e);
    SlotsWellSlotted(rs', e);
    SameTidySlots(rs, rs', e);
    RearrangedConfidence(rs, rs');
    SortRearranged(rs, rs');
    SameBriefOrder(SortBy(RecordBefore, rs), SortBy(RecordBefore, rs'));
    var briefs := BriefOrder(SortBy(RecordBefore, rs));
    if Correct(rs, e, a) && Correct(rs', e, b) {
      TidySummarizes(SlotsOf(rs, e), e.policy, Confidence(rs), briefs, a);
      TidySummarizes(SlotsOf(rs', e), e.policy, Confidence(rs), briefs, b);
      AccountsForgetItemOrder(rs, rs', e, AccountsOf(a));
      AccountsUnique(rs', e, AccountsOf(a), AccountsOf(b));
      SummaryUnique(TidyAll(SlotsOf(rs, e)), e.policy, Confidence(rs), briefs, a, b);
    }
  }

  /**
    Selection is a function of its records as a set: permuting them, and permuting features, claims and references inside
    any of them, gives the same summary.
   */
  lemma SelectionForgetsOrder(rs: seq<Record>, permuted: seq<Record>, rs': seq<Record>, e: Setting, a: Result,
      b: Result)
    requires Stored(rs) && Stored(rs')
    requires multiset(rs) == multiset(permuted) && AllRearranged(permuted, rs')
    ensures Correct(rs, e, a) && Correct(rs', e, b) ==> a == b
  {
    hide Correct, Stored, AllRearranged;
    if Correct(rs, e, a) {
      CorrectForgetsRecordOrder(rs, permuted, e, a);
      CorrectForgetsItemOrder(permuted, rs', e, a, b);
    }
  }
}
