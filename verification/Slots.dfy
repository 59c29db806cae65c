/** The slots of a set of records: which there are, that their ids are distinct, and how the selector's lists hold them. */
module Slots {
  import opened Evidence
  import Lineage
  import opened Candidates
  import opened Ranking
  import opened SelectionSpec
  import opened Selection
  import opened SourceUnion
  import opened Coverage
  import opened Summary

  /** The selector's own parameters. */
  datatype Setting = Setting(now: int, scopeKey: string, policy: Policy)

  function OutcomesOf(r: Record, e: Setting): seq<Outcome> {
    RecordOutcomes(r, e.now, e.scopeKey, e.policy)
  }

  function OutcomesOfAll(rs: seq<Record>, e: Setting): seq<Outcome> {
    AllOutcomes(rs, e.now, e.scopeKey, e.policy)
  }

  /** Every slot of every record. */
  ghost function SlotsOf(rs: seq<Record>, e: Setting): set<Outcome> {
    set r, o | r in rs && o in OutcomesOf(r, e) :: o
  }

  /** What the database and the bundle validator guarantee about stored records. */
  ghost predicate Stored(rs: seq<Record>) {
    DistinctHashes(rs) && forall r :: r in rs ==> WellFormed(r) && Lineage.UniqueIds(r.bundle)
  }

  lemma {:induction false} OutcomesAreSlots(rs: seq<Record>, e: Setting)
    ensures SetOf(OutcomesOfAll(rs, e)) == SlotsOf(rs, e)
  {
    hide RecordOutcomes;
    if rs != [] {
      var front, last := rs[..|rs| - 1], rs[|rs| - 1];
      assert rs == front + [last];
      OutcomesAreSlots(front, e);
      assert OutcomesOfAll(rs, e) == OutcomesOfAll(front, e) + OutcomesOf(last, e);
      assert SlotsOf(rs, e) == SlotsOf(front, e) + SetOf(OutcomesOf(last, e));
    }
  }

  ghost predicate DistinctSlots(outs: seq<Outcome>) {
    forall i, j :: 0 <= i < j < |outs| ==> outs[i].Id() != outs[j].Id()
  }

  lemma AppendSlots(a: seq<Outcome>, b: seq<Outcome>)
    requires DistinctSlots(a) && DistinctSlots(b) && forall x, y :: x in a && y in b ==> x.Id() != y.Id()
    ensures DistinctSlots(a + b)
  {
    assert forall i :: 0 <= i < |a| ==> a[i] in a;
    assert forall i :: 0 <= i < |b| ==> b[i] in b;
  }

  lemma FeatureSlotId(r: Record, f: Feature, e: Setting)
    ensures FeatureSlot(r, f, e.now, e.scopeKey, e.policy).Id() == CandidateId(r.evidenceHash, DeterministicFeature, f.featureId)
    ensures KindOf(f.family) == DeterministicFeature ==> WellKinded(FeatureSlot(r, f, e.now, e.scopeKey, e.policy))
  {
    hide Rejection, SourceQuality, Score, ComputedLifecycle;
  }

  lemma ClaimSlotId(r: Record, t: TaggedClaim, e: Setting)
    ensures ClaimSlot(r, t, e.now, e.scopeKey, e.policy).Id() == CandidateId(r.evidenceHash, ContextualClaim, t.claim.evidenceId)
    ensures KindOf(t.family) == ContextualClaim ==> WellKinded(ClaimSlot(r, t, e.now, e.scopeKey, e.policy))
  {
    hide Rejection, SourceQuality, Score, BundleWeight;
  }

  lemma BriefSlotId(r: Record, e: Setting)
    ensures BriefSlot(r, e.now, e.scopeKey, e.policy).Id() == CandidateId(r.evidenceHash, BriefKind, BriefId(r.bundle))
    ensures WellKinded(BriefSlot(r, e.now, e.scopeKey, e.policy))
    ensures BriefSlot(r, e.now, e.scopeKey, e.policy).Registered? ==>
        BriefSlot(r, e.now, e.scopeKey, e.policy).candidate.family == ResearchBrief
  {
    hide Rejection, SourceQuality, BundleWeight;
  }

  /** The ids of a record's slots: its hash, the slot's kind, and the feature's, claim's or brief's own id. */
  ghost predicate NamesSlot(r: Record, id: CandidateId) {
    && id.bundleHash == r.evidenceHash
    && match id.kind
       case DeterministicFeature => id.localId in FeatureIds(r.bundle.features)
       case ContextualClaim => id.localId in ClaimIds(AllClaims(r.bundle.contextual))
       case BriefKind => id.localId == BriefId(r.bundle)
  }

  lemma ClaimIdsTagged(ctx: Contextual)
    ensures |TaggedClaims(ctx)| == |AllClaims(ctx)|
    ensures forall i :: 0 <= i < |TaggedClaims(ctx)| ==> TaggedClaims(ctx)[i].claim == AllClaims(ctx)[i]
  {
    TagConcat(ctx);
  }

  function Untag(ts: seq<TaggedClaim>): (cs: seq<Claim>)
    ensures |cs| == |ts| && forall i :: 0 <= i < |ts| ==> cs[i] == ts[i].claim
  {
    seq(|ts|, i requires 0 <= i < |ts| => ts[i].claim)
  }

  lemma UntagAppend(a: seq<TaggedClaim>, b: seq<TaggedClaim>)
    ensures Untag(a + b) == Untag(a) + Untag(b)
  {
  }

  lemma TagConcat(ctx: Contextual)
    ensures Untag(TaggedClaims(ctx)) == AllClaims(ctx)
  {
    var a, b, c, d, e := Tagged(SupportResistance, ctx.supportResistance), Tagged(Flows, ctx.flows),
                         Tagged(Derivatives, ctx.derivatives), Tagged(Events, ctx.events), Tagged(NewsRegulatory, ctx.newsRegulatory);
    UntagAppend(a, b);
    UntagAppend(a + b, c);
    UntagAppend(a + b + c, d);
    UntagAppend(a + b + c + d, e);
    assert Untag(a) == ctx.supportResistance && Untag(b) == ctx.flows && Untag(c) == ctx.derivatives
           && Untag(d) == ctx.events && Untag(e) == ctx.newsRegulatory;
  }

  lemma FeatureSlotsDistinct(r: Record, e: Setting)
    requires Lineage.UniqueIds(r.bundle) && WellFormed(r)
    ensures var outs := FeatureSlots(r, e.now, e.scopeKey, e.policy);
            && DistinctSlots(outs)
            && (forall o :: o in outs ==> WellKinded(o) && o.Id().kind == DeterministicFeature && NamesSlot(r, o.Id()))
            && forall f :: f in FeatureIds(r.bundle.features) ==>
              exists o :: o in outs && o.Id() == CandidateId(r.evidenceHash, DeterministicFeature, f)
  {
    hide FeatureSlot, WellKinded;
    var outs := FeatureSlots(r, e.now, e.scopeKey, e.policy);
    forall i | 0 <= i < |outs|
      ensures outs[i].Id() == CandidateId(r.evidenceHash, DeterministicFeature, FeatureIds(r.bundle.features)[i])
      ensures WellKinded(outs[i])
    {
      FeatureSlotId(r, r.bundle.features[i], e);
      assert r.bundle.features[i] in r.bundle.features;
    }
    forall f | f in FeatureIds(r.bundle.features)
      ensures exists o :: o in outs && o.Id() == CandidateId(r.evidenceHash, DeterministicFeature, f)
    {
      var i :| 0 <= i < |outs| && FeatureIds(r.bundle.features)[i] == f;
      assert outs[i] in outs;
    }
  }

  lemma ClaimSlotsDistinct(r: Record, e: Setting)
    requires Lineage.UniqueIds(r.bundle)
    ensures var outs := ClaimSlots(r, e.now, e.scopeKey, e.policy);
            && DistinctSlots(outs)
            && forall o :: o in outs ==> WellKinded(o) && o.Id().kind == ContextualClaim && NamesSlot(r, o.Id())
  {
    hide ClaimSlot, WellKinded, TaggedClaims, AllClaims;
    var outs, ts := ClaimSlots(r, e.now, e.scopeKey, e.policy), TaggedClaims(r.bundle.contextual);
    ClaimIdsTagged(r.bundle.contextual);
    forall i | 0 <= i < |outs|
      ensures outs[i].Id() == CandidateId(r.evidenceHash, ContextualClaim, ClaimIds(AllClaims(r.bundle.contextual))[i])
      ensures WellKinded(outs[i])
    {
      ClaimSlotId(r, ts[i], e);
      assert ts[i] in ts;
      TaggedClaimIn(r.bundle.contextual, ts[i]);
    }
  }

  /** A record's slots have distinct ids, all built from its own hash; its feature slots are exactly its features. */
  lemma RecordSlotsDistinct(r: Record, e: Setting)
    requires Lineage.UniqueIds(r.bundle) && WellFormed(r)
    ensures DistinctSlots(OutcomesOf(r, e))
    ensures forall o :: o in OutcomesOf(r, e) ==> WellKinded(o) && NamesSlot(r, o.Id())
    ensures forall f :: f in FeatureIds(r.bundle.features) ==>
              exists o :: o in OutcomesOf(r, e) && o.Id() == CandidateId(r.evidenceHash, DeterministicFeature, f)
  {
    hide WellKinded, FeatureSlots, ClaimSlots, BriefSlot, Lineage.UniqueIds, WellFormed, FeatureIds;
    var a, b, c := FeatureSlots(r, e.now, e.scopeKey, e.policy), ClaimSlots(r, e.now, e.scopeKey, e.policy), [BriefSlot(r, e.now, e.scopeKey, e.policy)];
    FeatureSlotsDistinct(r, e);
    ClaimSlotsDistinct(r, e);
    BriefSlotId(r, e);
    AppendSlots(a, b);
    AppendSlots(a + b, c);
    assert OutcomesOf(r, e) == a + b + c;
  }

  lemma {:induction false} AllSlotsDistinct(rs: seq<Record>, e: Setting)
    requires Stored(rs)
    ensures DistinctSlots(OutcomesOfAll(rs, e))
    ensures forall o :: o in OutcomesOfAll(rs, e) ==> WellKinded(o) && exists r :: r in rs && NamesSlot(r, o.Id())
  {
    hide WellKinded, RecordOutcomes, Lineage.UniqueIds, WellFormed;
    if rs != [] {
      var front, last := rs[..|rs| - 1], rs[|rs| - 1];
      assert rs == front + [last] && last in rs;
      AllSlotsDistinct(front, e);
      RecordSlotsDistinct(last, e);
      assert forall r :: r in front ==> r.evidenceHash != last.evidenceHash;
      AppendSlots(OutcomesOfAll(front, e), OutcomesOf(last, e));
      assert OutcomesOfAll(rs, e) == OutcomesOfAll(front, e) + OutcomesOf(last, e);
    }
  }

  /** Distinct ids make the set of slots well slotted. */
  lemma SlotsWellSlotted(rs: seq<Record>, e: Setting)
    requires Stored(rs)
    ensures WellSlotted(SlotsOf(rs, e))
  {
    hide WellKinded, AllOutcomes;
    AllSlotsDistinct(rs, e);
    OutcomesAreSlots(rs, e);
    var outs := OutcomesOfAll(rs, e);
    forall a, b | a in SetOf(outs) && b in SetOf(outs) && a.Id() == b.Id()
      ensures a == b
    {
      var i :| 0 <= i < |outs| && outs[i] == a;
      var j :| 0 <= j < |outs| && outs[j] == b;
    }
  }

  lemma {:induction false} FindByHash(rs: seq<Record>, r: Record)
    requires DistinctHashes(rs) && r in rs
    ensures FindRecord(rs, r.evidenceHash) == Some(r)
  {
    if rs[0] != r {
      assert r in rs[1..];
      var i :| 0 <= i < |rs| && rs[i] == r;
      assert rs[0].evidenceHash != r.evidenceHash;
      FindByHash(rs[1..], r);
    }
  }

  /** Every registered candidate's record is found by its hash. */
  lemma SlotsMatchRecords(rs: seq<Record>, e: Setting)
    requires Stored(rs)
    ensures RecordsMatch(SlotsOf(rs, e), rs)
  {
    hide RecordOutcomes, WellKinded, Lineage.UniqueIds, WellFormed;
    var s := SlotsOf(rs, e);
    forall c | Registered(c) in s
      ensures FindRecord(rs, c.id.bundleHash).Some?
      ensures forall dep :: dep in FeatureIds(FindRecord(rs, c.id.bundleHash).value.bundle.features) <==> FeatureRef(c.id.bundleHash, dep) in FeatureSlotIds(s)
    {
      var r :| r in rs && Registered(c) in OutcomesOf(r, e);
      RecordSlotsDistinct(r, e);
      assert NamesSlot(r, Registered(c).Id());
      FindByHash(rs, r);
      FeatureSlotsOfRecord(rs, e, r);
    }
  }

  lemma FeatureSlotsOfRecord(rs: seq<Record>, e: Setting, r: Record)
    requires Stored(rs) && r in rs
    ensures forall dep :: dep in FeatureIds(r.bundle.features) <==> FeatureRef(r.evidenceHash, dep) in FeatureSlotIds(SlotsOf(rs, e))
  {
    hide RecordOutcomes, WellKinded, Lineage.UniqueIds, WellFormed, FeatureIds;
    RecordSlotsDistinct(r, e);
    forall dep | FeatureRef(r.evidenceHash, dep) in FeatureSlotIds(SlotsOf(rs, e))
      ensures dep in FeatureIds(r.bundle.features)
    {
      var o :| o in SlotsOf(rs, e) && o.Id() == FeatureRef(r.evidenceHash, dep);
      var r' :| r' in rs && o in OutcomesOf(r', e);
      RecordSlotsDistinct(r', e);
      assert NamesSlot(r', o.Id());
    }
  }

  /** Every feature, claim and brief of a record has its slot. */
  lemma SlotFound(r: Record, e: Setting)
    ensures forall f :: f in r.bundle.features ==> FeatureSlot(r, f, e.now, e.scopeKey, e.policy) in OutcomesOf(r, e)
    ensures forall t :: t in TaggedClaims(r.bundle.contextual) ==>
        ClaimSlot(r, t, e.now, e.scopeKey, e.policy) in OutcomesOf(r, e)
    ensures BriefSlot(r, e.now, e.scopeKey, e.policy) in OutcomesOf(r, e)
  {
    hide FeatureSlot, ClaimSlot, BriefSlot, TaggedClaims;
    var fs, cs := FeatureSlots(r, e.now, e.scopeKey, e.policy), ClaimSlots(r, e.now, e.scopeKey, e.policy);
    forall f | f in r.bundle.features
      ensures FeatureSlot(r, f, e.now, e.scopeKey, e.policy) in fs
    {
      var i :| 0 <= i < |fs| && r.bundle.features[i] == f;
      assert fs[i] in fs;
    }
    forall t | t in TaggedClaims(r.bundle.contextual)
      ensures ClaimSlot(r, t, e.now, e.scopeKey, e.policy) in cs
    {
      var i :| 0 <= i < |cs| && TaggedClaims(r.bundle.contextual)[i] == t;
      assert cs[i] in cs;
    }
  }

  lemma ClaimTagged(ctx: Contextual, c: Claim) returns (t: TaggedClaim)
    requires c in AllClaims(ctx)
    ensures t in TaggedClaims(ctx) && t.claim == c
  {
    hide TaggedClaims, AllClaims;
    ClaimIdsTagged(ctx);
    var i :| 0 <= i < |AllClaims(ctx)| && AllClaims(ctx)[i] == c;
    t := TaggedClaims(ctx)[i];
  }

  /** Whatever cites a reference has a slot. */
  lemma CitingSlot(rs: seq<Record>, e: Setting, r: Record, ref: Id, item: CandidateId)
    requires r in rs && Cites(r, ref, item)
    ensures item in SlotIds(SlotsOf(rs, e))
  {
    hide FeatureSlot, ClaimSlot, RecordOutcomes, AllClaims, TaggedClaims;
    SlotFound(r, e);
    if f :| f in r.bundle.features && ref in f.inputLineage && item == FeatureRef(r.evidenceHash, f.featureId) {
      FeatureSlotId(r, f, e);
      assert FeatureSlot(r, f, e.now, e.scopeKey, e.policy) in SlotsOf(rs, e);
    } else {
      var c :| c in AllClaims(r.bundle.contextual) && ref in c.sourceReferenceIds && item == ClaimRef(r.evidenceHash, c.evidenceId);
      var t := ClaimTagged(r.bundle.contextual, c);
      ClaimSlotId(r, t, e);
      assert ClaimSlot(r, t, e.now, e.scopeKey, e.policy) in SlotsOf(rs, e);
    }
  }

  lemma EntryTells(s: set<Outcome>, policy: Policy, confidence: map<string, int>, m: DecisionMap, id: CandidateId)
    requires WellSlotted(s) && Settled(s, policy, confidence, m, SlotIds(s)) && id in m.entries
    ensures m.entries[id].included <==> id in Chosen(s, policy, confidence)
  {
    hide Decide;
    var o :| o in s && o.Id() == id;
    match o
    case Registered(c) =>
      RegisteredUnique(s, c);
    case Early(d) =>
      assert WellKinded(o);
      EarlyDecided(s, policy, confidence, d);
      assert forall c :: Registered(c) in s && c.id == id ==> Registered(c).Id() == o.Id();
  }

  lemma EarlyDecided(s: set<Outcome>, policy: Policy, confidence: map<string, int>, d: Decision)
    ensures Decide(s, policy, confidence, Early(d)) == d
  {
  }

  /** The final decision map answers every citation with whether the cited-by slot is included. */
  lemma MapTells(rs: seq<Record>, e: Setting, m: DecisionMap)
    requires Stored(rs) && Settled(SlotsOf(rs, e), e.policy, Confidence(rs), m, SlotIds(SlotsOf(rs, e)))
    ensures Tells(rs, m, Chosen(SlotsOf(rs, e), e.policy, Confidence(rs)).Keys)
  {
    hide WellSlotted, SlotsOf, Decide, Cites, Stored, Chosen;
    SlotsWellSlotted(rs, e);
    forall id | id in m.entries
      ensures m.entries[id].included <==> id in Chosen(SlotsOf(rs, e), e.policy, Confidence(rs))
    {
      EntryTells(SlotsOf(rs, e), e.policy, Confidence(rs), m, id);
    }
    forall r, ref, item | r in rs && Cites(r, ref, item)
      ensures item in m.entries
    {
      CitingSlot(rs, e, r, ref, item);
    }
  }

  /** An id is counted in the state of the one feature it names. */
  lemma CountedOnce(rs: seq<Record>, a: FeatureStatus, b: FeatureStatus)
    requires Stored(rs) && a != b
    ensures FeaturesIn(rs, a) !! FeaturesIn(rs, b)
  {
    hide WellFormed;
    forall id | id in FeaturesIn(rs, a)
      ensures id !in FeaturesIn(rs, b)
    {
      var r, f :| r in rs && f in r.bundle.features && f.status == a && id == FeatureId(r, f);
      if r', f' :| r' in rs && f' in r'.bundle.features && f'.status == b && id == FeatureId(r', f') {
        SameHashSame(rs, r, r');
        SameIdSame(r.bundle.features, f, f');
      }
    }
  }

  lemma SameIdSame(fs: seq<Feature>, f: Feature, g: Feature)
    requires NoDuplicates(FeatureIds(fs)) && f in fs && g in fs && f.featureId == g.featureId
    ensures f == g
  {
    var i :| 0 <= i < |fs| && fs[i] == f;
    var j :| 0 <= j < |fs| && fs[j] == g;
    assert FeatureIds(fs)[i] == FeatureIds(fs)[j];
  }

  /** The three availability counters add up to the number of feature slots. */
  lemma FeaturesConserved(rs: seq<Record>, e: Setting, a: Availability)
    requires Stored(rs) && CountsFeatures(rs, a)
    ensures a.available + a.unavailable + a.invalid == |FeatureSlotIds(SlotsOf(rs, e))|
  {
    CountedOnce(rs, Available, Unavailable);
    CountedOnce(rs, Available, Invalid);
    CountedOnce(rs, Unavailable, Invalid);
    AllFeaturesCounted(rs, e);
    hide FeaturesIn, FeatureSlotIds, Stored;
    var x, y, z := FeaturesIn(rs, Available), FeaturesIn(rs, Unavailable), FeaturesIn(rs, Invalid);
    assert |x + y| == |x| + |y|;
    assert |x + y + z| == |x + y| + |z|;
  }

  lemma AllFeaturesCounted(rs: seq<Record>, e: Setting)
    requires Stored(rs)
    ensures FeaturesIn(rs, Available) + FeaturesIn(rs, Unavailable) + FeaturesIn(rs, Invalid) == FeatureSlotIds(SlotsOf(rs, e))
  {
    hide RecordOutcomes, WellKinded, FeatureSlot, Stored, FeatureIds;
    var s := SlotsOf(rs, e);
    forall r, f | r in rs && f in r.bundle.features
      ensures FeatureId(r, f) in FeatureSlotIds(s)
    {
      SlotFound(r, e);
      FeatureSlotId(r, f, e);
      assert FeatureSlot(r, f, e.now, e.scopeKey, e.policy) in s;
    }
    forall id | id in FeatureSlotIds(s)
      ensures exists r, f :: r in rs && f in r.bundle.features && id == FeatureId(r, f)
    {
      var o :| o in s && o.Id().kind == DeterministicFeature && o.Id() == id;
      var r :| r in rs && o in OutcomesOf(r, e);
      FeatureNamed(rs, e, r, o);
      var i :| 0 <= i < |r.bundle.features| && r.bundle.features[i].featureId == id.localId;
      assert r.bundle.features[i] in r.bundle.features && FeatureId(r, r.bundle.features[i]) == id;
    }
    forall r, f | r in rs && f in r.bundle.features
      ensures FeatureId(r, f) in FeaturesIn(rs, f.status)
    {
    }
  }

  lemma FeatureNamed(rs: seq<Record>, e: Setting, r: Record, o: Outcome)
    requires Stored(rs) && r in rs && o in OutcomesOf(r, e) && o.Id().kind == DeterministicFeature
    ensures o.Id().bundleHash == r.evidenceHash
    ensures exists i :: 0 <= i < |r.bundle.features| && r.bundle.features[i].featureId == o.Id().localId
  {
    hide RecordOutcomes, WellKinded, Lineage.UniqueIds, WellFormed;
    RecordSlotsDistinct(r, e);
    assert NamesSlot(r, o.Id());
    var i :| 0 <= i < |FeatureIds(r.bundle.features)| && FeatureIds(r.bundle.features)[i] == o.Id().localId;
  }

  // ---------- The registry's lists ----------

  lemma {:induction false} FamilyCandidatesIn(outs: seq<Outcome>, family: Family)
    ensures forall c :: c in FamilyCandidates(outs, family) <==> Registered(c) in outs && c.family == family
  {
    if outs != [] {
      FamilyCandidatesIn(outs[..|outs| - 1], family);
      assert outs == outs[..|outs| - 1] + [outs[|outs| - 1]];
    }
  }

  lemma {:induction false} FamilyCandidatesDistinct(outs: seq<Outcome>, family: Family)
    requires DistinctSlots(outs)
    ensures DistinctIds(FamilyCandidates(outs, family))
  {
    if outs != [] {
      var front, o := outs[..|outs| - 1], outs[|outs| - 1];
      FamilyCandidatesDistinct(front, family);
      FamilyCandidatesIn(front, family);
      if o.Registered? && o.candidate.family == family {
        forall d | d in FamilyCandidates(front, family)
          ensures d.id != o.candidate.id
        {
          var i :| 0 <= i < |front| && front[i] == Registered(d);
          assert outs[i].Id() != outs[|outs| - 1].Id();
        }
        AppendDistinct(FamilyCandidates(front, family), o.candidate);
      }
    }
  }

  lemma {:induction false} EarlyDecisionsIn(outs: seq<Outcome>)
    ensures forall d :: d in EarlyDecisions(outs) <==> Early(d) in outs
  {
    if outs != [] {
      EarlyDecisionsIn(outs[..|outs| - 1]);
      assert outs == outs[..|outs| - 1] + [outs[|outs| - 1]];
    }
  }

  /** The registry's family lists hold each registered candidate once. */
  lemma RegistryLists(rs: seq<Record>, e: Setting, byFamily: map<Family, seq<Candidate>>)
    requires Stored(rs)
    requires forall family :: FamilyCandidates(OutcomesOfAll(rs, e), family) == if family in byFamily then byFamily[family] else []
    ensures Lists(SlotsOf(rs, e), byFamily)
    ensures ListsBriefs(SlotsOf(rs, e), FamilyCandidates(OutcomesOfAll(rs, e), ResearchBrief))
  {
    hide FamilyCandidates, OutcomesOfAll, SlotsOf, Stored;
    var outs, s := OutcomesOfAll(rs, e), SlotsOf(rs, e);
    AllSlotsDistinct(rs, e);
    OutcomesAreSlots(rs, e);
    forall family
      ensures forall c :: c in FamilyCandidates(outs, family) <==> Registered(c) in s && c.family == family
      ensures DistinctIds(FamilyCandidates(outs, family))
    {
      FamilyCandidatesIn(outs, family);
      FamilyCandidatesDistinct(outs, family);
    }
  }

  ghost function DecisionIds(ds: seq<Decision>): set<CandidateId> {
    set d | d in ds :: d.id
  }

  /** The decision map starts with the early exclusions. */
  method SeedDecisions(decisions: seq<Decision>, ghost policy: Policy, ghost s: set<Outcome>,
      ghost confidence: map<string, int>)
    returns (m: DecisionMap)
    requires WellSlotted(s) && forall d :: d in decisions <==> Early(d) in s
    ensures Settled(s, policy, confidence, m, EarlyIds(s))
  {
    hide WellSlotted;
    m := OrderedMap([], map[]);
    for i := 0 to |decisions|
      invariant Settled(s, policy, confidence, m, DecisionIds(decisions[..i]))
    {
      hide Settled, Decide;
      var d := decisions[i];
      assert decisions[..i + 1] == decisions[..i] + [d];
      SeedOne(s, policy, confidence, m, DecisionIds(decisions[..i]), d);
      assert DecisionIds(decisions[..i + 1]) == DecisionIds(decisions[..i]) + {d.id};
      m := m.Set(d.id, d);
    }
    hide Settled, Decide;
    assert decisions[..|decisions|] == decisions;
    assert DecisionIds(decisions) == EarlyIds(s) by {
      forall o | o in s && o.Early?
        ensures o.Id() in DecisionIds(decisions)
      {
        assert o == Early(o.decision) && o.decision in decisions;
      }
      forall d | d in decisions
        ensures d.id in EarlyIds(s)
      {
        assert Early(d).Id() == d.id;
      }
    }
  }

  lemma SeedOne(s: set<Outcome>, policy: Policy, confidence: map<string, int>, m: DecisionMap, ids: set<CandidateId>,
      d: Decision)
    requires WellSlotted(s) && Settled(s, policy, confidence, m, ids) && Early(d) in s
    ensures Settled(s, policy, confidence, m.Set(d.id, d), ids + {d.id})
  {
    SettleOne(s, policy, confidence, m, ids, Early(d));
  }

  /** All registered candidates by id. */
  method Catalog(byFamily: map<Family, seq<Candidate>>, ghost s: set<Outcome>)
    returns (registered: map<CandidateId, Candidate>)
    requires WellSlotted(s) && Lists(s, byFamily)
    ensures Catalogs(s, registered)
  {
    hide WellSlotted;
    registered := map[];
    var todo := byFamily.Keys;
    while todo != {}
      invariant todo <= byFamily.Keys
      invariant forall id :: id in registered ==> registered[id].id == id && Registered(registered[id]) in s
      invariant forall c :: Registered(c) in s && c.family !in todo ==> c.id in registered
      decreases todo
    {
      var family :| family in todo;
      registered := CatalogFamily(registered, byFamily[family], s);
      todo := todo - {family};
    }
    forall id
      ensures (id in registered <==> IsRegistered(s, id)) && (id in registered ==> registered[id] == CandidateOf(s, id))
    {
      if id in registered {
        RegisteredUnique(s, registered[id]);
      }
    }
  }

  method CatalogFamily(registered0: map<CandidateId, Candidate>, cs: seq<Candidate>, ghost s: set<Outcome>)
    returns (registered: map<CandidateId, Candidate>)
    requires forall c :: c in cs ==> Registered(c) in s
    requires forall id :: id in registered0 ==> registered0[id].id == id && Registered(registered0[id]) in s
    ensures forall id :: id in registered ==> registered[id].id == id && Registered(registered[id]) in s
    ensures forall id :: id in registered0 ==> id in registered
    ensures forall c :: c in cs ==> c.id in registered
  {
    registered := registered0;
    for i := 0 to |cs|
      invariant forall id :: id in registered ==> registered[id].id == id && Registered(registered[id]) in s
      invariant forall id :: id in registered0 ==> id in registered
      invariant forall c :: c in cs[..i] ==> c.id in registered
    {
      assert cs[..i + 1] == cs[..i] + [cs[i]] && cs[i] in cs;
      registered := registered[cs[i].id := cs[i]];
    }
    assert cs[..|cs|] == cs;
  }

  lemma {:induction false} FeatureCount(outs: seq<Outcome>)
    ensures RegisteredFeatures(outs) == 0 <==> forall o :: o in outs && o.Registered? ==> o.Id().kind != DeterministicFeature
  {
    if outs != [] {
      FeatureCount(outs[..|outs| - 1]);
      assert outs == outs[..|outs| - 1] + [outs[|outs| - 1]];
      assert outs[|outs| - 1] in outs;
    }
  }

  /** The registry's counter is zero exactly when no feature was registered. */
  lemma FeaturesSupplied(rs: seq<Record>, e: Setting)
    requires Stored(rs)
    ensures RegisteredFeatures(OutcomesOfAll(rs, e)) == 0 <==> !Supplied(SlotsOf(rs, e), Deterministic)
  {
    hide OutcomesOfAll, SlotsOf, Stored, RegisteredFeatures;
    var s, outs := SlotsOf(rs, e), OutcomesOfAll(rs, e);
    OutcomesAreSlots(rs, e);
    SlotsWellSlotted(rs, e);
    FeatureCount(outs);
    forall c | Registered(c) in s
      ensures GroupOf(c) == Deterministic <==> Registered(c).Id().kind == DeterministicFeature
    {
      assert WellKinded(Registered(c));
    }
    assert forall o :: o in outs <==> o in s;
  }
}
