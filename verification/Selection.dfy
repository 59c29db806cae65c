/**
  Evidence selection: register, threshold and cap, drop dependants of excluded features until nothing changes, then judge
  the briefs. Every phase is proved to write nothing but final verdicts.
 */
module Selection {
  import opened Evidence
  import opened Sorting
  import opened Candidates
  import opened Ranking
  import opened SelectionSpec

  /** A JavaScript Map: setting an existing key keeps its place in the iteration order. */
  datatype OrderedMap<!K(!new), V> = OrderedMap(order: seq<K>, entries: map<K, V>) {
    function Set(k: K, v: V): OrderedMap<K, V> {
      OrderedMap(if k in entries then order else order + [k], entries[k := v])
    }

    ghost predicate Valid() {
      NoDuplicates(order) && forall k :: k in order <==> k in entries
    }

    lemma SetValid(k: K, v: V)
      requires Valid()
      ensures Set(k, v).Valid()
    {
    }
  }

  type DecisionMap = OrderedMap<CandidateId, Decision>

  /** Exactly the given slots have been decided, and each as the specification decides it. */
  ghost predicate Settled(s: set<Outcome>, policy: Policy, confidence: map<string, int>, m: DecisionMap,
      ids: set<CandidateId>) {
    && m.Valid() && m.entries.Keys == ids
    && forall o :: o in s && o.Id() in ids ==> m.entries[o.Id()] == Decide(s, policy, confidence, o)
  }

  lemma SettleOne(s: set<Outcome>, policy: Policy, confidence: map<string, int>, m: DecisionMap, ids: set<CandidateId>,
      o: Outcome)
    requires WellSlotted(s) && Settled(s, policy, confidence, m, ids) && o in s
    ensures Settled(s, policy, confidence, m.Set(o.Id(), Decide(s, policy, confidence, o)), ids + {o.Id()})
  {
    m.SetValid(o.Id(), Decide(s, policy, confidence, o));
  }

  ghost function EarlyIds(s: set<Outcome>): set<CandidateId> {
    set o | o in s && o.Early? :: o.Id()
  }

  ghost function FamilyIds(s: set<Outcome>, families: set<Family>): set<CandidateId> {
    set o | o in s && o.Registered? && o.candidate.family in families :: o.Id()
  }

  const EVIDENCE_FAMILIES: set<Family> := {
    MarketState, PriceQuality, ClmmEconomics, PositionState, Liquidity, Risk,
    SupportResistance, Flows, Derivatives, Events, NewsRegulatory
  }

  /** Preliminary inclusions are registered candidates under their own ids. */
  ghost predicate Holds(s: set<Outcome>, prelim: map<CandidateId, Candidate>) {
    forall id :: id in prelim ==> prelim[id].id == id && Registered(prelim[id]) in s && prelim[id].family != ResearchBrief
  }

  // ---------- Threshold and family cap ----------

  ghost function IdsOf(cs: seq<Candidate>): set<CandidateId> {
    set c | c in cs :: c.id
  }

  lemma {:induction false} IdsOfSize(cs: seq<Candidate>)
    requires forall i, j :: 0 <= i < j < |cs| ==> cs[i].id != cs[j].id
    ensures |IdsOf(cs)| == |cs|
  {
    if cs != [] {
      var front, last := cs[..|cs| - 1], cs[|cs| - 1];
      assert cs == front + [last];
      IdsOfSize(front);
      assert forall i :: 0 <= i < |front| ==> front[i].id != last.id;
      assert last.id !in IdsOf(front);
      assert IdsOf(cs) == IdsOf(front) + {last.id};
    }
  }

  /** The sequence lists a family's candidates over the threshold, best first. */
  ghost predicate RanksFamily(s: set<Outcome>, policy: Policy, family: Family, sorted: seq<Candidate>) {
    && StrictlySorted(CandidateBefore, sorted)
    && forall c :: c in sorted <==> Registered(c) in s && c.family == family && Passes(policy, c)
  }

  lemma RankingDistinct(s: set<Outcome>, policy: Policy, family: Family, sorted: seq<Candidate>)
    requires WellSlotted(s) && RanksFamily(s, policy, family, sorted)
    ensures forall k, l :: 0 <= k < l < |sorted| ==> sorted[k].id != sorted[l].id
  {
    CandidateOrder();
    KeysGiveWeakOrder(CandidateBefore, KeyLess, CandidateKey);
    hide CandidateBefore, Passes;
    forall k, l | 0 <= k < l < |sorted|
      ensures sorted[k].id != sorted[l].id
    {
      assert CandidateBefore(sorted[k], sorted[l]) && sorted[k] in sorted && sorted[l] in sorted;
      assert Registered(sorted[k]).Id() == sorted[k].id && Registered(sorted[l]).Id() == sorted[l].id;
    }
  }

  lemma BeforeMeansEarlier(sorted: seq<Candidate>, k: nat, i: nat)
    requires StrictlySorted(CandidateBefore, sorted) && k < |sorted| && i < |sorted|
    ensures CandidateBefore(sorted[k], sorted[i]) <==> k < i
  {
    CandidateOrder();
    KeysGiveWeakOrder(CandidateBefore, KeyLess, CandidateKey);
    hide CandidateBefore;
  }

  /** The place of a candidate in the ranking is the number of candidates ahead of it. */
  lemma PlaceIsRank(s: set<Outcome>, policy: Policy, family: Family, sorted: seq<Candidate>, i: nat)
    requires WellSlotted(s) && RanksFamily(s, policy, family, sorted) && i < |sorted|
    ensures |Ahead(s, policy, sorted[i])| == i
    ensures Registered(sorted[i]) in s && sorted[i].family == family && Passes(policy, sorted[i])
  {
    hide CandidateBefore, Passes, WellSlotted;
    RankingDistinct(s, policy, family, sorted);
    var c := sorted[i];
    var front := sorted[..i];
    assert c in sorted;
    forall id | id in Ahead(s, policy, c)
      ensures id in IdsOf(front)
    {
      var o :| o in s && o.Registered? && o.candidate.family == c.family && Passes(policy, o.candidate)
               && CandidateBefore(o.candidate, c) && o.candidate.id == id;
      assert o == Registered(o.candidate) && o.candidate in sorted;
      var k :| 0 <= k < |sorted| && sorted[k] == o.candidate;
      BeforeMeansEarlier(sorted, k, i);
      assert front[k] == o.candidate;
    }
    forall id | id in IdsOf(front)
      ensures id in Ahead(s, policy, c)
    {
      var d :| d in front && d.id == id;
      var k :| 0 <= k < |front| && front[k] == d;
      assert sorted[k] == d && d in sorted;
      BeforeMeansEarlier(sorted, k, i);
      assert Registered(d) in s;
    }
    assert Ahead(s, policy, c) == IdsOf(front);
    IdsOfSize(front);
  }

  lemma SettleExcluded(s: set<Outcome>, policy: Policy, confidence: map<string, int>, m: DecisionMap,
      ids: set<CandidateId>, c: Candidate, reason: Reason)
    requires WellSlotted(s) && Settled(s, policy, confidence, m, ids) && Registered(c) in s && c.family != ResearchBrief
    requires DecideEvidence(s, policy, c) == CandidateDecision(c, false, c.reasons + [reason], c.score)
    ensures Settled(s, policy, confidence, m.Set(c.id, CandidateDecision(c, false, c.reasons + [reason], c.score)), ids + {c.id})
  {
    SettleOne(s, policy, confidence, m, ids, Registered(c));
  }

  ghost function FailingIds(policy: Policy, cs: seq<Candidate>): set<CandidateId> {
    set c | c in cs && !Passes(policy, c) :: c.id
  }

  lemma FailingStep(policy: Policy, cs: seq<Candidate>, c: Candidate)
    ensures FailingIds(policy, cs + [c]) == FailingIds(policy, cs) + if Passes(policy, c) then {} else {c.id}
  {
    hide Passes;
  }

  lemma NothingFails(policy: Policy)
    ensures FailingIds(policy, []) == {}
  {
  }

  /** Those over the threshold, each once. */
  ghost predicate KeepsPassing(policy: Policy, cs: seq<Candidate>, passed: seq<Candidate>) {
    && (forall c :: c in passed <==> c in cs && Passes(policy, c))
    && forall k, l :: 0 <= k < l < |passed| ==> passed[k].id != passed[l].id
  }

  lemma PassingStep(policy: Policy, cs: seq<Candidate>, passed: seq<Candidate>, c: Candidate)
    requires KeepsPassing(policy, cs, passed) && forall d :: d in cs ==> d.id != c.id
    ensures KeepsPassing(policy, cs + [c], if Passes(policy, c) then passed + [c] else passed)
  {
    hide Passes;
    assert forall k :: 0 <= k < |passed| ==> passed[k] in passed;
  }

  lemma EarlierDiffer(cs: seq<Candidate>, i: nat)
    requires i < |cs| && forall k, l :: 0 <= k < l < |cs| ==> cs[k].id != cs[l].id
    ensures forall d :: d in cs[..i] ==> d.id != cs[i].id
  {
  }

  /** Excludes what is under the threshold and keeps the rest. */
  method ApplyThreshold(candList: seq<Candidate>, policy: Policy, m0: DecisionMap, ghost s: set<Outcome>,
      ghost confidence: map<string, int>, ghost ids: set<CandidateId>)
    returns (m: DecisionMap, passed: seq<Candidate>)
    requires WellSlotted(s) && Settled(s, policy, confidence, m0, ids)
    requires forall c :: c in candList ==> Registered(c) in s && c.family != ResearchBrief
    requires forall i, j :: 0 <= i < j < |candList| ==> candList[i].id != candList[j].id
    ensures Settled(s, policy, confidence, m, ids + FailingIds(policy, candList))
    ensures forall c :: c in passed <==> c in candList && Passes(policy, c)
    ensures forall k, l :: 0 <= k < l < |passed| ==> passed[k].id != passed[l].id
  {
    hide Settled, WellSlotted, Ahead, Survivors, FailingIds;
    m, passed := m0, [];
    NothingFails(policy);
    assert candList[..0] == [] && ids + FailingIds(policy, []) == ids;
    for i := 0 to |candList|
      invariant Settled(s, policy, confidence, m, ids + FailingIds(policy, candList[..i]))
      invariant KeepsPassing(policy, candList[..i], passed)
    {
      hide KeepsPassing;
      var c := candList[i];
      ghost var failing := ids + FailingIds(policy, candList[..i]);
      assert candList[..i + 1] == candList[..i] + [c] && c in candList;
      FailingStep(policy, candList[..i], c);
      EarlierDiffer(candList, i);
      PassingStep(policy, candList[..i], passed, c);
      if Passes(policy, c) {
        assert ids + FailingIds(policy, candList[..i + 1]) == failing;
        passed := passed + [c];
      } else {
        SettleExcluded(s, policy, confidence, m, failing, c, ScoreThreshold);
        assert ids + FailingIds(policy, candList[..i + 1]) == failing + {c.id};
        m := m.Set(c.id, CandidateDecision(c, false, c.reasons + [ScoreThreshold], c.score));
      }
    }
    assert candList[..|candList|] == candList;
  }

  ghost function CutIds(s: set<Outcome>, policy: Policy, cs: seq<Candidate>): set<CandidateId> {
    set c | c in cs && !Preliminary(s, policy, c) :: c.id
  }

  ghost function KeptIds(s: set<Outcome>, policy: Policy, cs: seq<Candidate>): set<CandidateId> {
    set c | c in cs && Preliminary(s, policy, c) :: c.id
  }

  lemma SplitNone(s: set<Outcome>, policy: Policy)
    ensures CutIds(s, policy, []) == {} && KeptIds(s, policy, []) == {}
  {
  }

  lemma SplitStep(s: set<Outcome>, policy: Policy, cs: seq<Candidate>, c: Candidate)
    ensures CutIds(s, policy, cs + [c]) == CutIds(s, policy, cs) + if Preliminary(s, policy, c) then {} else {c.id}
    ensures KeptIds(s, policy, cs + [c]) == KeptIds(s, policy, cs) + if Preliminary(s, policy, c) then {c.id} else {}
  {
    hide Preliminary;
  }

  /** Keeps the best of a ranked family and excludes the rest. */
  method TakeBest(sorted: seq<Candidate>, policy: Policy, m0: DecisionMap, prelim0: map<CandidateId, Candidate>,
      ghost s: set<Outcome>, ghost confidence: map<string, int>, ghost ids: set<CandidateId>, ghost family: Family)
    returns (m: DecisionMap, prelim: map<CandidateId, Candidate>)
    requires WellSlotted(s) && Settled(s, policy, confidence, m0, ids) && Holds(s, prelim0)
    requires RanksFamily(s, policy, family, sorted) && family != ResearchBrief
    ensures Settled(s, policy, confidence, m, ids + CutIds(s, policy, sorted))
    ensures Holds(s, prelim) && prelim.Keys == prelim0.Keys + KeptIds(s, policy, sorted)
  {
    SplitNone(s, policy);
    hide Settled, WellSlotted, Survivors, RanksFamily, Passes, CutIds, KeptIds;
    m, prelim := m0, prelim0;
    assert sorted[..0] == [] && ids + {} == ids;
    for i := 0 to |sorted|
      invariant Settled(s, policy, confidence, m, ids + CutIds(s, policy, sorted[..i]))
      invariant Holds(s, prelim) && prelim.Keys == prelim0.Keys + KeptIds(s, policy, sorted[..i])
    {
      var c := sorted[i];
      PlaceIsRank(s, policy, family, sorted, i);
      assert sorted[..i + 1] == sorted[..i] + [c];
      SplitStep(s, policy, sorted[..i], c);
      ghost var cut := ids + CutIds(s, policy, sorted[..i]);
      if i < policy.maxSelectedPerFamily {
        assert cut == ids + CutIds(s, policy, sorted[..i + 1]);
        prelim := prelim[c.id := c];
      } else {
        SettleExcluded(s, policy, confidence, m, cut, c, FamilySelectionLimit);
        assert cut + {c.id} == ids + CutIds(s, policy, sorted[..i + 1]);
        m := m.Set(c.id, CandidateDecision(c, false, c.reasons + [FamilySelectionLimit], c.score));
      }
    }
    assert sorted[..|sorted|] == sorted;
  }

  method CapFamily(candList: seq<Candidate>, policy: Policy, m0: DecisionMap, prelim0: map<CandidateId, Candidate>,
      ghost s: set<Outcome>, ghost confidence: map<string, int>, ghost ids: set<CandidateId>, ghost family: Family)
    returns (m: DecisionMap, prelim: map<CandidateId, Candidate>)
    requires WellSlotted(s) && Settled(s, policy, confidence, m0, ids) && Holds(s, prelim0) && family != ResearchBrief
    requires forall c :: c in candList <==> Registered(c) in s && c.family == family
    requires forall i, j :: 0 <= i < j < |candList| ==> candList[i].id != candList[j].id
    ensures Settled(s, policy, confidence, m, ids + (FamilyIds(s, {family}) - PreliminaryIds(s, policy)))
    ensures Holds(s, prelim)
    ensures prelim.Keys == prelim0.Keys + (FamilyIds(s, {family}) * PreliminaryIds(s, policy))
  {
    hide Settled, WellSlotted, Passes, Preliminary;
    var passed;
    m, passed := ApplyThreshold(candList, policy, m0, s, confidence, ids);
    var sorted := SortBy(CandidateBefore, passed);
    RankingSorted(s, policy, family, passed);
    m, prelim := TakeBest(sorted, policy, m, prelim0, s, confidence, ids + FailingIds(policy, candList), family);
    FamilySplit(s, policy, family, candList, sorted);
    assert ids + FailingIds(policy, candList) + CutIds(s, policy, sorted) == ids + (FamilyIds(s, {family}) - PreliminaryIds(s, policy));
  }

  lemma RankingSorted(s: set<Outcome>, policy: Policy, family: Family, passed: seq<Candidate>)
    requires WellSlotted(s)
    requires forall c :: c in passed <==> Registered(c) in s && c.family == family && Passes(policy, c)
    requires forall k, l :: 0 <= k < l < |passed| ==> passed[k].id != passed[l].id
    ensures RanksFamily(s, policy, family, SortBy(CandidateBefore, passed))
  {
    CandidateOrder();
    forall i, j | 0 <= i < j < |passed|
      ensures CandidateKey(passed[i]) != CandidateKey(passed[j])
    {
      assert passed[i] in passed && passed[j] in passed;
      DistinctCandidateKeys(s, passed[i], passed[j]);
    }
    SortStrictly(CandidateBefore, KeyLess, CandidateKey, passed);
  }

  lemma FamilySplit(s: set<Outcome>, policy: Policy, family: Family, candList: seq<Candidate>, sorted: seq<Candidate>)
    requires WellSlotted(s) && family != ResearchBrief && RanksFamily(s, policy, family, sorted)
    requires forall c :: c in candList <==> Registered(c) in s && c.family == family
    ensures FamilyIds(s, {family}) - PreliminaryIds(s, policy) ==
            FailingIds(policy, candList) + CutIds(s, policy, sorted)
    ensures FamilyIds(s, {family}) * PreliminaryIds(s, policy) == KeptIds(s, policy, sorted)
  {
    forall id | id in FamilyIds(s, {family})
      ensures exists c :: Registered(c) in s && c.id == id && c.family == family && c in candList
                          && (id in PreliminaryIds(s, policy) <==> Preliminary(s, policy, c))
    {
      var o :| o in s && o.Registered? && o.candidate.family in {family} && o.Id() == id;
      var c := o.candidate;
      assert o == Registered(c);
      if id in PreliminaryIds(s, policy) {
        var p :| p in s && p.Registered? && Preliminary(s, policy, p.candidate) && p.candidate.id == id;
        assert p == o;
      }
      assert Registered(c) in s && c.id == id && c.family == family && c in candList;
    }
    forall c | Registered(c) in s && c.family == family
      ensures c.id in FamilyIds(s, {family}) && (c.id in PreliminaryIds(s, policy) <==> Preliminary(s, policy, c))
    {
      assert Registered(c).Id() == c.id;
      if c.id in PreliminaryIds(s, policy) {
        var p :| p in s && p.Registered? && Preliminary(s, policy, p.candidate) && p.candidate.id == c.id;
        assert p.Id() == Registered(c).Id();
      }
    }
  }

  ghost function PassingOf(s: set<Outcome>, policy: Policy, family: Family): set<CandidateId> {
    set o | o in s && o.Registered? && o.candidate.family == family && Passes(policy, o.candidate) :: o.candidate.id
  }

  ghost function PreliminaryOf(s: set<Outcome>, policy: Policy, family: Family): set<CandidateId> {
    set o | o in s && o.Registered? && o.candidate.family == family && Preliminary(s, policy, o.candidate) :: o.candidate.id
  }

  lemma {:induction false} ListPassing(s: set<Outcome>, all: set<Outcome>, policy: Policy, family: Family)
    returns (list: seq<Candidate>)
    requires WellSlotted(all) && s <= all
    ensures forall c :: c in list <==> Registered(c) in s && c.family == family && Passes(policy, c)
    ensures forall i, j :: 0 <= i < j < |list| ==> list[i].id != list[j].id
    decreases |s|
  {
    hide Passes, WellKinded;
    if s == {} {
      list := [];
    } else {
      var o :| o in s;
      var rest := ListPassing(s - {o}, all, policy, family);
      assert forall i :: 0 <= i < |rest| ==> rest[i] in rest;
      if o.Registered? && o.candidate.family == family && Passes(policy, o.candidate) {
        list := rest + [o.candidate];
        forall c | c in rest
          ensures c.id != o.candidate.id
        {
          assert Registered(c).Id() == c.id && o.Id() == o.candidate.id;
        }
      } else {
        list := rest;
      }
    }
  }

  /** A family keeps exactly as many candidates as the cap allows, or all that pass the threshold if those are fewer. */
  lemma FamilyFilled(s: set<Outcome>, policy: Policy, family: Family)
    requires WellSlotted(s) && family != ResearchBrief && policy.maxSelectedPerFamily >= 0
    ensures |PreliminaryOf(s, policy, family)| == Min(policy.maxSelectedPerFamily, |PassingOf(s, policy, family)|)
  {
    var passed := ListPassing(s, s, policy, family);
    RankingSorted(s, policy, family, passed);
    var sorted := SortBy(CandidateBefore, passed);
    RankingDistinct(s, policy, family, sorted);
    hide CandidateBefore, Passes, WellSlotted, SortBy, RanksFamily;
    var n := Min(policy.maxSelectedPerFamily, |sorted|);
    var best := sorted[..n];
    IdsOfSize(sorted);
    IdsOfSize(best);
    RankedIds(s, policy, family, sorted);
    assert PassingOf(s, policy, family) == IdsOf(sorted);
    BestAreKept(s, policy, family, sorted, best);
  }

  lemma RankedIds(s: set<Outcome>, policy: Policy, family: Family, sorted: seq<Candidate>)
    requires RanksFamily(s, policy, family, sorted)
    ensures PassingOf(s, policy, family) == IdsOf(sorted)
  {
    hide CandidateBefore, Passes;
    forall o | o in s && o.Registered? && o.candidate.family == family && Passes(policy, o.candidate)
      ensures o.candidate.id in IdsOf(sorted)
    {
      assert o == Registered(o.candidate) && o.candidate in sorted;
    }
  }

  lemma BestAreKept(s: set<Outcome>, policy: Policy, family: Family, sorted: seq<Candidate>, best: seq<Candidate>)
    requires WellSlotted(s) && family != ResearchBrief && policy.maxSelectedPerFamily >= 0
    requires RanksFamily(s, policy, family, sorted)
    requires best == sorted[..Min(policy.maxSelectedPerFamily, |sorted|)]
    ensures PreliminaryOf(s, policy, family) == IdsOf(best)
  {
    hide CandidateBefore, Passes, WellSlotted;
    forall c | c in best
      ensures c.id in PreliminaryOf(s, policy, family)
    {
      var i :| 0 <= i < |best| && best[i] == c;
      PlaceIsRank(s, policy, family, sorted, i);
      assert Registered(c) in s;
    }
    forall o | o in s && o.Registered? && o.candidate.family == family && Preliminary(s, policy, o.candidate)
      ensures o.candidate.id in IdsOf(best)
    {
      assert o == Registered(o.candidate) && o.candidate in sorted;
      var i :| 0 <= i < |sorted| && sorted[i] == o.candidate;
      PlaceIsRank(s, policy, family, sorted, i);
      assert best[i] == o.candidate;
    }
  }

  /** The registered candidates of a family, each listed once. */
  ghost predicate Lists(s: set<Outcome>, byFamily: map<Family, seq<Candidate>>) {
    && (forall family, c :: Registered(c) in s && c.family == family <==> family in byFamily && c in byFamily[family])
    && (forall family, i, j :: family in byFamily && 0 <= i < j < |byFamily[family]| ==>
          byFamily[family][i].id != byFamily[family][j].id)
  }

  /** Applies threshold and cap family by family; in what order makes no difference. */
  method CapFamilies(byFamily: map<Family, seq<Candidate>>, policy: Policy, m0: DecisionMap, ghost s: set<Outcome>,
      ghost confidence: map<string, int>)
    returns (m: DecisionMap, prelim: map<CandidateId, Candidate>)
    requires WellSlotted(s) && Lists(s, byFamily) && Settled(s, policy, confidence, m0, EarlyIds(s))
    ensures Settled(s, policy, confidence, m, EarlyIds(s) + (FamilyIds(s, EVIDENCE_FAMILIES) - PreliminaryIds(s, policy)))
    ensures Holds(s, prelim) && prelim.Keys == PreliminaryIds(s, policy)
  {
    hide Settled, WellSlotted, PreliminaryIds, FamilyIds;
    m, prelim := m0, map[];
    var todo := byFamily.Keys - {ResearchBrief};
    ghost var done: set<Family> := {};
    FamilyIdsParts(s, policy, {}, MarketState);
    assert EarlyIds(s) + (FamilyIds(s, done) - PreliminaryIds(s, policy)) == EarlyIds(s);
    while todo != {}
      invariant todo + done == byFamily.Keys - {ResearchBrief} && todo !! done
      invariant Settled(s, policy, confidence, m, EarlyIds(s) + (FamilyIds(s, done) - PreliminaryIds(s, policy)))
      invariant Holds(s, prelim) && prelim.Keys == FamilyIds(s, done) * PreliminaryIds(s, policy)
      decreases todo
    {
      var family :| family in todo;
      ghost var ids := EarlyIds(s) + (FamilyIds(s, done) - PreliminaryIds(s, policy));
      m, prelim := CapFamily(byFamily[family], policy, m, prelim, s, confidence, ids, family);
      FamilyIdsParts(s, policy, done, family);
      assert ids + (FamilyIds(s, {family}) - PreliminaryIds(s, policy)) == EarlyIds(s) + (FamilyIds(s, done + {family}) - PreliminaryIds(s, policy));
      todo, done := todo - {family}, done + {family};
    }
    AllFamilies(s, policy, byFamily, done);
  }

  lemma FamilyIdsParts(s: set<Outcome>, policy: Policy, done: set<Family>, family: Family)
    ensures FamilyIds(s, done + {family}) == FamilyIds(s, done) + FamilyIds(s, {family})
    ensures FamilyIds(s, {}) == {}
  {
  }

  lemma AllFamilies(s: set<Outcome>, policy: Policy, byFamily: map<Family, seq<Candidate>>, done: set<Family>)
    requires WellSlotted(s) && Lists(s, byFamily) && done == byFamily.Keys - {ResearchBrief}
    ensures FamilyIds(s, done) == FamilyIds(s, EVIDENCE_FAMILIES)
    ensures FamilyIds(s, done) * PreliminaryIds(s, policy) == PreliminaryIds(s, policy)
  {
    forall c | Registered(c) in s && c.family != ResearchBrief
      ensures c.family in done && c.family in EVIDENCE_FAMILIES
    {
      assert c.family in byFamily;
    }
  }

  // ---------- Dependency closure ----------

  /** Array.prototype.find by hash. */
  function FindRecord(rs: seq<Record>, hash: string): (r: Option<Record>)
    ensures r.Some? <==> exists x :: x in rs && x.evidenceHash == hash
    ensures r.Some? ==> r.value in rs && r.value.evidenceHash == hash
  {
    if rs == [] then None
    else if rs[0].evidenceHash == hash then Some(rs[0])
    else FindRecord(rs[1..], hash)
  }

  /** Every registered candidate's record can be found, and its features are the feature slots of that hash. */
  ghost predicate RecordsMatch(s: set<Outcome>, rs: seq<Record>) {
    forall c :: Registered(c) in s ==>
      && FindRecord(rs, c.id.bundleHash).Some?
      && forall dep :: dep in FeatureIds(FindRecord(rs, c.id.bundleHash).value.bundle.features) <==> FeatureRef(c.id.bundleHash, dep) in FeatureSlotIds(s)
  }

  ghost function EvidenceIds(s: set<Outcome>): set<CandidateId> {
    FamilyIds(s, EVIDENCE_FAMILIES)
  }

  /** Which decisions exist while some preliminary inclusions are still open. */
  ghost function DecidedBut(s: set<Outcome>, open: set<CandidateId>): set<CandidateId> {
    EarlyIds(s) + (EvidenceIds(s) - open)
  }

  predicate IdOrderOfCandidates(a: Candidate, b: Candidate) {
    IdBefore(a.id, b.id)
  }

  /** The values of a Map that satisfy a kind, in some order. */
  method FeaturesOf(prelim: map<CandidateId, Candidate>) returns (features: seq<Candidate>)
    requires forall id :: id in prelim ==> prelim[id].id == id
    ensures ListsFeatures(prelim, features)
  {
    features := [];
    var todo := prelim.Keys;
    while todo != {}
      invariant todo <= prelim.Keys
      invariant forall c :: c in features <==> c.id in prelim - todo && prelim[c.id] == c && c.id.kind == DeterministicFeature
      invariant forall i, j :: 0 <= i < j < |features| ==> features[i].id != features[j].id
      decreases todo
    {
      var id :| id in todo;
      todo := todo - {id};
      if prelim[id].id.kind == DeterministicFeature {
        assert forall i :: 0 <= i < |features| ==> features[i] in features;
        features := features + [prelim[id]];
      }
    }
  }

  /** Does a feature's lineage name an in-bundle feature that is excluded or no longer preliminarily included? */
  method HasExcludedDependency(feat: Candidate, bundle: Bundle, m: DecisionMap, prelim: map<CandidateId, Candidate>)
    returns (excluded: bool)
    requires forall id :: id in m.entries && !m.entries[id].included ==> id !in prelim
    ensures excluded <==> exists dep :: dep in feat.refs && dep in FeatureIds(bundle.features) && FeatureRef(feat.id.bundleHash, dep) !in prelim
  {
    for i := 0 to |feat.refs|
      invariant forall dep :: dep in feat.refs[..i] && dep in FeatureIds(bundle.features) ==>
          FeatureRef(feat.id.bundleHash, dep) in prelim
    {
      var depId := feat.refs[i];
      assert feat.refs[..i + 1] == feat.refs[..i] + [depId];
      if depId in FeatureIds(bundle.features) {
        var id := FeatureRef(feat.id.bundleHash, depId);
        if (id in m.entries && !m.entries[id].included) || id !in prelim {
          assert depId in feat.refs;
          return true;
        }
      }
    }
    assert feat.refs[..|feat.refs|] == feat.refs;
    return false;
  }

  /** No in-bundle feature that the candidate names is outside the set. */
  ghost predicate DependenciesIn(s: set<Outcome>, c: Candidate, t: set<CandidateId>) {
    forall dep :: dep in c.refs && FeatureRef(c.id.bundleHash, dep) in FeatureSlotIds(s) ==>
      FeatureRef(c.id.bundleHash, dep) in t
  }

  lemma BlockedDoesNotSurvive(s: set<Outcome>, policy: Policy, c: Candidate, t: set<CandidateId>)
    requires WellSlotted(s) && Registered(c) in s && c.id.kind == DeterministicFeature
    requires Survivors(s, policy) <= t && !DependenciesIn(s, c, t)
    ensures c.id !in Survivors(s, policy)
  {
    var dep :| dep in c.refs && FeatureRef(c.id.bundleHash, dep) in FeatureSlotIds(s) && FeatureRef(c.id.bundleHash, dep) !in t;
    RegisteredUnique(s, c);
    assert Registered(c).Id() in FeatureSlotIds(s);
    assert Dependencies(s).Edge(c.id, FeatureRef(c.id.bundleHash, dep));
    SurvivorsClosed(s, policy);
  }

  lemma AllInIsClosed(s: set<Outcome>, prelim: map<CandidateId, Candidate>)
    requires WellSlotted(s) && Holds(s, prelim)
    requires forall id :: id in prelim && id.kind == DeterministicFeature ==> DependenciesIn(s, prelim[id], prelim.Keys)
    ensures Dependencies(s).Closed(prelim.Keys)
  {
    forall u, v | u in prelim.Keys && Dependencies(s).Edge(u, v)
      ensures v in prelim.Keys
    {
      RegisteredUnique(s, prelim[u]);
      assert u.kind == DeterministicFeature;
      assert v == FeatureRef(u.bundleHash, v.localId);
    }
  }

  lemma PreliminaryRegistered(s: set<Outcome>, policy: Policy, c: Candidate)
    requires WellSlotted(s) && Registered(c) in s
    ensures c.id in PreliminaryIds(s, policy) <==> Preliminary(s, policy, c)
    ensures c.family in EVIDENCE_FAMILIES <==> c.id in EvidenceIds(s)
    ensures c.id !in EarlyIds(s)
  {
    if c.id in PreliminaryIds(s, policy) {
      var o :| o in s && o.Registered? && Preliminary(s, policy, o.candidate) && o.candidate.id == c.id;
      assert o.Id() == Registered(c).Id();
    }
    assert Registered(c).Id() == c.id;
  }

  /** Removes one blocked feature and records why. */
  lemma SettleBlocked(s: set<Outcome>, policy: Policy, confidence: map<string, int>, m: DecisionMap,
      open: set<CandidateId>, c: Candidate)
    requires WellSlotted(s) && Registered(c) in s && c.family != ResearchBrief && c.id in open
    requires c.id in PreliminaryIds(s, policy) - Survivors(s, policy)
    ensures var d := CandidateDecision(c, false, c.reasons + [FeatureDependencyExcluded], c.score);
            Settled(s, policy, confidence, m, DecidedBut(s, open)) ==>
              Settled(s, policy, confidence, m.Set(c.id, d), DecidedBut(s, open - {c.id}))
  {
    hide Settled;
    PreliminaryRegistered(s, policy, c);
    if Settled(s, policy, confidence, m, DecidedBut(s, open)) {
      SettleExcluded(s, policy, confidence, m, DecidedBut(s, open), c, FeatureDependencyExcluded);
    }
    assert DecidedBut(s, open) + {c.id} == DecidedBut(s, open - {c.id});
  }

  lemma OpenUndecided(s: set<Outcome>, policy: Policy, confidence: map<string, int>, m: DecisionMap,
      prelim: map<CandidateId, Candidate>)
    requires WellSlotted(s) && Holds(s, prelim) && Settled(s, policy, confidence, m, DecidedBut(s, prelim.Keys))
    ensures forall id :: id in m.entries ==> id !in prelim
  {
    forall id | id in prelim
      ensures id !in m.entries
    {
      PreliminaryRegistered(s, policy, prelim[id]);
    }
  }

  /** Removes the feature if it is blocked. */
  method VisitFeature(feat: Candidate, m0: DecisionMap, prelim0: map<CandidateId, Candidate>, rs: seq<Record>,
      ghost policy: Policy, ghost s: set<Outcome>, ghost confidence: map<string, int>)
    returns (m: DecisionMap, prelim: map<CandidateId, Candidate>, removed: bool)
    requires WellSlotted(s) && RecordsMatch(s, rs) && Holds(s, prelim0)
    requires feat.id in prelim0 && prelim0[feat.id] == feat && feat.id.kind == DeterministicFeature
    requires Survivors(s, policy) <= prelim0.Keys
    requires Settled(s, policy, confidence, m0, DecidedBut(s, prelim0.Keys))
    ensures feat.id in PreliminaryIds(s, policy) ==> Settled(s, policy, confidence, m, DecidedBut(s, prelim.Keys))
    ensures prelim == if removed then prelim0 - {feat.id} else prelim0
    ensures if removed then feat.id !in Survivors(s, policy) else DependenciesIn(s, feat, prelim0.Keys)
  {
    hide Settled, WellSlotted, Survivors, PreliminaryIds, FeatureSlotIds;
    m, prelim := m0, prelim0;
    OpenUndecided(s, policy, confidence, m, prelim);
    assert Registered(feat) in s;
    var record := FindRecord(rs, feat.id.bundleHash).value;
    removed := HasExcludedDependency(feat, record.bundle, m, prelim);
    if removed {
      BlockedDoesNotSurvive(s, policy, feat, prelim.Keys);
      if feat.id in PreliminaryIds(s, policy) {
        SettleBlocked(s, policy, confidence, m, prelim.Keys, feat);
      }
      prelim := prelim - {feat.id};
      m := m.Set(feat.id, CandidateDecision(feat, false, feat.reasons + [FeatureDependencyExcluded], feat.score));
      assert prelim.Keys == prelim0.Keys - {feat.id};
    }
  }

  /** The state of a scan before feature i: what is left, and whether anything was removed. */
  ghost predicate Scanned(s: set<Outcome>, policy: Policy, prelim0: map<CandidateId, Candidate>,
      prelim: map<CandidateId, Candidate>, changed: bool, features: seq<Candidate>, i: nat) {
    && i <= |features| && Holds(s, prelim) && Survivors(s, policy) <= prelim.Keys <= prelim0.Keys
    && (changed ==> prelim.Keys < prelim0.Keys)
    && (!changed ==> prelim == prelim0 && forall j :: 0 <= j < i ==> DependenciesIn(s, features[j], prelim.Keys))
    && (forall j :: i <= j < |features| ==> features[j].id in prelim && prelim[features[j].id] == features[j])
    && (forall j, k :: 0 <= j < k < |features| ==> features[j].id != features[k].id)
  }

  lemma ScanStep(s: set<Outcome>, policy: Policy, prelim0: map<CandidateId, Candidate>,
      before: map<CandidateId, Candidate>, prelim: map<CandidateId, Candidate>, changed: bool, removed: bool,
      features: seq<Candidate>, i: nat)
    requires i < |features| && Scanned(s, policy, prelim0, before, changed, features, i)
    requires prelim == if removed then before - {features[i].id} else before
    requires if removed then features[i].id !in Survivors(s, policy) else DependenciesIn(s, features[i], before.Keys)
    ensures Scanned(s, policy, prelim0, prelim, changed || removed, features, i + 1)
  {
    hide Survivors, DependenciesIn;
    assert features[i].id in before;
    if removed {
      assert prelim.Keys == before.Keys - {features[i].id};
    }
  }

  /** One scan over the preliminary features; deletions take effect at once. */
  method ScanDependencies(m0: DecisionMap, prelim0: map<CandidateId, Candidate>, rs: seq<Record>, ghost policy: Policy,
      ghost s: set<Outcome>, ghost confidence: map<string, int>)
    returns (m: DecisionMap, prelim: map<CandidateId, Candidate>, changed: bool)
    requires WellSlotted(s) && RecordsMatch(s, rs) && Holds(s, prelim0)
    requires Survivors(s, policy) <= prelim0.Keys <= PreliminaryIds(s, policy)
    requires Settled(s, policy, confidence, m0, DecidedBut(s, prelim0.Keys))
    ensures Holds(s, prelim) && Survivors(s, policy) <= prelim.Keys <= prelim0.Keys
    ensures Settled(s, policy, confidence, m, DecidedBut(s, prelim.Keys))
    ensures changed ==> prelim.Keys < prelim0.Keys
    ensures !changed ==> Dependencies(s).Closed(prelim.Keys)
  {
    hide Survivors, PreliminaryIds, FeatureSlotIds, Dependencies, Settled, WellSlotted, DependenciesIn, RecordsMatch,
      DecidedBut;
    m, prelim, changed := m0, prelim0, false;
    var unsorted := FeaturesOf(prelim);
    SortedFeatures(prelim, unsorted);
    var features := SortBy(IdOrderOfCandidates, unsorted);
    for i := 0 to |features|
      invariant Scanned(s, policy, prelim0, prelim, changed, features, i)
      invariant Settled(s, policy, confidence, m, DecidedBut(s, prelim.Keys))
    {
      ghost var before := prelim;
      var removed;
      m, prelim, removed := VisitFeature(features[i], m, prelim, rs, policy, s, confidence);
      ScanStep(s, policy, prelim0, before, prelim, changed, removed, features, i);
      changed := changed || removed;
    }
    if !changed {
      forall id | id in prelim && id.kind == DeterministicFeature
        ensures DependenciesIn(s, prelim[id], prelim.Keys)
      {
        assert prelim[id] in features;
      }
      AllInIsClosed(s, prelim);
    }
  }

  /** The candidates are the features among the preliminary inclusions, each once. */
  ghost predicate ListsFeatures(prelim: map<CandidateId, Candidate>, features: seq<Candidate>) {
    && (forall c :: c in features <==> c.id in prelim && prelim[c.id] == c && c.id.kind == DeterministicFeature)
    && (forall i, j :: 0 <= i < j < |features| ==> features[i].id != features[j].id)
  }

  lemma SortedFeatures(prelim: map<CandidateId, Candidate>, features: seq<Candidate>)
    requires ListsFeatures(prelim, features)
    ensures var sorted := SortBy(IdOrderOfCandidates, features);
            && ListsFeatures(prelim, sorted)
            && forall i :: 0 <= i < |sorted| ==>
              sorted[i].id in prelim && prelim[sorted[i].id] == sorted[i] && sorted[i].id.kind == DeterministicFeature
  {
    var key := (c: Candidate) => c.id;
    var sorted := SortBy(IdOrderOfCandidates, features);
    SortDistinct(IdOrderOfCandidates, key, features);
    forall i, j | 0 <= i < j < |sorted|
      ensures sorted[i].id != sorted[j].id
    {
      assert key(sorted[i]) != key(sorted[j]);
    }
    assert forall i :: 0 <= i < |sorted| ==> sorted[i] in sorted;
  }

  /** Repeats the scan until a pass changes nothing: what is left is exactly the largest dependency-closed set. */
  method ResolveDependencies(m0: DecisionMap, prelim0: map<CandidateId, Candidate>, rs: seq<Record>,
      ghost policy: Policy, ghost s: set<Outcome>, ghost confidence: map<string, int>)
    returns (m: DecisionMap, prelim: map<CandidateId, Candidate>)
    requires WellSlotted(s) && RecordsMatch(s, rs) && Holds(s, prelim0) && prelim0.Keys == PreliminaryIds(s, policy)
    requires Settled(s, policy, confidence, m0, DecidedBut(s, prelim0.Keys))
    ensures Holds(s, prelim) && prelim.Keys == Survivors(s, policy)
    ensures Settled(s, policy, confidence, m, DecidedBut(s, prelim.Keys))
  {
    m, prelim := m0, prelim0;
    var changed := true;
    while changed
      invariant Holds(s, prelim) && Survivors(s, policy) <= prelim.Keys <= PreliminaryIds(s, policy)
      invariant Settled(s, policy, confidence, m, DecidedBut(s, prelim.Keys))
      invariant !changed ==> Dependencies(s).Closed(prelim.Keys)
      decreases prelim.Keys, changed
    {
      hide Settled, WellSlotted, Survivors, PreliminaryIds;
      m, prelim, changed := ScanDependencies(m, prelim, rs, policy, s, confidence);
    }
    SurvivorsLargest(s, policy, prelim.Keys);
  }

  // ---------- Inclusion ----------

  /** What survived is included; with that every feature and claim has its verdict. */
  method IncludeSurvivors(m0: DecisionMap, prelim: map<CandidateId, Candidate>, policy: Policy, ghost s: set<Outcome>,
      ghost confidence: map<string, int>)
    returns (m: DecisionMap)
    requires WellSlotted(s) && Holds(s, prelim) && prelim.Keys == Survivors(s, policy)
    requires Settled(s, policy, confidence, m0, DecidedBut(s, prelim.Keys))
    ensures Settled(s, policy, confidence, m, DecidedBut(s, {}))
  {
    m := m0;
    var todo := prelim.Keys;
    while todo != {}
      invariant todo <= prelim.Keys && Settled(s, policy, confidence, m, DecidedBut(s, todo))
      decreases todo
    {
      hide Settled, WellSlotted;
      var id :| id in todo;
      var c := prelim[id];
      PreliminaryRegistered(s, policy, c);
      SettleIncluded(s, policy, confidence, m, todo, c);
      todo := todo - {id};
      m := m.Set(id, CandidateDecision(c, true, InclusionReasons(policy, c), c.score));
    }
  }

  lemma SettleIncluded(s: set<Outcome>, policy: Policy, confidence: map<string, int>, m: DecisionMap,
      open: set<CandidateId>, c: Candidate)
    requires WellSlotted(s) && Registered(c) in s && c.family != ResearchBrief && c.id in open
    requires c.id in Survivors(s, policy) && Settled(s, policy, confidence, m, DecidedBut(s, open))
    ensures Settled(s, policy, confidence, m.Set(c.id, CandidateDecision(c, true, InclusionReasons(policy, c), c.score)), DecidedBut(s, open - {c.id}))
  {
    PreliminaryRegistered(s, policy, c);
    SettleOne(s, policy, confidence, m, DecidedBut(s, open), Registered(c));
    assert DecidedBut(s, open) + {c.id} == DecidedBut(s, open - {c.id});
  }

  // ---------- Briefs ----------

  /** What the decision map says about a citation is what the specification says. */
  lemma CitationLookup(s: set<Outcome>, policy: Policy, confidence: map<string, int>, m: DecisionMap,
      ids: set<CandidateId>, hash: string, ref: Id)
    requires WellSlotted(s) && Settled(s, policy, confidence, m, ids) && DecidedBut(s, {}) <= ids <= SlotIds(s)
    ensures var f, c := FeatureRef(hash, ref), ClaimRef(hash, ref);
            && ((f in m.entries && m.entries[f].included) || (c in m.entries && m.entries[c].included) <==> CitesSurvivor(s, policy, hash, ref))
            && CitedScore(s, hash, ref) == (if f in m.entries then m.entries[f].score else if c in m.entries then m.entries[c].score else None)
  {
    SlotLookup(s, policy, confidence, m, ids, FeatureRef(hash, ref));
    SlotLookup(s, policy, confidence, m, ids, ClaimRef(hash, ref));
  }

  lemma SlotKinds(s: set<Outcome>, policy: Policy, id: CandidateId)
    ensures id in Survivors(s, policy) ==> IsRegistered(s, id)
    ensures IsRegistered(s, id) ==> id in SlotIds(s)
  {
    if id in Survivors(s, policy) {
      var p :| p in s && p.Registered? && Preliminary(s, policy, p.candidate) && p.candidate.id == id;
      assert p == Registered(p.candidate);
    }
    if IsRegistered(s, id) {
      assert Registered(CandidateOf(s, id)).Id() == id;
    }
  }

  lemma SlotLookup(s: set<Outcome>, policy: Policy, confidence: map<string, int>, m: DecisionMap, ids: set<CandidateId>,
      id: CandidateId)
    requires WellSlotted(s) && Settled(s, policy, confidence, m, ids) && DecidedBut(s, {}) <= ids <= SlotIds(s)
    requires id.kind != BriefKind
    ensures id in m.entries <==> id in SlotIds(s)
    ensures id in m.entries && m.entries[id].included <==> id in Survivors(s, policy)
    ensures SlotScore(s, id) == if id in m.entries then m.entries[id].score else None
  {
    hide Survivors, Preliminary;
    SlotKinds(s, policy, id);
    if id in SlotIds(s) {
      var o :| o in s && o.Id() == id;
      match o
      case Early(d) =>
        assert id in EarlyIds(s) && d == m.entries[id];
        assert forall c :: Registered(c) in s ==> Registered(c).Id() != o.Id();
      case Registered(c) =>
        assert WellKinded(o) && c.family in EVIDENCE_FAMILIES;
        PreliminaryRegistered(s, policy, c);
        IncludedIffSurvives(s, policy, confidence, c);
        RegisteredUnique(s, c);
    }
  }

  method FindMissing(brief: Candidate, m: DecisionMap, ghost policy: Policy, ghost s: set<Outcome>,
      ghost confidence: map<string, int>, ghost ids: set<CandidateId>)
    returns (missing: seq<Id>)
    requires WellSlotted(s) && Settled(s, policy, confidence, m, ids) && DecidedBut(s, {}) <= ids <= SlotIds(s)
    ensures missing == Missing(s, policy, brief.id.bundleHash, brief.refs)
  {
    hide Settled, WellSlotted, CitesSurvivor;
    missing := [];
    for i := 0 to |brief.refs|
      invariant missing == Missing(s, policy, brief.id.bundleHash, brief.refs[..i])
    {
      var ref := brief.refs[i];
      var f, c := FeatureRef(brief.id.bundleHash, ref), ClaimRef(brief.id.bundleHash, ref);
      CitationLookup(s, policy, confidence, m, ids, brief.id.bundleHash, ref);
      var isSelected := (f in m.entries && m.entries[f].included) || (c in m.entries && m.entries[c].included);
      assert brief.refs[..i + 1][..i] == brief.refs[..i];
      if !isSelected {
        missing := missing + [ref];
      }
    }
    assert brief.refs[..|brief.refs|] == brief.refs;
  }

  method AverageScore(brief: Candidate, m: DecisionMap, ghost policy: Policy, ghost s: set<Outcome>,
      ghost confidence: map<string, int>, ghost ids: set<CandidateId>)
    returns (average: int)
    requires WellSlotted(s) && Settled(s, policy, confidence, m, ids) && DecidedBut(s, {}) <= ids <= SlotIds(s)
    ensures average == Average(ScoreSum(s, brief.id.bundleHash, brief.refs), ScoreCount(s, brief.id.bundleHash, brief.refs))
  {
    hide Settled, WellSlotted, CitedScore;
    var sum, count := 0, 0;
    for i := 0 to |brief.refs|
      invariant count >= 0
      invariant sum == ScoreSum(s, brief.id.bundleHash, brief.refs[..i])
      invariant count == ScoreCount(s, brief.id.bundleHash, brief.refs[..i])
    {
      var ref := brief.refs[i];
      var f, c := FeatureRef(brief.id.bundleHash, ref), ClaimRef(brief.id.bundleHash, ref);
      CitationLookup(s, policy, confidence, m, ids, brief.id.bundleHash, ref);
      assert brief.refs[..i + 1][..i] == brief.refs[..i];
      var score := if f in m.entries then m.entries[f].score else if c in m.entries then m.entries[c].score else None;
      if score.Some? {
        sum, count := sum + score.value, count + 1;
      }
    }
    assert brief.refs[..|brief.refs|] == brief.refs;
    average := if count > 0 then sum / count else 0;
  }

  /** The overall confidence of each record's bundle, by hash. */
  function Confidence(rs: seq<Record>): (confidence: map<string, int>)
    ensures forall h :: h in confidence <==> FindRecord(rs, h).Some?
    ensures forall h :: h in confidence ==> confidence[h] == FindRecord(rs, h).value.bundle.overallConfidenceBps
  {
    map r | r in rs :: r.evidenceHash := FindRecord(rs, r.evidenceHash).value.bundle.overallConfidenceBps
  }

  method EvaluateBrief(brief: Candidate, m0: DecisionMap, rs: seq<Record>, policy: Policy, ghost s: set<Outcome>,
      ghost ids: set<CandidateId>)
    returns (m: DecisionMap)
    requires WellSlotted(s) && RecordsMatch(s, rs) && Registered(brief) in s && brief.family == ResearchBrief
    requires Settled(s, policy, Confidence(rs), m0, ids) && DecidedBut(s, {}) <= ids <= SlotIds(s) && brief.id !in ids
    ensures Settled(s, policy, Confidence(rs), m, ids + {brief.id})
    ensures m.order == m0.order + [brief.id]
  {
    ghost var verdict := Decide(s, policy, Confidence(rs), Registered(brief));
    SettleOne(s, policy, Confidence(rs), m0, ids, Registered(brief));
    assert brief.id !in m0.entries;
    var bundle := FindRecord(rs, brief.id.bundleHash).value.bundle;
    var missing := FindMissing(brief, m0, policy, s, Confidence(rs), ids);
    if |missing| > 0 {
      m := m0.Set(brief.id, CandidateDecision(brief, false, [BriefReferencesExcludedEvidence] + ExcludedReferences(SortIds(missing)), None));
      return;
    }
    var average := AverageScore(brief, m0, policy, s, Confidence(rs), ids);
    var computedScore := Min(bundle.overallConfidenceBps, average);
    if computedScore >= policy.minimumEffectiveScoreBps {
      m := m0.Set(brief.id, CandidateDecision(brief, true, brief.reasons, Some(computedScore)));
    } else {
      m := m0.Set(brief.id, CandidateDecision(brief, false, brief.reasons + [ScoreThreshold], Some(computedScore)));
    }
  }

  function CandidateIds(cs: seq<Candidate>): (ids: seq<CandidateId>)
    ensures |ids| == |cs| && forall i :: 0 <= i < |cs| ==> ids[i] == cs[i].id
  {
    seq(|cs|, i requires 0 <= i < |cs| => cs[i].id)
  }

  /** The briefs among the slots, each once. */
  ghost predicate ListsBriefs(s: set<Outcome>, briefs: seq<Candidate>) {
    && (forall c :: c in briefs <==> Registered(c) in s && c.family == ResearchBrief)
    && (forall i, j :: 0 <= i < j < |briefs| ==> briefs[i].id != briefs[j].id)
  }

  /** Judges the briefs in registration order; afterwards every slot has its verdict. */
  method EvaluateBriefs(briefs: seq<Candidate>, m0: DecisionMap, rs: seq<Record>, policy: Policy, ghost s: set<Outcome>)
    returns (m: DecisionMap)
    requires WellSlotted(s) && RecordsMatch(s, rs) && ListsBriefs(s, briefs)
    requires Settled(s, policy, Confidence(rs), m0, DecidedBut(s, {}))
    ensures Settled(s, policy, Confidence(rs), m, SlotIds(s))
    ensures m.order == m0.order + CandidateIds(briefs)
  {
    hide Settled, WellSlotted, SlotIds, DecidedBut, RecordsMatch, ListsBriefs;
    m := m0;
    ghost var evidence := DecidedBut(s, {});
    assert briefs[..0] == [] && evidence + IdsOf([]) == evidence;
    assert CandidateIds(briefs)[..0] == [] && m.order == m0.order + [];
    for i := 0 to |briefs|
      invariant Settled(s, policy, Confidence(rs), m, evidence + IdsOf(briefs[..i]))
      invariant m.order == m0.order + CandidateIds(briefs)[..i]
    {
      hide IdsOf, CandidateIds;
      BriefStep(s, briefs, i);
      ghost var ids := evidence + IdsOf(briefs[..i]);
      m := EvaluateBrief(briefs[i], m, rs, policy, s, ids);
      assert ids + {briefs[i].id} == evidence + IdsOf(briefs[..i + 1]);
      assert m.order == m0.order + (CandidateIds(briefs)[..i] + [briefs[i].id]);
    }
    assert CandidateIds(briefs)[..|briefs|] == CandidateIds(briefs) && briefs[..|briefs|] == briefs;
    BriefsComplete(s, briefs);
  }

  lemma BriefStep(s: set<Outcome>, briefs: seq<Candidate>, i: nat)
    requires WellSlotted(s) && ListsBriefs(s, briefs) && i < |briefs|
    ensures Registered(briefs[i]) in s && briefs[i].family == ResearchBrief
    ensures briefs[i].id !in DecidedBut(s, {}) + IdsOf(briefs[..i])
    ensures DecidedBut(s, {}) + IdsOf(briefs[..i]) <= SlotIds(s)
    ensures IdsOf(briefs[..i + 1]) == IdsOf(briefs[..i]) + {briefs[i].id}
    ensures CandidateIds(briefs)[..i + 1] == CandidateIds(briefs)[..i] + [briefs[i].id]
  {
    var b := briefs[i];
    assert b in briefs && briefs[..i + 1] == briefs[..i] + [b];
    assert forall o :: o in s && o.Id() == b.id ==> o == Registered(b);
    forall c | c in briefs[..i]
      ensures c.id != b.id && Registered(c) in s && Registered(c).Id() in SlotIds(s)
    {
      var j :| 0 <= j < i && briefs[j] == c;
      assert c in briefs;
    }
  }

  lemma BriefsComplete(s: set<Outcome>, briefs: seq<Candidate>)
    requires WellSlotted(s) && ListsBriefs(s, briefs)
    ensures DecidedBut(s, {}) + IdsOf(briefs) == SlotIds(s)
  {
    forall o | o in s
      ensures o.Id() in DecidedBut(s, {}) + IdsOf(briefs)
    {
      if o.Registered? && o.candidate.family == ResearchBrief {
        assert o == Registered(o.candidate) && o.candidate in briefs;
      }
    }
    forall c | c in briefs
      ensures c.id in SlotIds(s)
    {
      assert Registered(c).Id() == c.id;
    }
  }
}
