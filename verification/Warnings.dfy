/** The warnings of a selection: raised family by family, without repetition, ranked by code and family. */
module Warnings {
  import opened Evidence
  import opened Sorting
  import opened Candidates
  import opened Ranking
  import opened Summary
  import opened Conflicts

  // ---------- The order of the warnings ----------

  function WarningKey(w: Warning): seq<Atom> {
    [Num(CodeRank(w.code)), Num(FamilyRank(w.group))]
  }

  lemma NumPairOrder(a: int, b: int, c: int, d: int)
    ensures KeyLess([Num(a), Num(b)], [Num(c), Num(d)]) <==> if a != c then a < c else b < d
  {
    assert [Num(a), Num(b)] == [Num(a)] + [Num(b)] && [Num(c), Num(d)] == [Num(c)] + [Num(d)];
    KeyStep(Num(a), [Num(b)], Num(c), [Num(d)]);
    KeyLast(Num(b), Num(d));
  }

  lemma WarningsOrdered()
    ensures ComparesKeys(WarningOrder, KeyLess, WarningKey)
  {
    KeyStrictTotal();
    hide KeyLess, CodeRank, FamilyRank;
    forall a, b
      ensures WarningOrder(a, b) <==> KeyLess(WarningKey(a), WarningKey(b))
    {
      NumPairOrder(CodeRank(a.code), FamilyRank(a.group), CodeRank(b.code), FamilyRank(b.group));
    }
  }

  /** Warnings that name no family, or a known one, are told apart by their ranks. */
  lemma RanksSeparate(v: Warning, w: Warning)
    requires v.group.None? || v.group.value in Groups()
    requires w.group.None? || w.group.value in Groups()
    ensures WarningKey(v) == WarningKey(w) ==> v == w
  {
    if WarningKey(v) == WarningKey(w) {
      assert WarningKey(v)[0] == WarningKey(w)[0] && WarningKey(v)[1] == WarningKey(w)[1];
      assert v.code == w.code;
      assert FamilyRank(v.group) == FamilyRank(w.group);
      assert v.group == w.group;
    }
  }

  lemma DueNamesKnownFamily(s: set<Outcome>, policy: Policy, chosen: map<CandidateId, Candidate>,
      brief: Option<Candidate>, w: Warning)
    requires Warns(s, policy, chosen, brief, w)
    ensures w.group.None? || w.group.value in Groups()
  {
  }

  // ---------- Raising ----------

  const EVIDENCE_GROUPS: seq<Group> :=
    [Deterministic, ClaimsOf(SupportResistance), ClaimsOf(Flows), ClaimsOf(Derivatives), ClaimsOf(Events), ClaimsOf(NewsRegulatory)]

  lemma EvidenceGroups(g: Group)
    ensures g in EVIDENCE_GROUPS <==> g in Groups() - {Briefs}
    ensures g in EVIDENCE_GROUPS <==> g == Deterministic || (g.ClaimsOf? && g.family in CONTEXTUAL)
  {
  }

  lemma StaleInList(policy: Policy, chosen: map<CandidateId, Candidate>, group: Group, cs: seq<Candidate>)
    requires Keyed(chosen) && HoldsGroup(chosen, group, cs)
    ensures (exists c :: c in cs && c.freshnessWeight == policy.staleWeightBps) <==>
            exists id :: id in chosen && GroupOf(chosen[id]) == group && chosen[id].freshnessWeight == policy.staleWeightBps
  {
    hide GroupOf;
    if id :| id in chosen && GroupOf(chosen[id]) == group && chosen[id].freshnessWeight == policy.staleWeightBps {
      assert chosen[id] in cs;
    }
  }

  /** Looks for stale weight in every list, and in the attached brief. */
  method FindStale(raw: map<Group, seq<Candidate>>, brief: Option<Candidate>, policy: Policy,
      ghost chosen: map<CandidateId, Candidate>)
    returns (stale: bool)
    requires HoldsGroups(chosen, raw)
    ensures stale <==> StaleSelected(policy, chosen, brief)
  {
    hide HoldsGroup, Keyed, GroupOf;
    stale := false;
    for i := 0 to |EVIDENCE_GROUPS|
      invariant stale <==> exists id :: id in chosen && GroupOf(chosen[id]) in EVIDENCE_GROUPS[..i]
                                        && chosen[id].freshnessWeight == policy.staleWeightBps
    {
      var g := EVIDENCE_GROUPS[i];
      assert g in Groups();
      StaleInList(policy, chosen, g, raw[g]);
      assert EVIDENCE_GROUPS[..i + 1] == EVIDENCE_GROUPS[..i] + [g];
      stale := stale || exists c :: c in raw[g] && c.freshnessWeight == policy.staleWeightBps;
    }
    assert EVIDENCE_GROUPS[..|EVIDENCE_GROUPS|] == EVIDENCE_GROUPS;
    forall id | id in chosen
      ensures GroupOf(chosen[id]) in EVIDENCE_GROUPS <==> GroupOf(chosen[id]) != Briefs
    {
      KeyedEntry(chosen, id);
      EvidenceGroups(GroupOf(chosen[id]));
    }
    stale := stale || (brief.Some? && brief.value.freshnessWeight == policy.staleWeightBps);
  }

  method ConflictWarnings(status: map<Family, FamilyStatus>, ghost s: set<Outcome>,
      ghost chosen: map<CandidateId, Candidate>)
    returns (raw: seq<Warning>)
    requires AreStatuses(s, chosen, status)
    ensures forall w :: w in raw <==>
              && w.code == ConflictedFamily && w.group.Some? && w.group.value in Groups() - {Briefs}
              && FamilyWarns(s, chosen, w.code, w.group.value)
  {
    hide Clashes, Supplied, Offers;
    raw := [];
    for i := 0 to |CONTEXTUAL|
      invariant forall w :: w in raw <==>
                  w.code == ConflictedFamily && exists f :: f in CONTEXTUAL[..i] && w.group == Some(ClaimsOf(f)) && Clashes(chosen, f)
    {
      var f := CONTEXTUAL[i];
      assert CONTEXTUAL[..i + 1] == CONTEXTUAL[..i] + [f];
      if status[f] == IsConflicted {
        raw := raw + [Warning(ConflictedFamily, Some(ClaimsOf(f)))];
      }
    }
    assert CONTEXTUAL[..|CONTEXTUAL|] == CONTEXTUAL;
    forall g
      ensures g in Groups() - {Briefs} && g.ClaimsOf? <==> g.ClaimsOf? && g.family in CONTEXTUAL
    {
      EvidenceGroups(g);
    }
  }

  /** The missing or rejected warning of one family. */
  function CoverageWarning(group: Group, isMissing: bool, isRejected: bool): seq<Warning> {
    if isMissing then [Warning(MissingFamily, Some(group))]
    else if isRejected then [Warning(RejectedFamily, Some(group))]
    else []
  }

  ghost predicate IsCoverage(w: Warning) {
    (w.code == MissingFamily || w.code == RejectedFamily) && w.group.Some?
  }

  lemma CoverageRight(s: set<Outcome>, chosen: map<CandidateId, Candidate>, group: Group, isMissing: bool,
      isRejected: bool)
    requires isMissing <==> !Supplied(s, group)
    requires isRejected && !isMissing <==> Supplied(s, group) && !Offers(chosen, group)
    ensures forall w :: w in CoverageWarning(group, isMissing, isRejected) <==>
              IsCoverage(w) && w.group.value == group && FamilyWarns(s, chosen, w.code, w.group.value)
  {
    hide Supplied, Offers;
  }

  method CoverageWarnings(status: map<Family, FamilyStatus>, deterministicCount: nat, raw: map<Group, seq<Candidate>>,
      ghost s: set<Outcome>, ghost chosen: map<CandidateId, Candidate>)
    returns (warnings: seq<Warning>)
    requires AreStatuses(s, chosen, status) && HoldsGroups(chosen, raw) && ChosenFrom(s, chosen)
    requires deterministicCount == 0 <==> !Supplied(s, Deterministic)
    ensures forall w :: w in warnings <==>
              IsCoverage(w) && w.group.value in Groups() - {Briefs} && FamilyWarns(s, chosen, w.code, w.group.value)
  {
    hide Clashes, Supplied, Offers, HoldsGroup, Keyed, FamilyWarns, CoverageWarning;
    assert Deterministic in Groups();
    OffersIffListed(chosen, Deterministic, raw[Deterministic]);
    CoverageRight(s, chosen, Deterministic, deterministicCount == 0, raw[Deterministic] == []);
    warnings := CoverageWarning(Deterministic, deterministicCount == 0, raw[Deterministic] == []);
    for i := 0 to |CONTEXTUAL|
      invariant forall w :: w in warnings <==>
                  && IsCoverage(w) && FamilyWarns(s, chosen, w.code, w.group.value)
                  && (w.group.value == Deterministic || (w.group.value.ClaimsOf? && w.group.value.family in CONTEXTUAL[..i]))
    {
      var f := CONTEXTUAL[i];
      assert CONTEXTUAL[..i + 1] == CONTEXTUAL[..i] + [f];
      CoverageRight(s, chosen, ClaimsOf(f), status[f] == IsMissing, status[f] == IsRejected);
      warnings := warnings + CoverageWarning(ClaimsOf(f), status[f] == IsMissing, status[f] == IsRejected);
    }
    assert CONTEXTUAL[..|CONTEXTUAL|] == CONTEXTUAL;
    forall g
      ensures g in Groups() - {Briefs} <==> g == Deterministic || (g.ClaimsOf? && g.family in CONTEXTUAL)
    {
      EvidenceGroups(g);
    }
  }

  /** Drops repeated warnings, keeping the first of each. */
  method Deduplicate(raw: seq<Warning>) returns (warnings: seq<Warning>)
    ensures NoDuplicates(warnings) && forall w :: w in warnings <==> w in raw
  {
    var seen: set<Warning> := {};
    warnings := [];
    for i := 0 to |raw|
      invariant NoDuplicates(warnings) && SetOf(warnings) == seen == SetOf(raw[..i])
    {
      assert raw[..i + 1] == raw[..i] + [raw[i]];
      if raw[i] !in seen {
        seen := seen + {raw[i]};
        warnings := warnings + [raw[i]];
      }
    }
    assert raw[..|raw|] == raw;
    assert forall w :: w in warnings <==> w in SetOf(warnings);
    assert forall w :: w in raw <==> w in SetOf(raw);
  }

  lemma WarningsRanked(s: set<Outcome>, policy: Policy, chosen: map<CandidateId, Candidate>, brief: Option<Candidate>,
      warnings: seq<Warning>)
    requires NoDuplicates(warnings) && forall w :: w in warnings <==> Warns(s, policy, chosen, brief, w)
    ensures AreWarnings(s, policy, chosen, brief, SortBy(WarningOrder, warnings))
  {
    hide Warns, WarningOrder, KeyLess, WarningKey;
    forall i, j | 0 <= i < j < |warnings|
      ensures WarningKey(warnings[i]) != WarningKey(warnings[j])
    {
      assert warnings[i] in warnings && warnings[j] in warnings;
      DueNamesKnownFamily(s, policy, chosen, brief, warnings[i]);
      DueNamesKnownFamily(s, policy, chosen, brief, warnings[j]);
      RanksSeparate(warnings[i], warnings[j]);
    }
    WarningsOrdered();
    SortStrictly(WarningOrder, KeyLess, WarningKey, warnings);
  }

  /** Exactly the warnings that are due, ranked. */
  method FindWarnings(status: map<Family, FamilyStatus>, deterministicCount: nat, piles: Piles, policy: Policy,
      ghost s: set<Outcome>, ghost chosen: map<CandidateId, Candidate>)
    returns (warnings: seq<Warning>)
    requires AreStatuses(s, chosen, status) && HoldsGroups(chosen, piles.raw) && ChosenFrom(s, chosen)
    requires deterministicCount == 0 <==> !Supplied(s, Deterministic)
    ensures AreWarnings(s, policy, chosen, piles.brief, warnings)
  {
    hide AreStatuses, HoldsGroups, ChosenFrom, Supplied, StaleSelected, FamilyWarns, Groups;
    var stale := FindStale(piles.raw, piles.brief, policy, chosen);
    var conflicted := ConflictWarnings(status, s, chosen);
    var uncovered := CoverageWarnings(status, deterministicCount, piles.raw, s, chosen);
    var raw := (if stale then [Warning(StaleInput, None)] else []) + conflicted + uncovered
               + if piles.brief.None? then [Warning(NoSelectedResearch, Some(Briefs))] else [];
    forall w
      ensures w in raw <==> Warns(s, policy, chosen, piles.brief, w)
    {
    }
    warnings := Deduplicate(raw);
    WarningsRanked(s, policy, chosen, piles.brief, warnings);
    warnings := SortBy(WarningOrder, warnings);
  }

  /** The warnings are determined by the slots, what was included, and the brief. */
  lemma WarningsUnique(s: set<Outcome>, policy: Policy, chosen: map<CandidateId, Candidate>, brief: Option<Candidate>,
      a: seq<Warning>, b: seq<Warning>)
    requires AreWarnings(s, policy, chosen, brief, a) && AreWarnings(s, policy, chosen, brief, b)
    ensures a == b
  {
    hide Warns, WarningOrder, KeyLess, WarningKey;
    WarningsOrdered();
    KeysGiveWeakOrder(WarningOrder, KeyLess, WarningKey);
    SortedUnique(WarningOrder, a, b);
  }
}
