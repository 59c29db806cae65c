/** Assembles the summary from the decision map. */
module Reporting {
  import opened Evidence
  import opened Sorting
  import opened Candidates
  import opened Ranking
  import opened SelectionSpec
  import opened Selection
  import opened SourceUnion
  import opened Coverage
  import opened Summary
  import opened Conflicts
  import opened Warnings

  // ---------- Decisions ----------

  lemma DecideId(s: set<Outcome>, policy: Policy, confidence: map<string, int>, o: Outcome)
    ensures Decide(s, policy, confidence, o).id == o.Id()
  {
    hide Preliminary, Survivors, Missing, ScoreSum, ScoreCount;
  }

  /** The values of the decision map, by candidate id. */
  method ListDecisions(m: DecisionMap, ghost policy: Policy, ghost s: set<Outcome>, ghost confidence: map<string, int>)
    returns (list: seq<Decision>)
    requires Settled(s, policy, confidence, m, SlotIds(s))
    ensures IsDecisionList(s, policy, confidence, list)
  {
    hide Decide, DecisionOrder;
    var decisions := [];
    for i := 0 to |m.order|
      invariant |decisions| == i && forall j :: 0 <= j < i ==>
          m.order[j] in m.entries && decisions[j] == m.entries[m.order[j]]
    {
      decisions := decisions + [m.entries[m.order[i]]];
    }
    EntriesListed(m, decisions, policy, s, confidence);
    list := SortBy(DecisionOrder, decisions);
  }

  lemma EntryDecided(m: DecisionMap, policy: Policy, s: set<Outcome>, confidence: map<string, int>, id: CandidateId)
    requires Settled(s, policy, confidence, m, SlotIds(s)) && id in m.order
    ensures id in m.entries && m.entries[id].id == id
    ensures exists o :: o in s && o.Id() == id && m.entries[id] == Decide(s, policy, confidence, o)
  {
    hide Decide;
    var o :| o in s && o.Id() == id;
    DecideId(s, policy, confidence, o);
  }

  /** The list holds the map's entries in iteration order. */
  ghost predicate ListsEntries(m: DecisionMap, decisions: seq<Decision>) {
    |decisions| == |m.order| && forall j :: 0 <= j < |m.order| ==> m.order[j] in m.entries && decisions[j] == m.entries[m.order[j]]
  }

  lemma EntriesDistinct(m: DecisionMap, decisions: seq<Decision>, policy: Policy, s: set<Outcome>,
      confidence: map<string, int>, key: Decision -> seq<Atom>)
    requires Settled(s, policy, confidence, m, SlotIds(s)) && ListsEntries(m, decisions)
    requires forall d :: key(d) == IdKey(d.id)
    ensures DistinctKeys(key, decisions)
  {
    hide Settled, IdKey, SlotIds;
    SettledOrder(s, policy, confidence, m);
    forall i, j | 0 <= i < j < |decisions|
      ensures key(decisions[i]) != key(decisions[j])
    {
      EntryDecided(m, policy, s, confidence, m.order[i]);
      EntryDecided(m, policy, s, confidence, m.order[j]);
      SameIdKey(m.order[i], m.order[j]);
    }
  }

  lemma EntriesAreVerdicts(m: DecisionMap, decisions: seq<Decision>, policy: Policy, s: set<Outcome>,
      confidence: map<string, int>)
    requires Settled(s, policy, confidence, m, SlotIds(s)) && ListsEntries(m, decisions)
    ensures forall d :: d in decisions <==> exists o :: o in s && d == Decide(s, policy, confidence, o)
  {
    hide Settled, Decide, SlotIds;
    forall d | d in decisions
      ensures exists o :: o in s && d == Decide(s, policy, confidence, o)
    {
      var j :| 0 <= j < |decisions| && decisions[j] == d;
      EntryDecided(m, policy, s, confidence, m.order[j]);
    }
    forall o | o in s
      ensures Decide(s, policy, confidence, o) in decisions
    {
      SlotEntered(s, policy, confidence, m, o);
      var j :| 0 <= j < |m.order| && m.order[j] == o.Id();
      assert decisions[j] == m.entries[o.Id()];
    }
  }

  lemma EntriesListed(m: DecisionMap, decisions: seq<Decision>, policy: Policy, s: set<Outcome>,
      confidence: map<string, int>)
    requires Settled(s, policy, confidence, m, SlotIds(s)) && ListsEntries(m, decisions)
    ensures IsDecisionList(s, policy, confidence, SortBy(DecisionOrder, decisions))
  {
    hide Decide, DecisionOrder, Settled, IdKey, KeyLess, SlotIds, ListsEntries;
    DecisionIdOrder();
    var key := (d: Decision) => IdKey(d.id);
    EntriesDistinct(m, decisions, policy, s, confidence, key);
    SortStrictly(DecisionOrder, KeyLess, key, decisions);
    EntriesAreVerdicts(m, decisions, policy, s, confidence);
  }

  lemma SettledOrder(s: set<Outcome>, policy: Policy, confidence: map<string, int>, m: DecisionMap)
    requires Settled(s, policy, confidence, m, SlotIds(s))
    ensures NoDuplicates(m.order)
  {
  }

  lemma SlotEntered(s: set<Outcome>, policy: Policy, confidence: map<string, int>, m: DecisionMap, o: Outcome)
    requires Settled(s, policy, confidence, m, SlotIds(s)) && o in s
    ensures o.Id() in m.order && o.Id() in m.entries && m.entries[o.Id()] == Decide(s, policy, confidence, o)
  {
    hide Decide;
    assert o.Id() in SlotIds(s);
  }

  // ---------- The summary ----------

  function FinalLists(raw: map<Group, seq<Candidate>>): map<Group, seq<Candidate>> {
    map g | g in raw :: FinalList(raw[g])
  }

  /** A finished list is the selection of its group. */
  lemma FinalSelection(chosen: map<CandidateId, Candidate>, ids: seq<CandidateId>, g: Group)
    requires Keyed(chosen) && NoDuplicates(ids) && chosen.Keys <= SetOf(ids)
    ensures var list := Gathered(chosen, ids, g);
            IsSelection(chosen, g, FinalList(list)) && |FinalList(list)| == |list|
  {
    hide FinalList, IdOrderOfCandidates, Keyed, Normalized, GroupOf, Gathered;
    var list := Gathered(chosen, ids, g);
    CollectedIn(chosen, ids, g);
    CollectedDistinct(chosen, ids, g);
    FinalListSorted(list);
    forall c
      ensures c in FinalList(list) <==> exists id :: id in chosen && GroupOf(chosen[id]) == g && c == Normalized(chosen[id])
    {
      if id :| id in chosen && GroupOf(chosen[id]) == g && c == Normalized(chosen[id]) {
        KeyedEntry(chosen, id);
        assert chosen[id] in list;
      }
    }
  }

  /** No chosen brief among the first entries, then the briefs. */
  ghost predicate BriefsLast(chosen: map<CandidateId, Candidate>, order: seq<CandidateId>, briefs: seq<CandidateId>) {
    && (forall id :: id in order && id in chosen ==> GroupOf(chosen[id]) != Briefs)
    && (forall id :: id in briefs && id in chosen ==> GroupOf(chosen[id]) == Briefs)
  }

  lemma BriefFound(chosen: map<CandidateId, Candidate>, order: seq<CandidateId>, briefs: seq<CandidateId>, piles: Piles)
    requires Keyed(chosen) && BriefsLast(chosen, order, briefs) && CollectedSoFar(chosen, order + briefs, piles)
    ensures piles.brief == LastIncluded(chosen, briefs)
  {
    hide GroupOf;
    var cs := Gathered(chosen, order, Briefs);
    assert |cs| > 0 ==> cs[0] in cs;
    CollectedIn(chosen, order, Briefs);
    LastCollected(chosen, order, briefs);
  }

  /** What is taken from the input and the records rather than from the slots. */
  datatype Accounts = Accounts(
    header: Header,
    availability: Availability,
    sourceReferences: seq<SourceUse>,
    bundles: seq<BundleLineage>)

  function AccountsOf(r: Result): Accounts {
    Accounts(r.header, r.availability, r.sourceReferences, r.bundles)
  }

  function Present(decisions: seq<Decision>, piles: Piles, conflicts: seq<Conflict>, mode: Mode, warnings: seq<Warning>,
      accounts: Accounts): Result {
    Result(accounts.header, decisions, FinalLists(piles.raw),
           match piles.brief case None => None case Some(b) => Some(Normalized(b)),
           piles.counts, accounts.availability, conflicts, mode, warnings, accounts.sourceReferences, accounts.bundles)
  }

  lemma PresentsAll(chosen: map<CandidateId, Candidate>, order: seq<CandidateId>, briefs: seq<CandidateId>,
      piles: Piles, r: Result)
    requires Keyed(chosen) && BriefsLast(chosen, order, briefs) && CollectedSoFar(chosen, order + briefs, piles)
    requires NoDuplicates(order + briefs) && chosen.Keys <= SetOf(order + briefs)
    requires r == Present(r.decisions, piles, r.conflicts, r.mode, r.warnings, AccountsOf(r))
    requires AreConflicts(chosen, r.conflicts) && IsMode(chosen, r.brief.Some?, r.mode)
    ensures Presents(chosen, briefs, r)
  {
    hide Keyed, GroupOf, FinalList, Groups, AreConflicts, IsMode, Gathered, LastIncluded, IsSelection, Normalized;
    BriefFound(chosen, order, briefs, piles);
    forall g | g in Groups()
      ensures IsSelection(chosen, g, r.selected[g]) && r.counts[g] == |r.selected[g]|
    {
      FinalSelection(chosen, order + briefs, g);
    }
  }

  /** Normalizing the attached brief changes none of the warnings. */
  lemma WarningsForBrief(s: set<Outcome>, policy: Policy, chosen: map<CandidateId, Candidate>, brief: Option<Candidate>,
      brief': Option<Candidate>, list: seq<Warning>)
    requires AreWarnings(s, policy, chosen, brief, list)
    requires brief' == match brief case None => None case Some(b) => Some(Normalized(b))
    ensures AreWarnings(s, policy, chosen, brief', list)
  {
    hide WarningOrder, FamilyWarns, Groups, SortIds;
    forall w
      ensures Warns(s, policy, chosen, brief, w) <==> Warns(s, policy, chosen, brief', w)
    {
    }
  }

  /** The summary assembled from the decision map, the registry's lists and the accounts is the specified one. */
  method BuildSummary(m: DecisionMap, registered: map<CandidateId, Candidate>, byFamily: map<Family, seq<Candidate>>,
      deterministicCount: nat, accounts: Accounts, policy: Policy, ghost s: set<Outcome>,
      ghost confidence: map<string, int>, ghost order: seq<CandidateId>, ghost briefs: seq<CandidateId>)
    returns (r: Result)
    requires WellSlotted(s) && Settled(s, policy, confidence, m, SlotIds(s)) && Catalogs(s, registered) && Lists(s, byFamily)
    requires deterministicCount == 0 <==> !Supplied(s, Deterministic)
    requires m.order == order + briefs && BriefsLast(Chosen(s, policy, confidence), order, briefs)
    ensures Summarizes(s, policy, confidence, briefs, r)
    ensures AccountsOf(r) == accounts
  {
    hide Settled, WellSlotted, Catalogs, Chosen, BriefsLast, CollectedSoFar, Presents, IsDecisionList, AreWarnings,
      AreStatuses, HoldsGroups, ChosenFrom, Lists, Supplied, IsMode, AreConflicts, Keyed, FinalLists, ModeOf, Normalized;
    ghost var chosen := Chosen(s, policy, confidence);
    var piles := CollectSelected(m, registered, policy, s, confidence);
    var decisions := ListDecisions(m, policy, s, confidence);
    ChosenKeyed(s, policy, confidence);
    ChosenSupplied(s, policy, confidence);
    SettledOrder(s, policy, confidence, m);
    ChosenEntered(s, policy, confidence, m);
    PilesHoldGroups(chosen, m.order, piles);
    var status := FamilyStatuses(byFamily, piles.raw, s, chosen);
    var mode := ModeOf(status, piles.raw, piles.brief.Some?);
    ModeRight(s, chosen, status, piles.raw, piles.brief.Some?);
    var conflicts := FindConflicts(status, piles.raw, s, chosen);
    var warnings := FindWarnings(status, deterministicCount, piles, policy, s, chosen);
    r := Present(decisions, piles, conflicts, mode, warnings, accounts);
    WarningsForBrief(s, policy, chosen, piles.brief, r.brief, warnings);
    PresentsAll(chosen, order, briefs, piles, r);
  }

  lemma ChosenEntered(s: set<Outcome>, policy: Policy, confidence: map<string, int>, m: DecisionMap)
    requires Settled(s, policy, confidence, m, SlotIds(s))
    ensures Chosen(s, policy, confidence).Keys <= SetOf(m.order)
  {
    hide Decide;
  }
}
