/** Family statuses, conflicts and mode, computed from the collected lists. */
module Conflicts {
  import opened Evidence
  import opened Sorting
  import opened Candidates
  import opened Ranking
  import opened SelectionSpec
  import opened Selection
  import opened Summary

  // ---------- The collected lists ----------

  /** The list holds the chosen candidates of its group, each once. */
  ghost predicate HoldsGroup(chosen: map<CandidateId, Candidate>, group: Group, cs: seq<Candidate>) {
    && DistinctIds(cs)
    && forall c :: c in cs <==> c.id in chosen && chosen[c.id] == c && GroupOf(c) == group
  }

  /** Every list holds its group. */
  ghost predicate HoldsGroups(chosen: map<CandidateId, Candidate>, raw: map<Group, seq<Candidate>>) {
    && Keyed(chosen) && raw.Keys == Groups()
    && forall g :: g in raw ==> HoldsGroup(chosen, g, raw[g])
  }

  lemma PilesHoldGroups(chosen: map<CandidateId, Candidate>, ids: seq<CandidateId>, piles: Piles)
    requires Keyed(chosen) && CollectedSoFar(chosen, ids, piles) && NoDuplicates(ids) && chosen.Keys <= SetOf(ids)
    ensures HoldsGroups(chosen, piles.raw)
  {
    hide GroupOf, Gathered, Groups, Keyed;
    forall g | g in piles.raw
      ensures HoldsGroup(chosen, g, piles.raw[g])
    {
      CollectedIn(chosen, ids, g);
      CollectedDistinct(chosen, ids, g);
    }
  }

  lemma OffersIffListed(chosen: map<CandidateId, Candidate>, group: Group, cs: seq<Candidate>)
    requires Keyed(chosen) && HoldsGroup(chosen, group, cs)
    ensures cs != [] <==> Offers(chosen, group)
  {
    hide GroupOf;
    if cs != [] {
      assert cs[0] in cs;
    }
    if id :| id in chosen && GroupOf(chosen[id]) == group {
      assert chosen[id] in cs;
    }
  }

  lemma PointingIffListed(chosen: map<CandidateId, Candidate>, family: Family, cs: seq<Candidate>, direction: Direction)
    requires Keyed(chosen) && HoldsGroup(chosen, ClaimsOf(family), cs)
    ensures forall id :: id in Pointing(chosen, family, direction) <==> exists c :: c in cs && c.id == id && c.direction == direction
  {
    hide GroupOf;
    forall id | id in Pointing(chosen, family, direction)
      ensures exists c :: c in cs && c.id == id && c.direction == direction
    {
      assert chosen[id] in cs;
    }
  }

  // ---------- Statuses ----------

  datatype FamilyStatus = IsMissing | IsRejected | IsConflicted | IsAvailable

  predicate Conflicted(cs: seq<Candidate>) {
    (exists c :: c in cs && c.direction == Bullish) && (exists c :: c in cs && c.direction == Bearish)
  }

  function StatusOf(candidates: seq<Candidate>, selected: seq<Candidate>): FamilyStatus {
    if candidates == [] then IsMissing
    else if selected == [] then IsRejected
    else if Conflicted(selected) then IsConflicted
    else IsAvailable
  }

  /** What a family's status says about the slots. */
  ghost predicate IsStatus(s: set<Outcome>, chosen: map<CandidateId, Candidate>, family: Family, status: FamilyStatus) {
    && (status == IsMissing <==> !Supplied(s, ClaimsOf(family)))
    && (status == IsRejected <==> Supplied(s, ClaimsOf(family)) && !Offers(chosen, ClaimsOf(family)))
    && (status == IsConflicted <==> Clashes(chosen, family))
  }

  /** Chosen candidates are registered, in the same group. */
  ghost predicate ChosenFrom(s: set<Outcome>, chosen: map<CandidateId, Candidate>) {
    forall id :: id in chosen ==> Supplied(s, GroupOf(chosen[id]))
  }

  lemma ChosenSupplied(s: set<Outcome>, policy: Policy, confidence: map<string, int>)
    ensures ChosenFrom(s, Chosen(s, policy, confidence))
  {
    hide Decide;
    var chosen := Chosen(s, policy, confidence);
    forall id | id in chosen
      ensures Supplied(s, GroupOf(chosen[id]))
    {
      assert Registered(CandidateOf(s, id)) in s && GroupOf(CandidateOf(s, id)) == GroupOf(chosen[id]);
    }
  }

  lemma ClashesIffConflicted(chosen: map<CandidateId, Candidate>, family: Family, cs: seq<Candidate>)
    requires Keyed(chosen) && HoldsGroup(chosen, ClaimsOf(family), cs)
    ensures Clashes(chosen, family) <==> Conflicted(cs)
    ensures Clashes(chosen, family) ==> Offers(chosen, ClaimsOf(family))
  {
    hide GroupOf, HoldsGroup, Pointing, Offers;
    OffersIffListed(chosen, ClaimsOf(family), cs);
    SomePointing(chosen, family, cs, Bullish);
    SomePointing(chosen, family, cs, Bearish);
  }

  lemma SomePointing(chosen: map<CandidateId, Candidate>, family: Family, cs: seq<Candidate>, direction: Direction)
    requires Keyed(chosen) && HoldsGroup(chosen, ClaimsOf(family), cs)
    ensures Pointing(chosen, family, direction) != {} <==> exists c :: c in cs && c.direction == direction
    ensures Pointing(chosen, family, direction) != {} ==> cs != []
  {
    hide GroupOf, HoldsGroup, Pointing;
    PointingIffListed(chosen, family, cs, direction);
    if c :| c in cs && c.direction == direction {
      assert c.id in Pointing(chosen, family, direction);
    }
    if id :| id in Pointing(chosen, family, direction) {
      var c :| c in cs && c.id == id && c.direction == direction;
    }
  }

  lemma SuppliedIffListed(s: set<Outcome>, family: Family, candidates: seq<Candidate>)
    requires WellSlotted(s) && family in CONTEXTUAL
    requires forall c :: c in candidates <==> Registered(c) in s && c.family == family
    ensures candidates == [] <==> !Supplied(s, ClaimsOf(family))
  {
    if candidates != [] {
      var c := candidates[0];
      assert c in candidates && WellKinded(Registered(c));
      assert GroupOf(c) == ClaimsOf(family);
    }
  }

  lemma StatusRight(s: set<Outcome>, chosen: map<CandidateId, Candidate>, family: Family, candidates: seq<Candidate>,
      selected: seq<Candidate>)
    requires WellSlotted(s) && family in CONTEXTUAL && ChosenFrom(s, chosen) && Keyed(chosen)
    requires forall c :: c in candidates <==> Registered(c) in s && c.family == family
    requires HoldsGroup(chosen, ClaimsOf(family), selected)
    ensures IsStatus(s, chosen, family, StatusOf(candidates, selected))
  {
    hide WellSlotted, Keyed, HoldsGroup, GroupOf, Clashes, Conflicted, Supplied;
    SuppliedIffListed(s, family, candidates);
    OffersIffListed(chosen, ClaimsOf(family), selected);
    ClashesIffConflicted(chosen, family, selected);
  }

  function ListOf(raw: map<Group, seq<Candidate>>, family: Family): seq<Candidate> {
    if ClaimsOf(family) in raw then raw[ClaimsOf(family)] else []
  }

  /** Each contextual family has its status. */
  ghost predicate AreStatuses(s: set<Outcome>, chosen: map<CandidateId, Candidate>, status: map<Family, FamilyStatus>) {
    forall f :: f in CONTEXTUAL ==> f in status && IsStatus(s, chosen, f, status[f])
  }

  method FamilyStatuses(byFamily: map<Family, seq<Candidate>>, raw: map<Group, seq<Candidate>>, ghost s: set<Outcome>,
      ghost chosen: map<CandidateId, Candidate>)
    returns (status: map<Family, FamilyStatus>)
    requires WellSlotted(s) && Lists(s, byFamily) && HoldsGroups(chosen, raw) && ChosenFrom(s, chosen)
    ensures AreStatuses(s, chosen, status)
  {
    hide WellSlotted, Keyed, HoldsGroup, ChosenFrom, IsStatus, StatusOf;
    status := map[];
    for i := 0 to |CONTEXTUAL|
      invariant forall f :: f in CONTEXTUAL[..i] ==> f in status && IsStatus(s, chosen, f, status[f])
    {
      var family := CONTEXTUAL[i];
      var candidates := if family in byFamily then byFamily[family] else [];
      assert ClaimsOf(family) in Groups();
      StatusRight(s, chosen, family, candidates, raw[ClaimsOf(family)]);
      status := status[family := StatusOf(candidates, raw[ClaimsOf(family)])];
      assert CONTEXTUAL[..i + 1] == CONTEXTUAL[..i] + [family];
    }
    assert CONTEXTUAL[..|CONTEXTUAL|] == CONTEXTUAL;
  }

  // ---------- Mode ----------

  function ModeOf(status: map<Family, FamilyStatus>, raw: map<Group, seq<Candidate>>, brief: bool): Mode {
    if brief && forall f :: f in CONTEXTUAL ==> f in status && status[f] == IsAvailable then Full
    else if brief || exists f :: f in CONTEXTUAL && ListOf(raw, f) != [] then Partial
    else DegradedNoResearch
  }

  lemma ModeRight(s: set<Outcome>, chosen: map<CandidateId, Candidate>, status: map<Family, FamilyStatus>,
      raw: map<Group, seq<Candidate>>, brief: bool)
    requires AreStatuses(s, chosen, status) && HoldsGroups(chosen, raw) && ChosenFrom(s, chosen)
    ensures IsMode(chosen, brief, ModeOf(status, raw, brief))
  {
    hide Keyed, HoldsGroup, GroupOf, Clashes, Supplied, Offers;
    forall f | f in CONTEXTUAL
      ensures ListOf(raw, f) != [] <==> Offers(chosen, ClaimsOf(f))
      ensures status[f] == IsAvailable <==> Offers(chosen, ClaimsOf(f)) && !Clashes(chosen, f)
    {
      assert ClaimsOf(f) in Groups();
      OffersIffListed(chosen, ClaimsOf(f), raw[ClaimsOf(f)]);
      ClashesIffConflicted(chosen, f, raw[ClaimsOf(f)]);
      OffersSupplied(s, chosen, ClaimsOf(f));
    }
  }

  lemma OffersSupplied(s: set<Outcome>, chosen: map<CandidateId, Candidate>, group: Group)
    requires ChosenFrom(s, chosen)
    ensures Offers(chosen, group) ==> Supplied(s, group)
  {
  }

  // ---------- Conflicts ----------

  function Weight(c: Candidate, direction: Direction): int {
    if c.direction == direction then ScoreOf(c) else 0
  }

  function DirectionTotal(cs: seq<Candidate>, direction: Direction): int {
    if cs == [] then 0 else DirectionTotal(cs[..|cs| - 1], direction) + Weight(cs[|cs| - 1], direction)
  }

  predicate IsDirected(c: Candidate) {
    c.direction == Bullish || c.direction == Bearish
  }

  function Directed(cs: seq<Candidate>): seq<CandidateId> {
    if cs == [] then []
    else Directed(cs[..|cs| - 1]) + if IsDirected(cs[|cs| - 1]) then [cs[|cs| - 1].id] else []
  }

  function ConflictOf(family: Family, cs: seq<Candidate>): Conflict {
    var bullish, bearish := DirectionTotal(cs, Bullish), DirectionTotal(cs, Bearish);
    Conflict(family, SortBy(IdBefore, Directed(cs)), Consensus(bullish, bearish), bullish, bearish)
  }

  ghost function IdsTowards(cs: seq<Candidate>, direction: Direction): set<CandidateId> {
    set c | c in cs && c.direction == direction :: c.id
  }

  /** The running total is the sum over the candidates seen, whatever their order. */
  lemma {:induction false} TotalOfList(chosen: map<CandidateId, Candidate>, cs: seq<Candidate>, direction: Direction)
    requires DistinctIds(cs) && forall c :: c in cs ==> c.id in chosen && chosen[c.id] == c
    ensures IdsTowards(cs, direction) <= chosen.Keys
    ensures DirectionTotal(cs, direction) == TotalScore(chosen, IdsTowards(cs, direction))
  {
    if cs != [] {
      var front, last := cs[..|cs| - 1], cs[|cs| - 1];
      assert cs == front + [last];
      LastIsNew(cs, direction);
      hide DistinctIds, IdsTowards;
      TotalOfList(chosen, front, direction);
      if last.direction == direction {
        TotalScoreAny(chosen, IdsTowards(cs, direction), last.id);
      }
    }
  }

  lemma LastIsNew(cs: seq<Candidate>, direction: Direction)
    requires cs != [] && DistinctIds(cs)
    ensures var front, last := cs[..|cs| - 1], cs[|cs| - 1];
            && DistinctIds(front)
            && if last.direction == direction then
              last.id in IdsTowards(cs, direction) && IdsTowards(cs, direction) - {last.id} == IdsTowards(front, direction)
            else IdsTowards(cs, direction) == IdsTowards(front, direction)
  {
    var front, last := cs[..|cs| - 1], cs[|cs| - 1];
    assert cs == front + [last];
    assert forall i :: 0 <= i < |front| ==> front[i].id == cs[i].id != cs[|cs| - 1].id;
    if last.direction == direction {
      assert IdsTowards(cs, direction) == IdsTowards(front, direction) + {last.id};
    } else {
      assert IdsTowards(cs, direction) == IdsTowards(front, direction);
    }
  }

  lemma {:induction false} DirectedIn(cs: seq<Candidate>)
    ensures forall id :: id in Directed(cs) <==> exists c :: c in cs && IsDirected(c) && c.id == id
  {
    hide IsDirected;
    if cs != [] {
      var front, last := cs[..|cs| - 1], cs[|cs| - 1];
      assert cs == front + [last];
      DirectedIn(front);
      assert last in cs;
    }
  }

  lemma {:induction false} DirectedDistinct(cs: seq<Candidate>)
    requires DistinctIds(cs)
    ensures DistinctKeys(IdKey, Directed(cs))
  {
    hide IsDirected, IdKey;
    if cs != [] {
      var front, last := cs[..|cs| - 1], cs[|cs| - 1];
      DirectedDistinct(front);
      DirectedIn(front);
      forall id | id in Directed(front)
        ensures IdKey(id) != IdKey(last.id)
      {
        var c :| c in front && IsDirected(c) && c.id == id;
        var i :| 0 <= i < |front| && front[i] == c;
        assert cs[i].id != cs[|cs| - 1].id;
        SameIdKey(id, last.id);
      }
      assert forall i :: 0 <= i < |Directed(front)| ==> Directed(front)[i] in Directed(front);
    }
  }

  lemma SameIdKey(a: CandidateId, b: CandidateId)
    ensures IdKey(a) == IdKey(b) ==> a == b
  {
    IdOrder();
  }

  /** The affected ids are exactly the directed claims of the family, in strict order. */
  lemma AffectedRight(chosen: map<CandidateId, Candidate>, family: Family, cs: seq<Candidate>)
    requires Keyed(chosen) && HoldsGroup(chosen, ClaimsOf(family), cs)
    ensures var affected := SortBy(IdBefore, Directed(cs));
            && StrictlySorted(IdBefore, affected)
            && SetOf(affected) == Pointing(chosen, family, Bullish) + Pointing(chosen, family, Bearish)
  {
    hide IdBefore, IdKey, KeyLess, GroupOf, HoldsGroup, Pointing;
    IdOrder();
    DirectedDistinctIn(chosen, family, cs);
    SortStrictly(IdBefore, KeyLess, IdKey, Directed(cs));
    PointingIffListed(chosen, family, cs, Bullish);
    PointingIffListed(chosen, family, cs, Bearish);
    forall id
      ensures id in SetOf(SortBy(IdBefore, Directed(cs))) <==> id in Pointing(chosen, family, Bullish) + Pointing(chosen, family, Bearish)
    {
      assert id in Directed(cs) <==> exists c :: c in cs && IsDirected(c) && c.id == id;
    }
  }

  lemma DirectedDistinctIn(chosen: map<CandidateId, Candidate>, family: Family, cs: seq<Candidate>)
    requires HoldsGroup(chosen, ClaimsOf(family), cs)
    ensures DistinctKeys(IdKey, Directed(cs))
    ensures forall id :: id in Directed(cs) <==> exists c :: c in cs && IsDirected(c) && c.id == id
  {
    hide IdKey;
    DirectedDistinct(cs);
    DirectedIn(cs);
  }

  lemma TotalRight(chosen: map<CandidateId, Candidate>, family: Family, cs: seq<Candidate>, direction: Direction)
    requires Keyed(chosen) && HoldsGroup(chosen, ClaimsOf(family), cs)
    ensures DirectionTotal(cs, direction) == TotalScore(chosen, Pointing(chosen, family, direction))
  {
    hide GroupOf;
    TotalOfList(chosen, cs, direction);
    PointingIffListed(chosen, family, cs, direction);
    assert IdsTowards(cs, direction) == Pointing(chosen, family, direction);
  }

  /** The conflict of a clashing family, computed from its list, is the specified one. */
  lemma ConflictRight(chosen: map<CandidateId, Candidate>, family: Family, cs: seq<Candidate>)
    requires Keyed(chosen) && HoldsGroup(chosen, ClaimsOf(family), cs) && family in CONTEXTUAL && Clashes(chosen, family)
    ensures IsConflict(chosen, ConflictOf(family, cs))
  {
    hide HoldsGroup, Keyed, DirectionTotal, Directed, TotalScore, Consensus, Pointing, IdBefore;
    AffectedRight(chosen, family, cs);
    TotalRight(chosen, family, cs, Bullish);
    TotalRight(chosen, family, cs, Bearish);
  }

  /** The conflicts of the families looked at so far, each once. */
  ghost predicate ConflictsSoFar(chosen: map<CandidateId, Candidate>, families: seq<Family>, list: seq<Conflict>) {
    && (forall c :: c in list ==> IsConflict(chosen, c) && c.family in families)
    && (forall f :: f in families && Clashes(chosen, f) ==> exists c :: c in list && c.family == f)
    && forall i, j :: 0 <= i < j < |list| ==> list[i].family != list[j].family
  }

  lemma NextConflict(chosen: map<CandidateId, Candidate>, families: seq<Family>, list: seq<Conflict>, c: Conflict)
    requires ConflictsSoFar(chosen, families, list) && IsConflict(chosen, c) && c.family !in families
    ensures ConflictsSoFar(chosen, families + [c.family], list + [c])
  {
    hide IsConflict, Clashes;
    assert forall i :: 0 <= i < |list| ==> list[i] in list;
    forall f | f in families + [c.family] && Clashes(chosen, f)
      ensures exists d :: d in list + [c] && d.family == f
    {
      if f in families {
        var d :| d in list && d.family == f;
        assert d in list + [c];
      } else {
        assert c in list + [c];
      }
    }
  }

  lemma ConflictsListed(chosen: map<CandidateId, Candidate>, list: seq<Conflict>)
    requires ConflictsSoFar(chosen, CONTEXTUAL, list)
    ensures AreConflicts(chosen, SortBy(ConflictOrder, list))
  {
    hide IsConflict, Clashes, ConflictOrder, StringLess, ConflictMessage;
    var key := (c: Conflict) => ConflictMessage(c.family);
    ConflictsOrdered();
    forall i, j | 0 <= i < j < |list|
      ensures key(list[i]) != key(list[j])
    {
      assert list[i] in list && list[j] in list;
      MessagesDiffer(list[i].family, list[j].family);
    }
    SortStrictly(ConflictOrder, StringLess, key, list);
  }

  /** Looks at the families in turn and sorts the conflicts by message. */
  method FindConflicts(status: map<Family, FamilyStatus>, raw: map<Group, seq<Candidate>>, ghost s: set<Outcome>,
      ghost chosen: map<CandidateId, Candidate>)
    returns (conflicts: seq<Conflict>)
    requires AreStatuses(s, chosen, status) && HoldsGroups(chosen, raw)
    ensures AreConflicts(chosen, conflicts)
  {
    hide ConflictOf, HoldsGroup, Keyed, Clashes, IsConflict, Supplied, Offers, AreConflicts;
    conflicts := [];
    for i := 0 to |CONTEXTUAL|
      invariant ConflictsSoFar(chosen, CONTEXTUAL[..i], conflicts)
    {
      var family := CONTEXTUAL[i];
      assert CONTEXTUAL[..i + 1] == CONTEXTUAL[..i] + [family] && family !in CONTEXTUAL[..i];
      if status[family] == IsConflicted {
        assert ClaimsOf(family) in Groups();
        ConflictRight(chosen, family, raw[ClaimsOf(family)]);
        ConflictFamily(family, raw[ClaimsOf(family)]);
        NextConflict(chosen, CONTEXTUAL[..i], conflicts, ConflictOf(family, raw[ClaimsOf(family)]));
        conflicts := conflicts + [ConflictOf(family, raw[ClaimsOf(family)])];
      }
    }
    assert CONTEXTUAL[..|CONTEXTUAL|] == CONTEXTUAL;
    ConflictsListed(chosen, conflicts);
    conflicts := SortBy(ConflictOrder, conflicts);
  }

  lemma ConflictFamily(family: Family, cs: seq<Candidate>)
    ensures ConflictOf(family, cs).family == family
  {
  }

  lemma ConflictUnique(chosen: map<CandidateId, Candidate>, c: Conflict, d: Conflict)
    requires IsConflict(chosen, c) && IsConflict(chosen, d) && c.family == d.family
    ensures c == d
  {
    hide Pointing, TotalScore, Consensus, IdBefore, IdKey, KeyLess;
    IdOrder();
    KeysGiveWeakOrder(IdBefore, KeyLess, IdKey);
    forall id
      ensures id in c.affected <==> id in d.affected
    {
      assert id in c.affected <==> id in SetOf(c.affected);
      assert id in d.affected <==> id in SetOf(d.affected);
    }
    SortedUnique(IdBefore, c.affected, d.affected);
  }

  /** The conflicts are determined by what was included. */
  lemma ConflictsUnique(chosen: map<CandidateId, Candidate>, a: seq<Conflict>, b: seq<Conflict>)
    requires AreConflicts(chosen, a) && AreConflicts(chosen, b)
    ensures a == b
  {
    hide IsConflict, Clashes, ConflictOrder, StringLess, ConflictMessage;
    ConflictsOrdered();
    KeysGiveWeakOrder(ConflictOrder, StringLess, (c: Conflict) => ConflictMessage(c.family));
    forall c
      ensures c in a <==> c in b
    {
      if c in a {
        ConflictIn(chosen, b, c);
      }
      if c in b {
        ConflictIn(chosen, a, c);
      }
    }
    SortedUnique(ConflictOrder, a, b);
  }

  lemma ConflictIn(chosen: map<CandidateId, Candidate>, list: seq<Conflict>, c: Conflict)
    requires AreConflicts(chosen, list) && IsConflict(chosen, c)
    ensures c in list
  {
    var d :| d in list && d.family == c.family;
    ConflictUnique(chosen, c, d);
  }
}
