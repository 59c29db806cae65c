/**
  The selection summary: decisions, selected evidence, the attached brief, coverage, conflicts, mode, warnings, source
  references and bundle lineage, each list in its canonical order. What it must say is stated over the set of slots.
 */
module Summary {
  import opened Evidence
  import opened Sorting
  import opened Candidates
  import opened Ranking
  import opened SelectionSpec
  import opened Selection
  import opened SourceUnion
  import opened Coverage

  /** The lists and counters that included candidates are sorted into. */
  datatype Group = Deterministic | ClaimsOf(family: Family) | Briefs

  function GroupOf(c: Candidate): Group {
    if c.family == ResearchBrief then Briefs
    else if c.id.kind == DeterministicFeature then Deterministic
    else ClaimsOf(c.family)
  }

  datatype Conflict = Conflict(family: Family, affected: seq<CandidateId>, consensus: int, bullish: int, bearish: int)

  datatype Mode = Full | Partial | DegradedNoResearch

  datatype WarningCode = StaleInput | ConflictedFamily | MissingFamily | RejectedFamily | NoSelectedResearch

  /** A warning and the family it names, if any; the two determine its message. */
  datatype Warning = Warning(code: WarningCode, group: Option<Group>)

  /** What the summary repeats of its input. */
  datatype Header = Header(policyVersion: string, selectedAt: int, scopeKey: string)

  datatype Result = Result(
    header: Header,
    decisions: seq<Decision>,
    selected: map<Group, seq<Candidate>>,
    brief: Option<Candidate>,
    counts: map<Group, nat>,
    availability: Availability,
    conflicts: seq<Conflict>,
    mode: Mode,
    warnings: seq<Warning>,
    sourceReferences: seq<SourceUse>,
    bundles: seq<BundleLineage>)

  const CONTEXTUAL: seq<Family> := [SupportResistance, Flows, Derivatives, Events, NewsRegulatory]

  function Groups(): set<Group> {
    {
      Deterministic, ClaimsOf(SupportResistance), ClaimsOf(Flows), ClaimsOf(Derivatives), ClaimsOf(Events),
      ClaimsOf(NewsRegulatory), Briefs
    }
  }

  lemma GroupKnown(c: Candidate)
    requires WellKinded(Registered(c))
    ensures GroupOf(c) in Groups()
  {
  }

  /** A selected item carries the score and reasons of its decision. */
  function Select(c: Candidate, d: Decision): Candidate {
    c.(score := d.score, reasons := d.reasons)
  }

  function TidyFeature(f: Feature): Feature {
    f.(inputLineage := SortIds(f.inputLineage), warnings := SortIds(f.warnings))
  }

  function TidyClaim(c: Claim): Claim {
    c.(sourceReferenceIds := SortIds(c.sourceReferenceIds))
  }

  function TidyBrief(b: Brief): Brief {
    b.(sourceEvidenceIds := SortIds(b.sourceEvidenceIds), keyFindings := SortIds(b.keyFindings),
       uncertainties := SortIds(b.uncertainties))
  }

  function TidyItem(item: Item): Item {
    match item
    case FeatureItem(f) => FeatureItem(TidyFeature(f))
    case ClaimItem(c) => ClaimItem(TidyClaim(c))
    case BriefItem(b) => BriefItem(TidyBrief(b))
  }

  /** Publisher-owned lists are sorted in a copy. */
  function Normalized(c: Candidate): Candidate {
    c.(refs := SortIds(c.refs), item := TidyItem(c.item))
  }

  ghost predicate Included(s: set<Outcome>, policy: Policy, confidence: map<string, int>, id: CandidateId) {
    IsRegistered(s, id) && Decide(s, policy, confidence, Registered(CandidateOf(s, id))).included
  }

  /** The included candidates, by id. */
  ghost function Chosen(s: set<Outcome>, policy: Policy, confidence: map<string, int>): map<CandidateId, Candidate> {
    map id | id in SlotIds(s) && Included(s, policy, confidence, id) ::
      Select(CandidateOf(s, id), Decide(s, policy, confidence, Registered(CandidateOf(s, id))))
  }

  ghost predicate Keyed(chosen: map<CandidateId, Candidate>) {
    forall id :: id in chosen ==> chosen[id].id == id && GroupOf(chosen[id]) in Groups()
  }

  lemma KeyedEntry(chosen: map<CandidateId, Candidate>, id: CandidateId)
    requires Keyed(chosen)
    ensures id in chosen ==> chosen[id].id == id && GroupOf(chosen[id]) in Groups()
  {
  }

  lemma ChosenKeyed(s: set<Outcome>, policy: Policy, confidence: map<string, int>)
    requires WellSlotted(s)
    ensures Keyed(Chosen(s, policy, confidence))
  {
    hide Decide;
    forall id | id in Chosen(s, policy, confidence)
      ensures Chosen(s, policy, confidence)[id].id == id && GroupOf(Chosen(s, policy, confidence)[id]) in Groups()
    {
      GroupKnown(CandidateOf(s, id));
    }
  }

  predicate DecisionOrder(a: Decision, b: Decision) {
    IdBefore(a.id, b.id)
  }

  /** The last of the briefs that is included. */
  ghost function LastIncluded(chosen: map<CandidateId, Candidate>, briefs: seq<CandidateId>): Option<Candidate> {
    if briefs == [] then None
    else if briefs[|briefs| - 1] in chosen then Some(chosen[briefs[|briefs| - 1]])
    else LastIncluded(chosen, briefs[..|briefs| - 1])
  }

  // ---------- Conflicts and mode ----------

  /** The included claims of a family that point in a direction. */
  ghost function Pointing(chosen: map<CandidateId, Candidate>, family: Family, direction: Direction): set<CandidateId> {
    set id | id in chosen && GroupOf(chosen[id]) == ClaimsOf(family) && chosen[id].direction == direction
  }

  /** A family is in conflict when it has an included bullish and an included bearish claim. */
  ghost predicate Clashes(chosen: map<CandidateId, Candidate>, family: Family) {
    Pointing(chosen, family, Bullish) != {} && Pointing(chosen, family, Bearish) != {}
  }

  ghost predicate Offers(chosen: map<CandidateId, Candidate>, group: Group) {
    exists id :: id in chosen && GroupOf(chosen[id]) == group
  }

  ghost predicate Supplied(s: set<Outcome>, group: Group) {
    exists c :: Registered(c) in s && GroupOf(c) == group
  }

  function ScoreOf(c: Candidate): int {
    if c.score.Some? then c.score.value else 0
  }

  /** The scores of a set of candidates, summed in whatever order. */
  ghost function TotalScore(chosen: map<CandidateId, Candidate>, ids: set<CandidateId>): int
    requires ids <= chosen.Keys
  {
    if ids == {} then 0
    else
      var id :| id in ids;
      ScoreOf(chosen[id]) + TotalScore(chosen, ids - {id})
  }

  lemma {:induction false} TotalScoreAny(chosen: map<CandidateId, Candidate>, ids: set<CandidateId>, x: CandidateId)
    requires ids <= chosen.Keys && x in ids
    ensures TotalScore(chosen, ids) == ScoreOf(chosen[x]) + TotalScore(chosen, ids - {x})
    decreases |ids|
  {
    var id :| id in ids && TotalScore(chosen, ids) == ScoreOf(chosen[id]) + TotalScore(chosen, ids - {id});
    if id != x {
      TotalScoreAny(chosen, ids - {id}, x);
      TotalScoreAny(chosen, ids - {x}, id);
      assert ids - {id} - {x} == ids - {x} - {id};
    }
  }

  function Abs(n: int): nat {
    if n < 0 then -n else n
  }

  function Consensus(bullish: int, bearish: int): int {
    var total := bullish + bearish;
    if total == 0 then 0 else Abs(bullish - bearish) * BPS / total
  }

  /** Consensus is a basis-point value: 0 for balanced totals, 10000 when one side carries no weight, and symmetric. */
  lemma ConsensusRange(bullish: nat, bearish: nat)
    ensures IsBps(Consensus(bullish, bearish))
    ensures bullish == bearish ==> Consensus(bullish, bearish) == 0
    ensures bullish + bearish > 0 && (bullish == 0 || bearish == 0) ==> Consensus(bullish, bearish) == BPS
    ensures Consensus(bullish, bearish) == Consensus(bearish, bullish)
  {
    var total, gap := bullish + bearish, Abs(bullish - bearish);
    assert gap == Abs(bearish - bullish) && bearish + bullish == total && gap <= total;
    if total > 0 {
      QuotientAtMost(gap * BPS, total, BPS);
      ScaledQuotient(total, BPS);
    }
  }

  lemma ScaledQuotient(d: nat, q: nat)
    requires d > 0
    ensures d * q / d == q
  {
    var r := d * q / d;
    assert r * d <= d * q < (r + 1) * d;
    assert (r - q) * d <= 0 < (r + 1 - q) * d;
  }

  lemma QuotientAtMost(n: nat, d: nat, q: nat)
    requires d > 0 && n <= d * q
    ensures 0 <= n / d <= q
  {
    assert (n / d) * d <= n;
    assert (n / d - q) * d <= 0;
  }

  function FamilyName(family: Family): string {
    match family
    case SupportResistance => "supportResistance"
    case Flows => "flows"
    case Derivatives => "derivatives"
    case Events => "events"
    case NewsRegulatory => "newsRegulatory"
    case _ => "deterministic"
  }

  function ConflictMessage(family: Family): string {
    "Family " + FamilyName(family) + " has conflicting bullish and bearish claims"
  }

  predicate ConflictOrder(a: Conflict, b: Conflict) {
    StringLess(ConflictMessage(a.family), ConflictMessage(b.family))
  }

  lemma ConflictsOrdered()
    ensures ComparesKeys(ConflictOrder, StringLess, (c: Conflict) => ConflictMessage(c.family))
  {
    StringStrictTotal();
  }

  function Initial(family: Family): char {
    match family
    case SupportResistance => 's'
    case Flows => 'f'
    case Derivatives => 'd'
    case Events => 'e'
    case _ => 'n'
  }

  lemma MessageInitial(family: Family)
    requires family in CONTEXTUAL
    ensures |ConflictMessage(family)| > 7 && ConflictMessage(family)[7] == Initial(family)
  {
    assert FamilyName(family) != "" && FamilyName(family)[0] == Initial(family);
    assert |"Family "| == 7;
  }

  /** Different contextual families have different messages. */
  lemma MessagesDiffer(f: Family, g: Family)
    requires f in CONTEXTUAL && g in CONTEXTUAL && f != g
    ensures ConflictMessage(f) != ConflictMessage(g)
  {
    hide ConflictMessage;
    MessageInitial(f);
    MessageInitial(g);
  }

  /** The affected ids in order, both totals, and the consensus between them. */
  ghost predicate IsConflict(chosen: map<CandidateId, Candidate>, c: Conflict) {
    var bulls, bears := Pointing(chosen, c.family, Bullish), Pointing(chosen, c.family, Bearish);
    && c.family in CONTEXTUAL && Clashes(chosen, c.family)
    && StrictlySorted(IdBefore, c.affected) && SetOf(c.affected) == bulls + bears
    && c.bullish == TotalScore(chosen, bulls) && c.bearish == TotalScore(chosen, bears)
    && c.consensus == Consensus(c.bullish, c.bearish)
  }

  /** Exactly one conflict for each contextual family that is in conflict, by message. */
  ghost predicate AreConflicts(chosen: map<CandidateId, Candidate>, list: seq<Conflict>) {
    && StrictlySorted(ConflictOrder, list)
    && (forall c :: c in list ==> IsConflict(chosen, c))
    && forall f :: f in CONTEXTUAL && Clashes(chosen, f) ==> exists c :: c in list && c.family == f
  }

  /** Full: a brief, and claims without conflict in every contextual family. Degraded: no brief and no claim at all. */
  ghost predicate IsMode(chosen: map<CandidateId, Candidate>, brief: bool, mode: Mode) {
    && (mode == Full <==> brief && forall f :: f in CONTEXTUAL ==> Offers(chosen, ClaimsOf(f)) && !Clashes(chosen, f))
    && (mode == DegradedNoResearch <==> !brief && forall f :: f in CONTEXTUAL ==> !Offers(chosen, ClaimsOf(f)))
  }

  // ---------- Warnings ----------

  function CodeRank(code: WarningCode): int {
    match code
    case StaleInput => 1
    case ConflictedFamily => 2
    case MissingFamily => 3
    case RejectedFamily => 4
    case NoSelectedResearch => 5
  }

  function FamilyRank(group: Option<Group>): int {
    match group
    case Some(Deterministic) => 1
    case Some(ClaimsOf(SupportResistance)) => 2
    case Some(ClaimsOf(Flows)) => 3
    case Some(ClaimsOf(Derivatives)) => 4
    case Some(ClaimsOf(Events)) => 5
    case Some(ClaimsOf(NewsRegulatory)) => 6
    case Some(Briefs) => 7
    case _ => 999
  }

  predicate WarningOrder(a: Warning, b: Warning) {
    if CodeRank(a.code) != CodeRank(b.code) then CodeRank(a.code) < CodeRank(b.code)
    else FamilyRank(a.group) < FamilyRank(b.group)
  }

  /** Something selected, or the attached brief, carries the policy's stale weight. */
  ghost predicate StaleSelected(policy: Policy, chosen: map<CandidateId, Candidate>, brief: Option<Candidate>) {
    || (exists id :: id in chosen && GroupOf(chosen[id]) != Briefs && chosen[id].freshnessWeight == policy.staleWeightBps)
    || (brief.Some? && brief.value.freshnessWeight == policy.staleWeightBps)
  }

  /** When each warning is due. */
  ghost predicate Warns(s: set<Outcome>, policy: Policy, chosen: map<CandidateId, Candidate>, brief: Option<Candidate>,
      w: Warning) {
    match w.code
    case StaleInput => w.group.None? && StaleSelected(policy, chosen, brief)
    case NoSelectedResearch => w.group == Some(Briefs) && brief.None?
    case _ =>
      w.group.Some? && w.group.value in Groups() - {Briefs} && FamilyWarns(s, chosen, w.code, w.group.value)
  }

  ghost predicate FamilyWarns(s: set<Outcome>, chosen: map<CandidateId, Candidate>, code: WarningCode, group: Group) {
    match code
    case ConflictedFamily => group.ClaimsOf? && Clashes(chosen, group.family)
    case MissingFamily => !Supplied(s, group)
    case RejectedFamily => Supplied(s, group) && !Offers(chosen, group)
    case _ => false
  }

  /** Exactly the warnings that are due, each once, by code and family. */
  ghost predicate AreWarnings(s: set<Outcome>, policy: Policy, chosen: map<CandidateId, Candidate>,
      brief: Option<Candidate>, list: seq<Warning>) {
    StrictlySorted(WarningOrder, list) && forall w :: w in list <==> Warns(s, policy, chosen, brief, w)
  }

  // ---------- The summary, stated over the set of slots ----------

  /** The group's list: its included candidates, normalized, by candidate id. */
  ghost predicate IsSelection(chosen: map<CandidateId, Candidate>, group: Group, list: seq<Candidate>) {
    && StrictlySorted(IdOrderOfCandidates, list)
    && forall c :: c in list <==> exists id :: id in chosen && GroupOf(chosen[id]) == group && c == Normalized(chosen[id])
  }

  /** Exactly one decision per slot, by candidate id. */
  ghost predicate IsDecisionList(s: set<Outcome>, policy: Policy, confidence: map<string, int>, list: seq<Decision>) {
    && StrictlySorted(DecisionOrder, list)
    && forall d :: d in list <==> exists o :: o in s && d == Decide(s, policy, confidence, o)
  }

  ghost predicate Presents(chosen: map<CandidateId, Candidate>, briefs: seq<CandidateId>, r: Result) {
    && r.selected.Keys == Groups() && r.counts.Keys == Groups()
    && (forall g :: g in Groups() ==> IsSelection(chosen, g, r.selected[g]) && r.counts[g] == |r.selected[g]|)
    && r.brief == (match LastIncluded(chosen, briefs) case None => None case Some(b) => Some(Normalized(b)))
    && AreConflicts(chosen, r.conflicts)
    && IsMode(chosen, r.brief.Some?, r.mode)
  }

  /** What the summary says, in terms of the slots alone; briefs only contributes the order of the briefs. */
  ghost predicate Summarizes(s: set<Outcome>, policy: Policy, confidence: map<string, int>, briefs: seq<CandidateId>,
      r: Result) {
    && IsDecisionList(s, policy, confidence, r.decisions)
    && Presents(Chosen(s, policy, confidence), briefs, r)
    && AreWarnings(s, policy, Chosen(s, policy, confidence), r.brief, r.warnings)
  }

  // ---------- Collecting the included candidates ----------

  /** The chosen candidates of a group among the given slots, in that order. */
  function Gathered(chosen: map<CandidateId, Candidate>, ids: seq<CandidateId>, group: Group): seq<Candidate> {
    if ids == [] then []
    else
      var id := ids[|ids| - 1];
      Gathered(chosen, ids[..|ids| - 1], group) + if id in chosen && GroupOf(chosen[id]) == group then [chosen[id]] else []
  }

  lemma {:induction false} CollectedIn(chosen: map<CandidateId, Candidate>, ids: seq<CandidateId>, group: Group)
    requires Keyed(chosen)
    ensures forall c :: c in Gathered(chosen, ids, group) <==> c.id in ids && c.id in chosen && chosen[c.id] == c && GroupOf(c) == group
  {
    hide GroupOf;
    if ids != [] {
      var front, id := ids[..|ids| - 1], ids[|ids| - 1];
      assert ids == front + [id];
      CollectedIn(chosen, front, group);
    }
  }

  ghost predicate DistinctIds(cs: seq<Candidate>) {
    forall i, j :: 0 <= i < j < |cs| ==> cs[i].id != cs[j].id
  }

  lemma AppendDistinct(cs: seq<Candidate>, c: Candidate)
    requires DistinctIds(cs) && forall d :: d in cs ==> d.id != c.id
    ensures DistinctIds(cs + [c])
  {
    assert forall i :: 0 <= i < |cs| ==> cs[i] in cs;
  }

  lemma {:induction false} CollectedDistinct(chosen: map<CandidateId, Candidate>, ids: seq<CandidateId>, group: Group)
    requires Keyed(chosen) && NoDuplicates(ids)
    ensures DistinctIds(Gathered(chosen, ids, group))
  {
    hide GroupOf;
    if ids != [] {
      var front, id := ids[..|ids| - 1], ids[|ids| - 1];
      assert ids == front + [id];
      CollectedDistinct(chosen, front, group);
      CollectedIn(chosen, front, group);
      if id in chosen {
        AppendDistinct(Gathered(chosen, front, group), chosen[id]);
      }
    }
  }

  lemma CollectedStep(chosen: map<CandidateId, Candidate>, ids: seq<CandidateId>, id: CandidateId, group: Group)
    ensures Gathered(chosen, ids + [id], group) ==
            Gathered(chosen, ids, group) + if id in chosen && GroupOf(chosen[id]) == group then [chosen[id]] else []
  {
    assert (ids + [id])[..|ids|] == ids;
  }

  /** The lists, counters and attached brief while the decision map is being read. */
  datatype Piles = Piles(raw: map<Group, seq<Candidate>>, counts: map<Group, nat>, brief: Option<Candidate>) {
    function Push(c: Candidate): Piles
      requires GroupOf(c) in raw && GroupOf(c) in counts
    {
      var g := GroupOf(c);
      Piles(raw[g := raw[g] + [c]], counts[g := counts[g] + 1], if g == Briefs then Some(c) else brief)
    }
  }

  ghost predicate CollectedSoFar(chosen: map<CandidateId, Candidate>, ids: seq<CandidateId>, lists: Piles) {
    && lists.raw.Keys == Groups() && lists.counts.Keys == Groups()
    && (forall g :: g in Groups() ==> lists.raw[g] == Gathered(chosen, ids, g) && lists.counts[g] == |lists.raw[g]|)
    && Briefs in lists.raw && lists.brief == if lists.raw[Briefs] == [] then None else Some(lists.raw[Briefs][|lists.raw[Briefs]| - 1])
  }

  lemma CollectNext(chosen: map<CandidateId, Candidate>, ids: seq<CandidateId>, id: CandidateId, lists: Piles)
    requires CollectedSoFar(chosen, ids, lists) && Keyed(chosen)
    ensures id !in chosen ==> CollectedSoFar(chosen, ids + [id], lists)
    ensures id in chosen ==> CollectedSoFar(chosen, ids + [id], lists.Push(chosen[id]))
  {
    hide GroupOf, Gathered, Groups, Keyed, CollectedSoFar;
    KeyedEntry(chosen, id);
    if id in chosen {
      CollectPushed(chosen, ids, id, lists);
    } else {
      CollectSkipped(chosen, ids, id, lists);
    }
  }

  lemma CollectSkipped(chosen: map<CandidateId, Candidate>, ids: seq<CandidateId>, id: CandidateId, lists: Piles)
    requires CollectedSoFar(chosen, ids, lists) && id !in chosen
    ensures CollectedSoFar(chosen, ids + [id], lists)
  {
    hide GroupOf, Gathered, Groups;
    forall g | g in Groups()
      ensures Gathered(chosen, ids + [id], g) == lists.raw[g]
    {
      CollectedStep(chosen, ids, id, g);
    }
  }

  lemma CollectPushed(chosen: map<CandidateId, Candidate>, ids: seq<CandidateId>, id: CandidateId, lists: Piles)
    requires CollectedSoFar(chosen, ids, lists) && id in chosen && GroupOf(chosen[id]) in Groups()
    ensures CollectedSoFar(chosen, ids + [id], lists.Push(chosen[id]))
  {
    hide GroupOf, Gathered, Groups;
    var pushed := lists.Push(chosen[id]);
    forall g | g in Groups()
      ensures Gathered(chosen, ids + [id], g) == pushed.raw[g] && pushed.counts[g] == |pushed.raw[g]|
    {
      CollectedStep(chosen, ids, id, g);
    }
  }

  function NoPiles(): Piles {
    Piles(map g | g in Groups() :: [], map g | g in Groups() :: 0, None)
  }

  lemma CollectNothing(chosen: map<CandidateId, Candidate>)
    ensures CollectedSoFar(chosen, [], NoPiles())
  {
    assert Briefs in Groups();
    hide Groups;
  }

  /** The registered candidates under their ids. */
  ghost predicate Catalogs(s: set<Outcome>, registered: map<CandidateId, Candidate>) {
    forall id :: (id in registered <==> IsRegistered(s, id)) && (id in registered ==>
      registered[id] == CandidateOf(s, id))
  }

  lemma EntryChosen(s: set<Outcome>, policy: Policy, confidence: map<string, int>, m: DecisionMap,
      registered: map<CandidateId, Candidate>, id: CandidateId)
    requires WellSlotted(s) && Settled(s, policy, confidence, m, SlotIds(s)) && Catalogs(s, registered) && id in m.order
    ensures id in m.entries
    ensures m.entries[id].included && id in registered <==> id in Chosen(s, policy, confidence)
    ensures id in Chosen(s, policy, confidence) ==>
        Chosen(s, policy, confidence)[id] == Select(registered[id], m.entries[id])
  {
    hide Decide;
    if IsRegistered(s, id) {
      assert Registered(CandidateOf(s, id)).Id() == id;
    }
  }

  /** Sorts the included candidates of the decision map into their groups, in iteration order. */
  method CollectSelected(m: DecisionMap, registered: map<CandidateId, Candidate>, ghost policy: Policy,
      ghost s: set<Outcome>, ghost confidence: map<string, int>)
    returns (lists: Piles)
    requires WellSlotted(s) && Settled(s, policy, confidence, m, SlotIds(s)) && Catalogs(s, registered)
    ensures CollectedSoFar(Chosen(s, policy, confidence), m.order, lists)
  {
    hide Settled, WellSlotted, Chosen, Catalogs, CollectedSoFar, NoPiles;
    ghost var chosen := Chosen(s, policy, confidence);
    CollectNothing(chosen);
    lists := NoPiles();
    assert m.order[..0] == [];
    for i := 0 to |m.order|
      invariant CollectedSoFar(chosen, m.order[..i], lists)
    {
      var id := m.order[i];
      assert m.order[..i + 1] == m.order[..i] + [id];
      lists := CollectEntry(m, registered, id, lists, policy, s, confidence, m.order[..i]);
    }
    assert m.order[..|m.order|] == m.order;
  }

  method CollectEntry(m: DecisionMap, registered: map<CandidateId, Candidate>, id: CandidateId, lists0: Piles,
      ghost policy: Policy, ghost s: set<Outcome>, ghost confidence: map<string, int>, ghost seen: seq<CandidateId>)
    returns (lists: Piles)
    requires WellSlotted(s) && Settled(s, policy, confidence, m, SlotIds(s)) && Catalogs(s, registered) && id in m.order
    requires CollectedSoFar(Chosen(s, policy, confidence), seen, lists0)
    ensures CollectedSoFar(Chosen(s, policy, confidence), seen + [id], lists)
  {
    hide Settled, WellSlotted, Catalogs, Chosen, Gathered, Groups;
    EntryChosen(s, policy, confidence, m, registered, id);
    ChosenKeyed(s, policy, confidence);
    CollectNext(Chosen(s, policy, confidence), seen, id, lists0);
    if m.entries[id].included && id in registered {
      lists := lists0.Push(Select(registered[id], m.entries[id]));
    } else {
      lists := lists0;
    }
  }

  /** The last brief visited is the last included one in registration order. */
  lemma {:induction false} LastCollected(chosen: map<CandidateId, Candidate>, order: seq<CandidateId>,
      briefs: seq<CandidateId>)
    requires Gathered(chosen, order, Briefs) == []
    requires forall id :: id in briefs && id in chosen ==> GroupOf(chosen[id]) == Briefs
    ensures var cs := Gathered(chosen, order + briefs, Briefs);
            LastIncluded(chosen, briefs) == if cs == [] then None else Some(cs[|cs| - 1])
  {
    hide GroupOf;
    if briefs == [] {
      assert order + briefs == order;
    } else {
      var front, last := briefs[..|briefs| - 1], briefs[|briefs| - 1];
      assert order + briefs == (order + front) + [last];
      CollectedStep(chosen, order + front, last, Briefs);
      LastCollected(chosen, order, front);
    }
  }

  // ---------- Final order ----------

  function Normalize(cs: seq<Candidate>): (ns: seq<Candidate>)
    ensures |ns| == |cs| && forall i :: 0 <= i < |cs| ==> ns[i] == Normalized(cs[i])
  {
    seq(|cs|, i requires 0 <= i < |cs| => Normalized(cs[i]))
  }

  function FinalList(cs: seq<Candidate>): seq<Candidate> {
    SortBy(IdOrderOfCandidates, Normalize(cs))
  }

  lemma CandidateIdOrder()
    ensures ComparesKeys(IdOrderOfCandidates, KeyLess, (c: Candidate) => IdKey(c.id))
  {
    KeyStrictTotal();
  }

  lemma DecisionIdOrder()
    ensures ComparesKeys(DecisionOrder, KeyLess, (d: Decision) => IdKey(d.id))
  {
    KeyStrictTotal();
  }

  lemma FinalListSorted(cs: seq<Candidate>)
    requires DistinctIds(cs)
    ensures StrictlySorted(IdOrderOfCandidates, FinalList(cs)) && |FinalList(cs)| == |cs|
    ensures forall c :: c in FinalList(cs) <==> exists d :: d in cs && c == Normalized(d)
  {
    CandidateIdOrder();
    IdOrder();
    hide IdOrderOfCandidates, IdKey, KeyLess;
    var key := (c: Candidate) => IdKey(c.id);
    var ns := Normalize(cs);
    forall i, j | 0 <= i < j < |ns|
      ensures key(ns[i]) != key(ns[j])
    {
      assert ns[i].id == cs[i].id && ns[j].id == cs[j].id;
    }
    SortStrictly(IdOrderOfCandidates, KeyLess, key, ns);
    forall c
      ensures c in ns <==> exists d :: d in cs && c == Normalized(d)
    {
      if d :| d in cs && c == Normalized(d) {
        var i :| 0 <= i < |cs| && cs[i] == d;
        assert ns[i] == c;
      }
      if c in ns {
        var i :| 0 <= i < |ns| && ns[i] == c;
        assert cs[i] in cs;
      }
    }
  }
}
