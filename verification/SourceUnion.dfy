/**
  The union of the source references behind all decided features and claims. A reference is named by its bundle's hash and
  its own id; it is marked as selected lineage when included evidence cites it, and as audit-only when excluded evidence does.
 */
module SourceUnion {
  import opened Evidence
  import opened Sorting
  import opened Candidates
  import opened Ranking
  import opened SelectionSpec
  import opened Selection

  datatype SourceUse = SourceUse(
    reference: SourceReference,
    bundleHash: string,
    origin: Origin,
    isSelectedLineage: bool,
    isAuditOnly: bool)

  /** Publisher, source, hash, reference id: all ascending. */
  predicate UseOrder(a: SourceUse, b: SourceUse) {
    if a.origin.publisher != b.origin.publisher then StringLess(a.origin.publisher, b.origin.publisher)
    else if a.origin.sourceId != b.origin.sourceId then StringLess(a.origin.sourceId, b.origin.sourceId)
    else if a.bundleHash != b.bundleHash then StringLess(a.bundleHash, b.bundleHash)
    else StringLess(a.reference.referenceId, b.reference.referenceId)
  }

  function UseOrderKey(u: SourceUse): seq<Atom> {
    [Text(u.origin.publisher), Text(u.origin.sourceId), Text(u.bundleHash), Text(u.reference.referenceId)]
  }

  lemma UsesOrdered()
    ensures ComparesKeys(UseOrder, KeyLess, UseOrderKey)
  {
    KeyStrictTotal();
    hide KeyLess, StringLess;
    forall a, b
      ensures UseOrder(a, b) <==> KeyLess(UseOrderKey(a), UseOrderKey(b))
    {
      var p, q := UseOrderKey(a), UseOrderKey(b);
      assert p == [p[0]] + p[1..] && q == [q[0]] + q[1..];
      assert p[1..] == [p[1]] + p[2..] && q[1..] == [q[1]] + q[2..];
      assert p[2..] == [p[2]] + p[3..] && q[2..] == [q[2]] + q[3..];
      KeyStep(p[0], p[1..], q[0], q[1..]);
      KeyStep(p[1], p[2..], q[1], q[2..]);
      KeyStep(p[2], p[3..], q[2], q[3..]);
      KeyLast(p[3], q[3]);
      assert p[3..] == [p[3]] && q[3..] == [q[3]];
    }
  }

  // ---------- What the union holds ----------

  /** The feature or claim with the given candidate id cites ref. */
  ghost predicate Cites(r: Record, ref: Id, item: CandidateId) {
    || (exists f :: f in r.bundle.features && ref in f.inputLineage && item == FeatureRef(r.evidenceHash, f.featureId))
    || (exists c :: c in AllClaims(r.bundle.contextual) && ref in c.sourceReferenceIds && item == ClaimRef(r.evidenceHash, c.evidenceId))
  }

  ghost predicate CitedByIncluded(included: set<CandidateId>, r: Record, ref: Id) {
    exists item :: Cites(r, ref, item) && item in included
  }

  ghost predicate CitedByExcluded(included: set<CandidateId>, r: Record, ref: Id) {
    exists item :: Cites(r, ref, item) && item !in included
  }

  function UseOf(r: Record, x: SourceReference, selected: bool, audit: bool): SourceUse {
    SourceUse(x, r.evidenceHash, OriginOf(r), selected, audit)
  }

  /** Exactly the references that some feature or claim of their bundle cites, each once, with both marks, in order. */
  ghost predicate IsUnion(rs: seq<Record>, included: set<CandidateId>, list: seq<SourceUse>) {
    && StrictlySorted(UseOrder, list)
    && forall u :: u in list <==> exists r, x :: HasReference(rs, r, x) && Used(included, r, x, u)
  }

  ghost predicate HasReference(rs: seq<Record>, r: Record, x: SourceReference) {
    r in rs && x in r.bundle.sourceReferences
  }

  ghost predicate Used(included: set<CandidateId>, r: Record, x: SourceReference, u: SourceUse) {
    var selected, audit := CitedByIncluded(included, r, x.referenceId), CitedByExcluded(included, r, x.referenceId);
    (selected || audit) && u == UseOf(r, x, selected, audit)
  }

  lemma UnionUnique(rs: seq<Record>, included: set<CandidateId>, a: seq<SourceUse>, b: seq<SourceUse>)
    requires IsUnion(rs, included, a) && IsUnion(rs, included, b)
    ensures a == b
  {
    UsesOrdered();
    hide UseOrder, KeyLess, Used;
    KeysGiveWeakOrder(UseOrder, KeyLess, UseOrderKey);
    SortedUnique(UseOrder, a, b);
  }

  // ---------- Building the union ----------

  /** One citation met by the scan. */
  datatype Citation = Citation(record: Record, ref: Id, item: CandidateId)

  type UnionMap = OrderedMap<(string, Id), SourceUse>

  /** The first reference with the id. */
  function Find(refs: seq<SourceReference>, ref: Id): (x: Option<SourceReference>)
    ensures x.Some? ==> x.value in refs && x.value.referenceId == ref
    ensures x.None? ==> forall y :: y in refs ==> y.referenceId != ref
  {
    if refs == [] then None else if refs[0].referenceId == ref then Some(refs[0]) else Find(refs[1..], ref)
  }

  lemma FindUnique(refs: seq<SourceReference>, x: SourceReference)
    requires NoDuplicates(ReferenceIds(refs)) && x in refs
    ensures Find(refs, x.referenceId) == Some(x)
  {
    var y := Find(refs, x.referenceId).value;
    var i :| 0 <= i < |refs| && refs[i] == x;
    var j :| 0 <= j < |refs| && refs[j] == y;
    assert ReferenceIds(refs)[i] == ReferenceIds(refs)[j];
  }

  ghost predicate MetIncluded(seen: set<Citation>, included: set<CandidateId>, r: Record, ref: Id) {
    exists c :: c in seen && c.record == r && c.ref == ref && c.item in included
  }

  ghost predicate MetExcluded(seen: set<Citation>, included: set<CandidateId>, r: Record, ref: Id) {
    exists c :: c in seen && c.record == r && c.ref == ref && c.item !in included
  }

  /** The entry for a reference: absent until it is cited, then marked by the citations met. */
  ghost predicate EntryFor(union: UnionMap, seen: set<Citation>, included: set<CandidateId>, r: Record, ref: Id) {
    var key := (r.evidenceHash, ref);
    var selected, audit := MetIncluded(seen, included, r, ref), MetExcluded(seen, included, r, ref);
    var x := Find(r.bundle.sourceReferences, ref);
    if x.Some? && (selected || audit) then key in union.entries && union.entries[key] == UseOf(r, x.value, selected, audit)
    else key !in union.entries
  }

  /** The union of the citations met. */
  ghost predicate Unites(rs: seq<Record>, union: UnionMap, seen: set<Citation>, included: set<CandidateId>) {
    && union.Valid()
    && (forall r, ref :: r in rs ==> EntryFor(union, seen, included, r, ref))
    && forall key :: key in union.entries ==> exists r :: r in rs && r.evidenceHash == key.0
  }

  /** The entry for a reference, created on first use; an id that is not a reference has none. */
  function GetRefEntry(union: UnionMap, r: Record, ref: Id): UnionMap {
    if (r.evidenceHash, ref) in union.entries then union
    else
      var x := Find(r.bundle.sourceReferences, ref);
      if x.None? then union else union.Set((r.evidenceHash, ref), UseOf(r, x.value, false, false))
  }

  function Mark(u: SourceUse, isIncluded: bool): SourceUse {
    if isIncluded then u.(isSelectedLineage := true) else u.(isAuditOnly := true)
  }

  function Cite(union0: UnionMap, r: Record, ref: Id, isIncluded: bool): UnionMap {
    var key, union := (r.evidenceHash, ref), GetRefEntry(union0, r, ref);
    if key in union.entries then union.Set(key, Mark(union.entries[key], isIncluded)) else union
  }

  lemma CiteValid(union: UnionMap, r: Record, ref: Id, isIncluded: bool)
    requires union.Valid()
    ensures Cite(union, r, ref, isIncluded).Valid()
    ensures forall key :: key != (r.evidenceHash, ref) ==>
              (key in Cite(union, r, ref, isIncluded).entries <==> key in union.entries)
              && (key in union.entries ==> Cite(union, r, ref, isIncluded).entries[key] == union.entries[key])
  {
    var key, entered := (r.evidenceHash, ref), GetRefEntry(union, r, ref);
    var x := Find(r.bundle.sourceReferences, ref);
    if x.Some? {
      union.SetValid(key, UseOf(r, x.value, false, false));
    }
    if key in entered.entries {
      entered.SetValid(key, Mark(entered.entries[key], isIncluded));
    }
  }

  lemma MetNext(seen: set<Citation>, included: set<CandidateId>, c: Citation, r: Record, ref: Id)
    ensures MetIncluded(seen + {c}, included, r, ref) <==>
            MetIncluded(seen, included, r, ref) || (c.record == r && c.ref == ref && c.item in included)
    ensures MetExcluded(seen + {c}, included, r, ref) <==>
            MetExcluded(seen, included, r, ref) || (c.record == r && c.ref == ref && c.item !in included)
  {
    assert c in seen + {c};
  }

  lemma CiteNext(rs: seq<Record>, union: UnionMap, seen: set<Citation>, included: set<CandidateId>, c: Citation)
    requires DistinctHashes(rs) && Unites(rs, union, seen, included) && c.record in rs
    ensures Unites(rs, Cite(union, c.record, c.ref, c.item in included), seen + {c}, included)
  {
    hide MetIncluded, MetExcluded, Cite;
    var next := Cite(union, c.record, c.ref, c.item in included);
    CiteValid(union, c.record, c.ref, c.item in included);
    forall r, ref | r in rs
      ensures EntryFor(next, seen + {c}, included, r, ref)
    {
      MetNext(seen, included, c, r, ref);
      assert EntryFor(union, seen, included, r, ref);
      if r == c.record && ref == c.ref {
        CiteMarks(union, seen, included, c);
      } else {
        if r.evidenceHash == c.record.evidenceHash {
          SameHashSame(rs, r, c.record);
        }
        assert (r.evidenceHash, ref) != (c.record.evidenceHash, c.ref);
      }
    }
  }

  lemma CiteMarks(union: UnionMap, seen: set<Citation>, included: set<CandidateId>, c: Citation)
    requires EntryFor(union, seen, included, c.record, c.ref)
    ensures EntryFor(Cite(union, c.record, c.ref, c.item in included), seen + {c}, included, c.record, c.ref)
  {
    MetNext(seen, included, c, c.record, c.ref);
    hide MetIncluded, MetExcluded;
  }

  lemma SameHashSame(rs: seq<Record>, a: Record, b: Record)
    requires DistinctHashes(rs) && a in rs && b in rs && a.evidenceHash == b.evidenceHash
    ensures a == b
  {
  }

  // ---------- The scan ----------

  ghost function RefCitations(r: Record, item: CandidateId, refs: seq<Id>): set<Citation> {
    set ref | ref in refs :: Citation(r, ref, item)
  }

  ghost function FeatureCitations(r: Record, fs: seq<Feature>): set<Citation> {
    set f, ref | f in fs && ref in f.inputLineage :: Citation(r, ref, FeatureRef(r.evidenceHash, f.featureId))
  }

  ghost function ClaimCitations(r: Record, cs: seq<Claim>): set<Citation> {
    set c, ref | c in cs && ref in c.sourceReferenceIds :: Citation(r, ref, ClaimRef(r.evidenceHash, c.evidenceId))
  }

  ghost function RecordCitations(r: Record): set<Citation> {
    FeatureCitations(r, r.bundle.features) + ClaimCitations(r, AllClaims(r.bundle.contextual))
  }

  ghost function AllCitations(rs: seq<Record>): set<Citation> {
    set r, c | r in rs && c in RecordCitations(r) :: c
  }

  lemma RecordCitationsCite(r: Record, c: Citation)
    ensures c in RecordCitations(r) <==> c.record == r && Cites(r, c.ref, c.item)
  {
  }

  /** The decision map tells which slots are included, and every cited slot is decided. */
  ghost predicate Tells(rs: seq<Record>, m: DecisionMap, included: set<CandidateId>) {
    && (forall id :: id in m.entries ==> (m.entries[id].included <==> id in included))
    && forall r, ref, item :: r in rs && Cites(r, ref, item) ==> item in m.entries
  }

  lemma CitedDecided(rs: seq<Record>, r: Record, item: CandidateId, refs: seq<Id>, m: DecisionMap,
      included: set<CandidateId>)
    requires r in rs && Tells(rs, m, included) && forall ref :: ref in refs ==> Cites(r, ref, item)
    ensures refs == [] || item in m.entries
  {
    if refs != [] {
      assert refs[0] in refs;
    }
  }

  method ScanRefs(rs: seq<Record>, r: Record, item: CandidateId, refs: seq<Id>, m: DecisionMap, union0: UnionMap,
      ghost seen: set<Citation>, ghost included: set<CandidateId>)
    returns (union: UnionMap)
    requires DistinctHashes(rs) && r in rs && Unites(rs, union0, seen, included) && Tells(rs, m, included)
    requires forall ref :: ref in refs ==> Cites(r, ref, item)
    ensures Unites(rs, union, seen + RefCitations(r, item, refs), included)
  {
    hide Unites, Cites, Cite, DistinctHashes;
    union := union0;
    CitedDecided(rs, r, item, refs, m, included);
    if item !in m.entries {
      assert seen + RefCitations(r, item, refs) == seen;
      return;
    }
    assert seen + RefCitations(r, item, refs[..0]) == seen;
    for k := 0 to |refs|
      invariant Unites(rs, union, seen + RefCitations(r, item, refs[..k]), included)
    {
      var c := Citation(r, refs[k], item);
      assert refs[..k + 1] == refs[..k] + [refs[k]];
      CiteNext(rs, union, seen + RefCitations(r, item, refs[..k]), included, c);
      assert seen + RefCitations(r, item, refs[..k]) + {c} == seen + RefCitations(r, item, refs[..k + 1]);
      union := Cite(union, r, refs[k], m.entries[item].included);
    }
    assert refs[..|refs|] == refs;
  }

  method ScanFeatures(rs: seq<Record>, r: Record, m: DecisionMap, union0: UnionMap, ghost seen: set<Citation>,
      ghost included: set<CandidateId>)
    returns (union: UnionMap)
    requires DistinctHashes(rs) && r in rs && Unites(rs, union0, seen, included) && Tells(rs, m, included)
    ensures Unites(rs, union, seen + FeatureCitations(r, r.bundle.features), included)
  {
    hide Unites, DistinctHashes, Tells;
    var fs := r.bundle.features;
    union := union0;
    assert seen + FeatureCitations(r, fs[..0]) == seen;
    for i := 0 to |fs|
      invariant Unites(rs, union, seen + FeatureCitations(r, fs[..i]), included)
    {
      var f := fs[i];
      var item := FeatureRef(r.evidenceHash, f.featureId);
      assert f in fs && fs[..i + 1] == fs[..i] + [f];
      union := ScanRefs(rs, r, item, f.inputLineage, m, union, seen + FeatureCitations(r, fs[..i]), included);
      assert FeatureCitations(r, fs[..i + 1]) == FeatureCitations(r, fs[..i]) + RefCitations(r, item, f.inputLineage);
      assert seen + FeatureCitations(r, fs[..i]) + RefCitations(r, item, f.inputLineage) == seen + FeatureCitations(r, fs[..i + 1]);
    }
    assert fs[..|fs|] == fs;
  }

  method ScanClaims(rs: seq<Record>, r: Record, m: DecisionMap, union0: UnionMap, ghost seen: set<Citation>,
      ghost included: set<CandidateId>)
    returns (union: UnionMap)
    requires DistinctHashes(rs) && r in rs && Unites(rs, union0, seen, included) && Tells(rs, m, included)
    ensures Unites(rs, union, seen + ClaimCitations(r, AllClaims(r.bundle.contextual)), included)
  {
    hide Unites, DistinctHashes, Tells, AllClaims;
    var cs := AllClaims(r.bundle.contextual);
    union := union0;
    assert seen + ClaimCitations(r, cs[..0]) == seen;
    for i := 0 to |cs|
      invariant Unites(rs, union, seen + ClaimCitations(r, cs[..i]), included)
    {
      var c := cs[i];
      var item := ClaimRef(r.evidenceHash, c.evidenceId);
      assert c in cs && cs[..i + 1] == cs[..i] + [c];
      union := ScanRefs(rs, r, item, c.sourceReferenceIds, m, union, seen + ClaimCitations(r, cs[..i]), included);
      assert ClaimCitations(r, cs[..i + 1]) == ClaimCitations(r, cs[..i]) + RefCitations(r, item, c.sourceReferenceIds);
      assert seen + ClaimCitations(r, cs[..i]) + RefCitations(r, item, c.sourceReferenceIds) == seen + ClaimCitations(r, cs[..i + 1]);
    }
    assert cs[..|cs|] == cs;
  }

  lemma NothingUnited(rs: seq<Record>, included: set<CandidateId>)
    ensures Unites(rs, OrderedMap([], map[]), AllCitations([]), included)
  {
    assert AllCitations([]) == {};
  }

  lemma NextCitations(rs: seq<Record>, r: Record)
    ensures AllCitations(rs + [r]) ==
            AllCitations(rs) + FeatureCitations(r, r.bundle.features) + ClaimCitations(r, AllClaims(r.bundle.contextual))
  {
    hide FeatureCitations, ClaimCitations, AllClaims;
    forall c | c in RecordCitations(r)
      ensures c in AllCitations(rs + [r])
    {
      assert r in rs + [r];
    }
    forall c | c in AllCitations(rs)
      ensures c in AllCitations(rs + [r])
    {
      var q :| q in rs && c in RecordCitations(q);
      assert q in rs + [r];
    }
  }

  /** Walks the records, their features and their claims, and lists the union in order. */
  method BuildUnion(rs: seq<Record>, m: DecisionMap, ghost included: set<CandidateId>) returns (list: seq<SourceUse>)
    requires DistinctHashes(rs) && Tells(rs, m, included)
    requires forall r :: r in rs ==> NoDuplicates(ReferenceIds(r.bundle.sourceReferences))
    ensures IsUnion(rs, included, list)
  {
    hide Unites, DistinctHashes, Tells, FeatureCitations, ClaimCitations, AllClaims, AllCitations, NoDuplicates;
    var union: UnionMap := OrderedMap([], map[]);
    NothingUnited(rs, included);
    assert rs[..0] == [];
    for i := 0 to |rs|
      invariant Unites(rs, union, AllCitations(rs[..i]), included)
    {
      var r := rs[i];
      ghost var seen := AllCitations(rs[..i]);
      union := ScanFeatures(rs, r, m, union, seen, included);
      union := ScanClaims(rs, r, m, union, seen + FeatureCitations(r, r.bundle.features), included);
      assert rs[..i + 1] == rs[..i] + [r];
      NextCitations(rs[..i], r);
    }
    assert rs[..|rs|] == rs;
    list := ListUnion(rs, union, included);
  }

  /** The entries are exactly the uses, under their hashes and reference ids. */
  lemma EntriesAreUses(rs: seq<Record>, union: UnionMap, included: set<CandidateId>)
    requires Unites(rs, union, AllCitations(rs), included)
    requires forall r :: r in rs ==> NoDuplicates(ReferenceIds(r.bundle.sourceReferences))
    ensures forall key :: key in union.entries ==>
              var u := union.entries[key];
              u.bundleHash == key.0 && u.reference.referenceId == key.1 && exists r, x :: HasReference(rs, r, x) && Used(included, r, x, u)
    ensures forall r, x, u :: HasReference(rs, r, x) && Used(included, r, x, u) ==>
              var key := (r.evidenceHash, x.referenceId);
              key in union.entries && union.entries[key] == u
  {
    hide AllCitations, NoDuplicates, CitedByIncluded, CitedByExcluded, MetIncluded, MetExcluded;
    forall r, ref | r in rs
      ensures MetIncluded(AllCitations(rs), included, r, ref) <==> CitedByIncluded(included, r, ref)
      ensures MetExcluded(AllCitations(rs), included, r, ref) <==> CitedByExcluded(included, r, ref)
    {
      AllMet(rs, included, r, ref);
    }
    forall key | key in union.entries
      ensures var u := union.entries[key];
              u.bundleHash == key.0 && u.reference.referenceId == key.1 && exists r, x :: HasReference(rs, r, x) && Used(included, r, x, u)
    {
      var r :| r in rs && r.evidenceHash == key.0;
      assert EntryFor(union, AllCitations(rs), included, r, key.1);
      var x := Find(r.bundle.sourceReferences, key.1).value;
      assert HasReference(rs, r, x) && Used(included, r, x, union.entries[key]);
    }
    forall r, x, u | HasReference(rs, r, x) && Used(included, r, x, u)
      ensures (r.evidenceHash, x.referenceId) in union.entries && union.entries[(r.evidenceHash, x.referenceId)] == u
    {
      FindUnique(r.bundle.sourceReferences, x);
      assert EntryFor(union, AllCitations(rs), included, r, x.referenceId);
    }
  }

  lemma AllMet(rs: seq<Record>, included: set<CandidateId>, r: Record, ref: Id)
    requires r in rs
    ensures MetIncluded(AllCitations(rs), included, r, ref) <==> CitedByIncluded(included, r, ref)
    ensures MetExcluded(AllCitations(rs), included, r, ref) <==> CitedByExcluded(included, r, ref)
  {
    hide Cites, RecordCitations;
    forall item
      ensures Citation(r, ref, item) in AllCitations(rs) <==> Cites(r, ref, item)
    {
      RecordCitationsCite(r, Citation(r, ref, item));
      if q :| q in rs && Citation(r, ref, item) in RecordCitations(q) {
        RecordCitationsCite(q, Citation(r, ref, item));
      }
    }
    forall c | c in AllCitations(rs) && c.record == r && c.ref == ref
      ensures c == Citation(r, ref, c.item)
    {
    }
  }

  /** The values of the union, in insertion order. */
  ghost predicate ListsValues(union: UnionMap, values: seq<SourceUse>) {
    |values| == |union.order| && forall i :: 0 <= i < |values| ==>
      union.order[i] in union.entries && values[i] == union.entries[union.order[i]]
  }

  lemma ValuesDistinct(union: UnionMap, values: seq<SourceUse>)
    requires union.Valid() && ListsValues(union, values)
    requires forall key :: key in union.entries ==>
               var u := union.entries[key]; u.bundleHash == key.0 && u.reference.referenceId == key.1
    ensures DistinctKeys(UseOrderKey, values)
  {
    forall i, j | 0 <= i < j < |values|
      ensures UseOrderKey(values[i]) != UseOrderKey(values[j])
    {
      assert union.order[i] != union.order[j];
      assert UseOrderKey(values[i])[2] != UseOrderKey(values[j])[2] || UseOrderKey(values[i])[3] != UseOrderKey(values[j])[3];
    }
  }

  lemma ValuesAreUses(rs: seq<Record>, union: UnionMap, values: seq<SourceUse>, included: set<CandidateId>)
    requires Unites(rs, union, AllCitations(rs), included) && ListsValues(union, values)
    requires forall r :: r in rs ==> NoDuplicates(ReferenceIds(r.bundle.sourceReferences))
    ensures forall u :: u in values <==> exists r, x :: HasReference(rs, r, x) && Used(included, r, x, u)
  {
    EntriesAreUses(rs, union, included);
    ValidEntries(rs, union, included);
    hide AllCitations, Used, Unites, HasReference, NoDuplicates;
    forall u | u in values
      ensures exists r, x :: HasReference(rs, r, x) && Used(included, r, x, u)
    {
      var i :| 0 <= i < |values| && values[i] == u;
      assert union.order[i] in union.entries;
    }
    forall r, x, u | HasReference(rs, r, x) && Used(included, r, x, u)
      ensures u in values
    {
      var key := (r.evidenceHash, x.referenceId);
      var i :| 0 <= i < |union.order| && union.order[i] == key;
      assert values[i] == u;
    }
  }

  lemma ValidEntries(rs: seq<Record>, union: UnionMap, included: set<CandidateId>)
    requires Unites(rs, union, AllCitations(rs), included)
    ensures union.Valid() && forall key :: key in union.entries ==> key in union.order
  {
  }

  method ListUnion(rs: seq<Record>, union: UnionMap, ghost included: set<CandidateId>) returns (list: seq<SourceUse>)
    requires Unites(rs, union, AllCitations(rs), included)
    requires forall r :: r in rs ==> NoDuplicates(ReferenceIds(r.bundle.sourceReferences))
    ensures IsUnion(rs, included, list)
  {
    hide AllCitations, Used, UseOrder, KeyLess, Unites, NoDuplicates, EntryFor;
    ValidEntries(rs, union, included);
    var values := [];
    for i := 0 to |union.order|
      invariant |values| == i && forall j :: 0 <= j < i ==> union.order[j] in union.entries && values[j] == union.entries[union.order[j]]
    {
      values := values + [union.entries[union.order[i]]];
    }
    EntriesAreUses(rs, union, included);
    ValuesDistinct(union, values);
    ValuesAreUses(rs, union, values, included);
    UsesOrdered();
    SortStrictly(UseOrder, KeyLess, UseOrderKey, values);
    list := SortBy(UseOrder, values);
  }
}
