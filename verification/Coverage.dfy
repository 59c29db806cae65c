/** The accounts over whole records: what became of each bundle, and how many features were supplied in which state. */
module Coverage {
  import opened Evidence
  import opened Sorting
  import opened Candidates
  import opened Ranking

  // ---------- Bundle lineage ----------

  /** Publisher, source, hash: all ascending. */
  predicate BundleOrder(a: BundleLineage, b: BundleLineage) {
    if a.origin.publisher != b.origin.publisher then StringLess(a.origin.publisher, b.origin.publisher)
    else if a.origin.sourceId != b.origin.sourceId then StringLess(a.origin.sourceId, b.origin.sourceId)
    else StringLess(a.bundleHash, b.bundleHash)
  }

  function BundleKey(b: BundleLineage): seq<Atom> {
    [Text(b.origin.publisher), Text(b.origin.sourceId), Text(b.bundleHash)]
  }

  lemma BundlesOrdered()
    ensures ComparesKeys(BundleOrder, KeyLess, BundleKey)
  {
    KeyStrictTotal();
    hide KeyLess, StringLess;
    forall a, b
      ensures BundleOrder(a, b) <==> KeyLess(BundleKey(a), BundleKey(b))
    {
      var p, q := BundleKey(a), BundleKey(b);
      assert p == [p[0]] + p[1..] && q == [q[0]] + q[1..];
      assert p[1..] == [p[1]] + p[2..] && q[1..] == [q[1]] + q[2..];
      KeyStep(p[0], p[1..], q[0], q[1..]);
      KeyStep(p[1], p[2..], q[1], q[2..]);
      KeyLast(p[2], q[2]);
      assert p[2..] == [p[2]] && q[2..] == [q[2]];
    }
  }

  /** One entry per bundle, accepted or rejected for a reason, in the order of publishers, sources and hashes. */
  ghost predicate ListsBundles(rs: seq<Record>, now: int, scopeKey: string, policy: Policy, list: seq<BundleLineage>) {
    && StrictlySorted(BundleOrder, list)
    && forall b :: b in list <==> exists r :: r in rs && b == LineageOf(r, now, scopeKey, policy)
  }

  lemma LineagesOfRecords(rs: seq<Record>, now: int, scopeKey: string, policy: Policy)
    ensures forall b :: b in BundleLineages(rs, now, scopeKey, policy) <==> exists r :: r in rs && b == LineageOf(r, now, scopeKey, policy)
  {
    hide LineageOf;
    var bs := BundleLineages(rs, now, scopeKey, policy);
    forall b | b in bs
      ensures exists r :: r in rs && b == LineageOf(r, now, scopeKey, policy)
    {
      var i :| 0 <= i < |bs| && bs[i] == b;
      assert rs[i] in rs;
    }
    forall r | r in rs
      ensures LineageOf(r, now, scopeKey, policy) in bs
    {
      var i :| 0 <= i < |rs| && rs[i] == r;
      assert bs[i] == LineageOf(r, now, scopeKey, policy);
    }
  }

  lemma LineagesDistinct(rs: seq<Record>, now: int, scopeKey: string, policy: Policy)
    requires DistinctHashes(rs)
    ensures DistinctKeys(BundleKey, BundleLineages(rs, now, scopeKey, policy))
  {
    hide Rejection;
    var bs := BundleLineages(rs, now, scopeKey, policy);
    forall i, j | 0 <= i < j < |bs|
      ensures BundleKey(bs[i]) != BundleKey(bs[j])
    {
      assert BundleKey(bs[i])[2] != BundleKey(bs[j])[2];
    }
  }

  lemma BundlesListed(rs: seq<Record>, now: int, scopeKey: string, policy: Policy)
    requires DistinctHashes(rs)
    ensures ListsBundles(rs, now, scopeKey, policy, SortBy(BundleOrder, BundleLineages(rs, now, scopeKey, policy)))
  {
    hide BundleOrder, KeyLess, LineageOf, DistinctHashes, BundleKey;
    BundlesOrdered();
    LineagesDistinct(rs, now, scopeKey, policy);
    LineagesOfRecords(rs, now, scopeKey, policy);
    SortStrictly(BundleOrder, KeyLess, BundleKey, BundleLineages(rs, now, scopeKey, policy));
  }

  /** The bundle list is determined by the records. */
  lemma BundlesUnique(rs: seq<Record>, now: int, scopeKey: string, policy: Policy, a: seq<BundleLineage>,
      b: seq<BundleLineage>)
    requires ListsBundles(rs, now, scopeKey, policy, a) && ListsBundles(rs, now, scopeKey, policy, b)
    ensures a == b
  {
    BundlesOrdered();
    hide BundleOrder, KeyLess, LineageOf;
    KeysGiveWeakOrder(BundleOrder, KeyLess, BundleKey);
    SortedUnique(BundleOrder, a, b);
  }

  // ---------- Availability ----------

  datatype Availability = Availability(available: nat, unavailable: nat, invalid: nat)

  function FeatureId(r: Record, f: Feature): CandidateId {
    CandidateId(r.evidenceHash, DeterministicFeature, f.featureId)
  }

  /** The features in a state, of rejected bundles too. */
  ghost function FeaturesIn(rs: seq<Record>, status: FeatureStatus): set<CandidateId> {
    set r, f | r in rs && f in r.bundle.features && f.status == status :: FeatureId(r, f)
  }

  ghost predicate CountsFeatures(rs: seq<Record>, a: Availability) {
    && a.available == |FeaturesIn(rs, Available)|
    && a.unavailable == |FeaturesIn(rs, Unavailable)|
    && a.invalid == |FeaturesIn(rs, Invalid)|
  }

  /** The features in a state among the first of a record's features. */
  ghost function SomeFeatures(r: Record, fs: seq<Feature>, status: FeatureStatus): set<CandidateId> {
    set f | f in fs && f.status == status :: FeatureId(r, f)
  }

  ghost predicate CountedSoFar(rs: seq<Record>, r: Record, fs: seq<Feature>, a: Availability) {
    && a.available == |FeaturesIn(rs, Available)| + |SomeFeatures(r, fs, Available)|
    && a.unavailable == |FeaturesIn(rs, Unavailable)| + |SomeFeatures(r, fs, Unavailable)|
    && a.invalid == |FeaturesIn(rs, Invalid)| + |SomeFeatures(r, fs, Invalid)|
  }

  lemma SomeStep(r: Record, fs: seq<Feature>, f: Feature, status: FeatureStatus)
    requires forall g :: g in fs ==> g.featureId != f.featureId
    ensures |SomeFeatures(r, fs + [f], status)| == |SomeFeatures(r, fs, status)| + if f.status == status then 1 else 0
  {
    var some := SomeFeatures(r, fs, status);
    if f.status == status {
      assert FeatureId(r, f) !in some;
      assert SomeFeatures(r, fs + [f], status) == some + {FeatureId(r, f)};
    } else {
      assert SomeFeatures(r, fs + [f], status) == some;
    }
  }

  lemma RecordStep(rs: seq<Record>, r: Record, status: FeatureStatus)
    requires forall x :: x in rs ==> x.evidenceHash != r.evidenceHash
    ensures |FeaturesIn(rs + [r], status)| == |FeaturesIn(rs, status)| + |SomeFeatures(r, r.bundle.features, status)|
  {
    var before, some := FeaturesIn(rs, status), SomeFeatures(r, r.bundle.features, status);
    assert before !! some;
    assert FeaturesIn(rs + [r], status) == before + some;
  }

  lemma FeaturesApart(fs: seq<Feature>, j: nat)
    requires NoDuplicates(FeatureIds(fs)) && j < |fs|
    ensures forall g :: g in fs[..j] ==> g.featureId != fs[j].featureId
  {
    forall g | g in fs[..j]
      ensures g.featureId != fs[j].featureId
    {
      var i :| 0 <= i < j && fs[i] == g;
      assert FeatureIds(fs)[i] != FeatureIds(fs)[j];
    }
  }

  method CountFeatures(rs: seq<Record>) returns (a: Availability)
    requires DistinctHashes(rs) && forall r :: r in rs ==> NoDuplicates(FeatureIds(r.bundle.features))
    ensures CountsFeatures(rs, a)
  {
    hide SomeFeatures, FeaturesIn, NoDuplicates;
    a := Availability(0, 0, 0);
    forall status
      ensures FeaturesIn([], status) == {}
    {
      NothingIn(status);
    }
    for i := 0 to |rs|
      invariant CountsFeatures(rs[..i], a)
    {
      a := CountRecord(rs[..i], rs[i], a);
      assert rs[..i + 1] == rs[..i] + [rs[i]];
      forall status
        ensures |FeaturesIn(rs[..i + 1], status)| == |FeaturesIn(rs[..i], status)| + |SomeFeatures(rs[i], rs[i].bundle.features, status)|
      {
        RecordStep(rs[..i], rs[i], status);
      }
    }
    assert rs[..|rs|] == rs;
  }

  lemma NothingIn(status: FeatureStatus)
    ensures FeaturesIn([], status) == {}
  {
  }

  method CountRecord(ghost rs: seq<Record>, r: Record, a0: Availability) returns (a: Availability)
    requires CountsFeatures(rs, a0) && NoDuplicates(FeatureIds(r.bundle.features))
    ensures CountedSoFar(rs, r, r.bundle.features, a)
  {
    hide FeaturesIn, NoDuplicates;
    var fs := r.bundle.features;
    a := a0;
    for j := 0 to |fs|
      invariant CountedSoFar(rs, r, fs[..j], a)
    {
      hide SomeFeatures;
      FeaturesApart(fs, j);
      assert fs[..j + 1] == fs[..j] + [fs[j]];
      SomeStep(r, fs[..j], fs[j], Available);
      SomeStep(r, fs[..j], fs[j], Unavailable);
      SomeStep(r, fs[..j], fs[j], Invalid);
      match fs[j].status
      case Available => a := a.(available := a.available + 1);
      case Unavailable => a := a.(unavailable := a.unavailable + 1);
      case Invalid => a := a.(invalid := a.invalid + 1);
    }
    assert fs[..|fs|] == fs;
  }
}
