/** The comparators of the selector, branch by branch, and the keys whose order they are. */
module Ranking {
  import opened Sorting
  import opened Candidates

  /** Publisher, source, as-of time, receipt time, row id, hash: all ascending. */
  predicate RecordBefore(a: Record, b: Record) {
    if a.bundle.publisher != b.bundle.publisher then StringLess(a.bundle.publisher, b.bundle.publisher)
    else if a.bundle.sourceId != b.bundle.sourceId then StringLess(a.bundle.sourceId, b.bundle.sourceId)
    else if a.bundle.asOf != b.bundle.asOf then StringLess(a.bundle.asOf, b.bundle.asOf)
    else if a.receivedAt != b.receivedAt then a.receivedAt < b.receivedAt
    else if a.id != b.id then a.id < b.id
    else StringLess(a.evidenceHash, b.evidenceHash)
  }

  function RecordKey(r: Record): seq<Atom> {
    [Text(r.bundle.publisher), Text(r.bundle.sourceId), Text(r.bundle.asOf), Num(r.receivedAt), Num(r.id), Text(r.evidenceHash)]
  }

  /** Score and times descending (a missing observation time last), then publisher, source, local id, hash ascending. */
  predicate CandidateBefore(a: Candidate, b: Candidate) {
    var scoreA, scoreB := if a.score.Some? then a.score.value else 0, if b.score.Some? then b.score.value else 0;
    if scoreA != scoreB then scoreA > scoreB
    else if a.asOf != b.asOf then StringLess(b.asOf, a.asOf)
    else if a.observedAt != b.observedAt then
      if a.observedAt.None? then false
      else if b.observedAt.None? then true
      else StringLess(b.observedAt.value, a.observedAt.value)
    else if a.origin.publisher != b.origin.publisher then StringLess(a.origin.publisher, b.origin.publisher)
    else if a.origin.sourceId != b.origin.sourceId then StringLess(a.origin.sourceId, b.origin.sourceId)
    else if a.id.localId != b.id.localId then StringLess(a.id.localId, b.id.localId)
    else StringLess(a.id.bundleHash, b.id.bundleHash)
  }

  function CandidateKey(c: Candidate): seq<Atom> {
    [Num(if c.score.Some? then -c.score.value else 0), Falling(c.asOf), Num(if c.observedAt.Some? then 0 else 1),
     Falling(if c.observedAt.Some? then c.observedAt.value else ""),
     Text(c.origin.publisher), Text(c.origin.sourceId), Text(c.id.localId), Text(c.id.bundleHash)]
  }

  function KindRank(k: Kind): int {
    match k
    case ContextualClaim => 0
    case DeterministicFeature => 1
    case BriefKind => 2
  }

  function IdKey(id: CandidateId): seq<Atom> {
    [Text(id.bundleHash), Num(KindRank(id.kind)), Text(id.localId)]
  }

  /** The order of the `hash/kind/localId` texts. */
  predicate IdBefore(a: CandidateId, b: CandidateId) {
    KeyLess(IdKey(a), IdKey(b))
  }

  lemma KeyStep(a: Atom, x: seq<Atom>, b: Atom, y: seq<Atom>)
    ensures KeyLess([a] + x, [b] + y) <==> if a == b then KeyLess(x, y) else AtomLess(a, b)
  {
    assert ([a] + x)[1..] == x && ([b] + y)[1..] == y;
  }

  lemma StringIrreflexive(s: string)
    ensures !StringLess(s, s)
  {
    LexIrreflexive(CharLess, s);
  }

  /** Compares two keys atom by atom; the last line of each comparator needs only that nothing precedes itself. */
  lemma KeyLast(a: Atom, b: Atom)
    ensures KeyLess([a], [b]) <==> AtomLess(a, b)
  {
    KeyStep(a, [], b, []);
    assert [a] + [] == [a] && [b] + [] == [b];
    if a == b && !a.Num? {
      StringIrreflexive(a.t);
    }
  }

  lemma RecordKeyOrder(a: Record, b: Record)
    ensures RecordBefore(a, b) <==> KeyLess(RecordKey(a), RecordKey(b))
  {
    hide KeyLess, StringLess;
    var p, q := RecordKey(a), RecordKey(b);
    assert p == [p[0]] + ([p[1]] + ([p[2]] + ([p[3]] + ([p[4]] + [p[5]]))));
    assert q == [q[0]] + ([q[1]] + ([q[2]] + ([q[3]] + ([q[4]] + [q[5]]))));
    KeyStep(p[0], [p[1]] + ([p[2]] + ([p[3]] + ([p[4]] + [p[5]]))), q[0], [q[1]] + ([q[2]] + ([q[3]] + ([q[4]] + [q[5]]))));
    KeyStep(p[1], [p[2]] + ([p[3]] + ([p[4]] + [p[5]])), q[1], [q[2]] + ([q[3]] + ([q[4]] + [q[5]])));
    KeyStep(p[2], [p[3]] + ([p[4]] + [p[5]]), q[2], [q[3]] + ([q[4]] + [q[5]]));
    KeyStep(p[3], [p[4]] + [p[5]], q[3], [q[4]] + [q[5]]);
    KeyStep(p[4], [p[5]], q[4], [q[5]]);
    KeyLast(p[5], q[5]);
  }

  lemma RecordOrder()
    ensures ComparesKeys(RecordBefore, KeyLess, RecordKey)
  {
    KeyStrictTotal();
    hide KeyLess, RecordBefore, RecordKey;
    forall a, b
      ensures RecordBefore(a, b) <==> KeyLess(RecordKey(a), RecordKey(b))
    {
      RecordKeyOrder(a, b);
    }
  }

  function IdentityKey(c: Candidate): seq<Atom> {
    [Text(c.origin.publisher), Text(c.origin.sourceId), Text(c.id.localId), Text(c.id.bundleHash)]
  }

  lemma IdentityOrder(a: Candidate, b: Candidate)
    ensures KeyLess(IdentityKey(a), IdentityKey(b)) <==>
            if a.origin.publisher != b.origin.publisher then StringLess(a.origin.publisher, b.origin.publisher)
            else if a.origin.sourceId != b.origin.sourceId then StringLess(a.origin.sourceId, b.origin.sourceId)
            else if a.id.localId != b.id.localId then StringLess(a.id.localId, b.id.localId)
            else StringLess(a.id.bundleHash, b.id.bundleHash)
  {
    hide KeyLess, StringLess;
    var p, q := IdentityKey(a), IdentityKey(b);
    assert p == [p[0]] + p[1..] && q == [q[0]] + q[1..];
    assert p[1..] == [p[1]] + p[2..] && q[1..] == [q[1]] + q[2..];
    assert p[2..] == [p[2]] + p[3..] && q[2..] == [q[2]] + q[3..];
    KeyStep(p[0], p[1..], q[0], q[1..]);
    KeyStep(p[1], p[2..], q[1], q[2..]);
    KeyStep(p[2], p[3..], q[2], q[3..]);
    KeyLast(p[3], q[3]);
    assert p[3..] == [p[3]] && q[3..] == [q[3]];
  }

  lemma NumStep(m: int, x: seq<Atom>, n: int, y: seq<Atom>)
    ensures KeyLess([Num(m)] + x, [Num(n)] + y) <==> if m == n then KeyLess(x, y) else m < n
  {
    KeyStep(Num(m), x, Num(n), y);
  }

  lemma FallingStep(s: string, x: seq<Atom>, t: string, y: seq<Atom>)
    ensures KeyLess([Falling(s)] + x, [Falling(t)] + y) <==> if s == t then KeyLess(x, y) else StringLess(t, s)
  {
    KeyStep(Falling(s), x, Falling(t), y);
  }

  lemma CandidateKeyOrder(a: Candidate, b: Candidate)
    ensures CandidateBefore(a, b) <==> KeyLess(CandidateKey(a), CandidateKey(b))
  {
    hide KeyLess, StringLess, IdentityKey;
    var p, q := CandidateKey(a), CandidateKey(b);
    var p3, q3 := [p[3]] + IdentityKey(a), [q[3]] + IdentityKey(b);
    KeySplit(a);
    KeySplit(b);
    NumStep(p[0].n, [p[1]] + ([p[2]] + p3), q[0].n, [q[1]] + ([q[2]] + q3));
    FallingStep(p[1].t, [p[2]] + p3, q[1].t, [q[2]] + q3);
    NumStep(p[2].n, p3, q[2].n, q3);
    FallingStep(p[3].t, IdentityKey(a), q[3].t, IdentityKey(b));
    IdentityOrder(a, b);
  }

  lemma KeySplit(c: Candidate)
    ensures var k := CandidateKey(c);
            k == [k[0]] + ([k[1]] + ([k[2]] + ([k[3]] + IdentityKey(c))))
  {
  }

  lemma CandidateOrder()
    ensures ComparesKeys(CandidateBefore, KeyLess, CandidateKey)
  {
    KeyStrictTotal();
    forall a, b
      ensures CandidateBefore(a, b) <==> KeyLess(CandidateKey(a), CandidateKey(b))
    {
      CandidateKeyOrder(a, b);
    }
  }

  lemma IdOrder()
    ensures ComparesKeys(IdBefore, KeyLess, IdKey)
    ensures forall a, b :: IdKey(a) == IdKey(b) ==> a == b
  {
    KeyStrictTotal();
    forall a, b | IdKey(a) == IdKey(b)
      ensures a == b
    {
      assert IdKey(a)[0] == IdKey(b)[0] && IdKey(a)[1] == IdKey(b)[1] && IdKey(a)[2] == IdKey(b)[2];
    }
  }

  /** What the ranking prefers: the higher score, then the later as-of time, then the later observation, none last. */
  lemma BetterFirst(a: Candidate, b: Candidate)
    requires CandidateBefore(a, b) && a.score.Some? && b.score.Some?
    ensures a.score.value >= b.score.value
    ensures a.score == b.score ==> a.asOf == b.asOf || Ascends(b.asOf, a.asOf)
    ensures a.score == b.score && a.asOf == b.asOf ==>
              a.observedAt == b.observedAt || b.observedAt.None?
              || (a.observedAt.Some? && Ascends(b.observedAt.value, a.observedAt.value))
    ensures a.score == b.score && a.asOf == b.asOf && a.observedAt == b.observedAt ==>
              TupleAscends([a.origin.publisher, a.origin.sourceId, a.id.localId, a.id.bundleHash],
                           [b.origin.publisher, b.origin.sourceId, b.id.localId, b.id.bundleHash])
  {
    hide StringLess, Ascends;
    StringsAscend(b.asOf, a.asOf);
    if a.observedAt.Some? && b.observedAt.Some? {
      StringsAscend(b.observedAt.value, a.observedAt.value);
    }
    if a.score == b.score && a.asOf == b.asOf && a.observedAt == b.observedAt {
      var p := [a.origin.publisher, a.origin.sourceId, a.id.localId, a.id.bundleHash];
      var q := [b.origin.publisher, b.origin.sourceId, b.id.localId, b.id.bundleHash];
      var k := if p[0] != q[0] then 0 else if p[1] != q[1] then 1 else if p[2] != q[2] then 2 else 3;
      StringsAscend(p[k], q[k]);
      assert p[..k] == q[..k];
    }
  }

  /** What the record order prefers: publisher, source and as-of time, then the earlier receipt, row and hash. */
  lemma EarlierFirst(a: Record, b: Record)
    requires RecordBefore(a, b)
    ensures var p, q := [a.bundle.publisher, a.bundle.sourceId, a.bundle.asOf], [b.bundle.publisher, b.bundle.sourceId, b.bundle.asOf];
            if p != q then TupleAscends(p, q)
            else if a.receivedAt != b.receivedAt then a.receivedAt < b.receivedAt
            else if a.id != b.id then a.id < b.id
            else Ascends(a.evidenceHash, b.evidenceHash)
  {
    hide StringLess, Ascends;
    var p := [a.bundle.publisher, a.bundle.sourceId, a.bundle.asOf];
    var q := [b.bundle.publisher, b.bundle.sourceId, b.bundle.asOf];
    if p != q {
      var k := if p[0] != q[0] then 0 else if p[1] != q[1] then 1 else 2;
      StringsAscend(p[k], q[k]);
      assert p[..k] == q[..k];
    }
    StringsAscend(a.evidenceHash, b.evidenceHash);
  }

  function KindText(k: Kind): string {
    match k
    case ContextualClaim => "contextual_claim"
    case DeterministicFeature => "deterministic_feature"
    case BriefKind => "research_brief"
  }

  /** The text of an id. */
  function IdText(id: CandidateId): string {
    id.bundleHash + "/" + KindText(id.kind) + "/" + id.localId
  }

  /** Comparing the parts of two ids compares their texts. */
  lemma IdTextOrder(a: CandidateId, b: CandidateId)
    requires |a.bundleHash| == |b.bundleHash|
    ensures IdBefore(a, b) <==> Ascends(IdText(a), IdText(b))
  {
    hide IdBefore, IdText, StringLess, Ascends;
    StringsAscend(IdText(a), IdText(b));
    IdParts(a, b);
    TextParts(a, b);
  }

  lemma TextParts(a: CandidateId, b: CandidateId)
    requires |a.bundleHash| == |b.bundleHash|
    ensures StringLess(IdText(a), IdText(b)) <==>
            if a.bundleHash != b.bundleHash then StringLess(a.bundleHash, b.bundleHash)
            else if a.kind != b.kind then KindRank(a.kind) < KindRank(b.kind)
            else StringLess(a.localId, b.localId)
  {
    hide StringLess, KindText;
    var x, y := KindText(a.kind) + "/" + a.localId, KindText(b.kind) + "/" + b.localId;
    assert IdText(a) == a.bundleHash + ("/" + x) && IdText(b) == b.bundleHash + ("/" + y);
    if a.bundleHash != b.bundleHash {
      DecidedInFront(a.bundleHash, "/" + x, b.bundleHash, "/" + y);
    } else {
      SharedFront(a.bundleHash, "/" + x, "/" + y);
      SharedFront("/", x, y);
      KindsOrdered(a, b);
    }
  }

  lemma IdParts(a: CandidateId, b: CandidateId)
    ensures IdBefore(a, b) <==>
            if a.bundleHash != b.bundleHash then StringLess(a.bundleHash, b.bundleHash)
            else if a.kind != b.kind then KindRank(a.kind) < KindRank(b.kind)
            else StringLess(a.localId, b.localId)
  {
    hide KeyLess, StringLess;
    var p, q := IdKey(a), IdKey(b);
    assert p == [p[0]] + ([p[1]] + [p[2]]) && q == [q[0]] + ([q[1]] + [q[2]]);
    KeyStep(p[0], [p[1]] + [p[2]], q[0], [q[1]] + [q[2]]);
    KeyStep(p[1], [p[2]], q[1], [q[2]]);
    KeyLast(p[2], q[2]);
  }

  lemma KindsOrdered(a: CandidateId, b: CandidateId)
    ensures StringLess(KindText(a.kind) + "/" + a.localId, KindText(b.kind) + "/" + b.localId) <==>
            if a.kind != b.kind then KindRank(a.kind) < KindRank(b.kind) else StringLess(a.localId, b.localId)
  {
    var x, y := KindText(a.kind), KindText(b.kind);
    if a.kind == b.kind {
      SharedFront(x + "/", a.localId, b.localId);
    } else {
      assert x[0] != y[0] && (x[0] < y[0] <==> KindRank(a.kind) < KindRank(b.kind));
      assert (x + "/" + a.localId)[0] == x[0] && (y + "/" + b.localId)[0] == y[0];
    }
  }

  /** Records with different hashes are ordered, so the input order of the records is forgotten. */
  lemma RecordSortForgetsOrder(rs: seq<Record>, rs': seq<Record>)
    requires DistinctHashes(rs) && multiset(rs) == multiset(rs')
    ensures SortBy(RecordBefore, rs) == SortBy(RecordBefore, rs')
  {
    RecordOrder();
    DistinctHashesKeys(rs);
    MultisetKeepsDistinct(rs, rs');
    DistinctHashesKeys(rs');
    forall x
      ensures x in rs <==> x in rs'
    {
      assert x in multiset(rs) <==> x in multiset(rs');
    }
    SortIgnoresOrder(RecordBefore, KeyLess, RecordKey, rs, rs');
  }

  ghost predicate DistinctHashes(rs: seq<Record>) {
    forall i, j :: 0 <= i < j < |rs| ==> rs[i].evidenceHash != rs[j].evidenceHash
  }

  lemma DistinctHashesKeys(rs: seq<Record>)
    requires DistinctHashes(rs)
    ensures DistinctKeys(RecordKey, rs)
  {
    forall i, j | 0 <= i < j < |rs|
      ensures RecordKey(rs[i]) != RecordKey(rs[j])
    {
      assert RecordKey(rs[i])[5] != RecordKey(rs[j])[5];
    }
  }

  lemma {:induction false} SingleOccurrences<T(!new)>(s: seq<T>)
    requires forall x :: multiset(s)[x] <= 1
    ensures forall i, j :: 0 <= i < j < |s| ==> s[i] != s[j]
  {
    if s != [] {
      var front, last := s[..|s| - 1], s[|s| - 1];
      assert s == front + [last];
      assert forall x :: multiset(front)[x] <= multiset(s)[x];
      SingleOccurrences(front);
      assert multiset(s)[last] == multiset(front)[last] + 1;
      assert last !in multiset(front);
      assert forall i :: 0 <= i < |front| ==> front[i] in multiset(front);
    }
  }

  lemma MultisetKeepsDistinct(rs: seq<Record>, rs': seq<Record>)
    requires DistinctHashes(rs) && multiset(rs) == multiset(rs')
    ensures DistinctHashes(rs')
  {
    forall r
      ensures multiset(rs')[r] <= 1
    {
      OneOccurrence(rs, r);
    }
    SingleOccurrences(rs');
    forall i, j | 0 <= i < j < |rs'|
      ensures rs'[i].evidenceHash != rs'[j].evidenceHash
    {
      assert rs'[i] in multiset(rs) && rs'[j] in multiset(rs);
      var k :| 0 <= k < |rs| && rs[k] == rs'[i];
      var l :| 0 <= l < |rs| && rs[l] == rs'[j];
      assert k != l;
    }
  }

  lemma {:induction false} OneOccurrence(rs: seq<Record>, r: Record)
    requires DistinctHashes(rs)
    ensures multiset(rs)[r] <= 1
  {
    if rs != [] {
      var front, last := rs[..|rs| - 1], rs[|rs| - 1];
      assert rs == front + [last];
      OneOccurrence(front, r);
      assert forall i :: 0 <= i < |front| ==> front[i].evidenceHash != last.evidenceHash;
      assert last !in front;
    }
  }
}
