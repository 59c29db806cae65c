/**
  The validator's lineage and identity checks: a depth-first search with a shared visited set, a recursion stack and a
  path that is only ever pushed to, run afresh from every feature.
 */
module Lineage {
  import opened Evidence
  import opened Graphs

  function IndexOf(s: seq<Id>, x: Id): (i: nat)
    requires x in s
    ensures i < |s| && s[i] == x && x !in s[..i]
  {
    if s[0] == x then 0 else 1 + IndexOf(s[1..], x)
  }

  /** One search: the two sets and the path that the recursive calls share. */
  class CycleDetector {
    const graph: Graph<Id>
    var visited: set<Id>
    var recursionStack: set<Id>
    var path: seq<Id>

    constructor (graph: Graph<Id>)
      ensures Valid() && this.graph == graph && visited == {} && recursionStack == {} && path == []
    {
      this.graph := graph;
      visited, recursionStack, path := {}, {}, [];
    }

    /** The nodes whose calls have returned: nothing leads out of them and none lies on a cycle. */
    ghost function Finished(): set<Id>
      reads this
    {
      visited - recursionStack
    }

    ghost predicate Valid()
      reads this
    {
      && recursionStack <= visited
      && (forall s :: s in recursionStack ==> s in path)
      && graph.Closed(Finished())
      && (forall u :: u in Finished() ==> !graph.OnCycle(u))
    }

    method DetectCycle(nodeId: Id) returns (cycle: Option<seq<Id>>)
      requires Valid() && nodeId in graph.Nodes()
      requires forall s :: s in recursionStack ==> graph.Reaches(s, nodeId)
      modifies this
      ensures old(visited) <= visited
      ensures cycle.None? ==>
                && Valid() && recursionStack == old(recursionStack) && nodeId in Finished()
      ensures cycle.Some? ==>
                && |cycle.value| > 0 && graph.OnCycle(cycle.value[0])
                && (cycle.value[0] == nodeId || graph.Reaches(nodeId, cycle.value[0]))
      decreases graph.Nodes() - visited
    {
      if nodeId in recursionStack {
        var cycleStart := IndexOf(path, nodeId);
        return Some(path[cycleStart..]);
      }
      if nodeId in visited {
        return None;
      }

      ghost var finished := Finished();
      visited := visited + {nodeId};
      recursionStack := recursionStack + {nodeId};
      path := path + [nodeId];
      assert Finished() == finished;

      var dependencies := if nodeId in graph.lineage then graph.lineage[nodeId] else [];
      for i := 0 to |dependencies|
        invariant Valid() && recursionStack == old(recursionStack) + {nodeId}
        invariant old(visited) + {nodeId} <= visited
        invariant forall j :: 0 <= j < i && dependencies[j] in graph.known ==> dependencies[j] in Finished()
      {
        var dep := dependencies[i];
        if dep !in graph.known {
          continue;
        }
        assert graph.Edge(nodeId, dep);
        graph.EdgeReaches(nodeId, dep);
        forall s | s in recursionStack
          ensures graph.Reaches(s, dep)
        {
          if s != nodeId {
            graph.ReachesTrans(s, nodeId, dep);
          }
        }
        ghost var before := Finished();
        var found := DetectCycle(dep);
        if found.Some? {
          if found.value[0] != dep {
            graph.ReachesTrans(nodeId, dep, found.value[0]);
          }
          return found;
        }
        assert before <= Finished();
      }

      ghost var below := Finished();
      if graph.OnCycle(nodeId) {
        var v := graph.FirstEdge(nodeId, nodeId);
        if v != nodeId {
          graph.ClosedReaches(below, v, nodeId);
        }
        assert false;
      }
      recursionStack := recursionStack - {nodeId};
      assert Finished() == below + {nodeId};
      return None;
    }
  }

  /** The map the validator builds: a later feature with the same id replaces an earlier one. */
  function LineageMap(fs: seq<Feature>): (m: map<Id, seq<Id>>)
    ensures forall id :: id in m <==> exists i :: 0 <= i < |fs| && fs[i].featureId == id
  {
    if fs == [] then map[]
    else LineageMap(fs[..|fs| - 1])[fs[|fs| - 1].featureId := fs[|fs| - 1].inputLineage]
  }

  function GraphOf(b: Bundle): Graph<Id> {
    Graph(LineageMap(b.features), SetOf(FeatureIds(b.features)) + SetOf(ReferenceIds(b.sourceReferences)))
  }

  /** An edge leads from a feature to each feature and source reference of the bundle that its lineage names. */
  lemma EdgesAre(b: Bundle, u: Id, v: Id)
    requires NoDuplicates(FeatureIds(b.features))
    ensures GraphOf(b).Edge(u, v) <==>
            && (exists f :: f in b.features && f.featureId == u && v in f.inputLineage)
            && ((exists f :: f in b.features && f.featureId == v) || exists x :: x in b.sourceReferences && x.referenceId == v)
  {
    LineageOfFeature(b.features, u, v);
    assert v in SetOf(FeatureIds(b.features)) <==> exists f :: f in b.features && f.featureId == v by {
      if f :| f in b.features && f.featureId == v {
        var i :| 0 <= i < |b.features| && b.features[i] == f;
        assert FeatureIds(b.features)[i] == v;
      }
    }
    assert v in SetOf(ReferenceIds(b.sourceReferences)) <==> exists x :: x in b.sourceReferences && x.referenceId == v by {
      if x :| x in b.sourceReferences && x.referenceId == v {
        var i :| 0 <= i < |b.sourceReferences| && b.sourceReferences[i] == x;
        assert ReferenceIds(b.sourceReferences)[i] == v;
      }
    }
  }

  lemma {:induction false} LineageOfFeature(fs: seq<Feature>, u: Id, v: Id)
    requires NoDuplicates(FeatureIds(fs))
    ensures u in LineageMap(fs) && v in LineageMap(fs)[u] <==> exists f :: f in fs && f.featureId == u && v in f.inputLineage
  {
    if fs != [] {
      var front, last := fs[..|fs| - 1], fs[|fs| - 1];
      assert fs == front + [last];
      assert FeatureIds(front) == FeatureIds(fs)[..|front|];
      LineageOfFeature(front, u, v);
      forall f | f in front
        ensures f.featureId != last.featureId
      {
        var i :| 0 <= i < |front| && front[i] == f;
        assert FeatureIds(fs)[i] != FeatureIds(fs)[|fs| - 1];
      }
    }
  }

  datatype Issue =
    | DuplicateFeatureIds
    | DuplicateEvidenceIds
    | DuplicateReferenceIds
    | SharedIds
    | LineageCycle(featureId: Id, path: seq<Id>)
    | UnresolvedLineage(featureId: Id, lineageId: Id)
    | UnresolvedSource(evidenceId: Id, referenceId: Id)
    | UnresolvedBriefEvidence(evidenceId: Id)

  method BuildLineageGraph(fs: seq<Feature>) returns (m: map<Id, seq<Id>>)
    ensures m == LineageMap(fs)
  {
    m := map[];
    for i := 0 to |fs|
      invariant m == LineageMap(fs[..i])
    {
      assert fs[..i + 1][..i] == fs[..i];
      m := m[fs[i].featureId := fs[i].inputLineage];
    }
    assert fs[..|fs|] == fs;
  }

  /** The search as the validator starts it for each feature: fresh sets, empty path. */
  method FindCycle(graph: Graph<Id>, featureId: Id) returns (cycle: Option<seq<Id>>)
    requires featureId in graph.Nodes()
    ensures cycle.Some? <==> graph.CycleBelow(featureId)
    ensures cycle.Some? ==> StartsOnCycleBelow(graph, featureId, cycle.value)
  {
    var detector := new CycleDetector(graph);
    cycle := detector.DetectCycle(featureId);
    if cycle.None? && graph.CycleBelow(featureId) {
      var c :| (c == featureId || graph.Reaches(featureId, c)) && graph.OnCycle(c);
      if c != featureId {
        graph.ClosedReaches(detector.Finished(), featureId, c);
      }
      assert false;
    }
  }

  ghost predicate StartsOnCycleBelow(graph: Graph<Id>, featureId: Id, path: seq<Id>) {
    && |path| > 0 && graph.OnCycle(path[0])
    && (path[0] == featureId || graph.Reaches(featureId, path[0]))
  }

  ghost predicate Reported(issues: seq<Issue>, featureId: Id) {
    exists x :: x in issues && x.LineageCycle? && x.featureId == featureId
  }

  /** The issues report exactly those of the ids that have a cycle below them. */
  ghost predicate ReportsCycles(graph: Graph<Id>, ids: seq<Id>, issues: seq<Issue>) {
    && (forall id :: Reported(issues, id) <==> id in ids && graph.CycleBelow(id))
    && (forall x :: x in issues ==> x.LineageCycle? && StartsOnCycleBelow(graph, x.featureId, x.path))
  }

  lemma NothingReported(graph: Graph<Id>)
    ensures ReportsCycles(graph, [], [])
  {
  }

  lemma ReportNext(graph: Graph<Id>, ids: seq<Id>, issues: seq<Issue>, id: Id, cycle: Option<seq<Id>>)
    requires ReportsCycles(graph, ids, issues)
    requires cycle.Some? <==> graph.CycleBelow(id)
    requires cycle.Some? ==> StartsOnCycleBelow(graph, id, cycle.value)
    ensures ReportsCycles(graph, ids + [id], issues + if cycle.Some? then [LineageCycle(id, cycle.value)] else [])
  {
    if cycle.Some? {
      var x := LineageCycle(id, cycle.value);
      assert x in issues + [x];
      assert forall u :: Reported(issues + [x], u) <==> Reported(issues, u) || u == id;
    } else {
      assert issues + [] == issues;
    }
  }

  /** A feature is reported exactly when a cycle lies below it, and the reported path starts on such a cycle. */
  method CheckCycles(b: Bundle) returns (issues: seq<Issue>)
    ensures forall id :: Reported(issues, id) <==> id in FeatureIds(b.features) && GraphOf(b).CycleBelow(id)
    ensures forall x :: x in issues ==> x.LineageCycle? && StartsOnCycleBelow(GraphOf(b), x.featureId, x.path)
    ensures issues == [] <==> GraphOf(b).Acyclic()
  {
    hide StartsOnCycleBelow, Reported, ReportsCycles, LineageMap;
    var m := BuildLineageGraph(b.features);
    var ids := FeatureIds(b.features);
    var graph := Graph(m, SetOf(ids) + SetOf(ReferenceIds(b.sourceReferences)));
    issues := [];
    NothingReported(graph);
    assert ids[..0] == [];
    for i := 0 to |ids|
      invariant ReportsCycles(graph, ids[..i], issues)
    {
      FeatureIsNode(b, i);
      var cycle := FindCycle(graph, ids[i]);
      ReportNext(graph, ids[..i], issues, ids[i], cycle);
      assert ids[..i + 1] == ids[..i] + [ids[i]];
      issues := issues + if cycle.Some? then [LineageCycle(ids[i], cycle.value)] else [];
    }
    assert ids[..|ids|] == ids;
    AllReported(b, issues);
  }

  lemma FeatureIsNode(b: Bundle, i: nat)
    requires i < |b.features|
    ensures FeatureIds(b.features)[i] in GraphOf(b).Nodes()
  {
  }

  lemma AllReported(b: Bundle, issues: seq<Issue>)
    requires ReportsCycles(GraphOf(b), FeatureIds(b.features), issues)
    ensures forall id :: Reported(issues, id) <==> id in FeatureIds(b.features) && GraphOf(b).CycleBelow(id)
    ensures forall x :: x in issues ==> x.LineageCycle? && StartsOnCycleBelow(GraphOf(b), x.featureId, x.path)
    ensures issues == [] <==> GraphOf(b).Acyclic()
  {
    hide Reported, StartsOnCycleBelow;
    NoReportIffAcyclic(b, issues);
  }

  lemma NoReportIffAcyclic(b: Bundle, issues: seq<Issue>)
    requires forall id :: Reported(issues, id) <==> id in FeatureIds(b.features) && GraphOf(b).CycleBelow(id)
    requires forall x :: x in issues ==> x.LineageCycle? && StartsOnCycleBelow(GraphOf(b), x.featureId, x.path)
    ensures issues == [] <==> GraphOf(b).Acyclic()
  {
    var graph := GraphOf(b);
    if issues == [] {
      forall u | u in graph.lineage
        ensures !graph.CycleBelow(u)
      {
        var i :| 0 <= i < |b.features| && b.features[i].featureId == u;
        assert FeatureIds(b.features)[i] == u;
        assert !Reported(issues, u);
      }
      graph.NoCycleBelowAny();
    } else {
      assert issues[0] in issues && graph.OnCycle(issues[0].path[0]);
    }
  }

  /** Which lineage ids, source references and brief citations resolve to nothing. */
  ghost predicate Unresolved(b: Bundle, issue: Issue) {
    match issue
    case UnresolvedLineage(f, l) =>
      && l !in GraphOf(b).known
      && exists i :: 0 <= i < |b.features| && b.features[i].featureId == f && l in b.features[i].inputLineage
    case UnresolvedSource(e, r) =>
      && r !in ReferenceIds(b.sourceReferences)
      && exists c :: c in AllClaims(b.contextual) && c.evidenceId == e && r in c.sourceReferenceIds
    case UnresolvedBriefEvidence(e) =>
      && b.brief.Some? && e in b.brief.value.sourceEvidenceIds
      && e !in FeatureIds(b.features) && e !in ClaimIds(AllClaims(b.contextual))
    case _ => false
  }

  method CheckFeatureLineage(b: Bundle) returns (issues: seq<Issue>)
    ensures forall x :: x in issues <==> x.UnresolvedLineage? && Unresolved(b, x)
  {
    var known := GraphOf(b).known;
    issues := [];
    for i := 0 to |b.features|
      invariant forall x :: x in issues <==>
                              && x.UnresolvedLineage? && x.lineageId !in known
                              && exists j :: 0 <= j < i && b.features[j].featureId == x.featureId && x.lineageId in b.features[j].inputLineage
    {
      var f := b.features[i];
      ghost var was := issues;
      for k := 0 to |f.inputLineage|
        invariant forall x :: x in issues <==>
                                || x in was
                                || (x.UnresolvedLineage? && x.lineageId !in known && x.featureId == f.featureId && x.lineageId in f.inputLineage[..k])
      {
        var id := f.inputLineage[k];
        assert f.inputLineage[..k + 1] == f.inputLineage[..k] + [id];
        if id !in known {
          issues := issues + [UnresolvedLineage(f.featureId, id)];
        }
      }
      assert f.inputLineage[..|f.inputLineage|] == f.inputLineage;
    }
  }

  method CheckClaimSources(b: Bundle) returns (issues: seq<Issue>)
    ensures forall x :: x in issues <==> x.UnresolvedSource? && Unresolved(b, x)
  {
    var claims := AllClaims(b.contextual);
    issues := [];
    for i := 0 to |claims|
      invariant forall x :: x in issues <==>
                              && x.UnresolvedSource? && x.referenceId !in ReferenceIds(b.sourceReferences)
                              && exists c :: c in claims[..i] && c.evidenceId == x.evidenceId && x.referenceId in c.sourceReferenceIds
    {
      var c := claims[i];
      assert claims[..i + 1] == claims[..i] + [c];
      ghost var was := issues;
      for k := 0 to |c.sourceReferenceIds|
        invariant forall x :: x in issues <==>
                                || x in was
                                || (x.UnresolvedSource? && x.referenceId !in ReferenceIds(b.sourceReferences) && x.evidenceId == c.evidenceId && x.referenceId in c.sourceReferenceIds[..k])
      {
        var id := c.sourceReferenceIds[k];
        assert c.sourceReferenceIds[..k + 1] == c.sourceReferenceIds[..k] + [id];
        if id !in ReferenceIds(b.sourceReferences) {
          issues := issues + [UnresolvedSource(c.evidenceId, id)];
        }
      }
      assert c.sourceReferenceIds[..|c.sourceReferenceIds|] == c.sourceReferenceIds;
    }
    assert claims[..|claims|] == claims;
  }

  method CheckBriefEvidence(b: Bundle) returns (issues: seq<Issue>)
    ensures forall x :: x in issues <==> x.UnresolvedBriefEvidence? && Unresolved(b, x)
  {
    issues := [];
    if b.brief.Some? {
      var cited := b.brief.value.sourceEvidenceIds;
      var features, evidence := FeatureIds(b.features), ClaimIds(AllClaims(b.contextual));
      for k := 0 to |cited|
        invariant forall x :: x in issues <==>
                                && x.UnresolvedBriefEvidence? && x.evidenceId in cited[..k]
                                && x.evidenceId !in features && x.evidenceId !in evidence
      {
        assert cited[..k + 1] == cited[..k] + [cited[k]];
        if cited[k] !in features && cited[k] !in evidence {
          issues := issues + [UnresolvedBriefEvidence(cited[k])];
        }
      }
      assert cited[..|cited|] == cited;
    }
  }

  lemma {:induction false} DistinctIffSetKeepsLength<T>(s: seq<T>)
    ensures |SetOf(s)| <= |s|
    ensures NoDuplicates(s) <==> |SetOf(s)| == |s|
  {
    if s != [] {
      var last, front := s[|s| - 1], s[..|s| - 1];
      DistinctIffSetKeepsLength(front);
      assert SetOf(s) == SetOf(front) + {last};
      if last in front {
        var i :| 0 <= i < |front| && front[i] == last;
        assert s[i] == s[|s| - 1];
        assert SetOf(s) == SetOf(front);
      } else {
        assert |SetOf(s)| == |SetOf(front)| + 1;
        assert NoDuplicates(s) ==> NoDuplicates(front);
        assert NoDuplicates(front) ==> NoDuplicates(s);
      }
    }
  }

  /** Feature, evidence and reference ids are each unique, and no id is used for two kinds of thing. */
  ghost predicate UniqueIds(b: Bundle) {
    var fs, es, rs := FeatureIds(b.features), ClaimIds(AllClaims(b.contextual)), ReferenceIds(b.sourceReferences);
    && NoDuplicates(fs) && NoDuplicates(es) && NoDuplicates(rs)
    && SetOf(fs) !! SetOf(es) !! SetOf(rs)
  }

  datatype IdKind = FeatureKind | EvidenceKind | ReferenceKind

  /** id is recorded as appearing with the kind. */
  ghost predicate Tagged(appearsIn: map<Id, set<IdKind>>, id: Id, kind: IdKind) {
    id in appearsIn && kind in appearsIn[id]
  }

  method Tag(appearsIn: map<Id, set<IdKind>>, ids: seq<Id>, kind: IdKind) returns (tagged: map<Id, set<IdKind>>)
    ensures forall id, k :: Tagged(tagged, id, k) <==> Tagged(appearsIn, id, k) || (k == kind && id in ids)
  {
    tagged := appearsIn;
    for i := 0 to |ids|
      invariant forall id, k :: Tagged(tagged, id, k) <==> Tagged(appearsIn, id, k) || (k == kind && id in ids[..i])
    {
      assert ids[..i + 1] == ids[..i] + [ids[i]];
      ghost var was := tagged;
      tagged := tagged[ids[i] := (if ids[i] in tagged then tagged[ids[i]] else {}) + {kind}];
      forall id, k
        ensures Tagged(tagged, id, k) <==> Tagged(was, id, k) || (k == kind && id == ids[i])
      {
      }
    }
    assert ids[..|ids|] == ids;
  }

  lemma ManyKindsIffTwo(kinds: set<IdKind>)
    ensures |kinds| > 1 <==>
            || (FeatureKind in kinds && EvidenceKind in kinds)
            || (FeatureKind in kinds && ReferenceKind in kinds)
            || (EvidenceKind in kinds && ReferenceKind in kinds)
  {
    var f, e, r := FeatureKind in kinds, EvidenceKind in kinds, ReferenceKind in kinds;
    var listed := (if f then {FeatureKind} else {}) + (if e then {EvidenceKind} else {}) + (if r then {ReferenceKind} else {});
    forall k
      ensures k in kinds <==> k in listed
    {
      match k
      case FeatureKind =>
      case EvidenceKind =>
      case ReferenceKind =>
    }
    assert kinds == listed;
  }

  method FindSharedIds(fs: seq<Id>, es: seq<Id>, rs: seq<Id>) returns (shared: set<Id>)
    ensures forall id :: id in shared <==> (id in fs && id in es) || (id in fs && id in rs) || (id in es && id in rs)
  {
    var appearsIn := Tag(map[], fs, FeatureKind);
    appearsIn := Tag(appearsIn, es, EvidenceKind);
    appearsIn := Tag(appearsIn, rs, ReferenceKind);
    shared := set id | id in appearsIn && |appearsIn[id]| > 1;
    forall id
      ensures id in shared <==> (id in fs && id in es) || (id in fs && id in rs) || (id in es && id in rs)
    {
      assert Tagged(appearsIn, id, FeatureKind) <==> id in fs;
      assert Tagged(appearsIn, id, EvidenceKind) <==> id in es;
      assert Tagged(appearsIn, id, ReferenceKind) <==> id in rs;
      if id in appearsIn {
        ManyKindsIffTwo(appearsIn[id]);
      }
    }
  }

  method CheckUniqueIds(b: Bundle) returns (issues: seq<Issue>)
    ensures issues == [] <==> UniqueIds(b)
    ensures DuplicateFeatureIds in issues <==> !NoDuplicates(FeatureIds(b.features))
    ensures DuplicateEvidenceIds in issues <==> !NoDuplicates(ClaimIds(AllClaims(b.contextual)))
    ensures DuplicateReferenceIds in issues <==> !NoDuplicates(ReferenceIds(b.sourceReferences))
    ensures forall x :: x in issues ==> x in [DuplicateFeatureIds, DuplicateEvidenceIds, DuplicateReferenceIds, SharedIds]
  {
    var fs, es, rs := FeatureIds(b.features), ClaimIds(AllClaims(b.contextual)), ReferenceIds(b.sourceReferences);
    DistinctIffSetKeepsLength(fs);
    DistinctIffSetKeepsLength(es);
    DistinctIffSetKeepsLength(rs);
    hide NoDuplicates;
    var shared := FindSharedIds(fs, es, rs);
    assert shared == {} <==> SetOf(fs) !! SetOf(es) !! SetOf(rs);
    hide SetOf;
    issues := (if |fs| != |SetOf(fs)| then [DuplicateFeatureIds] else [])
            + (if |es| != |SetOf(es)| then [DuplicateEvidenceIds] else [])
            + (if |rs| != |SetOf(rs)| then [DuplicateReferenceIds] else [])
            + (if shared != {} then [SharedIds] else []);
  }

  /** What a bundle that passes these checks guarantees; the selector's theorems start from it. */
  ghost predicate Validated(b: Bundle) {
    UniqueIds(b) && GraphOf(b).Acyclic() && forall x :: !Unresolved(b, x)
  }

  method CheckIdentityAndLineage(b: Bundle) returns (issues: seq<Issue>)
    ensures issues == [] <==> Validated(b)
    ensures forall x: Issue :: !x.LineageCycle? && x !in [DuplicateFeatureIds, DuplicateEvidenceIds, DuplicateReferenceIds, SharedIds] ==>
                          (x in issues <==> Unresolved(b, x))
  {
    var unique := CheckUniqueIds(b);
    var cycles := CheckCycles(b);
    var lineage := CheckFeatureLineage(b);
    var sources := CheckClaimSources(b);
    var brief := CheckBriefEvidence(b);
    issues := unique + cycles + lineage + sources + brief;
    assert lineage != [] ==> Unresolved(b, lineage[0]);
    assert sources != [] ==> Unresolved(b, sources[0]);
    assert brief != [] ==> Unresolved(b, brief[0]);
    if issues == [] {
      forall x
        ensures !Unresolved(b, x)
      {
        assert x !in lineage && x !in sources && x !in brief;
      }
    }
  }
}
