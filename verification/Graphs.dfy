/** Directed graphs given by adjacency lists whose entries may dangle: reachability, cycles and ranks. */
module Graphs {

  /** Which nodes each node lists, and the nodes that a listed one may resolve to. */
  datatype Graph<N(!new)> = Graph(lineage: map<N, seq<N>>, known: set<N>) {

    ghost predicate Edge(u: N, v: N) {
      u in lineage && v in lineage[u] && v in known
    }

    ghost predicate IsWalk(p: seq<N>) {
      forall i :: 0 <= i < |p| - 1 ==> Edge(p[i], p[i + 1])
    }

    /** One or more edges lead from u to v. */
    ghost predicate Reaches(u: N, v: N) {
      exists p :: IsWalk(p) && |p| >= 2 && p[0] == u && p[|p| - 1] == v
    }

    ghost predicate OnCycle(u: N) {
      Reaches(u, u)
    }

    /** A cycle can be reached from u, possibly one that u lies on. */
    ghost predicate CycleBelow(u: N) {
      exists c :: (c == u || Reaches(u, c)) && OnCycle(c)
    }

    ghost predicate Acyclic() {
      forall u :: !OnCycle(u)
    }

    ghost predicate Closed(s: set<N>) {
      forall u, v :: u in s && Edge(u, v) ==> v in s
    }

    ghost function Nodes(): set<N> {
      lineage.Keys + known
    }

    /** The nodes that one or more edges lead to. */
    ghost function Descendants(u: N): set<N> {
      set v | v in Nodes() && Reaches(u, v)
    }

    lemma EdgeReaches(u: N, v: N)
      requires Edge(u, v)
      ensures Reaches(u, v)
    {
      assert IsWalk([u, v]);
    }

    lemma ReachesTrans(u: N, v: N, w: N)
      requires Reaches(u, v) && Reaches(v, w)
      ensures Reaches(u, w)
    {
      var p :| IsWalk(p) && |p| >= 2 && p[0] == u && p[|p| - 1] == v;
      var q :| IsWalk(q) && |q| >= 2 && q[0] == v && q[|q| - 1] == w;
      var r := p + q[1..];
      forall i | 0 <= i < |r| - 1
        ensures Edge(r[i], r[i + 1])
      {
        if i >= |p| - 1 {
          assert r[i] == q[i - |p| + 1] && r[i + 1] == q[i - |p| + 2];
        }
      }
      assert IsWalk(r);
    }

    lemma {:induction false} WalkStaysIn(s: set<N>, p: seq<N>)
      requires Closed(s) && IsWalk(p) && |p| >= 1 && p[0] in s
      ensures p[|p| - 1] in s
      decreases |p|
    {
      if |p| > 1 {
        assert Edge(p[0], p[1]);
        assert IsWalk(p[1..]) by {
          forall i | 0 <= i < |p[1..]| - 1
            ensures Edge(p[1..][i], p[1..][i + 1])
          {
            assert Edge(p[i + 1], p[i + 2]);
          }
        }
        WalkStaysIn(s, p[1..]);
      }
    }

    /** A set closed under edges is closed under reachability. */
    lemma ClosedReaches(s: set<N>, u: N, v: N)
      requires Closed(s) && u in s && Reaches(u, v)
      ensures v in s
    {
      var p :| IsWalk(p) && |p| >= 2 && p[0] == u && p[|p| - 1] == v;
      WalkStaysIn(s, p);
    }

    /** Whatever u reaches, one of its direct dependencies is or reaches. */
    lemma FirstEdge(u: N, w: N) returns (v: N)
      requires Reaches(u, w)
      ensures Edge(u, v) && (v == w || Reaches(v, w))
    {
      var p :| IsWalk(p) && |p| >= 2 && p[0] == u && p[|p| - 1] == w;
      v := p[1];
      assert Edge(p[0], p[1]);
      if |p| > 2 {
        var q := p[1..];
        forall i | 0 <= i < |q| - 1
          ensures Edge(q[i], q[i + 1])
        {
          assert Edge(p[i + 1], p[i + 2]);
        }
        assert IsWalk(q);
      }
    }

    lemma ReachesNode(u: N, v: N)
      requires Reaches(u, v)
      ensures u in Nodes() && v in Nodes()
    {
      var p :| IsWalk(p) && |p| >= 2 && p[0] == u && p[|p| - 1] == v;
      assert Edge(p[0], p[1]) && Edge(p[|p| - 2], p[|p| - 2 + 1]);
    }

    /** Without cycles the number of descendants is a topological rank. */
    lemma AcyclicGivesRank(u: N, v: N)
      requires Acyclic() && Edge(u, v)
      ensures |Descendants(v)| < |Descendants(u)|
    {
      EdgeReaches(u, v);
      ReachesNode(u, v);
      forall w | w in Descendants(v)
        ensures w in Descendants(u)
      {
        ReachesTrans(u, v, w);
      }
      assert !OnCycle(v);
      assert v in Descendants(u) && v !in Descendants(v);
      ProperSubsetSmaller(Descendants(v), Descendants(u));
    }

    lemma {:induction false} WalkLowersRank(rank: N -> int, p: seq<N>)
      requires forall u, v :: Edge(u, v) ==> rank(v) < rank(u)
      requires IsWalk(p) && |p| >= 2
      ensures rank(p[|p| - 1]) < rank(p[0])
      decreases |p|
    {
      var q := p[..|p| - 1];
      assert Edge(p[|p| - 2], p[|p| - 2 + 1]);
      if |q| >= 2 {
        forall i | 0 <= i < |q| - 1
          ensures Edge(q[i], q[i + 1])
        {
          assert Edge(p[i], p[i + 1]);
        }
        WalkLowersRank(rank, q);
      }
    }

    /** Conversely, any ranking of the nodes that every edge lowers rules out cycles. */
    lemma RankGivesAcyclic(rank: N -> int)
      requires forall u, v :: Edge(u, v) ==> rank(v) < rank(u)
      ensures Acyclic()
    {
      forall u
        ensures !OnCycle(u)
      {
        if OnCycle(u) {
          var p :| IsWalk(p) && |p| >= 2 && p[0] == u && p[|p| - 1] == u;
          WalkLowersRank(rank, p);
        }
      }
    }

    /** No listing node with a cycle below it means no cycle anywhere: only nodes with a list have outgoing edges. */
    lemma NoCycleBelowAny()
      requires forall u :: u in lineage ==> !CycleBelow(u)
      ensures Acyclic()
    {
      forall u
        ensures !OnCycle(u)
      {
        if OnCycle(u) {
          var v := FirstEdge(u, u);
          assert CycleBelow(u);
        }
      }
    }
  }

  /** Graphs with the same edges reach the same nodes. */
  lemma SameEdgesSameReach<N(!new)>(g: Graph<N>, h: Graph<N>, u: N, v: N)
    requires forall x, y :: g.Edge(x, y) <==> h.Edge(x, y)
    ensures g.Reaches(u, v) <==> h.Reaches(u, v)
  {
    forall p
      ensures g.IsWalk(p) <==> h.IsWalk(p)
    {
    }
  }

  lemma ProperSubsetSmaller<T>(a: set<T>, b: set<T>)
    requires a < b
    ensures |a| < |b|
  {
    assert exists x :: x in b && x !in a;
    var x :| x in b && x !in a;
    assert a <= b - {x};
    SubsetNotLarger(a, b - {x});
  }

  lemma {:induction false} SubsetNotLarger<T>(a: set<T>, b: set<T>)
    requires a <= b
    ensures |a| <= |b|
  {
    if a != {} {
      var x :| x in a;
      SubsetNotLarger(a - {x}, b - {x});
    }
  }
}
