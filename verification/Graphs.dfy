/** Directed graphs as adjacency lists over positions `0..|g|`, with paths,
    reachability and cycles.  The supertype graph of a document and the package
    graph of a bundle are both read as such a graph. */
module Graphs {
  type Graph = seq<seq<nat>>

  ghost predicate WellFormed(g: Graph) {
    forall v, j :: 0 <= v < |g| && 0 <= j < |g[v]| ==> g[v][j] < |g|
  }

  ghost predicate IsPath(g: Graph, p: seq<nat>) {
    && |p| >= 1
    && (forall i :: 0 <= i < |p| ==> p[i] < |g|)
    && (forall i :: 0 <= i < |p| - 1 ==> p[i + 1] in g[p[i]])
  }

  /** `v` is reached from `u` by a path of zero or more edges. */
  ghost predicate Reaches(g: Graph, u: nat, v: nat) {
    exists p :: IsPath(g, p) && p[0] == u && p[|p| - 1] == v
  }

  /** `v` reaches itself by a path of at least one edge. */
  ghost predicate OnCycle(g: Graph, v: nat) {
    exists p :: IsPath(g, p) && |p| >= 2 && p[0] == v && p[|p| - 1] == v
  }

  ghost predicate Acyclic(g: Graph) {
    forall v :: 0 <= v < |g| ==> !OnCycle(g, v)
  }

  lemma ReachesSelf(g: Graph, v: nat)
    requires v < |g|
    ensures Reaches(g, v, v)
  {
    assert IsPath(g, [v]);
  }

  lemma ReachesEdge(g: Graph, u: nat, v: nat)
    requires u < |g| && v < |g| && v in g[u]
    ensures Reaches(g, u, v)
  {
    var p := [u, v];
    assert IsPath(g, p) && p[0] == u && p[|p| - 1] == v;
  }

  lemma JoinPaths(g: Graph, p: seq<nat>, q: seq<nat>) returns (r: seq<nat>)
    requires IsPath(g, p) && IsPath(g, q) && p[|p| - 1] == q[0]
    ensures IsPath(g, r) && r[0] == p[0] && r[|r| - 1] == q[|q| - 1]
    ensures |r| == |p| + |q| - 1
  {
    r := p + q[1..];
    forall i | 0 <= i < |r| - 1 ensures r[i + 1] in g[r[i]] {
      if i >= |p| - 1 {
        assert r[i] == q[i - (|p| - 1)] && r[i + 1] == q[i - (|p| - 1) + 1];
      }
    }
  }

  lemma ReachesTrans(g: Graph, u: nat, v: nat, w: nat)
    requires Reaches(g, u, v) && Reaches(g, v, w)
    ensures Reaches(g, u, w)
  {
    var p :| IsPath(g, p) && p[0] == u && p[|p| - 1] == v;
    var q :| IsPath(g, q) && q[0] == v && q[|q| - 1] == w;
    var r := JoinPaths(g, p, q);
  }

  /** A cycle through `v` is an edge out of `v` from whose end `v` is reached. */
  lemma CycleByEdge(g: Graph, v: nat)
    ensures OnCycle(g, v) <==> v < |g| && exists w :: w in g[v] && w < |g| && Reaches(g, w, v)
  {
    if OnCycle(g, v) {
      var p :| IsPath(g, p) && |p| >= 2 && p[0] == v && p[|p| - 1] == v;
      assert IsPath(g, p[1..]) && p[1] in g[v] by {
        forall i | 0 <= i < |p| - 2 ensures p[1..][i + 1] in g[p[1..][i]] {
          assert p[i + 2] in g[p[i + 1]];
        }
        assert p[0 + 1] in g[p[0]];
      }
      assert Reaches(g, p[1], v);
    }
    if v < |g| && exists w :: w in g[v] && w < |g| && Reaches(g, w, v) {
      var w :| w in g[v] && w < |g| && Reaches(g, w, v);
      var q :| IsPath(g, q) && q[0] == w && q[|q| - 1] == v;
      assert IsPath(g, [v, w]);
      var r := JoinPaths(g, [v, w], q);
      assert |r| >= 2 && r[0] == v && r[|r| - 1] == v;
    }
  }

  /** A set closed under edges is never left by a path. */
  lemma ClosedSet(g: Graph, s: set<nat>, u: nat, v: nat)
    requires forall x, y :: x in s && x < |g| && y in g[x] ==> y in s
    requires u in s && Reaches(g, u, v)
    ensures v in s
  {
    var p :| IsPath(g, p) && p[0] == u && p[|p| - 1] == v;
    var i := 0;
    while i < |p| - 1
      invariant 0 <= i < |p| && p[i] in s
    {
      assert p[i + 1] in g[p[i]];
      i := i + 1;
    }
  }

  lemma MutualOnCycle(g: Graph, x: nat, y: nat)
    requires x != y && Reaches(g, x, y) && Reaches(g, y, x)
    ensures OnCycle(g, x)
  {
    var p :| IsPath(g, p) && p[0] == x && p[|p| - 1] == y;
    var q :| IsPath(g, q) && q[0] == y && q[|q| - 1] == x;
    var r := JoinPaths(g, p, q);
  }
}
