/** The packages whose own dependency closes a cycle, found by a depth-first search.
    Packages are positions in declaration order; a dependency on an undeclared
    package is a position past the end, which no path runs through. */
module BackEdges {
  import opened Wrappers
  import opened Graphs

  datatype Mark = Open | Done

  type Marks = map<nat, Mark>

  /** Every declared dependency of `u` is among the given nodes. */
  ghost predicate Settled(g: Graph, u: nat, before: seq<nat>) {
    u < |g| && forall v :: v in g[u] && v < |g| ==> v in before
  }

  /** A finished node closes a cycle itself, or depends only on nodes finished before it. */
  ghost predicate Decided(g: Graph, closing: seq<nat>, finished: seq<nat>, k: nat)
    requires k < |finished|
  {
    finished[k] in closing || Settled(g, finished[k], finished[..k])
  }

  /** The marked nodes are declared, and the done ones are those already left. */
  ghost predicate MarksMatch(g: Graph, state: Marks, finished: seq<nat>) {
    && (forall v :: v in state ==> v < |g|)
    && (forall v :: v in finished <==> v in state && state[v] == Done)
  }

  ghost predicate ClosingFits(g: Graph, state: Marks, closing: seq<nat>) {
    NoRepeats(closing) && forall u :: u in closing ==> u in state && OnCycle(g, u)
  }

  ghost predicate AllDecided(g: Graph, closing: seq<nat>, finished: seq<nat>) {
    NoRepeats(finished) && forall k :: 0 <= k < |finished| ==> Decided(g, closing, finished, k)
  }

  ghost predicate Opened(state: Marks, v: nat) { v in state && state[v] == Open }

  /** The nodes on the way to `node` reach it. */
  ghost predicate Leads(g: Graph, state: Marks, node: nat) {
    forall w :: Opened(state, w) ==> Reaches(g, w, node)
  }

  ghost predicate SameOpened(was: Marks, now: Marks) {
    && (forall w :: Opened(was, w) <==> Opened(now, w))
    && (forall w :: w in was ==> w in now)
  }

  ghost function Unvisited(g: Graph, state: Marks): set<nat> { set v: nat | v < |g| && v !in state }

  lemma CloseStep(g: Graph, state: Marks, closing: seq<nat>, finished: seq<nat>, node: nat, next: nat)
    requires ClosingFits(g, state, closing) && AllDecided(g, closing, finished)
    requires Leads(g, state, node) && node < |g| && Opened(state, node) && next in g[node] && Opened(state, next)
    requires next < |g|
    requires node !in closing
    ensures ClosingFits(g, state, closing + [node]) && AllDecided(g, closing + [node], finished)
  {
    hide Reaches, OnCycle;
    CycleByEdge(g, node);
    forall k | 0 <= k < |finished| ensures Decided(g, closing + [node], finished, k) {
      assert Decided(g, closing, finished, k);
    }
  }

  lemma FinishStep(g: Graph, state: Marks, closing: seq<nat>, finished: seq<nat>, node: nat)
    requires MarksMatch(g, state, finished) && ClosingFits(g, state, closing) && AllDecided(g, closing, finished)
    requires Opened(state, node) && (node in closing || Settled(g, node, finished))
    ensures var (now, left) := (state[node := Done], finished + [node]);
            MarksMatch(g, now, left) && ClosingFits(g, now, closing) && AllDecided(g, closing, left)
  {
    hide OnCycle, Settled;
    var left := finished + [node];
    forall k | 0 <= k < |left| ensures Decided(g, closing, left, k) {
      if k < |finished| {
        assert Decided(g, closing, finished, k);
        assert left[..k] == finished[..k];
      } else {
        assert left[..k] == finished;
      }
    }
  }

  lemma EnterStep(g: Graph, state: Marks, node: nat)
    requires Leads(g, state, node) && node < |g|
    ensures Leads(g, state[node := Open], node)
  {
    hide Reaches;
    ReachesSelf(g, node);
  }

  lemma DescendStep(g: Graph, state: Marks, node: nat, next: nat)
    requires Leads(g, state, node) && node < |g| && next in g[node] && next < |g|
    ensures Leads(g, state, next)
  {
    hide Reaches;
    ReachesEdge(g, node, next);
    forall w | Opened(state, w) ensures Reaches(g, w, next) { ReachesTrans(g, w, node, next); }
  }

  class Search {
    const g: Graph
    var state: Marks
    var closing: seq<nat>
    /** The nodes left for good, in the order they were left. */
    ghost var finished: seq<nat>

    constructor (g: Graph)
      ensures this.g == g && Valid() && state == map[] && closing == []
    {
      this.g := g;
      state := map[];
      closing := [];
      finished := [];
    }

    ghost predicate Valid()
      reads this
    {
      MarksMatch(g, state, finished) && ClosingFits(g, state, closing) && AllDecided(g, closing, finished)
    }

    method Visit(node: nat)
      requires Valid() && node < |g| && node !in state && Leads(g, state, node)
      modifies this
      ensures Valid() && node in finished
      ensures SameOpened(old(state), state)
      ensures old(finished) <= finished && old(closing) <= closing
      decreases Unvisited(g, state)
    {
      hide Reaches, OnCycle, Leads, AllDecided, ClosingFits;
      assert ClosingFits(g, state[node := Open], closing) by { Widened(g, state, node, closing); }
      EnterStep(g, state, node);
      state := state[node := Open];
      var i := 0;
      while i < |g[node]|
        invariant 0 <= i <= |g[node]| && Valid() && Opened(state, node) && Leads(g, state, node)
        invariant SameOpened(old(state)[node := Open], state)
        invariant old(finished) <= finished && old(closing) <= closing
        invariant node in closing || forall j :: 0 <= j < i && g[node][j] < |g| ==> g[node][j] in finished
      {
        var next := g[node][i];
        if next in state && state[next] == Open {
          if node !in closing {
            CloseStep(g, state, closing, finished, node, next);
            closing := closing + [node];
          }
        } else if next !in state && next < |g| {
          assert Unvisited(g, state) < Unvisited(g, old(state)) by { assert node in Unvisited(g, old(state)); }
          DescendStep(g, state, node, next);
          ghost var before := state;
          Visit(next);
          SameLeads(g, before, state, node);
        }
        i := i + 1;
      }
      FinishStep(g, state, closing, finished, node);
      LeaveStep(old(state), state, node);
      state := state[node := Done];
      finished := finished + [node];
    }
  }

  lemma LeaveStep(was: Marks, now: Marks, node: nat)
    requires node !in was && SameOpened(was[node := Open], now)
    ensures SameOpened(was, now[node := Done])
  {
    forall w ensures Opened(was, w) <==> Opened(now[node := Done], w) {
      assert Opened(was[node := Open], w) <==> Opened(now, w);
    }
    forall w | w in was ensures w in now {
      assert w in was[node := Open];
    }
  }

  lemma Widened(g: Graph, state: Marks, node: nat, closing: seq<nat>)
    requires ClosingFits(g, state, closing)
    ensures ClosingFits(g, state[node := Open], closing)
  {
    hide OnCycle;
  }

  lemma SameLeads(g: Graph, was: Marks, now: Marks, node: nat)
    requires Leads(g, was, node) && SameOpened(was, now)
    ensures Leads(g, now, node)
  {
    hide Reaches;
  }

  /** Among nodes that are all decided, a path through no closing node only goes back in finishing order. */
  lemma {:induction false} PathGoesBack(g: Graph, closing: seq<nat>, finished: seq<nat>, p: seq<nat>, first: nat,
                                        last: nat)
    requires AllDecided(g, closing, finished) && IsPath(g, p)
    requires forall i :: 0 <= i < |p| ==> p[i] !in closing
    requires first < |finished| && last < |finished| && finished[first] == p[0] && finished[last] == p[|p| - 1]
    ensures |p| > 1 ==> last < first
    ensures last <= first
    decreases |p|
  {
    if |p| > 1 {
      assert Decided(g, closing, finished, first);
      assert p[0 + 1] in g[p[0]];
      var next :| 0 <= next < first && finished[next] == p[1];
      assert IsPath(g, p[1..]) by {
        forall i | 0 <= i < |p| - 2 ensures p[1..][i + 1] in g[p[1..][i]] { assert p[i + 2] in g[p[i + 1]]; }
      }
      PathGoesBack(g, closing, finished, p[1..], next, last);
    }
  }

  lemma CycleIsClosed(g: Graph, closing: seq<nat>, finished: seq<nat>, p: seq<nat>)
    requires AllDecided(g, closing, finished) && forall v :: 0 <= v < |g| ==> v in finished
    requires IsPath(g, p) && |p| >= 2 && p[0] == p[|p| - 1]
    ensures exists i :: 0 <= i < |p| && p[i] in closing
  {
    if forall i :: 0 <= i < |p| ==> p[i] !in closing {
      hide AllDecided, IsPath;
      assert p[0] in finished by { assert IsPath(g, p) ==> p[0] < |g| by { PathInside(g, p); } }
      var k :| 0 <= k < |finished| && finished[k] == p[0];
      PathGoesBack(g, closing, finished, p, k, k);
    }
  }

  lemma PathInside(g: Graph, p: seq<nat>)
    requires IsPath(g, p)
    ensures p[0] < |g|
  {
  }

  lemma NoClosingNoCycle(g: Graph, closing: seq<nat>, finished: seq<nat>)
    requires AllDecided(g, closing, finished) && forall v :: 0 <= v < |g| ==> v in finished
    requires closing == []
    ensures Acyclic(g)
  {
    forall v | 0 <= v < |g| ensures !OnCycle(g, v) {
      if OnCycle(g, v) {
        var p :| IsPath(g, p) && |p| >= 2 && p[0] == v && p[|p| - 1] == v;
        CycleIsClosed(g, closing, finished, p);
      }
    }
  }

  /** The packages that close a cycle: none exactly when there is no cycle; each lies
      on a cycle, and every cycle runs through at least one. */
  method FindBackEdges(g: Graph) returns (closing: seq<nat>)
    ensures closing == [] <==> Acyclic(g)
    ensures NoRepeats(closing) && forall u :: u in closing ==> u < |g| && OnCycle(g, u)
    ensures forall p :: IsPath(g, p) && |p| >= 2 && p[0] == p[|p| - 1] ==> exists i :: 0 <= i < |p| && p[i] in closing
  {
    hide IsPath, OnCycle, Reaches, AllDecided;
    var search := new Search(g);
    for node := 0 to |g|
      invariant search.g == g && search.Valid() && forall v :: !Opened(search.state, v)
      invariant forall v :: 0 <= v < node ==> v in search.finished
    {
      if node !in search.state {
        search.Visit(node);
      }
      assert !Opened(search.state, node);
    }
    closing := search.closing;
    forall p | IsPath(g, p) && |p| >= 2 && p[0] == p[|p| - 1] ensures exists i :: 0 <= i < |p| && p[i] in closing {
      CycleIsClosed(g, closing, search.finished, p);
    }
    if closing == [] {
      NoClosingNoCycle(g, closing, search.finished);
    } else {
      assert closing[0] in closing;
    }
  }
}
