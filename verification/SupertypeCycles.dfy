/** The iterative strongly-connected-components pass that finds the types which
    reach themselves through `supertypes`. */
module SupertypeCycles {
  import opened Graphs

  const UNSEEN := -1

  /** What the pass keeps about positions: when each was first seen, which are on
      the stack, the stack itself, and the nodes of the open frames. */
  datatype Marks = Marks(order: seq<int>, onStack: seq<bool>, stack: seq<nat>, path: seq<nat>, next: nat)

  // The step lemmas take reachability as a set, of which a step only uses that
  // it is a preorder holding every edge.
  type Relation = iset<(nat, nat)>

  ghost predicate Via(u: nat, v: nat, w: nat) { true }

  ghost predicate Preorder(g: Graph, r: Relation) {
    && (forall v :: 0 <= v < |g| ==> (v, v) in r)
    && (forall u, v: nat :: 0 <= u < |g| && v in g[u] ==> (u, v) in r)
    && (forall u: nat, v: nat, w: nat {:trigger Via(u, v, w)} ::
          Via(u, v, w) && (u, v) in r && (v, w) in r ==> (u, w) in r)
  }

  // ----- the invariant, one fact at a time

  ghost predicate Sized(g: Graph, m: Marks) {
    && |m.order| == |m.onStack| == |g|
    && (forall i :: 0 <= i < |m.path| ==> m.path[i] < |g|)
    && (forall i :: 0 <= i < |m.stack| ==> m.stack[i] < |g|)
  }

  /** The stack lists the stacked positions in the order they were seen. */
  ghost predicate Stacked(g: Graph, m: Marks)
    requires Sized(g, m)
  {
    && (forall v :: 0 <= v < |g| ==> m.order[v] == UNSEEN || 0 <= m.order[v] < m.next)
    && (forall v :: 0 <= v < |g| && m.onStack[v] ==> m.order[v] != UNSEEN)
    && (forall v: nat {:trigger v in m.stack} :: v < |g| && m.onStack[v] ==> v in m.stack)
    && (forall i :: 0 <= i < |m.stack| ==> m.onStack[m.stack[i]])
    && (forall i, j :: 0 <= i < j < |m.stack| ==> m.order[m.stack[i]] < m.order[m.stack[j]])
  }

  /** The open frames are stacked positions, in the order they were opened. */
  ghost predicate Framed(g: Graph, m: Marks)
    requires Sized(g, m)
  {
    && (forall i :: 0 <= i < |m.path| ==> m.onStack[m.path[i]])
    && (forall i, j :: 0 <= i < j < |m.path| ==> m.order[m.path[i]] < m.order[m.path[j]])
  }

  /** Steps spent on a position: none while unseen, its edges taken while open,
      every edge and the closing of its frame afterwards. */
  ghost predicate Counted(g: Graph, m: Marks, done: seq<nat>)
    requires Sized(g, m) && |done| == |g|
  {
    && (forall v :: 0 <= v < |g| && m.order[v] == UNSEEN ==> done[v] == 0)
    && (forall i :: 0 <= i < |m.path| ==> done[m.path[i]] <= |g[m.path[i]]|)
    && (forall v :: 0 <= v < |g| && m.order[v] != UNSEEN ==> done[v] == |g[v]| + 1 || v in m.path)
  }

  /** A frame reaches everything stacked since it opened. */
  ghost predicate Down(g: Graph, r: Relation, m: Marks)
    requires Sized(g, m)
  {
    forall i, x :: 0 <= i < |m.path| && 0 <= x < |g| && m.onStack[x] && m.order[m.path[i]] <= m.order[x]
      ==> (m.path[i], x) in r
  }

  ghost predicate UpTo(g: Graph, r: Relation, m: Marks, x: nat, i: nat)
    requires Sized(g, m) && x < |g|
  {
    i < |m.path| && m.order[m.path[i]] <= m.order[x] && (x, m.path[i]) in r
  }

  ghost predicate Climbs(g: Graph, r: Relation, m: Marks, x: nat)
    requires Sized(g, m) && x < |g|
  {
    exists i :: UpTo(g, r, m, x, i)
  }

  /** Everything stacked reaches a frame opened no later. */
  ghost predicate Up(g: Graph, r: Relation, m: Marks)
    requires Sized(g, m)
  {
    forall x: nat {:trigger Climbs(g, r, m, x)} :: x < |g| && m.onStack[x] ==> Climbs(g, r, m, x)
  }

  ghost predicate LowAt(g: Graph, r: Relation, m: Marks, low: seq<int>, v: nat, w: nat)
    requires Sized(g, m) && |low| == |g| && v < |g|
  {
    w < |g| && m.onStack[w] && m.order[w] == low[v] && (v, w) in r
  }

  ghost predicate LowOk(g: Graph, r: Relation, m: Marks, low: seq<int>, v: nat)
    requires Sized(g, m) && |low| == |g| && v < |g|
  {
    low[v] <= m.order[v] && exists w :: LowAt(g, r, m, low, v, w)
  }

  /** A frame's `low` is the order of a stacked position it reaches. */
  ghost predicate LowSound(g: Graph, r: Relation, m: Marks, low: seq<int>)
    requires Sized(g, m) && |low| == |g|
  {
    forall i :: 0 <= i < |m.path| ==> LowOk(g, r, m, low, m.path[i])
  }

  ghost predicate LowBelow(g: Graph, m: Marks, low: seq<int>, i: nat, bound: int)
    requires Sized(g, m) && |low| == |g|
  {
    exists k :: i <= k < |m.path| && low[m.path[k]] <= bound
  }

  /** A taken edge from above a frame to a stacked position shows in some `low` at or above it. */
  ghost predicate LowComplete(g: Graph, m: Marks, low: seq<int>, done: seq<nat>)
    requires Sized(g, m) && |low| == |done| == |g| && WellFormed(g)
  {
    forall i: nat, x, j {:trigger LowBelow(g, m, low, i, m.order[g[x][j]])} ::
      i < |m.path| && 0 <= x < |g| && m.onStack[x] && m.order[m.path[i]] <= m.order[x]
      && 0 <= j < |g[x]| && j < done[x] && m.onStack[g[x][j]]
      ==> LowBelow(g, m, low, i, m.order[g[x][j]])
  }

  /** Taken edges end at seen positions, or at `next`. */
  ghost predicate Taken(g: Graph, m: Marks, done: seq<nat>, next: nat)
    requires Sized(g, m) && |done| == |g| && WellFormed(g)
  {
    forall v, j :: 0 <= v < |g| && 0 <= j < |g[v]| && j < done[v] ==> m.order[g[v][j]] != UNSEEN || g[v][j] == next
  }

  ghost predicate Left(g: Graph, m: Marks, v: nat)
    requires Sized(g, m)
  {
    v < |g| && m.order[v] != UNSEEN && !m.onStack[v]
  }

  /** Nothing leads out of what has left the stack. */
  ghost predicate Sealed(g: Graph, m: Marks)
    requires Sized(g, m) && WellFormed(g)
  {
    forall v: nat, j :: Left(g, m, v) && 0 <= j < |g[v]| ==> Left(g, m, g[v][j])
  }

  /** What has left the stack is decided: `cyclic` holds exactly its positions in `c`. */
  ghost predicate Decided(g: Graph, c: iset<nat>, m: Marks, cyclic: set<nat>)
    requires Sized(g, m)
  {
    forall v: nat :: v in cyclic <==> Left(g, m, v) && v in c
  }

  ghost predicate Core(g: Graph, r: Relation, m: Marks) {
    WellFormed(g) && Preorder(g, r) && Sized(g, m) && Stacked(g, m) && Framed(g, m) && Down(g, r, m) && Up(g, r, m)
      && Sealed(g, m)
  }

  ghost predicate Inv(g: Graph, r: Relation, c: iset<nat>, m: Marks, low: seq<int>, done: seq<nat>, cyclic: set<nat>) {
    && Core(g, r, m) && Decided(g, c, m, cyclic)
    && |low| == |done| == |g|
    && LowSound(g, r, m, low) && LowComplete(g, m, low, done) && Counted(g, m, done) && Taken(g, m, done, |g|)
  }

  // ----- opening a position

  ghost function Top(m: Marks): nat
    requires |m.path| > 0
  {
    m.path[|m.path| - 1]
  }

  ghost function Push(m: Marks, v: nat): Marks
    requires v < |m.order| == |m.onStack|
  {
    Marks(m.order[v := m.next], m.onStack[v := true], m.stack + [v], m.path + [v], m.next + 1)
  }

  /** `v` may be opened: it is a fresh root, or an edge of the innermost frame leads to it. */
  ghost predicate Opens(g: Graph, m: Marks, v: nat)
    requires Sized(g, m)
  {
    && v < |g| && m.order[v] == UNSEEN && (|m.path| > 0 ==> v in g[Top(m)])
  }

  lemma PushStacked(g: Graph, m: Marks, v: nat)
    requires Sized(g, m) && Stacked(g, m) && Opens(g, m, v)
    ensures Sized(g, Push(m, v)) && Stacked(g, Push(m, v))
  {
    assert forall x :: x in m.stack ==> x in Push(m, v).stack;
  }

  lemma PushFramed(g: Graph, m: Marks, v: nat)
    requires Sized(g, m) && Stacked(g, m) && Framed(g, m) && Opens(g, m, v) && Sized(g, Push(m, v))
    ensures Framed(g, Push(m, v))
  {
  }

  lemma PushCounted(g: Graph, m: Marks, v: nat, done: seq<nat>)
    requires Sized(g, m) && |done| == |g| && Counted(g, m, done) && Opens(g, m, v) && Sized(g, Push(m, v))
    ensures Counted(g, Push(m, v), done)
  {
    assert forall x :: x in m.path ==> x in Push(m, v).path;
  }

  lemma PushDown(g: Graph, r: Relation, m: Marks, v: nat)
    requires Preorder(g, r) && Sized(g, m) && Stacked(g, m) && Framed(g, m) && Opens(g, m, v)
    requires Down(g, r, m) && Sized(g, Push(m, v))
    ensures Down(g, r, Push(m, v))
  {
    var t := Push(m, v);
    forall i, x | 0 <= i < |t.path| && 0 <= x < |g| && t.onStack[x] && t.order[t.path[i]] <= t.order[x]
      ensures (t.path[i], x) in r
    {
      if x == v && i < |m.path| {
        assert Via(m.path[i], Top(m), v);
      }
    }
  }

  lemma PushUp(g: Graph, r: Relation, m: Marks, v: nat)
    requires Preorder(g, r) && Sized(g, m) && Opens(g, m, v) && Sized(g, Push(m, v))
    requires Up(g, r, m) && v !in m.path
    ensures Up(g, r, Push(m, v))
  {
    var t := Push(m, v);
    forall x: nat | x < |g| && t.onStack[x] ensures Climbs(g, r, t, x) {
      if x == v {
        assert UpTo(g, r, t, v, |m.path|);
      } else {
        assert Climbs(g, r, m, x);
        var i :| UpTo(g, r, m, x, i);
        assert UpTo(g, r, t, x, i);
      }
    }
  }

  lemma PushSealed(g: Graph, c: iset<nat>, m: Marks, v: nat, cyclic: set<nat>)
    requires WellFormed(g) && Sized(g, m) && Opens(g, m, v) && Sized(g, Push(m, v))
    requires Sealed(g, m) && Decided(g, c, m, cyclic)
    ensures Sealed(g, Push(m, v)) && Decided(g, c, Push(m, v), cyclic)
  {
    assert forall x: nat :: Left(g, Push(m, v), x) <==> Left(g, m, x);
  }

  lemma PushLowSound(g: Graph, r: Relation, m: Marks, v: nat, low: seq<int>)
    requires Preorder(g, r) && Sized(g, m) && Opens(g, m, v) && Sized(g, Push(m, v)) && |low| == |g|
    requires LowSound(g, r, m, low) && v !in m.path && !m.onStack[v]
    ensures LowSound(g, r, Push(m, v), low[v := m.next])
  {
    var t, l := Push(m, v), low[v := m.next];
    forall i | 0 <= i < |t.path| ensures LowOk(g, r, t, l, t.path[i]) {
      if i < |m.path| {
        assert t.path[i] == m.path[i] != v;
        assert LowOk(g, r, m, low, m.path[i]);
        var w :| LowAt(g, r, m, low, m.path[i], w);
        assert LowAt(g, r, t, l, m.path[i], w);
      } else {
        assert t.path[i] == v;
        assert LowAt(g, r, t, l, v, v);
      }
    }
  }

  lemma PushLowComplete(g: Graph, r: Relation, m: Marks, v: nat, low: seq<int>, done: seq<nat>)
    requires WellFormed(g) && Sized(g, m) && Stacked(g, m) && Opens(g, m, v) && Sized(g, Push(m, v))
    requires |low| == |done| == |g| && done[v] == 0 && v !in m.path
    requires LowComplete(g, m, low, done)
    requires forall i :: 0 <= i < |m.path| ==> low[m.path[i]] <= m.order[m.path[i]]
    ensures LowComplete(g, Push(m, v), low[v := m.next], done)
  {
    var t, l := Push(m, v), low[v := m.next];
    forall i: nat, x, j | i < |t.path| && 0 <= x < |g| && t.onStack[x] && t.order[t.path[i]] <= t.order[x]
      && 0 <= j < |g[x]| && j < done[x] && t.onStack[g[x][j]]
      ensures LowBelow(g, t, l, i, t.order[g[x][j]])
    {
      assert x != v;
      assert i < |m.path|;
      if g[x][j] == v {
        assert l[t.path[i]] <= t.order[v];
      } else {
        assert LowBelow(g, m, low, i, m.order[g[x][j]]);
        var k :| i <= k < |m.path| && low[m.path[k]] <= m.order[g[x][j]];
        assert l[t.path[k]] <= t.order[g[x][j]];
      }
    }
  }

  lemma PushTaken(g: Graph, m: Marks, v: nat, done: seq<nat>)
    requires WellFormed(g) && Sized(g, m) && |done| == |g| && Opens(g, m, v) && Sized(g, Push(m, v))
    requires Taken(g, m, done, v)
    ensures Taken(g, Push(m, v), done, |g|)
  {
  }

  lemma PushInv(g: Graph, r: Relation, c: iset<nat>, m: Marks, v: nat, low: seq<int>, done: seq<nat>, cyclic: set<nat>)
    requires Core(g, r, m) && Decided(g, c, m, cyclic) && |low| == |done| == |g| && Opens(g, m, v)
    requires LowSound(g, r, m, low) && LowComplete(g, m, low, done) && Counted(g, m, done) && Taken(g, m, done, v)
    ensures Inv(g, r, c, Push(m, v), low[v := m.next], done, cyclic)
  {
    PushStacked(g, m, v);
    PushFramed(g, m, v);
    PushCounted(g, m, v, done);
    PushDown(g, r, m, v);
    PushUp(g, r, m, v);
    PushSealed(g, c, m, v, cyclic);
    PushLowSound(g, r, m, v, low);
    PushLowComplete(g, r, m, v, low, done);
    PushTaken(g, m, v, done);
  }

  // ----- taking an edge to a position already seen

  ghost function Bump(done: seq<nat>, v: nat): seq<nat>
    requires v < |done|
  {
    done[v := done[v] + 1]
  }

  ghost function Lowered(low: seq<int>, v: nat, bound: int): seq<int>
    requires v < |low|
  {
    low[v := if low[v] <= bound then low[v] else bound]
  }

  ghost predicate Takes(g: Graph, m: Marks, done: seq<nat>, v: nat, w: nat)
    requires Sized(g, m) && |done| == |g| && WellFormed(g)
  {
    |m.path| > 0 && v == Top(m) && done[v] < |g[v]| && w == g[v][done[v]]
  }

  lemma TakeCounted(g: Graph, m: Marks, done: seq<nat>, v: nat, w: nat)
    requires WellFormed(g) && Sized(g, m) && |done| == |g| && Takes(g, m, done, v, w) && m.order[v] != UNSEEN
    requires Counted(g, m, done) && Taken(g, m, done, |g|)
    ensures Counted(g, m, Bump(done, v)) && Taken(g, m, Bump(done, v), w)
  {
    assert v in m.path;
  }

  /** An edge to an unseen position: everything is ready for it to be opened. */
  lemma TakeFresh(g: Graph, r: Relation, c: iset<nat>, m: Marks, low: seq<int>, done: seq<nat>, cyclic: set<nat>,
                  v: nat, w: nat)
    requires Inv(g, r, c, m, low, done, cyclic) && Takes(g, m, done, v, w) && m.order[w] == UNSEEN
    ensures Inv(g, r, c, Push(m, w), low[w := m.next], Bump(done, v), cyclic)
  {
    var d := Bump(done, v);
    TakeCounted(g, m, done, v, w);
    forall i: nat, x, j | i < |m.path| && 0 <= x < |g| && m.onStack[x] && m.order[m.path[i]] <= m.order[x]
      && 0 <= j < |g[x]| && j < d[x] && m.onStack[g[x][j]]
      ensures LowBelow(g, m, low, i, m.order[g[x][j]])
    {
      assert x == v ==> j != done[v];
    }
    PushInv(g, r, c, m, w, low, d, cyclic);
  }

  lemma LowerSound(g: Graph, r: Relation, m: Marks, low: seq<int>, v: nat, w: nat)
    requires Preorder(g, r) && Sized(g, m) && |low| == |g| && v < |g| && w in g[v] && w < |g| && m.onStack[w]
    requires LowSound(g, r, m, low)
    ensures LowSound(g, r, m, Lowered(low, v, m.order[w]))
  {
    var l := Lowered(low, v, m.order[w]);
    forall i | 0 <= i < |m.path| ensures LowOk(g, r, m, l, m.path[i]) {
      if m.path[i] == v && m.order[w] < low[v] {
        assert LowAt(g, r, m, l, v, w);
      } else {
        assert LowOk(g, r, m, low, m.path[i]);
        var u :| LowAt(g, r, m, low, m.path[i], u);
        assert LowAt(g, r, m, l, m.path[i], u);
      }
    }
  }

  lemma LowerBelow(g: Graph, m: Marks, low: seq<int>, v: nat, bound: int, i: nat, b: int)
    requires Sized(g, m) && |low| == |g| && v < |g|
    requires LowBelow(g, m, low, i, b)
    ensures LowBelow(g, m, Lowered(low, v, bound), i, b)
  {
    var k :| i <= k < |m.path| && low[m.path[k]] <= b;
    assert Lowered(low, v, bound)[m.path[k]] <= b;
  }

  lemma LowerComplete(g: Graph, m: Marks, low: seq<int>, done: seq<nat>, v: nat, w: nat)
    requires WellFormed(g) && Sized(g, m) && |low| == |done| == |g| && Takes(g, m, done, v, w)
    requires LowComplete(g, m, low, done)
    ensures LowComplete(g, m, Lowered(low, v, m.order[w]), Bump(done, v))
  {
    var l, d := Lowered(low, v, m.order[w]), Bump(done, v);
    forall i: nat, x, j | i < |m.path| && 0 <= x < |g| && m.onStack[x] && m.order[m.path[i]] <= m.order[x]
      && 0 <= j < |g[x]| && j < d[x] && m.onStack[g[x][j]]
      ensures LowBelow(g, m, l, i, m.order[g[x][j]])
    {
      if x == v && j == done[v] {
        assert l[m.path[|m.path| - 1]] <= m.order[w];
      } else {
        assert LowBelow(g, m, low, i, m.order[g[x][j]]);
        LowerBelow(g, m, low, v, m.order[w], i, m.order[g[x][j]]);
      }
    }
  }

  /** An edge to a stacked position lowers `low` to that position's order. */
  lemma TakeStacked(g: Graph, r: Relation, c: iset<nat>, m: Marks, low: seq<int>, done: seq<nat>, cyclic: set<nat>,
                    v: nat, w: nat)
    requires Inv(g, r, c, m, low, done, cyclic) && Takes(g, m, done, v, w) && m.onStack[w]
    ensures Inv(g, r, c, m, Lowered(low, v, m.order[w]), Bump(done, v), cyclic)
  {
    TakeCounted(g, m, done, v, w);
    LowerSound(g, r, m, low, v, w);
    LowerComplete(g, m, low, done, v, w);
  }

  /** An edge to a position that has left the stack changes nothing. */
  lemma TakeLeft(g: Graph, r: Relation, c: iset<nat>, m: Marks, low: seq<int>, done: seq<nat>, cyclic: set<nat>, v: nat,
                 w: nat)
    requires Inv(g, r, c, m, low, done, cyclic) && Takes(g, m, done, v, w) && m.order[w] != UNSEEN && !m.onStack[w]
    ensures Inv(g, r, c, m, low, Bump(done, v), cyclic)
  {
    TakeCounted(g, m, done, v, w);
    var d := Bump(done, v);
    forall i: nat, x, j | i < |m.path| && 0 <= x < |g| && m.onStack[x] && m.order[m.path[i]] <= m.order[x]
      && 0 <= j < |g[x]| && j < d[x] && m.onStack[g[x][j]]
      ensures LowBelow(g, m, low, i, m.order[g[x][j]])
    {
      assert x == v ==> j != done[v];
    }
  }

  // ----- closing a frame whose `low` lies below it

  ghost function Close(m: Marks): Marks
    requires |m.path| > 0
  {
    m.(path := m.path[..|m.path| - 1])
  }

  /** The frame is exhausted: every edge of its node has been taken. */
  ghost predicate Exhausted(g: Graph, m: Marks, done: seq<nat>)
    requires Sized(g, m) && |done| == |g|
  {
    |m.path| > 0 && done[Top(m)] == |g[Top(m)]|
  }

  ghost function Merged(m: Marks, low: seq<int>): seq<int>
    requires |m.path| > 0 && forall i :: 0 <= i < |m.path| ==> m.path[i] < |low|
  {
    if |m.path| == 1 then low else Lowered(low, m.path[|m.path| - 2], low[Top(m)])
  }

  lemma CloseCounted(g: Graph, m: Marks, done: seq<nat>)
    requires Sized(g, m) && Framed(g, m) && |done| == |g| && Exhausted(g, m, done) && Counted(g, m, done)
    requires m.order[Top(m)] != UNSEEN
    ensures Sized(g, Close(m)) && Counted(g, Close(m), Bump(done, Top(m)))
  {
    var t := Close(m);
    forall x | 0 <= x < |g| && x in m.path && x != Top(m) ensures x in t.path {
      var i :| 0 <= i < |m.path| && m.path[i] == x;
      assert t.path[i] == x;
    }
  }

  /** A frame that is not the root of its component reaches a frame below it. */
  lemma LowerFrame(g: Graph, r: Relation, m: Marks, low: seq<int>) returns (i: nat)
    requires Preorder(g, r) && Sized(g, m) && Up(g, r, m) && |low| == |g| && LowSound(g, r, m, low)
    requires |m.path| > 0 && low[Top(m)] < m.order[Top(m)]
    ensures i < |m.path| - 1 && m.order[m.path[i]] <= low[Top(m)] && (Top(m), m.path[i]) in r
  {
    var v := Top(m);
    var w :| LowAt(g, r, m, low, v, w);
    assert Climbs(g, r, m, w);
    i :| UpTo(g, r, m, w, i);
    assert Via(v, w, m.path[i]);
  }

  lemma CloseUp(g: Graph, r: Relation, m: Marks, low: seq<int>)
    requires Preorder(g, r) && Sized(g, m) && Up(g, r, m) && |low| == |g| && LowSound(g, r, m, low)
    requires |m.path| > 0 && low[Top(m)] < m.order[Top(m)] && Sized(g, Close(m))
    ensures Up(g, r, Close(m))
  {
    var t, n := Close(m), |m.path| - 1;
    var b := LowerFrame(g, r, m, low);
    forall x: nat | x < |g| && t.onStack[x] ensures Climbs(g, r, t, x) {
      assert Climbs(g, r, m, x);
      var i :| UpTo(g, r, m, x, i);
      if i == n {
        assert Via(x, Top(m), m.path[b]);
        assert UpTo(g, r, t, x, b);
      } else {
        assert UpTo(g, r, t, x, i);
      }
    }
  }

  lemma CloseLowSound(g: Graph, r: Relation, m: Marks, low: seq<int>)
    requires Preorder(g, r) && Sized(g, m) && Framed(g, m) && Down(g, r, m) && |low| == |g| && LowSound(g, r, m, low)
    requires |m.path| > 0 && low[Top(m)] <= m.order[Top(m)] && Sized(g, Close(m))
    ensures LowSound(g, r, Close(m), Merged(m, low))
  {
    var t, l, v, n := Close(m), Merged(m, low), Top(m), |m.path| - 1;
    forall i | 0 <= i < |t.path| ensures LowOk(g, r, t, l, t.path[i]) {
      if i == n - 1 && low[v] < low[m.path[i]] {
        var w :| LowAt(g, r, m, low, v, w);
        assert (m.path[i], v) in r;
        assert Via(m.path[i], v, w);
        assert LowAt(g, r, t, l, t.path[i], w);
      } else {
        assert LowOk(g, r, m, low, m.path[i]);
        var u :| LowAt(g, r, m, low, m.path[i], u);
        assert m.order[m.path[i]] < m.order[m.path[n]];
        if i < n - 1 { assert m.order[m.path[i]] < m.order[m.path[n - 1]]; }
        assert LowAt(g, r, t, l, t.path[i], u);
      }
    }
  }

  lemma CloseLowComplete(g: Graph, r: Relation, m: Marks, low: seq<int>, done: seq<nat>)
    requires WellFormed(g) && Sized(g, m) && |low| == |done| == |g| && LowComplete(g, m, low, done)
    requires Exhausted(g, m, done) && Sized(g, Close(m))
    ensures LowComplete(g, Close(m), Merged(m, low), Bump(done, Top(m)))
  {
    var t, l, d, n := Close(m), Merged(m, low), Bump(done, Top(m)), |m.path| - 1;
    forall i: nat, x, j | i < |t.path| && 0 <= x < |g| && t.onStack[x] && t.order[t.path[i]] <= t.order[x]
      && 0 <= j < |g[x]| && j < d[x] && t.onStack[g[x][j]]
      ensures LowBelow(g, t, l, i, t.order[g[x][j]])
    {
      assert LowBelow(g, m, low, i, m.order[g[x][j]]);
      var k :| i <= k < |m.path| && low[m.path[k]] <= m.order[g[x][j]];
      if k == n {
        assert l[t.path[n - 1]] <= t.order[g[x][j]];
      } else {
        assert l[t.path[k]] <= t.order[g[x][j]];
      }
    }
  }

  lemma CloseShape(g: Graph, r: Relation, m: Marks)
    requires |m.path| > 0 && Sized(g, m) && Stacked(g, m) && Framed(g, m) && Down(g, r, m) && Sized(g, Close(m))
    ensures Stacked(g, Close(m)) && Framed(g, Close(m)) && Down(g, r, Close(m))
  {
  }

  lemma CloseSealed(g: Graph, c: iset<nat>, m: Marks, done: seq<nat>, cyclic: set<nat>)
    requires |m.path| > 0 && WellFormed(g) && Sized(g, m) && Sized(g, Close(m)) && |done| == |g|
    requires Sealed(g, m) && Decided(g, c, m, cyclic) && Taken(g, m, done, |g|) && Exhausted(g, m, done)
    ensures Sealed(g, Close(m)) && Decided(g, c, Close(m), cyclic) && Taken(g, Close(m), Bump(done, Top(m)), |g|)
  {
    assert forall x: nat :: Left(g, Close(m), x) <==> Left(g, m, x);
  }

  /** Closing a frame inside a larger component hands its `low` to its parent. */
  lemma CloseInner(g: Graph, r: Relation, c: iset<nat>, m: Marks, low: seq<int>, done: seq<nat>, cyclic: set<nat>)
    requires Inv(g, r, c, m, low, done, cyclic) && Exhausted(g, m, done) && low[Top(m)] != m.order[Top(m)]
    ensures Inv(g, r, c, Close(m), Merged(m, low), Bump(done, Top(m)), cyclic)
  {
    assert m.onStack[m.path[|m.path| - 1]];
    CloseCounted(g, m, done);
    CloseShape(g, r, m);
    CloseSealed(g, c, m, done, cyclic);
    CloseUp(g, r, m, low);
    CloseLowSound(g, r, m, low);
    CloseLowComplete(g, r, m, low, done);
  }

  // ----- closing the root of a component

  /** `x` belongs to the component whose root is the innermost frame. */
  ghost predicate Member(g: Graph, m: Marks, x: nat)
    requires Sized(g, m) && |m.path| > 0
  {
    x < |g| && m.onStack[x] && m.order[Top(m)] <= m.order[x]
  }

  /** `t` is `m` with the innermost frame closed and its component, which starts
      at `pos` on the stack, taken off. */
  ghost predicate Cuts(g: Graph, m: Marks, pos: nat, t: Marks)
    requires Sized(g, m)
  {
    && |m.path| > 0 && pos < |m.stack| && m.stack[pos] == Top(m)
    && t.order == m.order && t.next == m.next && t.stack == m.stack[..pos]
    && t.path == m.path[..|m.path| - 1] && |t.onStack| == |g|
    && (forall x: nat :: x < |g| ==> t.onStack[x] == (m.onStack[x] && m.order[x] < m.order[Top(m)]))
  }

  ghost predicate Roots(g: Graph, m: Marks, low: seq<int>, done: seq<nat>)
    requires Sized(g, m) && |low| == |done| == |g|
  {
    Exhausted(g, m, done) && low[Top(m)] == m.order[Top(m)]
  }

  lemma CutStacked(g: Graph, m: Marks, pos: nat, t: Marks)
    requires Sized(g, m) && Stacked(g, m) && Cuts(g, m, pos, t)
    ensures Sized(g, t) && Stacked(g, t)
  {
    forall x: nat | x < |g| && t.onStack[x] ensures x in t.stack {
      assert x in m.stack;
      var k :| 0 <= k < |m.stack| && m.stack[k] == x;
      assert t.stack[k] == x;
    }
    forall k | 0 <= k < |t.stack| ensures t.onStack[t.stack[k]] {
      assert m.order[m.stack[k]] < m.order[m.stack[pos]];
    }
  }

  lemma CutFramed(g: Graph, r: Relation, m: Marks, pos: nat, t: Marks)
    requires Sized(g, m) && Framed(g, m) && Down(g, r, m) && Cuts(g, m, pos, t) && Sized(g, t)
    ensures Framed(g, t) && Down(g, r, t)
  {
    forall i | 0 <= i < |t.path| ensures t.onStack[t.path[i]] {
      assert m.order[m.path[i]] < m.order[m.path[|m.path| - 1]];
    }
  }

  lemma CutUp(g: Graph, r: Relation, m: Marks, pos: nat, t: Marks)
    requires Sized(g, m) && Up(g, r, m) && Cuts(g, m, pos, t) && Sized(g, t)
    ensures Up(g, r, t)
  {
    forall x: nat | x < |g| && t.onStack[x] ensures Climbs(g, r, t, x) {
      assert Climbs(g, r, m, x);
      var i :| UpTo(g, r, m, x, i);
      assert UpTo(g, r, t, x, i);
    }
  }

  lemma CutLowSound(g: Graph, r: Relation, m: Marks, low: seq<int>, done: seq<nat>, pos: nat, t: Marks)
    requires Sized(g, m) && Framed(g, m) && |low| == |done| == |g| && LowSound(g, r, m, low)
    requires Roots(g, m, low, done) && Cuts(g, m, pos, t) && Sized(g, t)
    ensures Merged(m, low) == low && LowSound(g, r, t, low)
  {
    var n := |m.path| - 1;
    if n > 0 {
      assert m.order[m.path[n - 1]] < m.order[m.path[n]];
    }
    forall i | 0 <= i < |t.path| ensures LowOk(g, r, t, low, t.path[i]) {
      assert LowOk(g, r, m, low, m.path[i]);
      var w :| LowAt(g, r, m, low, m.path[i], w);
      assert m.order[m.path[i]] < m.order[m.path[n]];
      assert LowAt(g, r, t, low, t.path[i], w);
    }
  }

  lemma CutLowComplete(g: Graph, m: Marks, low: seq<int>, done: seq<nat>, pos: nat, t: Marks)
    requires WellFormed(g) && Sized(g, m) && |low| == |done| == |g| && LowComplete(g, m, low, done)
    requires Roots(g, m, low, done) && Cuts(g, m, pos, t) && Sized(g, t)
    ensures LowComplete(g, t, low, Bump(done, Top(m)))
  {
    var d := Bump(done, Top(m));
    forall i: nat, x, j | i < |t.path| && 0 <= x < |g| && t.onStack[x] && t.order[t.path[i]] <= t.order[x]
      && 0 <= j < |g[x]| && j < d[x] && t.onStack[g[x][j]]
      ensures LowBelow(g, t, low, i, t.order[g[x][j]])
    {
      assert LowBelow(g, m, low, i, m.order[g[x][j]]);
      var k :| i <= k < |m.path| && low[m.path[k]] <= m.order[g[x][j]];
      assert low[t.path[k]] <= t.order[g[x][j]];
    }
  }

  /** A member of the closed component has had every edge taken. */
  lemma MemberDone(g: Graph, m: Marks, done: seq<nat>, x: nat)
    requires Sized(g, m) && |done| == |g| && Framed(g, m) && Counted(g, m, done) && Exhausted(g, m, done)
    requires Member(g, m, x)
    requires m.order[x] != UNSEEN
    ensures done[x] >= |g[x]|
  {
    if x in m.path {
      var i :| 0 <= i < |m.path| && m.path[i] == x;
    }
  }

  lemma CutSealed(g: Graph, m: Marks, low: seq<int>, done: seq<nat>, pos: nat, t: Marks)
    requires WellFormed(g) && Sized(g, m) && Stacked(g, m) && Framed(g, m) && |low| == |done| == |g|
    requires Counted(g, m, done) && LowComplete(g, m, low, done) && Taken(g, m, done, |g|) && Sealed(g, m)
    requires Roots(g, m, low, done) && Cuts(g, m, pos, t) && Sized(g, t)
    ensures Sealed(g, t)
  {
    forall x: nat, j | Left(g, t, x) && 0 <= j < |g[x]| ensures Left(g, t, g[x][j]) {
      var w := g[x][j];
      if Left(g, m, x) {
        assert Left(g, m, w);
      } else {
        MemberDone(g, m, done, x);
        if m.onStack[w] {
          assert LowBelow(g, m, low, |m.path| - 1, m.order[g[x][j]]);
        }
      }
    }
  }

  lemma CutCounted(g: Graph, m: Marks, done: seq<nat>, pos: nat, t: Marks)
    requires WellFormed(g) && Sized(g, m) && Framed(g, m) && |done| == |g| && Cuts(g, m, pos, t) && Sized(g, t)
    requires Counted(g, m, done) && Taken(g, m, done, |g|) && Exhausted(g, m, done) && m.order[Top(m)] != UNSEEN
    ensures Counted(g, t, Bump(done, Top(m))) && Taken(g, t, Bump(done, Top(m)), |g|)
  {
    CloseCounted(g, m, done);
    assert t.path == Close(m).path;
  }

  // ----- what a component decides

  ghost function Reachability(g: Graph): Relation {
    iset p: (nat, nat) | Reaches(g, p.0, p.1)
  }

  ghost function Cyclic(g: Graph): iset<nat> {
    iset v: nat | OnCycle(g, v)
  }

  lemma ReachabilityPreorder(g: Graph)
    requires WellFormed(g)
    ensures Preorder(g, Reachability(g))
  {
    forall v: nat | v < |g| ensures Reaches(g, v, v) { ReachesSelf(g, v); }
    forall u: nat, v: nat | u < |g| && v in g[u] ensures Reaches(g, u, v) {
      var j :| 0 <= j < |g[u]| && g[u][j] == v;
      ReachesEdge(g, u, v);
    }
    forall u: nat, v: nat, w: nat {:trigger Via(u, v, w)} | Reaches(g, u, v) && Reaches(g, v, w)
      ensures Reaches(g, u, w)
    {
      ReachesTrans(g, u, v, w);
    }
  }

  lemma MemberMeetsRoot(g: Graph, r: Relation, m: Marks, x: nat)
    requires Preorder(g, r) && Sized(g, m) && |m.path| > 0 && Framed(g, m) && Down(g, r, m) && Up(g, r, m)
    requires Member(g, m, x)
    ensures (x, Top(m)) in r && (Top(m), x) in r
  {
    var n := |m.path| - 1;
    assert m.order[m.path[n]] <= m.order[x];
    assert Climbs(g, r, m, x);
    var i: nat :| UpTo(g, r, m, x, i);
    if i < n {
      assert m.order[m.path[i]] < m.order[m.path[n]];
    }
    assert Via(x, m.path[i], Top(m));
  }

  /** Every member of a closed component is on a cycle exactly when the component
      has a second member or its root has an edge to itself. */
  lemma MembersOnCycle(g: Graph, r: Relation, m: Marks, t: Marks, pos: nat, x: nat)
    requires r == Reachability(g)
    requires WellFormed(g) && Preorder(g, r) && Sized(g, m) && Framed(g, m) && Down(g, r, m) && Up(g, r, m)
    requires Cuts(g, m, pos, t) && Sized(g, t) && Sealed(g, m) && Sealed(g, t) && Stacked(g, m) && Member(g, m, x)
    ensures OnCycle(g, x) <==> (exists y :: y != x && Member(g, m, y)) || Top(m) in g[Top(m)]
  {
    var v := Top(m);
    assert Member(g, m, v) by { assert m.onStack[m.path[|m.path| - 1]]; }
    MemberMeetsRoot(g, r, m, x);
    if y: nat :| y != x && Member(g, m, y) {
      MemberMeetsRoot(g, r, m, y);
      ReachesTrans(g, x, v, y);
      ReachesTrans(g, y, v, x);
      MutualOnCycle(g, x, y);
    } else if OnCycle(g, x) {
      AloneOnCycle(g, m, t, pos, x);
    } else if v in g[v] {
      assert x == v;
      CycleByEdge(g, v);
    }
  }

  /** A component of one member is on a cycle only through an edge to itself. */
  lemma AloneOnCycle(g: Graph, m: Marks, t: Marks, pos: nat, x: nat)
    requires WellFormed(g) && Sized(g, m) && Cuts(g, m, pos, t) && Sized(g, t) && Sealed(g, m) && Sealed(g, t)
    requires Stacked(g, m)
    requires Member(g, m, x) && (forall y :: Member(g, m, y) ==> y == x) && OnCycle(g, x)
    ensures x in g[x]
  {
    CycleByEdge(g, x);
    var w :| w in g[x] && w < |g| && Reaches(g, w, x);
    var j :| 0 <= j < |g[x]| && g[x][j] == w;
    assert Left(g, t, x);
    assert Left(g, t, g[x][j]);
    if w != x {
      assert !Member(g, m, w);
      assert Left(g, m, w);
      var gone := set u: nat | u < |g| && Left(g, m, u);
      ClosedSet(g, gone, w, x);
    }
  }

  lemma MembersAreSuffix(g: Graph, m: Marks, t: Marks, pos: nat, x: nat)
    requires Sized(g, m) && Stacked(g, m) && Cuts(g, m, pos, t) && Sized(g, t)
    ensures Member(g, m, x) <==> x in m.stack[pos..]
  {
    if Member(g, m, x) {
      assert x in m.stack;
      var k :| 0 <= k < |m.stack| && m.stack[k] == x;
      assert m.stack[pos..][k - pos] == x;
    }
    if x in m.stack[pos..] {
      var k :| 0 <= k < |m.stack[pos..]| && m.stack[pos..][k] == x;
      assert m.stack[pos + k] == x;
    }
  }

  lemma SecondMember(g: Graph, m: Marks, t: Marks, pos: nat, x: nat)
    requires Sized(g, m) && Stacked(g, m) && Cuts(g, m, pos, t) && Sized(g, t) && Member(g, m, x)
    ensures (exists y :: y != x && Member(g, m, y)) <==> |m.stack| - pos > 1
  {
    if y: nat :| y != x && Member(g, m, y) {
      MembersAreSuffix(g, m, t, pos, x);
      MembersAreSuffix(g, m, t, pos, y);
    }
    if |m.stack| - pos > 1 {
      assert m.order[m.stack[pos]] < m.order[m.stack[pos + 1]];
      assert Member(g, m, m.stack[pos]) && Member(g, m, m.stack[pos + 1]);
    }
  }

  ghost function Verdict(g: Graph, m: Marks, pos: nat, cyclic: set<nat>): set<nat>
    requires |m.path| > 0 && Top(m) < |g| && pos <= |m.stack|
  {
    if |m.stack| - pos > 1 || Top(m) in g[Top(m)] then cyclic + (set x | x in m.stack[pos..]) else cyclic
  }

  lemma CutDecided(g: Graph, r: Relation, m: Marks, pos: nat, t: Marks, cyclic: set<nat>)
    requires r == Reachability(g)
    requires WellFormed(g) && Preorder(g, r) && Sized(g, m) && Framed(g, m) && Down(g, r, m) && Up(g, r, m)
    requires Cuts(g, m, pos, t) && Sized(g, t) && Sealed(g, m) && Sealed(g, t) && Stacked(g, m)
    requires Decided(g, Cyclic(g), m, cyclic)
    ensures Decided(g, Cyclic(g), t, Verdict(g, m, pos, cyclic))
  {
    forall x: nat ensures x in Verdict(g, m, pos, cyclic) <==> Left(g, t, x) && x in Cyclic(g) {
      MembersAreSuffix(g, m, t, pos, x);
      if Member(g, m, x) {
        MembersOnCycle(g, r, m, t, pos, x);
        SecondMember(g, m, t, pos, x);
      } else {
        assert Left(g, t, x) <==> Left(g, m, x);
      }
    }
  }

  /** Closing the root of a component takes the component off the stack and decides it. */
  lemma CloseRoot(g: Graph, r: Relation, m: Marks, low: seq<int>, done: seq<nat>, cyclic: set<nat>, pos: nat, t: Marks)
    requires r == Reachability(g)
    requires Inv(g, r, Cyclic(g), m, low, done, cyclic) && Roots(g, m, low, done) && Cuts(g, m, pos, t)
    ensures Inv(g, r, Cyclic(g), t, Merged(m, low), Bump(done, Top(m)), Verdict(g, m, pos, cyclic))
  {
    assert m.onStack[m.path[|m.path| - 1]];
    CutStacked(g, m, pos, t);
    CutFramed(g, r, m, pos, t);
    CutUp(g, r, m, pos, t);
    CutSealed(g, m, low, done, pos, t);
    CutCounted(g, m, done, pos, t);
    CutLowSound(g, r, m, low, done, pos, t);
    CutLowComplete(g, m, low, done, pos, t);
    CutDecided(g, r, m, pos, t, cyclic);
  }

  // ----- the pass

  ghost predicate Bumped(was: seq<nat>, v: nat, now: seq<nat>) { v < |was| && now == Bump(was, v) }

  ghost function Sum(s: seq<nat>): nat {
    if s == [] then 0 else s[0] + Sum(s[1..])
  }

  /** One step per edge of every position, and one to close each position. */
  ghost function Size(g: Graph): nat {
    if g == [] then 0 else |g[0]| + 1 + Size(g[1..])
  }

  lemma {:induction false} SumBump(s: seq<nat>, v: nat)
    requires v < |s|
    ensures Sum(Bump(s, v)) == Sum(s) + 1
  {
    if v > 0 {
      SumBump(s[1..], v - 1);
      assert Bump(s, v)[1..] == Bump(s[1..], v - 1);
    } else {
      assert Bump(s, v)[1..] == s[1..];
    }
  }

  /** Takes the component whose root is `node` off the stack. */
  method PopComponent(onStack: array<bool>, stack: seq<nat>, node: nat, ghost pos: nat)
    returns (rest: seq<nat>, members: seq<nat>)
    requires pos < |stack| && stack[pos] == node
    requires forall i :: 0 <= i < |stack| ==> stack[i] < onStack.Length
    requires forall i :: pos < i < |stack| ==> stack[i] != node
    modifies onStack
    ensures rest == stack[..pos] && |members| == |stack| - pos
    ensures forall x :: x in members <==> x in stack[pos..]
    ensures forall x: nat :: x < onStack.Length ==> onStack[x] == (old(onStack[x]) && x !in stack[pos..])
  {
    rest, members := stack, [];
    while |rest| > 0
      invariant pos < |rest| <= |stack| && rest == stack[..|rest|]
      invariant |members| == |stack| - |rest|
      invariant forall x :: x in members <==> x in stack[|rest|..]
      invariant forall x: nat :: x < onStack.Length ==> onStack[x] == (old(onStack[x]) && x !in stack[|rest|..])
      decreases |rest|
    {
      var k := |rest| - 1;
      var member := rest[k];
      rest := rest[..k];
      onStack[member] := false;
      members := members + [member];
      assert stack[k..] == [member] + stack[k + 1..];
      if member == node { break; }
    }
  }

  lemma RootPosition(g: Graph, r: Relation, c: iset<nat>, m: Marks, low: seq<int>, done: seq<nat>, cyclic: set<nat>)
    returns (pos: nat)
    requires Inv(g, r, c, m, low, done, cyclic) && |m.path| > 0
    ensures pos < |m.stack| && m.stack[pos] == Top(m)
    ensures forall i :: 0 <= i < |m.stack| ==> m.stack[i] < |g|
    ensures forall i :: pos < i < |m.stack| ==> m.stack[i] != Top(m)
  {
    assert m.onStack[m.path[|m.path| - 1]];
    assert Top(m) in m.stack;
    pos :| pos < |m.stack| && m.stack[pos] == Top(m);
  }

  lemma OpenFacts(g: Graph, r: Relation, c: iset<nat>, m: Marks, low: seq<int>, done: seq<nat>, cyclic: set<nat>)
    requires Inv(g, r, c, m, low, done, cyclic) && |m.path| > 0
    ensures forall i :: 0 <= i < |m.path| - 1 ==> m.path[i] != Top(m)
    ensures m.order[Top(m)] != UNSEEN && forall v :: 0 <= v < |g| && m.order[v] == UNSEEN ==> done[v] == 0
  {
    assert m.onStack[m.path[|m.path| - 1]];
    assert forall i :: 0 <= i < |m.path| - 1 ==> m.order[m.path[i]] < m.order[m.path[|m.path| - 1]];
  }

  lemma CutByPop(g: Graph, r: Relation, c: iset<nat>, m: Marks, low: seq<int>, done: seq<nat>, cyclic: set<nat>,
                 pos: nat, t: Marks)
    requires Inv(g, r, c, m, low, done, cyclic) && |m.path| > 0 && pos < |m.stack| && m.stack[pos] == Top(m)
    requires t.order == m.order && t.next == m.next && t.stack == m.stack[..pos]
    requires t.path == m.path[..|m.path| - 1] && |t.onStack| == |g|
    requires forall x: nat :: x < |g| ==> t.onStack[x] == (m.onStack[x] && x !in m.stack[pos..])
    ensures Cuts(g, m, pos, t)
  {
    forall x: nat | x < |g| && m.onStack[x] ensures x in m.stack[pos..] <==> m.order[Top(m)] <= m.order[x] {
      assert x in m.stack;
      var k :| 0 <= k < |m.stack| && m.stack[k] == x;
      if k >= pos { assert m.stack[pos..][k - pos] == x; }
    }
  }

  lemma FinalVerdict(g: Graph, r: Relation, m: Marks, low: seq<int>, done: seq<nat>, cyclic: set<nat>)
    requires Inv(g, r, Cyclic(g), m, low, done, cyclic) && m.path == []
    requires forall v :: 0 <= v < |g| ==> m.order[v] != UNSEEN
    ensures forall v: nat :: v in cyclic <==> v < |g| && OnCycle(g, v)
    ensures forall v :: 0 <= v < |g| ==> done[v] == |g[v]| + 1
  {
    forall x: nat | x < |g| ensures Left(g, m, x) {
      assert m.onStack[x] ==> Climbs(g, r, m, x);
    }
    forall v: nat | OnCycle(g, v) ensures v < |g| { CycleByEdge(g, v); }
  }

  lemma {:induction false} SumAtMost(g: Graph, done: seq<nat>)
    requires |done| == |g| && forall v :: 0 <= v < |g| ==> done[v] <= |g[v]| + 1
    ensures Sum(done) <= Size(g)
  {
    if g != [] { SumAtMost(g[1..], done[1..]); }
  }

  lemma FrameBounded(g: Graph, r: Relation, c: iset<nat>, m: Marks, low: seq<int>, done: seq<nat>, cyclic: set<nat>)
    requires Inv(g, r, c, m, low, done, cyclic) && |m.path| > 0
    ensures done[Top(m)] <= |g[Top(m)]|
  {
    assert done[m.path[|m.path| - 1]] <= |g[m.path[|m.path| - 1]]|;
  }

  /** The steps taken never exceed the size of the graph. */
  lemma StepsBounded(g: Graph, r: Relation, c: iset<nat>, m: Marks, low: seq<int>, done: seq<nat>, cyclic: set<nat>)
    requires Inv(g, r, c, m, low, done, cyclic)
    ensures Sum(done) <= Size(g)
  {
    forall v | 0 <= v < |g| ensures done[v] <= |g[v]| + 1 {
      assert v in m.path ==> exists i :: 0 <= i < |m.path| && m.path[i] == v;
    }
    SumAtMost(g, done);
  }

  /** The frames are the open path, each with the edges taken so far. */
  ghost predicate Tracked(frames: seq<(nat, nat)>, path: seq<nat>, done: seq<nat>) {
    && |frames| == |path|
    && forall i :: 0 <= i < |frames| ==>
        frames[i].0 == path[i] && frames[i].0 < |done| && frames[i].1 == done[frames[i].0]
  }

  lemma TrackedTop(frames: seq<(nat, nat)>, path: seq<nat>, done: seq<nat>)
    requires Tracked(frames, path, done) && frames != []
    ensures var (node, taken) := frames[|frames| - 1];
      |path| == |frames| && path[|path| - 1] == node < |done| && taken == done[node]
  {
  }

  lemma TrackedAlike(frames: seq<(nat, nat)>, path: seq<nat>, done: seq<nat>)
    requires Tracked(frames, path, done)
    ensures |frames| == |path|
  {
  }

  lemma TrackedNodes(frames: seq<(nat, nat)>, path: seq<nat>, done: seq<nat>)
    requires Tracked(frames, path, done)
    ensures forall i :: 0 <= i < |path| ==> path[i] < |done|
  {
  }

  lemma TrackedTake(frames: seq<(nat, nat)>, path: seq<nat>, done: seq<nat>)
    requires Tracked(frames, path, done) && frames != []
    requires forall i :: 0 <= i < |path| - 1 ==> path[i] != path[|path| - 1]
    ensures var last := |frames| - 1;
      var (node, taken) := frames[last];
      Tracked(frames[last := (node, taken + 1)], path, Bump(done, node))
  {
  }

  lemma TrackedOpen(frames: seq<(nat, nat)>, path: seq<nat>, done: seq<nat>, v: nat)
    requires Tracked(frames, path, done) && v < |done| && done[v] == 0
    ensures Tracked(frames + [(v, 0)], path + [v], done)
  {
  }

  lemma TrackedClose(frames: seq<(nat, nat)>, path: seq<nat>, done: seq<nat>)
    requires Tracked(frames, path, done) && frames != []
    requires forall i :: 0 <= i < |path| - 1 ==> path[i] != path[|path| - 1]
    ensures var last := |frames| - 1;
      Tracked(frames[..last], path[..last], Bump(done, frames[last].0))
  {
  }

  /** The tables of one pass over `edges`. */
  class Pass {
    const edges: Graph
    const order: array<int>
    const low: array<int>
    const onStack: array<bool>
    var stack: seq<nat>
    var nextOrder: nat
    var cyclic: set<nat>
    var frames: seq<(nat, nat)>
    ghost var path: seq<nat>
    ghost var done: seq<nat>

    ghost function Snapshot(): Marks
      reads this, order, onStack
    {
      Marks(order[..], onStack[..], stack, path, nextOrder)
    }

    ghost predicate Valid()
      reads this, order, low, onStack
    {
      && order != low
      && order.Length == low.Length == onStack.Length == |edges| == |done|
      && WellFormed(edges) && Tracked(frames, path, done)
      && Inv(edges, Reachability(edges), Cyclic(edges), Snapshot(), low[..], done, cyclic)
    }

    constructor (g: Graph)
      requires WellFormed(g)
      ensures Valid() && frames == [] && edges == g && done == seq(|g|, _ => 0)
      ensures forall v :: 0 <= v < |g| ==> order[v] == UNSEEN
      ensures fresh(order) && fresh(low) && fresh(onStack)
    {
      edges := g;
      order := new int[|g|](_ => UNSEEN);
      low := new int[|g|](_ => 0);
      onStack := new bool[|g|](_ => false);
      stack, nextOrder, cyclic, frames, path := [], 0, {}, [], [];
      done := seq(|g|, _ => 0);
      new;
      ReachabilityPreorder(g);
    }

    method Open(v: nat)
      requires v < |edges| && order.Length == low.Length == onStack.Length == |edges| && order != low
      requires order[v] == UNSEEN
      modifies this, order, low, onStack
      ensures Snapshot() == old(Push(Snapshot(), v))
      ensures forall u :: 0 <= u < |edges| ==> order[u] == if u == v then old(nextOrder) else old(order[u])
      ensures low[..] == old(low[..])[v := old(nextOrder)]
      ensures frames == old(frames) + [(v, 0)] && path == old(path) + [v]
      ensures cyclic == old(cyclic) && done == old(done)
    {
      order[v] := nextOrder;
      low[v] := nextOrder;
      nextOrder := nextOrder + 1;
      stack := stack + [v];
      onStack[v] := true;
      frames := frames + [(v, 0)];
      path := path + [v];
    }

    /** Opens a fresh root. */
    method OpenRoot(root: nat)
      requires Valid() && frames == [] && root < |edges| && order[root] == UNSEEN
      modifies this, order, low, onStack
      ensures Valid() && frames != [] && done == old(done)
      ensures order[..] == old(order[..])[root := old(nextOrder)] && order[root] != UNSEEN
    {
      PushInv(edges, Reachability(edges), Cyclic(edges), Snapshot(), root, low[..], done, cyclic);
      TrackedOpen(frames, path, done, root);
      Open(root);
    }

    /** Takes the next edge of the innermost frame. */
    method TakeEdge()
      requires Valid() && frames != []
      requires frames[|frames| - 1].1 < |edges[frames[|frames| - 1].0]|
      modifies this, order, low, onStack
      ensures Valid() && Bumped(old(done), old(frames[|frames| - 1].0), done)
      ensures forall v :: 0 <= v < |edges| && old(order[v]) != UNSEEN ==> order[v] != UNSEEN
    {
      hide Inv, Reachability, Cyclic, Tracked;
      TrackedTop(frames, path, done);
      var last := |frames| - 1;
      var (node, taken) := frames[last];
      var target := edges[node][taken];
      ghost var m, r, c := Snapshot(), Reachability(edges), Cyclic(edges);
      OpenFacts(edges, r, c, m, low[..], done, cyclic);
      TrackedTake(frames, path, done);
      frames := frames[last := (node, taken + 1)];
      if order[target] == UNSEEN {
        TakeFresh(edges, r, c, m, low[..], done, cyclic, node, target);
        done := Bump(done, node);
        TrackedOpen(frames, path, done, target);
        Open(target);
      } else if onStack[target] {
        TakeStacked(edges, r, c, m, low[..], done, cyclic, node, target);
        done := Bump(done, node);
        low[node] := if low[node] <= order[target] then low[node] else order[target];
      } else {
        TakeLeft(edges, r, c, m, low[..], done, cyclic, node, target);
        done := Bump(done, node);
      }
    }

    /** Takes the component whose root `node` has just been closed off the stack. */
    method CloseComponent(node: nat, ghost m: Marks, ghost l: seq<int>, ghost d: seq<nat>)
      requires WellFormed(edges) && order.Length == low.Length == onStack.Length == |edges| == |d|
      requires Inv(edges, Reachability(edges), Cyclic(edges), m, l, d, cyclic) && Roots(edges, m, l, d)
      requires node == Top(m)
      requires Snapshot() == Close(m)
      modifies this`stack, this`cyclic, onStack
      ensures Inv(edges, Reachability(edges), Cyclic(edges), Snapshot(), Merged(m, l), Bump(d, node), cyclic)
      ensures Snapshot().path == Close(m).path
    {
      hide Inv, Reachability, Cyclic;
      ghost var r, c := Reachability(edges), Cyclic(edges);
      ghost var pos := RootPosition(edges, r, c, m, l, d, cyclic);
      var members;
      stack, members := PopComponent(onStack, stack, node, pos);
      ghost var before := cyclic;
      if |members| > 1 || node in edges[node] {
        cyclic := cyclic + set x | x in members;
      }
      assert cyclic == Verdict(edges, m, pos, before);
      CutByPop(edges, r, c, m, l, d, before, pos, Snapshot());
      CloseRoot(edges, r, m, l, d, before, pos, Snapshot());
    }

    /** Drops the innermost frame and lowers its parent to it. */
    method PopFrame()
      requires order != low && low.Length == |edges| == |done|
      requires frames != [] && Tracked(frames, path, done)
      requires forall i :: 0 <= i < |path| - 1 ==> path[i] != path[|path| - 1]
      modifies this`frames, this`path, this`done, low
      ensures old(|path| > 0 && path[|path| - 1] == frames[|frames| - 1].0 < |done|)
      ensures frames == old(frames[..|frames| - 1]) && path == old(path[..|path| - 1])
      ensures done == old(Bump(done, path[|path| - 1])) && Tracked(frames, path, done)
      ensures low[..] == old(if |path| == 1 then low[..]
                             else Lowered(low[..], path[|path| - 2], low[path[|path| - 1]]))
    {
      TrackedTop(frames, path, done);
      TrackedClose(frames, path, done);
      hide Tracked;
      var last := |frames| - 1;
      var node := frames[last].0;
      frames, path, done := frames[..last], path[..last], Bump(done, node);
      if last > 0 {
        TrackedTop(frames, path, done);
        var parent := frames[last - 1].0;
        low[parent] := if low[parent] <= low[node] then low[parent] else low[node];
      }
    }

    /** Closes the innermost frame, and its component if the frame is its root. */
    method CloseFrame()
      requires Valid() && frames != []
      requires frames[|frames| - 1].1 == |edges[frames[|frames| - 1].0]|
      modifies this, low, onStack
      ensures Valid() && Bumped(old(done), old(frames[|frames| - 1].0), done)
      ensures |frames| == |old(frames)| - 1 && order[..] == old(order[..])
    {
      hide Inv, Reachability, Cyclic, Tracked;
      TrackedTop(frames, path, done);
      var node := frames[|frames| - 1].0;
      ghost var m, l, d, r, c := Snapshot(), low[..], done, Reachability(edges), Cyclic(edges);
      OpenFacts(edges, r, c, m, l, d, cyclic);
      TrackedNodes(frames, path, done);
      PopFrame();
      assert low[..] == Merged(m, l) && low[node] == l[node];
      if low[node] == order[node] {
        CloseComponent(node, m, l, d);
      } else {
        CloseInner(edges, r, c, m, l, d, cyclic);
      }
    }
  }

  /** The positions that reach themselves through one or more edges. Every position
      is stepped at once for each of its edges and once to close it. */
  method TypesOnACycle(g: Graph) returns (cyclic: set<nat>, ghost steps: seq<nat>)
    requires WellFormed(g)
    ensures forall v: nat :: v in cyclic <==> v < |g| && OnCycle(g, v)
    ensures |steps| == |g| && forall v :: 0 <= v < |g| ==> steps[v] == |g[v]| + 1
  {
    hide Inv, Reachability, Cyclic, Sum, Tracked;
    var p := new Pass(g);
    steps := seq(|g|, _ => 0);
    ghost var r, c := Reachability(g), Cyclic(g);
    for root := 0 to |g|
      invariant p.Valid() && p.frames == [] && p.edges == g && steps == p.done
      invariant fresh(p) && fresh(p.order) && fresh(p.low) && fresh(p.onStack)
      invariant forall v :: 0 <= v < root ==> p.order[v] != UNSEEN
    {
      if p.order[root] != UNSEEN { continue; }
      p.OpenRoot(root);
      while p.frames != []
        invariant p.Valid() && p.edges == g && steps == p.done
        invariant forall v :: 0 <= v <= root ==> p.order[v] != UNSEEN
        decreases Size(g) - Sum(steps)
      {
        TrackedTop(p.frames, p.path, p.done);
        var (node, taken) := p.frames[|p.frames| - 1];
        FrameBounded(g, r, c, p.Snapshot(), p.low[..], p.done, p.cyclic);
        if taken < |g[node]| {
          p.TakeEdge();
        } else {
          p.CloseFrame();
        }
        SumBump(steps, node);
        steps := Bump(steps, node);
        StepsBounded(g, r, c, p.Snapshot(), p.low[..], p.done, p.cyclic);
      }
    }
    cyclic := p.cyclic;
    TrackedAlike(p.frames, p.path, p.done);
    FinalVerdict(g, r, p.Snapshot(), p.low[..], p.done, p.cyclic);
  }
}
