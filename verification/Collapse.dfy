/** One row per deepest distinct failing location, branches of one cascade folded
    into the location that guards them. */
module Collapse {
  import opened Wrappers
  import opened Members

  // ----- locations

  /** `path` lies strictly beneath `ancestor`. */
  predicate Beneath(path: string, ancestor: string) { ancestor + "/" <= path }

  ghost predicate Comparable(a: string, b: string) { a == b || Beneath(a, b) || Beneath(b, a) }

  function Codes(s: string): seq<nat> { seq(|s|, i requires 0 <= i < |s| => s[i] as int) }

  /** String order, by code point. */
  predicate Less(a: string, b: string) { Precedes(Codes(a), Codes(b)) }

  lemma CodesInjective(a: string, b: string)
    requires Codes(a) == Codes(b)
    ensures a == b
  {
    forall i | 0 <= i < |a| ensures a[i] == b[i] { assert Codes(a)[i] == Codes(b)[i]; }
  }

  lemma LessOrder(a: string, b: string)
    ensures a == b || Less(a, b) || Less(b, a)
    ensures !(Less(a, b) && Less(b, a)) && !Less(a, a)
  {
    PrecedesTotal(Codes(a), Codes(b));
    if Codes(a) == Codes(b) { CodesInjective(a, b); }
  }

  lemma LessTrans(a: string, b: string, c: string)
    requires Less(a, b) && Less(b, c)
    ensures Less(a, c)
  {
    PrecedesTrans(Codes(a), Codes(b), Codes(c));
  }

  lemma {:induction false} PrefixPrecedes(a: seq<nat>, b: seq<nat>)
    requires a < b
    ensures Precedes(a, b)
  {
    if a != [] {
      assert b[0] == a[0] && a[1..] < b[1..];
      PrefixPrecedes(a[1..], b[1..]);
    }
  }

  /** A location sorts before everything beneath it. */
  lemma AncestorFirst(path: string, ancestor: string)
    requires Beneath(path, ancestor)
    ensures Less(ancestor, path) && path != ancestor
  {
    assert path[..|ancestor|] == ancestor;
    assert Codes(ancestor) == Codes(path)[..|ancestor|];
    PrefixPrecedes(Codes(ancestor), Codes(path));
  }

  lemma BeneathTrans(a: string, b: string, c: string)
    requires Beneath(a, b) && Beneath(b, c)
    ensures Beneath(a, c)
  {
  }

  /** Two locations above the same one are comparable. */
  lemma AncestorsCompare(path: string, a: string, b: string)
    requires Beneath(path, a) && Beneath(path, b)
    ensures Comparable(a, b)
  {
    assert path[..|a|] == a && path[..|b|] == b;
    if |a| == |b| {
      assert a == b;
    } else if |a| < |b| {
      assert b == path[..|b|] && a + "/" == path[..|a| + 1] == b[..|a| + 1];
    } else {
      assert a == path[..|a|] && b + "/" == path[..|b| + 1] == a[..|b| + 1];
    }
  }

  // ----- sorting

  ghost predicate Sorted(s: seq<string>) { forall i, j :: 0 <= i < j < |s| ==> Less(s[i], s[j]) }

  function InsertPath(p: string, s: seq<string>): seq<string> {
    if s == [] || !Less(s[0], p) then [p] + s else [s[0]] + InsertPath(p, s[1..])
  }

  function SortPaths(s: seq<string>): seq<string> {
    if s == [] then [] else InsertPath(s[0], SortPaths(s[1..]))
  }

  lemma {:induction false} InsertKeeps(p: string, s: seq<string>, x: string)
    ensures x in InsertPath(p, s) <==> x == p || x in s
  {
    hide Less;
    if s != [] && Less(s[0], p) {
      InsertKeeps(p, s[1..], x);
      assert s == [s[0]] + s[1..];
    }
  }

  lemma {:induction false} InsertSorts(p: string, s: seq<string>)
    requires Sorted(s) && p !in s
    ensures Sorted(InsertPath(p, s))
  {
    hide Less;
    if s != [] {
      LessOrder(s[0], p);
      if Less(s[0], p) {
        InsertSorts(p, s[1..]);
        var rest := InsertPath(p, s[1..]);
        forall j | 0 <= j < |rest| ensures Less(s[0], rest[j]) { InsertKeeps(p, s[1..], rest[j]); }
      } else {
        forall j | 0 <= j < |s| ensures Less(p, s[j]) {
          if j > 0 { LessTrans(p, s[0], s[j]); }
        }
      }
    }
  }

  /** Sorting keeps the paths and puts them in strict order. */
  lemma {:induction false} SortSorts(s: seq<string>)
    requires NoRepeats(s)
    ensures Sorted(SortPaths(s)) && forall x :: x in SortPaths(s) <==> x in s
    decreases |s|
  {
    hide InsertPath, Less, Sorted;
    if s == [] {
      assert Sorted([]) by { EmptySorted(); }
    } else {
      SortSorts(s[1..]);
      assert s == [s[0]] + s[1..];
      InsertSorts(s[0], SortPaths(s[1..]));
      forall x ensures x in SortPaths(s) <==> x in s { InsertKeeps(s[0], SortPaths(s[1..]), x); }
    }
  }

  lemma EmptySorted()
    ensures Sorted([])
  {
  }

  // ----- folding

  function Under(s: seq<string>, ancestor: string): seq<string> {
    if s == [] then [] else (if Beneath(s[0], ancestor) then [s[0]] else []) + Under(s[1..], ancestor)
  }

  function Outside(s: seq<string>, ancestor: string): seq<string> {
    if s == [] then [] else (if Beneath(s[0], ancestor) then [] else [s[0]]) + Outside(s[1..], ancestor)
  }

  lemma {:induction false} Sides(s: seq<string>, ancestor: string, x: string)
    ensures x in Under(s, ancestor) <==> x in s && Beneath(x, ancestor)
    ensures x in Outside(s, ancestor) <==> x in s && !Beneath(x, ancestor)
  {
    hide Beneath;
    if s != [] {
      Sides(s[1..], ancestor, x);
      assert s == [s[0]] + s[1..];
    }
  }

  lemma ConsDistinct(x: string, s: seq<string>)
    requires x !in s && NoRepeats(s)
    ensures NoRepeats([x] + s)
  {
  }

  lemma {:induction false} UnderDistinct(s: seq<string>, ancestor: string)
    requires NoRepeats(s)
    ensures NoRepeats(Under(s, ancestor)) && NoRepeats(Outside(s, ancestor))
  {
    hide Beneath;
    if s != [] {
      UnderDistinct(s[1..], ancestor);
      assert s[0] !in s[1..];
      Sides(s[1..], ancestor, s[0]);
      ConsDistinct(s[0], Under(s[1..], ancestor));
      ConsDistinct(s[0], Outside(s[1..], ancestor));
    }
  }

  predicate Leaf(paths: seq<string>, path: string) { forall other :: other in paths ==> !Beneath(other, path) }

  function Leaves(all: seq<string>, paths: seq<string>): seq<string> {
    if paths == [] then [] else (if Leaf(all, paths[0]) then [paths[0]] else []) + Leaves(all, paths[1..])
  }

  lemma {:induction false} LeavesAre(all: seq<string>, paths: seq<string>, x: string)
    ensures x in Leaves(all, paths) <==> x in paths && Leaf(all, x)
  {
    hide Leaf;
    if paths != [] {
      LeavesAre(all, paths[1..], x);
      assert paths == [paths[0]] + paths[1..];
    }
  }

  lemma {:induction false} LeavesDistinct(all: seq<string>, paths: seq<string>)
    requires NoRepeats(paths)
    ensures NoRepeats(Leaves(all, paths))
  {
    hide Leaf;
    if paths != [] {
      LeavesDistinct(all, paths[1..]);
      assert paths[0] !in paths[1..];
      LeavesAre(all, paths[1..], paths[0]);
      ConsDistinct(paths[0], Leaves(all, paths[1..]));
    }
  }

  ghost predicate Antichain(s: seq<string>) { forall x, y :: x in s && y in s ==> !Beneath(x, y) }

  ghost predicate AtMostOne(s: seq<string>, ancestor: string) {
    forall x, y :: x in s && y in s && Beneath(x, ancestor) && Beneath(y, ancestor) ==> x == y
  }

  ghost predicate Covered(s: seq<string>, path: string) { exists d :: d in s && Comparable(d, path) }

  /** The rows kept while the locations from position `k` on have been folded. */
  ghost predicate Folded(paths: seq<string>, s: seq<string>, k: nat)
    requires k <= |paths|
  {
    && NoRepeats(s) && Antichain(s)
    && (forall x :: x in s ==> x in paths && (Leaf(paths, x) || x in paths[k..]))
    && (forall a :: a in paths[k..] ==> AtMostOne(s, a))
    && (forall p :: p in paths ==> Covered(s, p))
  }

  function Fold(s: seq<string>, ancestor: string): seq<string> {
    if |Under(s, ancestor)| > 1 then Outside(s, ancestor) + [ancestor] else s
  }

  lemma TwoDiffer(s: seq<string>, ancestor: string)
    requires NoRepeats(s)
    ensures |Under(s, ancestor)| <= 1 <==> AtMostOne(s, ancestor)
  {
    var under := Under(s, ancestor);
    UnderDistinct(s, ancestor);
    forall x ensures x in under <==> x in s && Beneath(x, ancestor) { Sides(s, ancestor, x); }
    hide Beneath;
    if |under| > 1 {
      assert under[0] in under && under[1] in under;
    }
  }

  lemma AppendDistinct(s: seq<string>, x: string)
    requires NoRepeats(s) && x !in s
    ensures NoRepeats(s + [x])
  {
  }

  /** Nothing kept lies above a location still to be folded. */
  lemma NothingAbove(paths: seq<string>, s: seq<string>, k: nat, x: string)
    requires Sorted(paths) && 0 < k <= |paths| && Folded(paths, s, k) && x in s
    ensures !Beneath(paths[k - 1], x)
  {
    var a := paths[k - 1];
    if Beneath(a, x) {
      hide Beneath, Less;
      assert !Leaf(paths, x);
      var j :| k <= j < |paths| && paths[j] == x;
      AncestorFirst(a, x);
      LessOrder(a, x);
    }
  }

  lemma FoldAntichain(paths: seq<string>, s: seq<string>, k: nat)
    requires Sorted(paths) && 0 < k <= |paths| && Folded(paths, s, k) && |Under(s, paths[k - 1])| > 1
    ensures var r := Fold(s, paths[k - 1]); NoRepeats(r) && Antichain(r)
  {
    var a := paths[k - 1];
    var out := Outside(s, a);
    UnderDistinct(s, a);
    forall x ensures x in out <==> x in s && !Beneath(x, a) { Sides(s, a, x); }
    NotKept(paths, s, k);
    AppendDistinct(out, a);
    forall x, y | x in out + [a] && y in out + [a] ensures !Beneath(x, y) {
      if x == a && y != a { NothingAbove(paths, s, k, y); }
      if x == a && y == a { AncestorIrreflexive(a); }
    }
    hide Beneath;
  }

  lemma AncestorIrreflexive(a: string)
    ensures !Beneath(a, a)
  {
  }

  /** A location with several rows beneath it is no row itself. */
  lemma NotKept(paths: seq<string>, s: seq<string>, k: nat)
    requires 0 < k <= |paths| && Folded(paths, s, k) && |Under(s, paths[k - 1])| > 1
    ensures paths[k - 1] !in s
  {
    var a := paths[k - 1];
    var x := Under(s, a)[0];
    assert x in Under(s, a);
    Sides(s, a, x);
    hide Beneath;
  }

  lemma FoldCovers(paths: seq<string>, s: seq<string>, k: nat, p: string)
    requires 0 < k <= |paths| && Folded(paths, s, k) && |Under(s, paths[k - 1])| > 1 && p in paths
    ensures Covered(Fold(s, paths[k - 1]), p)
  {
    var a := paths[k - 1];
    var r := Fold(s, a);
    assert a in r;
    assert Covered(s, p);
    var d :| d in s && Comparable(d, p);
    Sides(s, a, d);
    if Beneath(d, a) {
      if d == p || Beneath(p, d) {
        if Beneath(p, d) { BeneathTrans(p, d, a); }
        assert Comparable(a, p);
      } else {
        AncestorsCompare(d, a, p);
        assert Comparable(a, p);
      }
    } else {
      assert d in r;
    }
  }

  /** Folding keeps earlier folds: nothing new appears beneath a folded location. */
  lemma FoldAtMostOne(paths: seq<string>, s: seq<string>, k: nat, b: string)
    requires Sorted(paths) && 0 < k <= |paths| && Folded(paths, s, k) && b in paths[k - 1..]
    ensures AtMostOne(Fold(s, paths[k - 1]), b)
  {
    var a := paths[k - 1];
    var r := Fold(s, a);
    if |Under(s, a)| > 1 {
      forall x ensures x in Outside(s, a) <==> x in s && !Beneath(x, a) { Sides(s, a, x); }
      if b == a {
        AncestorIrreflexive(a);
      } else {
        var j :| 0 <= j < |paths[k - 1..]| && paths[k - 1..][j] == b;
        assert paths[k - 1 + j] == b && j > 0;
        assert b in paths[k..] by { assert paths[k..][j - 1] == b; }
        assert !Beneath(a, b) by {
          if Beneath(a, b) {
            AncestorFirst(a, b);
            LessOrder(a, b);
          }
        }
        assert AtMostOne(s, b);
      }
      hide Beneath;
    } else {
      TwoDiffer(s, a);
      if b != a {
        var j :| 0 <= j < |paths[k - 1..]| && paths[k - 1..][j] == b;
        assert paths[k..][j - 1] == b;
      }
    }
  }

  lemma FoldMembers(paths: seq<string>, s: seq<string>, k: nat, x: string)
    requires 0 < k <= |paths| && Folded(paths, s, k) && x in Fold(s, paths[k - 1])
    ensures x in paths && (Leaf(paths, x) || x in paths[k - 1..])
  {
    var a := paths[k - 1];
    Sides(s, a, x);
    hide Leaf, Beneath, AtMostOne, Covered;
    assert paths[k - 1..] == [a] + paths[k..];
  }

  /** One more location folded. */
  lemma FoldStep(paths: seq<string>, s: seq<string>, k: nat)
    requires Sorted(paths) && 0 < k <= |paths| && Folded(paths, s, k)
    ensures Folded(paths, Fold(s, paths[k - 1]), k - 1)
  {
    var r := Fold(s, paths[k - 1]);
    if |Under(s, paths[k - 1])| > 1 { FoldAntichain(paths, s, k); }
    forall p | p in paths ensures Covered(r, p) {
      if |Under(s, paths[k - 1])| > 1 { FoldCovers(paths, s, k, p); }
    }
    forall b | b in paths[k - 1..] ensures AtMostOne(r, b) { FoldAtMostOne(paths, s, k, b); }
    forall x | x in r ensures x in paths && (Leaf(paths, x) || x in paths[k - 1..]) { FoldMembers(paths, s, k, x); }
    hide Fold, Leaf, AtMostOne, Covered, Antichain, Sorted;
  }

  /** Every location has a leaf at it or beneath it. */
  lemma {:induction false} LeafBelow(paths: seq<string>, i: nat) returns (leaf: string)
    requires Sorted(paths) && i < |paths|
    ensures leaf in paths && Leaf(paths, leaf) && (leaf == paths[i] || Beneath(leaf, paths[i]))
    decreases |paths| - i
  {
    leaf := paths[i];
    if !Leaf(paths, leaf) {
      var below :| below in paths && Beneath(below, paths[i]);
      var j :| 0 <= j < |paths| && paths[j] == below;
      AncestorFirst(below, paths[i]);
      LessOrder(below, paths[i]);
      leaf := LeafBelow(paths, j);
      if leaf != below { BeneathTrans(leaf, below, paths[i]); }
    }
  }

  lemma SortedDistinct(s: seq<string>)
    requires Sorted(s)
    ensures NoRepeats(s)
  {
    hide Less;
    forall i, j | 0 <= i < j < |s| ensures s[i] != s[j] { LessOrder(s[i], s[j]); }
  }

  lemma LeavesCover(paths: seq<string>, s: seq<string>, p: string)
    requires Sorted(paths) && p in paths && forall x :: x in s <==> x in paths && Leaf(paths, x)
    ensures Covered(s, p)
  {
    hide Beneath, Less, Leaf, Sorted;
    var i :| 0 <= i < |paths| && paths[i] == p;
    var leaf := LeafBelow(paths, i);
    assert leaf in s && Comparable(leaf, p);
  }

  lemma LeavesFolded(paths: seq<string>)
    requires Sorted(paths)
    ensures Folded(paths, Leaves(paths, paths), |paths|)
  {
    var s := Leaves(paths, paths);
    SortedDistinct(paths);
    LeavesDistinct(paths, paths);
    hide Beneath, Less, Leaf, Covered, Leaves, Antichain, NoRepeats, Sorted, AtMostOne;
    forall x ensures x in s <==> x in paths && Leaf(paths, x) { LeavesAre(paths, paths, x); }
    LeavesApart(paths, s);
    forall p | p in paths ensures Covered(s, p) { LeavesCover(paths, s, p); }
  }

  lemma LeavesApart(paths: seq<string>, s: seq<string>)
    requires forall x :: x in s <==> x in paths && Leaf(paths, x)
    ensures Antichain(s)
  {
    hide Beneath;
  }

  // ----- which locations are rows

  /** Something lies beneath the location, and no one of the locations beneath it is
      comparable to them all. */
  ghost predicate Forks(locations: set<string>, a: string) {
    && (exists b :: b in locations && Beneath(b, a))
    && forall b :: b in locations && Beneath(b, a) ==> Parts(locations, a, b)
  }

  ghost predicate Parts(locations: set<string>, a: string, b: string) {
    exists c :: c in locations && Beneath(c, a) && !Comparable(b, c)
  }

  /** A location that forks or has nothing beneath it, and lies beneath none that forks. */
  ghost predicate Shown(locations: set<string>, x: string) {
    && x in locations
    && (Forks(locations, x) || forall b :: b in locations ==> !Beneath(b, x))
    && forall a :: a in locations && Beneath(x, a) ==> !Forks(locations, a)
  }

  function SetOf(paths: seq<string>): set<string> { set p | p in paths }

  /** Every row that is no leaf forks. */
  ghost predicate Forked(paths: seq<string>, s: seq<string>) {
    forall x :: x in s ==> Leaf(paths, x) || Forks(SetOf(paths), x)
  }

  lemma RowsCompare(b: string, x: string, y: string)
    requires Comparable(b, x) && Comparable(b, y) && x != y && !Beneath(x, y) && !Beneath(y, x)
    ensures Beneath(x, b) && Beneath(y, b)
  {
    if Beneath(b, x) && Beneath(b, y) { AncestorsCompare(b, x, y); }
    if Beneath(b, x) && Beneath(y, b) { BeneathTrans(y, b, x); }
    if Beneath(b, y) && Beneath(x, b) { BeneathTrans(x, b, y); }
    hide Beneath;
  }

  /** What is folded forks: two rows beneath it are not both comparable to one location. */
  lemma FoldForks(paths: seq<string>, s: seq<string>, k: nat)
    requires Sorted(paths) && 0 < k <= |paths| && Folded(paths, s, k) && |Under(s, paths[k - 1])| > 1
    ensures Forks(SetOf(paths), paths[k - 1])
  {
    var a := paths[k - 1];
    var (x, y) := (Under(s, a)[0], Under(s, a)[1]);
    TwoUnder(paths, s, k, x, y);
    forall b | b in SetOf(paths) && Beneath(b, a) ensures Parts(SetOf(paths), a, b) {
      LaterThan(paths, k, b);
      RowsPart(paths, s, k, a, b, x, y);
    }
    hide Folded, Sorted, Beneath, Parts, Under;
  }

  lemma TwoUnder(paths: seq<string>, s: seq<string>, k: nat, x: string, y: string)
    requires 0 < k <= |paths| && Folded(paths, s, k) && |Under(s, paths[k - 1])| > 1
    requires x == Under(s, paths[k - 1])[0] && y == Under(s, paths[k - 1])[1]
    ensures x in s && y in s && x != y && Beneath(x, paths[k - 1]) && Beneath(y, paths[k - 1]) && x in SetOf(paths)
  {
    var a := paths[k - 1];
    hide Beneath, Antichain, Leaf, AtMostOne, Covered;
    UnderDistinct(s, a);
    assert x in Under(s, a) && y in Under(s, a);
    Sides(s, a, x);
    Sides(s, a, y);
  }

  lemma RowsPart(paths: seq<string>, s: seq<string>, k: nat, a: string, b: string, x: string, y: string)
    requires k <= |paths| && Folded(paths, s, k) && b in paths[k..]
    requires x in s && y in s && x != y && Beneath(x, a) && Beneath(y, a)
    ensures Parts(SetOf(paths), a, b)
  {
    hide Beneath, Leaf, Covered, Comparable;
    assert x in SetOf(paths) && y in SetOf(paths);
    assert AtMostOne(s, b);
    if Comparable(b, x) && Comparable(b, y) { RowsCompare(b, x, y); }
  }

  lemma LaterThan(paths: seq<string>, k: nat, b: string)
    requires Sorted(paths) && 0 < k <= |paths| && b in paths && Beneath(b, paths[k - 1])
    ensures b in paths[k..]
  {
    AncestorFirst(b, paths[k - 1]);
    hide Less, Beneath;
    var j :| 0 <= j < |paths| && paths[j] == b;
    LessOrder(paths[k - 1], b);
    assert j > k - 1;
    var i := j - k;
    assert paths[k..][i] == b;
  }

  lemma FoldForked(paths: seq<string>, s: seq<string>, k: nat)
    requires Sorted(paths) && 0 < k <= |paths| && Folded(paths, s, k) && Forked(paths, s)
    ensures Forked(paths, Fold(s, paths[k - 1]))
  {
    var a := paths[k - 1];
    if |Under(s, a)| > 1 { FoldForks(paths, s, k); }
    forall x ensures x in Outside(s, a) ==> x in s { Sides(s, a, x); }
    hide Folded, Sorted, Leaf, Forks;
  }

  /** A single row beneath a location is comparable to all that lies beneath it. */
  lemma OneRowBeneath(paths: seq<string>, s: seq<string>, a: string, row: string)
    requires Folded(paths, s, 0) && a in paths && row in s && Beneath(row, a)
    requires forall d :: d in s ==> d != a && !Beneath(a, d)
    ensures !Forks(SetOf(paths), a)
  {
    assert paths[0..] == paths;
    assert row in SetOf(paths) && AtMostOne(s, a);
    if Parts(SetOf(paths), a, row) {
      var c :| c in SetOf(paths) && Beneath(c, a) && !Comparable(row, c);
      assert Covered(s, c);
      var d :| d in s && Comparable(d, c);
      BesideOrBeneath(a, c, d);
      hide Comparable;
    }
  }

  /** What is comparable to a location beneath `a` lies beneath it, or at or above it. */
  lemma BesideOrBeneath(a: string, c: string, d: string)
    requires Beneath(c, a) && Comparable(d, c)
    ensures Beneath(d, a) || d == a || Beneath(a, d)
  {
    if Beneath(d, c) { BeneathTrans(d, c, a); }
    if Beneath(c, d) { AncestorsCompare(c, d, a); }
  }

  /** The rows left by the folds are the locations shown. */
  lemma FoldedShown(paths: seq<string>, s: seq<string>, x: string)
    requires Folded(paths, s, 0) && Forked(paths, s)
    ensures x in s <==> Shown(SetOf(paths), x)
  {
    hide Beneath, Forks, Covered, Comparable, AtMostOne;
    var all := SetOf(paths);
    assert paths[0..] == paths;
    if x in s {
      forall a | a in all && Beneath(x, a) ensures !Forks(all, a) {
        forall d | d in s ensures d != a && !Beneath(a, d) {
          if Beneath(a, d) { BeneathTrans(x, a, d); }
        }
        OneRowBeneath(paths, s, a, x);
      }
    }
    if Shown(all, x) && x !in s {
      var d := RowAt(paths, s, x);
      RowForks(paths, s, d);
      if Beneath(d, x) {
        forall e | e in s ensures e != x && !Beneath(x, e) {
          if Beneath(x, e) { BeneathTrans(d, x, e); }
        }
        OneRowBeneath(paths, s, x, d);
      }
    }
  }

  lemma RowForks(paths: seq<string>, s: seq<string>, d: string)
    requires Folded(paths, s, 0) && Forked(paths, s) && d in s
    ensures d in SetOf(paths)
    ensures forall x :: x in paths && Beneath(x, d) ==> Forks(SetOf(paths), d)
  {
    hide Beneath, Forks;
  }

  lemma RowAt(paths: seq<string>, s: seq<string>, x: string) returns (d: string)
    requires Folded(paths, s, 0) && x in paths
    ensures d in s && (d == x || Beneath(x, d) || Beneath(d, x))
  {
    assert Covered(s, x);
    d :| d in s && Comparable(d, x);
  }

  // ----- the rows

  /** The reported locations, each once, with the least of its texts. */
  ghost predicate Gathered(errors: seq<(string, string)>, byPath: map<string, string>) {
    && (forall e :: e in errors ==> e.0 in byPath)
    && (forall path :: path in byPath ==> (path, byPath[path]) in errors && LeastText(errors, path, byPath[path]))
  }

  ghost predicate LeastText(errors: seq<(string, string)>, path: string, text: string) {
    forall e :: e in errors && e.0 == path ==> e.1 == text || Less(text, e.1)
  }

  lemma GatherStep(errors: seq<(string, string)>, byPath: map<string, string>, e: (string, string))
    requires Gathered(errors, byPath)
    ensures Gathered(errors + [e], if e.0 !in byPath || Less(e.1, byPath[e.0]) then byPath[e.0 := e.1] else byPath)
  {
    hide Less;
    var more := errors + [e];
    var now := if e.0 !in byPath || Less(e.1, byPath[e.0]) then byPath[e.0 := e.1] else byPath;
    forall path | path in now ensures (path, now[path]) in more && LeastText(more, path, now[path]) {
      assert e in more;
      if path == e.0 {
        if path in byPath {
          LessOrder(e.1, byPath[path]);
          assert LeastText(errors, path, byPath[path]);
          forall f | f in errors && f.0 == path ensures f.1 == now[path] || Less(now[path], f.1) {
            if Less(e.1, byPath[path]) && Less(byPath[path], f.1) { LessTrans(e.1, byPath[path], f.1); }
          }
        }
      } else {
        assert LeastText(errors, path, byPath[path]);
      }
    }
  }

  method Gather(errors: seq<(string, string)>) returns (byPath: map<string, string>, order: seq<string>)
    ensures Gathered(errors, byPath)
    ensures NoRepeats(order) && forall p :: p in order <==> p in byPath
  {
    hide Less;
    byPath, order := map[], [];
    for i := 0 to |errors|
      invariant Gathered(errors[..i], byPath)
      invariant NoRepeats(order) && forall p :: p in order <==> p in byPath
    {
      var (path, text) := errors[i];
      GatherStep(errors[..i], byPath, errors[i]);
      assert errors[..i + 1] == errors[..i] + [errors[i]];
      if path !in byPath {
        AppendDistinct(order, path);
        order := order + [path];
      }
      if path !in byPath || Less(text, byPath[path]) {
        byPath := byPath[path := text];
      }
    }
    assert errors[..|errors|] == errors;
  }

  type Row = (string, string)

  /** Every row is an error reported at its location, with the least text of that location. */
  ghost predicate Reported(errors: seq<Row>, rows: seq<Row>) {
    forall i :: 0 <= i < |rows| ==> rows[i] in errors && LeastText(errors, rows[i].0, rows[i].1)
  }

  ghost predicate Ordered(rows: seq<Row>) { forall i, j :: 0 <= i < j < |rows| ==> Less(rows[i].0, rows[j].0) }

  /** No row's location lies beneath another's. */
  ghost predicate NoneBeneath(rows: seq<Row>) {
    forall i, j :: 0 <= i < |rows| && 0 <= j < |rows| ==> !Beneath(rows[i].0, rows[j].0)
  }

  /** Some row lies at, above or beneath the location. */
  ghost predicate Represented(rows: seq<Row>, path: string) {
    exists i :: 0 <= i < |rows| && Comparable(rows[i].0, path)
  }

  /** Two rows do not both lie strictly beneath the location. */
  ghost predicate NoFork(rows: seq<Row>, path: string) {
    forall i, j :: 0 <= i < j < |rows| ==> !(Beneath(rows[i].0, path) && Beneath(rows[j].0, path))
  }

  lemma RowsOf(errors: seq<Row>, byPath: map<string, string>, paths: seq<string>, deepest: seq<string>,
               final: seq<string>)
    requires Gathered(errors, byPath) && Folded(paths, deepest, 0) && forall p :: p in paths <==> p in byPath
    requires forall p :: p in final <==> p in deepest
    ensures forall i :: 0 <= i < |final| ==> final[i] in byPath
    ensures forall rows ::
        |rows| == |final| && (forall i :: 0 <= i < |rows| ==> rows[i] == (final[i], byPath[final[i]])) ==>
          Reported(errors, rows)
    ensures forall e :: e in errors ==> e.0 in paths
  {
    hide LeastText, Leaf, Covered, AtMostOne, Antichain;
    forall i | 0 <= i < |final| ensures final[i] in byPath { assert final[i] in final; }
  }

  lemma RowsKept(paths: seq<string>, deepest: seq<string>, final: seq<string>, rows: seq<Row>)
    requires Sorted(final) && Folded(paths, deepest, 0) && (forall p :: p in final <==> p in deepest)
    requires |rows| == |final| && forall i :: 0 <= i < |rows| ==> rows[i].0 == final[i]
    ensures Ordered(rows) && NoneBeneath(rows)
    ensures forall p :: p in paths ==> Represented(rows, p) && NoFork(rows, p)
  {
    hide Less, Beneath, Leaf, Comparable;
    SortedDistinct(final);
    assert forall i :: 0 <= i < |final| ==> final[i] in deepest;
    assert paths[0..] == paths;
    forall p | p in paths ensures Represented(rows, p) && NoFork(rows, p) {
      assert Covered(deepest, p);
      var d :| d in deepest && Comparable(d, p);
      assert d in final;
      var i :| 0 <= i < |final| && final[i] == d;
      assert Comparable(rows[i].0, p);
      assert AtMostOne(deepest, p);
    }
  }

  /** The rows are exactly the locations shown. */
  ghost predicate ShownRows(errors: seq<Row>, rows: seq<Row>) {
    forall x :: InRows(rows, x) <==> Shown(Locations(errors), x)
  }

  ghost predicate InRows(rows: seq<Row>, x: string) { exists i :: 0 <= i < |rows| && rows[i].0 == x }

  ghost function Locations(errors: seq<Row>): set<string> { set e | e in errors :: e.0 }

  lemma RowsShown(errors: seq<Row>, paths: seq<string>, deepest: seq<string>, final: seq<string>, rows: seq<Row>)
    requires Folded(paths, deepest, 0) && Forked(paths, deepest) && forall p :: p in final <==> p in deepest
    requires |rows| == |final| && forall i :: 0 <= i < |rows| ==> rows[i].0 == final[i]
    requires forall p :: p in paths <==> exists e :: e in errors && e.0 == p
    ensures ShownRows(errors, rows)
  {
    hide Folded, Forked, Shown;
    assert SetOf(paths) == Locations(errors);
    forall x ensures InRows(rows, x) <==> Shown(Locations(errors), x) {
      FoldedShown(paths, deepest, x);
      if x in final {
        var i :| 0 <= i < |final| && final[i] == x;
        assert rows[i].0 == x;
      }
    }
  }

  /** The folded rows: reported locations in strict order, none beneath another, every
      reported location at, above or below one of them, and no reported location with
      two of them strictly beneath it; each carries the least text reported there. They
      are exactly the topmost locations that fork and the leaves beneath none of these. */
  method CollapseErrors(errors: seq<Row>) returns (rows: seq<Row>)
    ensures Reported(errors, rows) && Ordered(rows) && NoneBeneath(rows)
    ensures forall e :: e in errors ==> Represented(rows, e.0) && NoFork(rows, e.0)
    ensures ShownRows(errors, rows)
  {
    hide Forked, ShownRows, Less, Beneath, Leaves, Fold, Folded, Sorted, Reported, Ordered, NoneBeneath, Represented,
        NoFork, LeastText,
        Gathered;
    var byPath, order := Gather(errors);
    var paths := SortPaths(order);
    SortSorts(order);
    LeavesFolded(paths);
    LeavesForked(paths);
    var deepest := Leaves(paths, paths);
    var k := |paths|;
    while k > 0
      invariant 0 <= k <= |paths| && Folded(paths, deepest, k) && Forked(paths, deepest)
    {
      FoldStep(paths, deepest, k);
      FoldForked(paths, deepest, k);
      deepest := Fold(deepest, paths[k - 1]);
      k := k - 1;
    }
    var final := SortPaths(deepest);
    FoldedDistinct(paths, deepest);
    SortSorts(deepest);
    RowsOf(errors, byPath, paths, deepest, final);
    rows := seq(|final|, i requires 0 <= i < |final| && final[i] in byPath => (final[i], byPath[final[i]]));
    RowsKept(paths, deepest, final, rows);
    assert forall e :: e in errors ==> e.0 in paths;
    PathsReported(errors, byPath, paths);
    RowsShown(errors, paths, deepest, final, rows);
  }

  lemma LeavesForked(paths: seq<string>)
    ensures Forked(paths, Leaves(paths, paths))
  {
    hide Leaf;
    forall x ensures x in Leaves(paths, paths) ==> Leaf(paths, x) { LeavesAre(paths, paths, x); }
  }

  lemma PathsReported(errors: seq<Row>, byPath: map<string, string>, paths: seq<string>)
    requires Gathered(errors, byPath) && forall p :: p in paths <==> p in byPath
    ensures forall p :: p in paths <==> exists e :: e in errors && e.0 == p
  {
    hide LeastText;
    forall p | p in paths ensures exists e :: e in errors && e.0 == p { assert (p, byPath[p]) in errors; }
  }

  lemma FoldedDistinct(paths: seq<string>, s: seq<string>)
    requires Folded(paths, s, 0)
    ensures NoRepeats(s)
  {
  }
}
