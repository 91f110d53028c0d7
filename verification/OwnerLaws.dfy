/** What a whole run of the owner pass guarantees: a partition of its input, a
    closed set of survivors, independence of the order of the artifacts, and, when
    nothing takes an owner, the greatest closed set. */
module OwnerLaws {
  import opened Wrappers
  import opened Owners

  ghost predicate Unique(p: seq<Artifact>) {
    forall i, j :: 0 <= i < j < |p| ==> p[i].identity != p[j].identity
  }

  /** The artifact without the owner the pass may give it. */
  function Bare(a: Artifact): Artifact {
    if a.ownerFromModel then a else a.(owner := None)
  }

  function Bares(p: seq<Artifact>): seq<Artifact> {
    if p == [] then [] else [Bare(p[0])] + Bares(p[1..])
  }

  function RefusedOnes(d: seq<(Artifact, Rule)>): seq<Artifact> {
    if d == [] then [] else [d[0].0] + RefusedOnes(d[1..])
  }

  lemma JudgeBare(a: Artifact, s: Snapshot)
    requires Judge(a, s).Keep?
    ensures Bare(Judge(a, s).kept) == Bare(a) && Judge(a, s).kept.identity == a.identity
    ensures !TakesOwner(a) ==> Judge(a, s).kept == a
  {
  }

  lemma {:induction false} BaresAppend(a: seq<Artifact>, b: seq<Artifact>)
    ensures Bares(a + b) == Bares(a) + Bares(b)
    decreases |a|
  {
    if a == [] {
      assert a + b == b;
    } else {
      BaresAppend(a[1..], b);
      hide Bares, Bare;
      RestOfConcat(a, b);
      BaresFirst(a + b);
      BaresFirst(a);
      Associative([Bare(a[0])], Bares(a[1..]), Bares(b));
    }
  }

  lemma BaresFirst(p: seq<Artifact>)
    requires p != []
    ensures Bares(p) == [Bare(p[0])] + Bares(p[1..])
  {
  }

  lemma {:induction false} RefusedAppend(a: seq<(Artifact, Rule)>, b: seq<(Artifact, Rule)>)
    ensures RefusedOnes(a + b) == RefusedOnes(a) + RefusedOnes(b)
    decreases |a|
  {
    if a == [] {
      assert a + b == b;
    } else {
      RefusedAppend(a[1..], b);
      hide RefusedOnes;
      RestOfConcat(a, b);
      RefusedFirst(a + b);
      RefusedFirst(a);
      Associative([a[0].0], RefusedOnes(a[1..]), RefusedOnes(b));
    }
  }

  lemma RefusedFirst(d: seq<(Artifact, Rule)>)
    requires d != []
    ensures RefusedOnes(d) == [d[0].0] + RefusedOnes(d[1..])
  {
  }

  /** A round splits its artifacts into those it keeps and those it refuses. */
  lemma {:induction false} RoundSplits(p: seq<Artifact>, s: Snapshot)
    ensures multiset(Bares(Kept(p, s))) + multiset(Bares(RefusedOnes(Dropped(p, s)))) == multiset(Bares(p))
    decreases |p|
  {
    hide Judge, Bare;
    if p != [] {
      RoundSplits(p[1..], s);
      if Judge(p[0], s).Keep? {
        JudgeBare(p[0], s);
        BaresAppend([Judge(p[0], s).kept], Kept(p[1..], s));
      } else {
        BaresAppend([p[0]], RefusedOnes(Dropped(p[1..], s)));
      }
    }
  }

  lemma {:induction false} DroppedNames(d: seq<(Artifact, Rule)>, e: seq<(Artifact, Rule)>)
    ensures DroppedIdentities(d + e) == DroppedIdentities(d) + DroppedIdentities(e)
  {
    var all := d + e;
    forall x ensures x in DroppedIdentities(all) <==> x in DroppedIdentities(d) || x in DroppedIdentities(e) {
      if x in DroppedIdentities(d) { var i :| 0 <= i < |d| && d[i].0.identity == x; assert all[i].0.identity == x; }
      if x in DroppedIdentities(e) {
        var i :| 0 <= i < |e| && e[i].0.identity == x;
        assert all[|d| + i].0.identity == x;
      }
    }
  }

  /** The refused identities are those the pass started with and those it refused. */
  lemma {:induction false} RefusedAre(p: seq<Artifact>, refused: set<string>)
    ensures Assign(p, refused).refused == refused + DroppedIdentities(Assign(p, refused).refusals)
    decreases |p|
  {
    hide Judge, Kept, Dropped, DroppedIdentities;
    var s := Take(p, refused);
    var d := Dropped(p, s);
    if d != [] {
      RefusedAre(Kept(p, s), refused + DroppedIdentities(d));
      DroppedNames(d, Assign(Kept(p, s), refused + DroppedIdentities(d)).refusals);
    } else {
      NoDropped();
    }
  }

  lemma NoDropped()
    ensures DroppedIdentities([]) == {}
  {
  }

  /** The pass partitions its input into survivors and artifacts with one refusal
      each. */
  lemma {:induction false} Partition(p: seq<Artifact>, refused: set<string>)
    ensures var o := Assign(p, refused);
      multiset(Bares(o.survivors)) + multiset(Bares(RefusedOnes(o.refusals))) == multiset(Bares(p))
    decreases |p|
  {
    assert Bares(RefusedOnes([])) == [];
    hide Judge, Kept, Dropped, Bare, Bares, RefusedOnes;
    var s := Take(p, refused);
    var d := Dropped(p, s);
    RoundSplits(p, s);
    if d != [] {
      Partition(Kept(p, s), refused + DroppedIdentities(d));
      var rest := Assign(Kept(p, s), refused + DroppedIdentities(d));
      RefusedAppend(d, rest.refusals);
      BaresAppend(RefusedOnes(d), RefusedOnes(rest.refusals));
    }
  }

  // ----- the last round

  /** Two lists of artifacts that differ only in the owners the pass assigns. */
  ghost predicate SameBare(p: seq<Artifact>, q: seq<Artifact>) {
    |p| == |q| && forall i :: 0 <= i < |p| ==> Bare(p[i]) == Bare(q[i])
  }

  lemma {:induction false} KeptAll(p: seq<Artifact>, s: Snapshot)
    requires Dropped(p, s) == []
    ensures |Kept(p, s)| == |p| && forall i :: 0 <= i < |p| ==> Judge(p[i], s) == Keep(Kept(p, s)[i])
    decreases |p|
  {
    hide Judge;
    if p != [] { KeptAll(p[1..], s); }
  }

  lemma BareShape(a: Artifact, b: Artifact)
    requires Bare(a) == Bare(b)
    ensures a.identity == b.identity && a.roles == b.roles && a.edges == b.edges && a.operations == b.operations
    ensures TypeRefs(a) == TypeRefs(b) && a.source == b.source && a.declaration == b.declaration
    ensures TakesOwner(a) == TakesOwner(b)
  {
  }

  lemma {:induction false} SameOwnerList(p: seq<Artifact>, q: seq<Artifact>, target: string)
    requires SameBare(p, q)
    ensures OwnerList(p, target) == OwnerList(q, target)
    decreases |p|
  {
    hide Bare;
    if p != [] {
      var n := |p| - 1;
      BareShape(p[n], q[n]);
      SameOwnerList(p[..n], q[..n], target);
    }
  }

  lemma SameNames(p: seq<Artifact>, q: seq<Artifact>)
    requires SameBare(p, q)
    ensures Identities(p) == Identities(q) && Operations(p) == Operations(q)
  {
    forall i | 0 <= i < |p| ensures p[i].identity == q[i].identity && p[i].operations == q[i].operations {
      BareShape(p[i], q[i]);
    }
  }

  /** The list the last round read, from which it kept every artifact. */
  lemma {:induction false} LastRound(p: seq<Artifact>, refused: set<string>) returns (last: seq<Artifact>)
    ensures var o := Assign(p, refused);
      SameBare(last, o.survivors) && forall i :: 0 <= i < |last| ==>
        Judge(last[i], Take(last, o.refused)) == Keep(o.survivors[i])
    decreases |p|
  {
    hide Judge, Take;
    var s := Take(p, refused);
    var d := Dropped(p, s);
    if d == [] {
      last := p;
      KeptAll(p, s);
      forall i | 0 <= i < |p| ensures Bare(Kept(p, s)[i]) == Bare(p[i]) { JudgeBare(p[i], s); }
    } else {
      last := LastRound(Kept(p, s), refused + DroppedIdentities(d));
    }
  }

  // ----- closure

  ghost predicate OwnerSettled(a: Artifact, p: seq<Artifact>)
    requires TakesOwner(a)
  {
    var found := Found(a, p);
    (|found| == 1 && a.owner == Some(found[0].identity)) || (found == [] && MayLackOwner(a))
  }

  /** `a` refers only to what is in `p`, targets nothing refused, and has its owner. */
  ghost predicate Closed(a: Artifact, p: seq<Artifact>, refused: set<string>) {
    && (forall i :: 0 <= i < |TypeRefs(a)| ==> TypeRefs(a)[i] in Identities(p))
    && (a.source.Some? ==> a.source.value in Identities(p) || a.source.value in Operations(p))
    && (forall i :: 0 <= i < |a.edges| ==> a.edges[i].target !in refused)
    && (TakesOwner(a) ==> OwnerSettled(a, p))
  }

  lemma JudgeClosed(a: Artifact, s: Snapshot)
    requires Judge(a, s).Keep? && s == Take(s.pending, s.refused)
    ensures Closed(Judge(a, s).kept, s.pending, s.refused)
  {
    var b := Judge(a, s).kept;
    JudgeBare(a, s);
    BareShape(a, b);
  }

  /** Every survivor is closed: its type references and source name survivors, its
      relationships target nothing refused, and an artifact that takes an owner has
      its one admitted surviving container, unless it may lack one. */
  lemma SurvivorsClosed(p: seq<Artifact>, refused: set<string>, i: nat)
    requires i < |Assign(p, refused).survivors|
    ensures var o := Assign(p, refused); Closed(o.survivors[i], o.survivors, o.refused)
  {
    hide Judge, Assign, TypeRefs;
    var o := Assign(p, refused);
    var last := LastRound(p, refused);
    JudgeClosed(last[i], Take(last, o.refused));
    SameNames(last, o.survivors);
    SameOwnerList(last, o.survivors, o.survivors[i].identity);
  }

  /** An owner found is the identity of an artifact of the list that contains `a`
      by a composite relationship and has an admitted role. */
  lemma {:induction false} OwnerListFrom(p: seq<Artifact>, target: string, k: nat) returns (i: nat)
    requires k < |OwnerList(p, target)|
    ensures i < |p| && Contains(p[i], target) && OwnerList(p, target)[k] == Owner(p[i].identity, p[i].roles)
    decreases |p|
  {
    hide Contains;
    var n := |p| - 1;
    if k < |OwnerList(p[..n], target)| {
      i := OwnerListFrom(p[..n], target, k);
    } else {
      i := n;
    }
  }

  // ----- owners as a set

  /** The container carries a role the declaration lists, where it lists any. */
  ghost predicate SharesRole(x: Artifact, a: Artifact)
    requires a.declaration.Some?
  {
    match a.declaration.value.roles
    case None => true
    case Some(listed) => exists role :: role in x.roles && role in listed
  }

  /** `x` contains `a`: it draws a composite relationship to it and has a role admitted for an owner. */
  ghost predicate Holds(x: Artifact, a: Artifact)
    requires a.declaration.Some?
  {
    (exists e :: e in x.edges && e.composite && e.target == a.identity) && SharesRole(x, a)
  }

  lemma HoldsMeans(x: Artifact, a: Artifact)
    requires a.declaration.Some?
    ensures Holds(x, a) <==> Contains(x, a.identity) && Admits(a.declaration.value.roles, Owner(x.identity, x.roles))
  {
    if Contains(x, a.identity) {
      var j :| 0 <= j < |x.edges| && x.edges[j] == Edge(a.identity, true);
      assert x.edges[j] in x.edges;
    }
    if e :| e in x.edges && e.composite && e.target == a.identity {
      var j :| 0 <= j < |x.edges| && x.edges[j] == e;
    }
    assert forall i :: 0 <= i < |x.roles| ==> x.roles[i] in x.roles;
  }

  /** The identities of the admitted containers of `a` in `p`. */
  ghost function Containers(a: Artifact, p: seq<Artifact>): set<string>
    requires a.declaration.Some?
  {
    set i | 0 <= i < |p| && Holds(p[i], a) :: p[i].identity
  }

  lemma IntoContainers(a: Artifact, p: seq<Artifact>, i: nat)
    requires a.declaration.Some? && i < |p| && Holds(p[i], a)
    ensures p[i].identity in Containers(a, p)
  {
  }

  lemma OutOfContainers(a: Artifact, p: seq<Artifact>, x: string) returns (i: nat)
    requires a.declaration.Some? && x in Containers(a, p)
    ensures i < |p| && Holds(p[i], a) && p[i].identity == x
  {
    i :| i < |p| && Holds(p[i], a) && p[i].identity == x;
  }

  lemma {:induction false} AdmittedAppend(roles: Option<seq<string>>, owners: seq<Owner>, o: Owner)
    ensures Admitted(roles, owners + [o]) == Admitted(roles, owners) + (if Admits(roles, o) then [o] else [])
    decreases |owners|
  {
    hide Admits;
    if owners != [] {
      AdmittedAppend(roles, owners[1..], o);
      assert (owners + [o])[1..] == owners[1..] + [o];
    }
  }

  lemma NotListed(p: seq<Artifact>, target: string)
    requires p != [] && Unique(p)
    ensures !Lists(OwnerList(p[..|p| - 1], target), p[|p| - 1].identity)
  {
    var b, owners := p[..|p| - 1], OwnerList(p[..|p| - 1], target);
    forall k | 0 <= k < |owners| ensures owners[k].identity != p[|p| - 1].identity {
      var i := OwnerListFrom(b, target, k);
      assert b[i] == p[i];
    }
  }

  lemma ContainersStep(a: Artifact, p: seq<Artifact>)
    requires a.declaration.Some? && p != []
    ensures Containers(a, p) ==
        Containers(a, p[..|p| - 1]) + (if Holds(p[|p| - 1], a) then {p[|p| - 1].identity} else {})
  {
    hide Holds;
    var b := p[..|p| - 1];
    forall x | x in Containers(a, b) ensures x in Containers(a, p) {
      var i :| 0 <= i < |b| && Holds(b[i], a) && b[i].identity == x;
      assert Holds(p[i], a);
    }
    forall x | x in Containers(a, p)
      ensures x in Containers(a, b) || (Holds(p[|p| - 1], a) && x == p[|p| - 1].identity)
    {
      var i :| 0 <= i < |p| && Holds(p[i], a) && p[i].identity == x;
      if i < |b| { assert Holds(b[i], a); }
    }
  }

  /** With unique identities the pass finds each admitted container once. */
  lemma {:induction false} FoundIsContainers(a: Artifact, p: seq<Artifact>)
    requires a.declaration.Some? && Unique(p)
    ensures |Found(a, p)| == |Containers(a, p)|
    ensures forall x :: x in Containers(a, p) <==> Lists(Found(a, p), x)
    decreases |p|
  {
    assert Found(a, []) == [];
    hide Admits, Admitted, OwnerList, Contains, Containers, Found, Holds;
    if p == [] {
      NoContainers(a);
    } else {
      var n := |p| - 1;
      var x := p[n];
      FoundIsContainers(a, p[..n]);
      ContainersStep(a, p);
      FoundStep(a, p);
      if Holds(x, a) {
        NotFoundYet(a, p);
        forall y ensures Lists(Found(a, p), y) <==> Lists(Found(a, p[..n]), y) || y == x.identity {
          ListsAppend(Found(a, p[..n]), Owner(x.identity, x.roles), y);
        }
      } else {
        assert Found(a, p[..n]) + [] == Found(a, p[..n]);
      }
    }
  }

  lemma NoContainers(a: Artifact)
    requires a.declaration.Some?
    ensures Containers(a, []) == {} && forall x :: !Lists([], x)
  {
  }

  lemma NotFoundYet(a: Artifact, p: seq<Artifact>)
    requires a.declaration.Some? && p != [] && Unique(p)
    ensures !Lists(Found(a, p[..|p| - 1]), p[|p| - 1].identity)
  {
    NotListed(p, a.identity);
    FoundListed(a, p[..|p| - 1], p[|p| - 1].identity);
  }

  lemma ListsAppend(owners: seq<Owner>, o: Owner, y: string)
    ensures Lists(owners + [o], y) <==> Lists(owners, y) || y == o.identity
  {
    if Lists(owners, y) {
      var i :| 0 <= i < |owners| && owners[i].identity == y;
      assert (owners + [o])[i].identity == y;
    }
    if y == o.identity { assert (owners + [o])[|owners|].identity == y; }
  }

  lemma FoundStep(a: Artifact, p: seq<Artifact>)
    requires a.declaration.Some? && p != [] && Unique(p)
    ensures var n := |p| - 1;
      Found(a, p) == Found(a, p[..n]) + (if Holds(p[n], a) then [Owner(p[n].identity, p[n].roles)] else [])
  {
    hide Admits, Holds, Contains;
    var n := |p| - 1;
    HoldsMeans(p[n], a);
    NotListed(p, a.identity);
    AdmittedAppend(a.declaration.value.roles, OwnerList(p[..n], a.identity), Owner(p[n].identity, p[n].roles));
  }

  lemma {:induction false} AdmittedListed(roles: Option<seq<string>>, owners: seq<Owner>, x: string)
    requires Lists(Admitted(roles, owners), x)
    ensures Lists(owners, x)
    decreases |owners|
  {
    hide Admits;
    var found := Admitted(roles, owners);
    var i :| 0 <= i < |found| && found[i].identity == x;
    if Admits(roles, owners[0]) && i == 0 {
      assert owners[0].identity == x;
    } else {
      var rest := Admitted(roles, owners[1..]);
      assert rest[if Admits(roles, owners[0]) then i - 1 else i].identity == x;
      AdmittedListed(roles, owners[1..], x);
      var k :| 0 <= k < |owners[1..]| && owners[1..][k].identity == x;
      assert owners[k + 1].identity == x;
    }
  }

  lemma FoundListed(a: Artifact, p: seq<Artifact>, x: string)
    requires a.declaration.Some?
    ensures Lists(Found(a, p), x) ==> Lists(OwnerList(p, a.identity), x)
  {
    if Lists(Found(a, p), x) { AdmittedListed(a.declaration.value.roles, OwnerList(p, a.identity), x); }
  }

  // ----- owners an artifact may lack

  lemma {:induction false} KeptFrom(p: seq<Artifact>, s: Snapshot, k: nat) returns (i: nat)
    requires k < |Kept(p, s)|
    ensures i < |p| && Judge(p[i], s) == Keep(Kept(p, s)[k])
    decreases |p|
  {
    hide Judge;
    if Judge(p[0], s).Keep? && k == 0 {
      i := 0;
    } else {
      i := KeptFrom(p[1..], s, if Judge(p[0], s).Keep? then k - 1 else k);
      i := i + 1;
    }
  }

  lemma {:induction false} KeptUnique(p: seq<Artifact>, s: Snapshot)
    requires Unique(p)
    ensures Unique(Kept(p, s))
    decreases |p|
  {
    hide Judge;
    if p != [] {
      var rest := Kept(p[1..], s);
      KeptUnique(p[1..], s);
      if Judge(p[0], s).Keep? {
        JudgeBare(p[0], s);
        forall j | 0 <= j < |rest| ensures rest[j].identity != p[0].identity {
          var m := KeptFrom(p[1..], s, j);
          JudgeBare(p[m + 1], s);
        }
      }
    }
  }

  lemma ContainersShrink(a: Artifact, p: seq<Artifact>, s: Snapshot)
    requires a.declaration.Some?
    ensures Containers(a, Kept(p, s)) <= Containers(a, p)
  {
    hide Judge, Kept, Bare, Holds, Containers;
    var q := Kept(p, s);
    forall x | x in Containers(a, q) ensures x in Containers(a, p) {
      var k := OutOfContainers(a, q, x);
      var i := KeptFrom(p, s, k);
      JudgeBare(p[i], s);
      BareShape(p[i], q[k]);
      HoldsBare(p[i], q[k], a);
      IntoContainers(a, p, i);
    }
  }

  lemma HoldsBare(x: Artifact, y: Artifact, a: Artifact)
    requires a.declaration.Some? && x.identity == y.identity && x.roles == y.roles && x.edges == y.edges
    ensures Holds(x, a) == Holds(y, a)
  {
    assert Contains(x, a.identity) == Contains(y, a.identity) by {
      if Contains(x, a.identity) {
        var j :| 0 <= j < |x.edges| && x.edges[j] == Edge(a.identity, true);
        assert y.edges[j] == Edge(a.identity, true);
      }
      if Contains(y, a.identity) {
        var j :| 0 <= j < |y.edges| && y.edges[j] == Edge(a.identity, true);
        assert x.edges[j] == Edge(a.identity, true);
      }
    }
  }

  /** The owner `a` has is the sole container `b` had among `p`, or `b`'s own when it had none. */
  ghost predicate OwnerFrom(a: Artifact, b: Artifact, p: seq<Artifact>)
    requires b.declaration.Some?
  {
    (Containers(b, p) == {} && a.owner == b.owner) || exists o :: Containers(b, p) == {o} && a.owner == Some(o)
  }

  lemma JudgeOwner(a: Artifact, p: seq<Artifact>, refused: set<string>)
    requires Unique(p) && Judge(a, Take(p, refused)).Keep? && TakesOwner(a)
    ensures OwnerFrom(Judge(a, Take(p, refused)).kept, a, p)
  {
    FoundIsContainers(a, p);
    var found := Found(a, p);
    if |found| == 1 {
      assert Lists(found, found[0].identity);
      assert forall x :: x in Containers(a, p) ==> x == found[0].identity;
      assert Containers(a, p) == {found[0].identity};
    } else {
      assert Containers(a, p) == {};
    }
  }

  /** Whatever is refused on the way, a survivor's owner is settled by the input:
      its sole container there, or the owner it came with when it has none. */
  lemma {:induction false} OwnerHistory(p: seq<Artifact>, refused: set<string>, k: nat) returns (i: nat)
    requires Unique(p) && k < |Assign(p, refused).survivors|
    ensures i < |p| && Bare(Assign(p, refused).survivors[k]) == Bare(p[i])
    ensures if TakesOwner(p[i]) then OwnerFrom(Assign(p, refused).survivors[k], p[i], p)
        else Assign(p, refused).survivors[k] == p[i]
    decreases |p|
  {
    hide Judge, Kept, Containers, Bare;
    var s := Take(p, refused);
    var d := Dropped(p, s);
    var q := Kept(p, s);
    if d == [] {
      i := k;
      KeptAll(p, s);
      JudgeBare(p[i], s);
      if TakesOwner(p[i]) { JudgeOwner(p[i], p, refused); }
    } else {
      KeptUnique(p, s);
      var j := OwnerHistory(q, refused + DroppedIdentities(d), k);
      i := KeptFrom(p, s, j);
      JudgeBare(p[i], s);
      BareShape(p[i], q[j]);
      if TakesOwner(p[i]) {
        JudgeOwner(p[i], p, refused);
        ContainersShrink(p[i], p, s);
        SameContainers(p[i], q[j], q);
      }
    }
  }

  lemma SameContainers(a: Artifact, b: Artifact, p: seq<Artifact>)
    requires a.declaration.Some? && a.declaration == b.declaration && a.identity == b.identity
    ensures Containers(a, p) == Containers(b, p)
  {
    assert forall x :: Holds(x, a) == Holds(x, b);
  }

  /** The owner of every survivor, where it has one, survives too. */
  ghost predicate OwnersSurvive(o: Outcome) {
    forall k :: 0 <= k < |o.survivors| && o.survivors[k].owner.Some? ==>
      o.survivors[k].owner.value in Identities(o.survivors)
  }

  /** `k` may lack an owner, but had containers in the input that are gone. */
  ghost predicate Orphaned(p: seq<Artifact>, o: Outcome, k: nat)
    requires k < |o.survivors|
  {
    var a := o.survivors[k];
    TakesOwner(a) && MayLackOwner(a) && !(Containers(a, p) <= Identities(o.survivors))
  }

  lemma FoundSurvives(a: Artifact, p: seq<Artifact>)
    requires a.declaration.Some? && Found(a, p) != []
    ensures Found(a, p)[0].identity in Identities(p)
  {
    var o := Found(a, p)[0];
    assert Lists(Found(a, p), o.identity);
    FoundListed(a, p, o.identity);
    var k :| 0 <= k < |OwnerList(p, a.identity)| && OwnerList(p, a.identity)[k].identity == o.identity;
    var i := OwnerListFrom(p, a.identity, k);
  }

  /** No owner names a refused artifact, exactly when no survivor that may lack an
      owner lost the container it started with: the pass never clears an owner. */
  lemma OwnersSurviveIff(p: seq<Artifact>, refused: set<string>)
    requires Unique(p) && forall i :: 0 <= i < |p| && !p[i].ownerFromModel ==> p[i].owner == None
    ensures var o := Assign(p, refused); OwnersSurvive(o) <==> forall k: nat :: k < |o.survivors| ==> !Orphaned(p, o, k)
  {
    hide Assign, Containers, Closed, Bare;
    var o := Assign(p, refused);
    forall k: nat | k < |o.survivors|
      ensures Orphaned(p, o, k) <==>
          o.survivors[k].owner.Some? && o.survivors[k].owner.value !in Identities(o.survivors)
    {
      OwnerOfSurvivor(p, refused, k);
    }
  }

  lemma OwnerOfSurvivor(p: seq<Artifact>, refused: set<string>, k: nat)
    requires Unique(p) && forall i :: 0 <= i < |p| && !p[i].ownerFromModel ==> p[i].owner == None
    requires k < |Assign(p, refused).survivors|
    ensures var o := Assign(p, refused);
      Orphaned(p, o, k) <==> o.survivors[k].owner.Some? && o.survivors[k].owner.value !in Identities(o.survivors)
  {
    hide Assign, Containers, Found;
    var o := Assign(p, refused);
    var a := o.survivors[k];
    var i := OwnerHistory(p, refused, k);
    SurvivorsClosed(p, refused, k);
    BareShape(a, p[i]);
    if TakesOwner(a) {
      SameContainers(a, p[i], p);
      if !MayLackOwner(a) { FoundSurvives(a, o.survivors); }
    } else if a.ownerFromModel && a.owner.Some? {
      var refs := TypeRefs(a);
      assert refs[|a.behaviour|] == a.owner.value;
    }
  }

  /** Nothing that may lack an owner has a container to lose. */
  ghost predicate NoneToLose(p: seq<Artifact>) {
    forall i :: 0 <= i < |p| && TakesOwner(p[i]) && MayLackOwner(p[i]) ==> Containers(p[i], p) == {}
  }

  /** A condition on the input alone: where nothing that may lack an owner has a
      container, every emitted owner survives, whatever is refused. */
  lemma NoneLost(p: seq<Artifact>, refused: set<string>)
    requires Unique(p) && forall i :: 0 <= i < |p| && !p[i].ownerFromModel ==> p[i].owner == None
    requires NoneToLose(p)
    ensures OwnersSurvive(Assign(p, refused))
  {
    hide Assign, Containers, Bare, OwnersSurvive;
    var o := Assign(p, refused);
    forall k: nat | k < |o.survivors| ensures !Orphaned(p, o, k) {
      var i := OwnerHistory(p, refused, k);
      BareShape(o.survivors[k], p[i]);
      if TakesOwner(p[i]) { SameContainers(o.survivors[k], p[i], p); }
    }
    OwnersSurviveIff(p, refused);
  }

  /** `a` carries an owner, may lack one, and has no container among `p`: the branch
      of the pass that keeps it does not clear the owner. */
  ghost predicate Stale(a: Artifact, p: seq<Artifact>) {
    TakesOwner(a) && MayLackOwner(a) && a.owner.Some? && Found(a, p) == []
  }

  ghost predicate StaleIn(p: seq<Artifact>, x: string) {
    exists i :: 0 <= i < |p| && p[i].identity == x && Stale(p[i], p)
  }

  /** In some round the pass comes to that branch for the artifact named `x`. */
  ghost predicate Fires(p: seq<Artifact>, refused: set<string>, x: string)
    decreases |p|
  {
    var s := Take(p, refused);
    var d := Dropped(p, s);
    StaleIn(p, x) || (d != [] && Fires(Kept(p, s), refused + DroppedIdentities(d), x))
  }

  lemma StaleKept(a: Artifact, p: seq<Artifact>, refused: set<string>)
    requires Stale(a, p) && Judge(a, Take(p, refused)).Keep?
    ensures Judge(a, Take(p, refused)).kept == a
  {
    hide Found, FirstEdgeInto, FirstOutside;
  }

  lemma FoundNone(a: Artifact, p: seq<Artifact>)
    requires a.declaration.Some? && Unique(p)
    ensures Found(a, p) == [] <==> Containers(a, p) == {}
  {
    hide Containers, Found;
    FoundIsContainers(a, p);
  }

  /** What is stale stays so while it is kept. */
  lemma StaleStays(p: seq<Artifact>, refused: set<string>, j: nat)
    requires Unique(p) && j < |Kept(p, Take(p, refused))|
    requires StaleIn(p, Kept(p, Take(p, refused))[j].identity)
    ensures StaleIn(Kept(p, Take(p, refused)), Kept(p, Take(p, refused))[j].identity)
  {
    hide Judge, Kept, Bare, Found, Containers;
    var s := Take(p, refused);
    var q := Kept(p, s);
    var i :| 0 <= i < |p| && p[i].identity == q[j].identity && Stale(p[i], p);
    var m := KeptFrom(p, s, j);
    JudgeBare(p[m], s);
    assert m == i;
    StaleKept(p[i], p, refused);
    KeptUnique(p, s);
    ContainersShrink(p[i], p, s);
    FoundNone(p[i], p);
    FoundNone(p[i], q);
  }

  lemma StaleOnce(p: seq<Artifact>, k: nat)
    requires Unique(p) && k < |p|
    ensures StaleIn(p, p[k].identity) <==> Stale(p[k], p)
  {
    hide Stale;
  }

  lemma StaleSettled(p: seq<Artifact>, refused: set<string>, q: seq<Artifact>, k: nat)
    requires k < |p| && SameBare(p, q) && Judge(p[k], Take(p, refused)) == Keep(q[k])
    ensures Stale(p[k], p) <==> Stale(q[k], q)
  {
    BareShape(p[k], q[k]);
    SameOwnerList(p, q, p[k].identity);
    hide OwnerList, FirstEdgeInto, FirstOutside, SameBare, Bare;
  }

  /** A survivor's stale branch is taken in some round exactly when it is still
      stale among the survivors. */
  lemma {:induction false} FiresAtEnd(p: seq<Artifact>, refused: set<string>, k: nat)
    requires Unique(p) && k < |Assign(p, refused).survivors|
    ensures var o := Assign(p, refused);
      Fires(p, refused, o.survivors[k].identity) <==> Stale(o.survivors[k], o.survivors)
    decreases |p|
  {
    hide Judge, Kept, Dropped, Bare, Stale, StaleIn, Unique, DroppedIdentities, Identities, Operations;
    var s := Take(p, refused);
    var d := Dropped(p, s);
    var q := Kept(p, s);
    if d == [] {
      KeptAll(p, s);
      forall i | 0 <= i < |p| ensures Bare(p[i]) == Bare(q[i]) { JudgeBare(p[i], s); }
      JudgeBare(p[k], s);
      StaleOnce(p, k);
      StaleSettled(p, refused, q, k);
    } else {
      var rest := refused + DroppedIdentities(d);
      KeptUnique(p, s);
      FiresAtEnd(q, rest, k);
      var j := OwnerHistory(q, rest, k);
      BareShape(Assign(q, rest).survivors[k], q[j]);
      if StaleIn(p, q[j].identity) { StaleStays(p, refused, j); }
    }
  }

  /** A container of the input that survives contains the survivor still. */
  lemma ContainerStays(p: seq<Artifact>, refused: set<string>, a: Artifact, x: string)
    requires Unique(p) && a.declaration.Some? && x in Containers(a, p)
    requires x in Identities(Assign(p, refused).survivors)
    ensures x in Containers(a, Assign(p, refused).survivors)
  {
    hide Assign, Containers, Bare, Holds;
    var q := Assign(p, refused).survivors;
    var c := OutOfContainers(a, p, x);
    var m :| 0 <= m < |q| && q[m].identity == x;
    var i := OwnerHistory(p, refused, m);
    BareShape(q[m], p[i]);
    assert i == c;
    HoldsBare(p[c], q[m], a);
    IntoContainers(a, q, m);
  }

  lemma {:induction false} SurvivorsUnique(p: seq<Artifact>, refused: set<string>)
    requires Unique(p)
    ensures Unique(Assign(p, refused).survivors)
    decreases |p|
  {
    hide Judge, Kept, Dropped, Unique;
    var s := Take(p, refused);
    KeptUnique(p, s);
    if Dropped(p, s) != [] { SurvivorsUnique(Kept(p, s), refused + DroppedIdentities(Dropped(p, s))); }
  }

  lemma StaleIsOrphaned(p: seq<Artifact>, refused: set<string>, k: nat)
    requires Unique(p) && forall i :: 0 <= i < |p| && !p[i].ownerFromModel ==> p[i].owner == None
    requires k < |Assign(p, refused).survivors|
    ensures var o := Assign(p, refused); Stale(o.survivors[k], o.survivors) <==> Orphaned(p, o, k)
  {
    hide Assign, Containers, Found, Unique, Bare, Closed;
    var o := Assign(p, refused);
    var a := o.survivors[k];
    if TakesOwner(a) && MayLackOwner(a) {
      SurvivorsUnique(p, refused);
      FoundNone(a, o.survivors);
      OwnerOfSurvivor(p, refused, k);
      OwnerKnown(p, refused, k);
      SettledOwner(p, refused, k);
      forall x | x in Containers(a, p) && x in Identities(o.survivors) ensures x in Containers(a, o.survivors) {
        ContainerStays(p, refused, a, x);
      }
    }
  }

  lemma OwnerKnown(p: seq<Artifact>, refused: set<string>, k: nat)
    requires Unique(p) && forall i :: 0 <= i < |p| && !p[i].ownerFromModel ==> p[i].owner == None
    requires k < |Assign(p, refused).survivors| && TakesOwner(Assign(p, refused).survivors[k])
    ensures var a := Assign(p, refused).survivors[k]; a.owner.Some? ==> Containers(a, p) == {a.owner.value}
  {
    hide Assign, Containers, Bare, Unique;
    var a := Assign(p, refused).survivors[k];
    var i := OwnerHistory(p, refused, k);
    BareShape(a, p[i]);
    SameContainers(a, p[i], p);
  }

  lemma SettledOwner(p: seq<Artifact>, refused: set<string>, k: nat)
    requires k < |Assign(p, refused).survivors| && TakesOwner(Assign(p, refused).survivors[k])
    ensures var o := Assign(p, refused); var a := o.survivors[k];
      Found(a, o.survivors) != [] ==> a.owner.Some? && a.owner.value in Identities(o.survivors)
  {
    hide Assign, Found, Identities;
    var o := Assign(p, refused);
    SurvivorsClosed(p, refused, k);
    if Found(o.survivors[k], o.survivors) != [] { FoundSurvives(o.survivors[k], o.survivors); }
  }

  /** Every emitted owner survives exactly when in no round the pass comes to the
      branch that keeps a stale owner for an artifact it does not refuse later. */
  lemma OwnersSurviveFires(p: seq<Artifact>, refused: set<string>)
    requires Unique(p) && forall i :: 0 <= i < |p| && !p[i].ownerFromModel ==> p[i].owner == None
    ensures var o := Assign(p, refused);
      OwnersSurvive(o) <==> forall k :: 0 <= k < |o.survivors| ==> !Fires(p, refused, o.survivors[k].identity)
  {
    hide Assign, OwnersSurvive, Fires, Stale, Orphaned, Unique;
    var o := Assign(p, refused);
    OwnersSurviveIff(p, refused);
    forall k: nat | k < |o.survivors| ensures Fires(p, refused, o.survivors[k].identity) <==> Orphaned(p, o, k) {
      FiresAtEnd(p, refused, k);
      StaleIsOrphaned(p, refused, k);
    }
  }

  /** The pass leaves an owner that was refused: `X` may lack an owner and is
      contained by `C`, whose own reference dangles. */
  lemma StaleOwner()
    ensures
      var x := Artifact("X", [], [], [], [], [], None, None, false, Some(Declaration(Optional, None, false)));
      var c := Artifact("C", [], [Edge("X", true)], [], ["D"], [], None, None, false, None);
      var o := Assign([x, c], {});
      o.survivors == [x.(owner := Some("C"))] && o.refused == {"C"}
  {
    var x := Artifact("X", [], [], [], [], [], None, None, false, Some(Declaration(Optional, None, false)));
    var c := Artifact("C", [], [Edge("X", true)], [], ["D"], [], None, None, false, None);
    var x' := x.(owner := Some("C"));
    assert x.edges == [] && x'.edges == [] && c.edges[0] == Edge("X", true);
    FirstRound(x, c);
    SecondRound(x', {"C"});
  }

  lemma FirstRound(x: Artifact, c: Artifact)
    requires x == Artifact("X", [], [], [], [], [], None, None, false, Some(Declaration(Optional, None, false)))
    requires c == Artifact("C", [], [Edge("X", true)], [], ["D"], [], None, None, false, None)
    ensures Kept([x, c], Take([x, c], {})) == [x.(owner := Some("C"))]
    ensures Dropped([x, c], Take([x, c], {})) == [(c, DanglingReference("D"))]
    ensures DroppedIdentities([(c, DanglingReference("D"))]) == {"C"}
  {
    var p := [x, c];
    var s := Take(p, {});
    assert c.edges[0] == Edge("X", true) && Contains(c, "X");
    assert !Contains(x, "X");
    assert p[..1] == [x] && [x][..0] == [];
    assert OwnerList([x], "X") == [];
    assert OwnerList(p, "X") == [Owner("C", [])];
    assert [Owner("C", [])][1..] == [];
    assert Judge(x, s) == Keep(x.(owner := Some("C")));
    assert "D" !in s.lowered;
    assert TypeRefs(c) == ["D"];
    assert Judge(c, s) == Refuse(DanglingReference("D"));
    assert p[1..] == [c] && [c][1..] == [];
    var d := [(c, DanglingReference("D"))];
    assert d[0].0.identity == "C";
  }

  lemma SecondRound(x: Artifact, refused: set<string>)
    requires x == Artifact("X", [], [], [], [], [], None, Some("C"), false, Some(Declaration(Optional, None, false)))
    ensures Assign([x], refused) == Outcome([x], [], refused)
  {
    var s := Take([x], refused);
    assert !Contains(x, "X");
    assert [x][..0] == [] && OwnerList([x], "X") == [];
    assert TypeRefs(x) == [];
    assert Judge(x, s) == Keep(x);
    assert [x][1..] == [];
  }

  /** As `x` above, but it also refers to `B`, which refers to the refused `C`. */
  const LEANING := Artifact("X", [], [], [], ["B"], [], None, None, false, Some(Declaration(Optional, None, false)))
  const LEANED := LEANING.(owner := Some("C"))
  const HOLDER := Artifact("C", [], [Edge("X", true)], [], ["D"], [], None, None, false, None)
  const BRIDGE := Artifact("B", [], [], [], ["C"], [], None, None, false, None)

  lemma LeaningContained()
    ensures OwnerList([LEANING, HOLDER, BRIDGE], "X") == [Owner("C", [])]
    ensures OwnerList([LEANED, BRIDGE], "X") == []
  {
    assert HOLDER.edges[0] == Edge("X", true) && Contains(HOLDER, "X");
    assert !Contains(LEANING, "X") && !Contains(LEANED, "X") && !Contains(BRIDGE, "X");
    assert [LEANING, HOLDER, BRIDGE][..2] == [LEANING, HOLDER] && [LEANING, HOLDER][..1] == [LEANING];
    assert [LEANED, BRIDGE][..1] == [LEANED];
    var none: seq<Artifact> := [];
    assert [LEANING][..0] == none && [LEANED][..0] == none;
    assert OwnerList(none, "X") == [];
    assert OwnerList([LEANING], "X") == [];
    assert OwnerList([LEANED], "X") == [];
  }

  lemma LeaningFirst()
    ensures var (p, s) := ([LEANING, HOLDER, BRIDGE], Take([LEANING, HOLDER, BRIDGE], {}));
      Judge(LEANING, s) == Keep(LEANED) && Judge(HOLDER, s).Refuse? && Judge(BRIDGE, s) == Keep(BRIDGE)
  {
    var p := [LEANING, HOLDER, BRIDGE];
    LeaningContained();
    assert p[0].identity == "X" && p[1].identity == "C" && p[2].identity == "B";
    assert TypeRefs(LEANING) == ["B"] && TypeRefs(HOLDER) == ["D"] && TypeRefs(BRIDGE) == ["C"];
    assert [Owner("C", [])][1..] == [];
    assert "D" !in Identities(p);
    hide OwnerList;
  }

  lemma LeaningSecond(refused: set<string>)
    ensures var s := Take([LEANED, BRIDGE], refused); Judge(LEANED, s) == Keep(LEANED) && Judge(BRIDGE, s).Refuse?
  {
    var p := [LEANED, BRIDGE];
    LeaningContained();
    assert p[0].identity == "X" && p[1].identity == "B";
    assert TypeRefs(LEANED) == ["B"] && TypeRefs(BRIDGE) == ["C"];
    assert "C" !in Identities(p);
    hide OwnerList;
  }

  lemma LeaningThird(refused: set<string>)
    ensures Judge(LEANED, Take([LEANED], refused)).Refuse?
  {
    assert TypeRefs(LEANED) == ["B"];
    assert "B" !in Identities([LEANED]);
    hide OwnerList;
  }

  /** Coming to the stale branch breaks nothing where the artifact is refused later:
      the pass comes to it for `X`, and no artifact survives. */
  lemma FiresInVain()
    ensures Fires([LEANING, HOLDER, BRIDGE], {}, "X") && Assign([LEANING, HOLDER, BRIDGE], {}).survivors == []
  {
    var (p, q) := ([LEANING, HOLDER, BRIDGE], [LEANED, BRIDGE]);
    LeaningFirst();
    LeaningStale();
    hide Judge, OwnerList, DroppedIdentities, Stale;
    var s := Take(p, {});
    var none: seq<Artifact> := [];
    assert p[1..] == [HOLDER, BRIDGE] && [HOLDER, BRIDGE][1..] == [BRIDGE] && [BRIDGE][1..] == none;
    assert Kept(none, s) == [] && Kept([BRIDGE], s) == [BRIDGE] + [] == [BRIDGE];
    assert Kept([HOLDER, BRIDGE], s) == [BRIDGE] && Kept(p, s) == [LEANED] + [BRIDGE] == q;
    assert Dropped([HOLDER, BRIDGE], s) != [];
    assert Dropped(p, s) != [];
    var refused := {} + DroppedIdentities(Dropped(p, Take(p, {})));
    assert StaleIn(q, "X") by { assert q[0] == LEANED; }
    LeaningSurvives(refused);
  }

  lemma LeaningStale()
    ensures Stale(LEANED, [LEANED, BRIDGE])
  {
    LeaningContained();
    hide OwnerList;
  }

  lemma DroppedAll(a: Artifact, s: Snapshot)
    requires Judge(a, s).Refuse?
    ensures Kept([a], s) == [] && |Dropped([a], s)| == 1
  {
    hide Judge;
    var none: seq<Artifact> := [];
    assert [a][1..] == none;
    assert Kept(none, s) == [];
  }

  lemma LeaningSurvives(refused: set<string>)
    ensures Assign([LEANED, BRIDGE], refused).survivors == []
  {
    var q := [LEANED, BRIDGE];
    var s := Take(q, refused);
    LeaningSecond(refused);
    hide Judge, DroppedIdentities;
    assert q[1..] == [BRIDGE];
    DroppedAll(BRIDGE, s);
    assert Kept(q, s) == [LEANED] + [] == [LEANED];
    var d := Dropped(q, s);
    assert d != [];
    LeaningEnds(refused + DroppedIdentities(d));
  }

  lemma LeaningEnds(refused: set<string>)
    ensures Assign([LEANED], refused).survivors == []
  {
    LeaningThird(refused);
    hide Judge, DroppedIdentities;
    var s := Take([LEANED], refused);
    DroppedAll(LEANED, s);
    var more := refused + DroppedIdentities(Dropped([LEANED], s));
    assert Assign([], more).survivors == [];
  }

  // ----- the order of the artifacts does not matter

  lemma InBoth<T>(p: seq<T>, q: seq<T>, x: T)
    requires multiset(p) == multiset(q)
    ensures x in p <==> x in q
  {
    assert x in p <==> x in multiset(p);
    assert x in q <==> x in multiset(q);
  }

  lemma TablesInto(p: seq<Artifact>, q: seq<Artifact>)
    requires multiset(p) == multiset(q)
    ensures Identities(p) <= Identities(q) && Operations(p) <= Operations(q)
  {
    forall x | x in Identities(p) ensures x in Identities(q) {
      var i :| 0 <= i < |p| && p[i].identity == x;
      InBoth(p, q, p[i]);
      var k :| 0 <= k < |q| && q[k] == p[i];
      assert q[k].identity == x;
    }
    forall x | x in Operations(p) ensures x in Operations(q) {
      var i, j :| 0 <= i < |p| && 0 <= j < |p[i].operations| && p[i].operations[j] == x;
      InBoth(p, q, p[i]);
      var k :| 0 <= k < |q| && q[k] == p[i];
      assert q[k].operations[j] == x;
    }
  }

  lemma ContainersInto(a: Artifact, p: seq<Artifact>, q: seq<Artifact>)
    requires a.declaration.Some? && multiset(p) == multiset(q)
    ensures Containers(a, p) <= Containers(a, q)
  {
    hide Holds, Containers;
    forall x | x in Containers(a, p) ensures x in Containers(a, q) {
      var i := OutOfContainers(a, p, x);
      InBoth(p, q, p[i]);
      var k :| 0 <= k < |q| && q[k] == p[i];
      IntoContainers(a, q, k);
    }
  }

  lemma FoundPerm(a: Artifact, p: seq<Artifact>, q: seq<Artifact>)
    requires a.declaration.Some? && multiset(p) == multiset(q) && Unique(p) && Unique(q)
    ensures |Found(a, p)| == |Found(a, q)|
    ensures |Found(a, p)| == 1 ==> Found(a, p)[0].identity == Found(a, q)[0].identity
  {
    hide Found, Containers;
    ContainersInto(a, p, q);
    ContainersInto(a, q, p);
    assert Containers(a, p) == Containers(a, q);
    FoundIsContainers(a, p);
    FoundIsContainers(a, q);
    if |Found(a, p)| == 1 {
      var x := Found(a, p)[0].identity;
      assert Lists(Found(a, p), x);
      var i :| 0 <= i < |Found(a, q)| && Found(a, q)[i].identity == x;
      assert i == 0;
    }
  }

  /** A round decides each artifact the same way whatever the order of the list. */
  lemma JudgePerm(a: Artifact, p: seq<Artifact>, q: seq<Artifact>, refused: set<string>)
    requires multiset(p) == multiset(q) && Unique(p) && Unique(q)
    ensures Judge(a, Take(p, refused)) == Judge(a, Take(q, refused))
  {
    hide Found, Identities, Operations;
    TablesInto(p, q);
    TablesInto(q, p);
    assert Identities(p) == Identities(q) && Operations(p) == Operations(q);
    if a.declaration.Some? { FoundPerm(a, p, q); }
  }

  lemma {:induction false} SameJudgments(p: seq<Artifact>, s: Snapshot, t: Snapshot)
    requires forall i :: 0 <= i < |p| ==> Judge(p[i], s) == Judge(p[i], t)
    ensures Kept(p, s) == Kept(p, t) && Dropped(p, s) == Dropped(p, t)
    decreases |p|
  {
    hide Judge;
    if p != [] { SameJudgments(p[1..], s, t); }
  }

  lemma KeptMiddle(a: seq<Artifact>, x: Artifact, b: seq<Artifact>, s: Snapshot)
    ensures multiset(Kept(a + ([x] + b), s)) == multiset(Kept([x], s)) + multiset(Kept(a + b, s))
  {
    hide Judge, Kept;
    KeptAppend(a, b, s);
    KeptAppend(a, [x] + b, s);
    KeptAppend([x], b, s);
  }

  lemma DroppedMiddle(a: seq<Artifact>, x: Artifact, b: seq<Artifact>, s: Snapshot)
    ensures multiset(Dropped(a + ([x] + b), s)) == multiset(Dropped([x], s)) + multiset(Dropped(a + b, s))
  {
    hide Judge, Kept, Dropped;
    DroppedAppend(a, b, s);
    DroppedAppend(a, [x] + b, s);
    DroppedAppend([x], b, s);
  }

  /** The head of one list inside a permutation of it. */
  lemma HeadInside<T>(p: seq<T>, q: seq<T>) returns (a: seq<T>, b: seq<T>)
    requires p != [] && multiset(p) == multiset(q)
    ensures q == a + ([p[0]] + b) && multiset(p[1..]) == multiset(a + b)
  {
    InBoth(p, q, p[0]);
    var k :| 0 <= k < |q| && q[k] == p[0];
    a, b := q[..k], q[k + 1..];
    assert q == a + ([q[k]] + b);
    assert p == [p[0]] + p[1..];
    assert multiset(q) == multiset(a) + (multiset{q[k]} + multiset(b));
    assert multiset(p) == multiset{p[0]} + multiset(p[1..]);
    assert multiset(p[1..]) == multiset(p) - multiset{p[0]};
    assert multiset(a) + multiset(b) == multiset(q) - multiset{q[k]};
  }

  lemma {:induction false} RoundPerm(p: seq<Artifact>, q: seq<Artifact>, s: Snapshot)
    requires multiset(p) == multiset(q)
    ensures multiset(Kept(p, s)) == multiset(Kept(q, s)) && multiset(Dropped(p, s)) == multiset(Dropped(q, s))
    decreases |p|
  {
    hide Judge, Kept, Dropped;
    if p == [] {
      assert |multiset(q)| == 0;
      assert q == [];
    } else {
      var a, b := HeadInside(p, q);
      RoundPerm(p[1..], a + b, s);
      KeptMiddle(a, p[0], b, s);
      DroppedMiddle(a, p[0], b, s);
      KeptMiddle([], p[0], p[1..], s);
      DroppedMiddle([], p[0], p[1..], s);
      assert [] + ([p[0]] + p[1..]) == p && [] + p[1..] == p[1..];
    }
  }

  lemma DroppedInto(d: seq<(Artifact, Rule)>, e: seq<(Artifact, Rule)>)
    requires multiset(d) == multiset(e)
    ensures DroppedIdentities(d) <= DroppedIdentities(e)
  {
    forall x | x in DroppedIdentities(d) ensures x in DroppedIdentities(e) {
      var i :| 0 <= i < |d| && d[i].0.identity == x;
      InBoth(d, e, d[i]);
      var k :| 0 <= k < |e| && e[k] == d[i];
      assert e[k].0.identity == x;
    }
  }

  lemma RoundsAgree(p: seq<Artifact>, q: seq<Artifact>, refused: set<string>)
    requires multiset(p) == multiset(q) && Unique(p) && Unique(q)
    ensures var (s, t) := (Take(p, refused), Take(q, refused));
      multiset(Kept(p, s)) == multiset(Kept(q, t)) && multiset(Dropped(p, s)) == multiset(Dropped(q, t))
    ensures Unique(Kept(p, Take(p, refused))) && Unique(Kept(q, Take(q, refused)))
  {
    hide Judge, Kept, Dropped, Take, Unique;
    var s, t := Take(p, refused), Take(q, refused);
    forall i | 0 <= i < |q| ensures Judge(q[i], s) == Judge(q[i], t) { JudgePerm(q[i], p, q, refused); }
    SameJudgments(q, s, t);
    RoundPerm(p, q, s);
    KeptUnique(p, s);
    KeptUnique(q, t);
  }

  /** Permuting the artifacts permutes the survivors, with their owners, and the
      refusals, and refuses the same identities. */
  lemma {:induction false} OrderIndependent(p: seq<Artifact>, q: seq<Artifact>, refused: set<string>)
    requires multiset(p) == multiset(q) && Unique(p) && Unique(q)
    ensures var o, r := Assign(p, refused), Assign(q, refused);
      multiset(o.survivors) == multiset(r.survivors) && multiset(o.refusals) == multiset(r.refusals)
        && o.refused == r.refused
    decreases |p|
  {
    hide Judge, Kept, Dropped, DroppedIdentities, Take, Unique;
    var s, t := Take(p, refused), Take(q, refused);
    RoundsAgree(p, q, refused);
    var d, e := Dropped(p, s), Dropped(q, t);
    assert |d| == |multiset(d)| == |multiset(e)| == |e|;
    if d != [] {
      DroppedInto(d, e);
      DroppedInto(e, d);
      assert DroppedIdentities(d) == DroppedIdentities(e);
      OrderIndependent(Kept(p, s), Kept(q, t), refused + DroppedIdentities(d));
    }
  }

  // ----- the greatest closed set

  /** `t` refers only to itself and targets nothing refused from the start and
      nothing of `p` outside itself. */
  ghost predicate SelfContained(t: seq<Artifact>, p: seq<Artifact>, refused: set<string>) {
    forall i :: 0 <= i < |t| ==>
      (&& t[i] in p
       && (forall j :: 0 <= j < |TypeRefs(t[i])| ==> TypeRefs(t[i])[j] in Identities(t))
       && (t[i].source.Some? ==> t[i].source.value in Identities(t) || t[i].source.value in Operations(t))
       && (forall j :: 0 <= j < |t[i].edges| ==> Untouched(t[i].edges[j].target, t, p, refused)))
  }

  ghost predicate Untouched(target: string, t: seq<Artifact>, p: seq<Artifact>, refused: set<string>) {
    target !in refused && (target in Identities(p) ==> target in Identities(t))
  }

  ghost predicate NoneTakesOwner(p: seq<Artifact>) {
    forall i :: 0 <= i < |p| ==> !TakesOwner(p[i])
  }

  lemma {:induction false} DroppedFrom(p: seq<Artifact>, s: Snapshot, k: nat) returns (i: nat)
    requires k < |Dropped(p, s)|
    ensures i < |p| && Dropped(p, s)[k].0 == p[i] && Judge(p[i], s).Refuse?
    decreases |p|
  {
    hide Judge, Kept;
    if Judge(p[0], s).Refuse? {
      if k == 0 { i := 0; } else { i := DroppedFrom(p[1..], s, k - 1); i := i + 1; }
    } else {
      i := DroppedFrom(p[1..], s, k);
      i := i + 1;
    }
  }

  lemma {:induction false} KeptHas(p: seq<Artifact>, s: Snapshot, i: nat)
    requires i < |p| && Judge(p[i], s).Keep?
    ensures Judge(p[i], s).kept in Kept(p, s)
    decreases |p|
  {
    hide Judge;
    if i > 0 { KeptHas(p[1..], s, i - 1); }
  }

  /** A self-contained set is kept by a round that has refused none of its targets. */
  lemma RoundKeepsSelfContained(t: seq<Artifact>, p: seq<Artifact>, q: seq<Artifact>, start: set<string>,
                                refused: set<string>, i: nat)
    requires SelfContained(t, p, start) && NoneTakesOwner(p) && i < |t|
    requires forall j :: 0 <= j < |t| ==> t[j] in q
    requires start <= refused && refused <= start + (Identities(p) - Identities(t))
    ensures Judge(t[i], Take(q, refused)) == Keep(t[i])
  {
    var a := t[i];
    forall x | x in Identities(t) ensures x in Identities(q) {
      var j :| 0 <= j < |t| && t[j].identity == x;
      var k :| 0 <= k < |q| && q[k] == t[j];
      assert q[k].identity == x;
    }
    forall x | x in Operations(t) ensures x in Operations(q) {
      var j, m :| 0 <= j < |t| && 0 <= m < |t[j].operations| && t[j].operations[m] == x;
      var k :| 0 <= k < |q| && q[k] == t[j];
      assert q[k].operations[m] == x;
    }
    forall j | 0 <= j < |a.edges| ensures a.edges[j].target !in refused {
      assert Untouched(a.edges[j].target, t, p, start);
    }
    var n :| 0 <= n < |p| && p[n] == a;
  }

  lemma RoundRefusesOutside(t: seq<Artifact>, p: seq<Artifact>, q: seq<Artifact>, start: set<string>,
                            refused: set<string>)
    requires SelfContained(t, p, start) && NoneTakesOwner(p) && Unique(p)
    requires forall j :: 0 <= j < |t| ==> t[j] in q
    requires forall j :: 0 <= j < |q| ==> q[j] in p
    requires start <= refused && refused <= start + (Identities(p) - Identities(t))
    ensures DroppedIdentities(Dropped(q, Take(q, refused))) <= Identities(p) - Identities(t)
  {
    hide Judge, Dropped, SelfContained;
    var s := Take(q, refused);
    var d := Dropped(q, s);
    forall x | x in DroppedIdentities(d) ensures x in Identities(p) - Identities(t) {
      var k: nat :| k < |d| && d[k].0.identity == x;
      var i := DroppedFrom(q, s, k);
      assert q[i] in p;
      var n :| 0 <= n < |p| && p[n] == q[i];
      forall j | 0 <= j < |t| ensures t[j].identity != x {
        RoundKeepsSelfContained(t, p, q, start, refused, j);
        InSecond(t[j], q, p);
        var l :| 0 <= l < |p| && p[l] == t[j];
        assert p[l] != p[n];
      }
    }
  }

  lemma InSecond(x: Artifact, q: seq<Artifact>, p: seq<Artifact>)
    requires x in q && forall j :: 0 <= j < |q| ==> q[j] in p
    ensures x in p
  {
  }

  lemma {:induction false} GreatestFrom(t: seq<Artifact>, p: seq<Artifact>, q: seq<Artifact>, start: set<string>,
                                        refused: set<string>)
    requires SelfContained(t, p, start) && NoneTakesOwner(p) && Unique(p)
    requires forall j :: 0 <= j < |t| ==> t[j] in q
    requires forall j :: 0 <= j < |q| ==> q[j] in p
    requires start <= refused && refused <= start + (Identities(p) - Identities(t))
    ensures forall j :: 0 <= j < |t| ==> t[j] in Assign(q, refused).survivors
    decreases |q|
  {
    hide Judge, Kept, Dropped, SelfContained, Identities, Unique;
    var s := Take(q, refused);
    var d := Dropped(q, s);
    var kept := Kept(q, s);
    forall j | 0 <= j < |t| ensures t[j] in kept {
      RoundKeepsSelfContained(t, p, q, start, refused, j);
      var i: nat :| i < |q| && q[i] == t[j];
      KeptHas(q, s, i);
    }
    if d != [] {
      forall k | 0 <= k < |kept| ensures kept[k] in p {
        var i := KeptFrom(q, s, k);
        assert q[i] in p;
        var n :| 0 <= n < |p| && p[n] == q[i];
        JudgeBare(q[i], s);
      }
      RoundRefusesOutside(t, p, q, start, refused);
      GreatestFrom(t, p, kept, start, refused + DroppedIdentities(d));
    }
  }

  lemma {:induction false} SurvivorsUntouched(q: seq<Artifact>, refused: set<string>)
    requires NoneTakesOwner(q)
    ensures forall k :: 0 <= k < |Assign(q, refused).survivors| ==> Assign(q, refused).survivors[k] in q
    decreases |q|
  {
    hide Judge, Kept, Dropped, TakesOwner;
    var s := Take(q, refused);
    var kept := Kept(q, s);
    forall k | 0 <= k < |kept| ensures kept[k] in q && !TakesOwner(kept[k]) {
      var i := KeptFrom(q, s, k);
      JudgeBare(q[i], s);
      assert q[i] == kept[k];
    }
    if Dropped(q, s) != [] { SurvivorsUntouched(kept, refused + DroppedIdentities(Dropped(q, s))); }
  }

  lemma {:induction false} DroppedHas(p: seq<Artifact>, s: Snapshot, i: nat)
    requires i < |p| && Judge(p[i], s).Refuse?
    ensures p[i].identity in DroppedIdentities(Dropped(p, s))
    decreases |p|
  {
    hide Judge, Kept;
    var d := Dropped(p, s);
    if i == 0 {
      assert d[0].0 == p[0];
    } else {
      DroppedHas(p[1..], s, i - 1);
      var e := Dropped(p[1..], s);
      var k :| 0 <= k < |e| && e[k].0.identity == p[i].identity;
      assert d[if Judge(p[0], s).Refuse? then k + 1 else k].0.identity == p[i].identity;
    }
  }

  /** Every artifact survives or is refused, by identity. */
  lemma {:induction false} AllAccounted(p: seq<Artifact>, refused: set<string>)
    ensures var o := Assign(p, refused); refused <= o.refused && Identities(p) <= Identities(o.survivors) + o.refused
    decreases |p|
  {
    hide Judge, Kept, Dropped, DroppedIdentities;
    var s := Take(p, refused);
    var d := Dropped(p, s);
    var kept := Kept(p, s);
    forall x | x in Identities(p) ensures x in Identities(kept) || x in DroppedIdentities(d) {
      var i: nat :| i < |p| && p[i].identity == x;
      if Judge(p[i], s).Keep? {
        KeptHas(p, s, i);
        JudgeBare(p[i], s);
        var k :| 0 <= k < |kept| && kept[k] == Judge(p[i], s).kept;
        assert kept[k].identity == x;
      } else {
        DroppedHas(p, s, i);
      }
    }
    if d == [] {
      assert DroppedIdentities(d) == {} by { NoDropped(); }
    } else {
      AllAccounted(kept, refused + DroppedIdentities(d));
    }
  }

  lemma SurvivorsTargets(p: seq<Artifact>, refused: set<string>)
    requires NoneTakesOwner(p)
    ensures SelfContained(Assign(p, refused).survivors, p, refused)
  {
    hide Assign, TypeRefs, Identities, Operations, TakesOwner;
    var o := Assign(p, refused);
    var t := o.survivors;
    SurvivorsUntouched(p, refused);
    AllAccounted(p, refused);
    forall i | 0 <= i < |t| ensures Closed(t[i], t, o.refused) { SurvivorsClosed(p, refused, i); }
    forall i, j | 0 <= i < |t| && 0 <= j < |t[i].edges| ensures Untouched(t[i].edges[j].target, t, p, refused) {
      assert Closed(t[i], t, o.refused);
    }
  }

  /** Where no artifact takes an owner, the survivors are a self-contained set of
      the input and every self-contained set of the input survives. */
  lemma GreatestClosedSet(p: seq<Artifact>, refused: set<string>, t: seq<Artifact>)
    requires Unique(p) && NoneTakesOwner(p)
    ensures SelfContained(Assign(p, refused).survivors, p, refused)
    ensures SelfContained(t, p, refused) ==> forall j :: 0 <= j < |t| ==> t[j] in Assign(p, refused).survivors
  {
    var o := Assign(p, refused);
    SurvivorsUntouched(p, refused);
    SurvivorsTargets(p, refused);
    if SelfContained(t, p, refused) {
      hide Assign, Identities;
      assert forall j :: 0 <= j < |t| ==> t[j] in p;
      GreatestFrom(t, p, p, refused, refused);
    }
  }
}
