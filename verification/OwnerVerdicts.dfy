/** Who survives the owner pass, and why an artifact does not: both said of the artifacts
    themselves, their relationships, references and roles. */
module OwnerVerdicts {
  import opened Wrappers
  import opened Owners
  import opened OwnerLaws

  ghost predicate Named(q: seq<Artifact>, x: string) { exists i :: 0 <= i < |q| && q[i].identity == x }

  ghost predicate Offers(q: seq<Artifact>, x: string) { exists i :: 0 <= i < |q| && x in q[i].operations }

  /** The type references of an artifact; its owner is one only when the model gave it. */
  function References(a: Artifact): seq<string> {
    a.behaviour + (if a.ownerFromModel && a.owner.Some? then [a.owner.value] else []) + a.ends
  }

  ghost predicate EdgesStand(a: Artifact, refused: set<string>) { forall e :: e in a.edges ==> e.target !in refused }

  ghost predicate ReferencesStand(a: Artifact, q: seq<Artifact>) { forall x :: x in References(a) ==> Named(q, x) }

  ghost predicate SourceStands(a: Artifact, q: seq<Artifact>) {
    a.source.Some? ==> Named(q, a.source.value) || Offers(q, a.source.value)
  }

  /** Everything but the owner is in order among `q`. */
  ghost predicate Stands(a: Artifact, q: seq<Artifact>, refused: set<string>) {
    EdgesStand(a, refused) && ReferencesStand(a, q) && SourceStands(a, q)
  }

  /** The pass gives this artifact its owner. */
  ghost predicate Owned(a: Artifact) {
    !a.ownerFromModel && a.declaration.Some? && a.declaration.value.presence != Forbidden
  }

  /** It may go without one. */
  ghost predicate Orphanable(a: Artifact)
    requires a.declaration.Some?
  {
    a.declaration.value.presence == Optional && !a.declaration.value.singleOwner
  }

  // ----- one verdict

  lemma {:induction false} FirstRefused(edges: seq<Edge>, refused: set<string>)
    ensures match FirstEdgeInto(edges, refused)
            case None => forall e :: e in edges ==> e.target !in refused
            case Some(x) => exists j :: FirstAt(edges, refused, j, x)
  {
    if edges != [] && edges[0].target !in refused {
      FirstRefused(edges[1..], refused);
      assert FirstEdgeInto(edges, refused) == FirstEdgeInto(edges[1..], refused);
      if FirstEdgeInto(edges, refused).None? {
        forall e | e in edges ensures e.target !in refused { assert e == edges[0] || e in edges[1..]; }
      } else {
        var x := FirstEdgeInto(edges, refused).value;
        var j :| FirstAt(edges[1..], refused, j, x);
        var next := j + 1;
        forall i | 0 <= i < next ensures edges[i].target !in refused {
          if i > 0 { assert edges[i] == edges[1..][i - 1]; }
        }
        assert FirstAt(edges, refused, next, x);
      }
    } else if edges != [] {
      assert FirstEdgeInto(edges, refused) == Some(edges[0].target);
      assert FirstAt(edges, refused, 0, edges[0].target);
    } else {
      assert FirstEdgeInto(edges, refused) == None;
    }
  }

  /** The `j`-th relationship is the first into the refused ones. */
  ghost predicate FirstAt(edges: seq<Edge>, refused: set<string>, j: int, x: string) {
    && 0 <= j < |edges| && edges[j].target == x && x in refused
    && forall i :: 0 <= i < j ==> edges[i].target !in refused
  }

  lemma {:induction false} FirstMissing(refs: seq<string>, known: set<string>)
    ensures match FirstOutside(refs, known)
            case None => forall x :: x in refs ==> x in known
            case Some(x) => exists j :: MissingAt(refs, known, j, x)
  {
    if refs != [] && refs[0] in known {
      FirstMissing(refs[1..], known);
      assert FirstOutside(refs, known) == FirstOutside(refs[1..], known);
      if FirstOutside(refs, known).None? {
        forall x | x in refs ensures x in known { assert x == refs[0] || x in refs[1..]; }
      } else {
        var x := FirstOutside(refs, known).value;
        var j :| MissingAt(refs[1..], known, j, x);
        var next := j + 1;
        forall i | 0 <= i < next ensures refs[i] in known {
          if i > 0 { assert refs[i] == refs[1..][i - 1]; }
        }
        assert MissingAt(refs, known, next, x);
      }
    } else if refs != [] {
      assert FirstOutside(refs, known) == Some(refs[0]);
      assert MissingAt(refs, known, 0, refs[0]);
    } else {
      assert FirstOutside(refs, known) == None;
    }
  }

  ghost predicate MissingAt(refs: seq<string>, known: set<string>, j: int, x: string) {
    && 0 <= j < |refs| && refs[j] == x && x !in known
    && forall i :: 0 <= i < j ==> refs[i] in known
  }

  lemma NamesAre(q: seq<Artifact>)
    ensures forall x :: x in Identities(q) <==> Named(q, x)
    ensures forall x :: x in Operations(q) <==> Offers(q, x)
  {
    forall x | x in Operations(q) ensures Offers(q, x) {
      var i, j :| 0 <= i < |q| && 0 <= j < |q[i].operations| && q[i].operations[j] == x;
    }
    forall x | Offers(q, x) ensures x in Operations(q) {
      var i :| 0 <= i < |q| && x in q[i].operations;
      var j :| 0 <= j < |q[i].operations| && q[i].operations[j] == x;
    }
  }

  /** Why a round refuses an artifact. */
  ghost predicate Explains(a: Artifact, rule: Rule, q: seq<Artifact>, refused: set<string>) {
    match rule
    case DanglingEdge(x) => exists j :: FirstAt(a.edges, refused, j, x)
    case DanglingReference(x) => EdgesStand(a, refused) && exists j :: MissingAt(References(a), Identities(q), j, x)
    case DanglingSource(x) =>
      && EdgesStand(a, refused) && ReferencesStand(a, q)
      && a.source == Some(x) && !Named(q, x) && !Offers(q, x)
    case Contained(count) =>
      && Stands(a, q, refused) && Owned(a)
      && count == |Containers(a, q)| && count != 1 && (count == 0 ==> !Orphanable(a))
  }

  /** Why a round keeps it. */
  ghost predicate Passes(a: Artifact, q: seq<Artifact>, refused: set<string>) {
    Stands(a, q, refused) && (Owned(a) ==> |Containers(a, q)| == 1 || (Containers(a, q) == {} && Orphanable(a)))
  }

  /** A round keeps an artifact, or refuses it for the first rule it breaks. */
  lemma JudgeExplained(a: Artifact, q: seq<Artifact>, refused: set<string>)
    requires Unique(q)
    ensures match Judge(a, Take(q, refused))
            case Keep(_) => Passes(a, q, refused)
            case Refuse(rule) => Explains(a, rule, q, refused) && !Passes(a, q, refused)
  {
    FirstRefused(a.edges, refused);
    FirstMissing(References(a), Identities(q));
    NamesAre(q);
    FirstBroken(a, q, refused);
    if a.declaration.Some? { FoundIsContainers(a, q); }
    hide FirstEdgeInto, FirstOutside, Found, Containers, Named, Offers, FirstAt, MissingAt, Unique, Identities,
        Operations;
    assert TypeRefs(a) == References(a);
  }

  lemma FirstBroken(a: Artifact, q: seq<Artifact>, refused: set<string>)
    ensures (exists j, x :: FirstAt(a.edges, refused, j, x)) ==> !EdgesStand(a, refused)
    ensures (exists j, x :: MissingAt(References(a), Identities(q), j, x)) ==> !ReferencesStand(a, q)
  {
    NamesAre(q);
    hide Identities, References;
    if j, x :| FirstAt(a.edges, refused, j, x) { assert a.edges[j] in a.edges; }
    if j, x :| MissingAt(References(a), Identities(q), j, x) { assert References(a)[j] in References(a); }
  }

  // ----- the whole run

  /** A round of the run comes to the artifacts `q` with the identities `r` refused. */
  ghost predicate Comes(p: seq<Artifact>, refused: set<string>, q: seq<Artifact>, r: set<string>)
    decreases |p|
  {
    var s := Take(p, refused);
    var d := Dropped(p, s);
    (q == p && r == refused) || (d != [] && Comes(Kept(p, s), refused + DroppedIdentities(d), q, r))
  }

  lemma {:induction false} DroppedFrom(p: seq<Artifact>, s: Snapshot, k: nat)
    requires k < |Dropped(p, s)|
    ensures Dropped(p, s)[k].0 in p && Judge(Dropped(p, s)[k].0, s) == Refuse(Dropped(p, s)[k].1)
    decreases |p|
  {
    hide Judge;
    if Judge(p[0], s).Keep? {
      DroppedFrom(p[1..], s, k);
    } else if k > 0 {
      DroppedFrom(p[1..], s, k - 1);
    }
  }

  /** Every refusal names what was broken in a round of the run, a count of containers
      included: there were exactly so many. */
  lemma {:induction false} RefusalsExplained(p: seq<Artifact>, refused: set<string>, k: nat)
      returns (q: seq<Artifact>, r: set<string>)
    requires Unique(p) && k < |Assign(p, refused).refusals|
    ensures Comes(p, refused, q, r)
    ensures var (a, rule) := Assign(p, refused).refusals[k]; a in q && Explains(a, rule, q, r)
    decreases |p|
  {
    hide Judge, Kept, Dropped, Explains, DroppedIdentities, Unique;
    var s := Take(p, refused);
    var d := Dropped(p, s);
    if k < |d| {
      q, r := p, refused;
      DroppedFrom(p, s, k);
      JudgeExplained(d[k].0, p, refused);
    } else {
      KeptUnique(p, s);
      q, r := RefusalsExplained(Kept(p, s), refused + DroppedIdentities(d), k - |d|);
    }
  }

  /** Everything but the owner is in order at the end, one container at most stood at
      the start, and one is left unless the artifact may go without. */
  ghost predicate Deserves(a: Artifact, p: seq<Artifact>, o: Outcome) {
    && Stands(a, o.survivors, o.refused)
    && (Owned(a) ==> |Containers(a, p)| <= 1 && (|Containers(a, o.survivors)| == 1 || Orphanable(a)))
  }

  lemma SurvivorsWithin(p: seq<Artifact>, refused: set<string>)
    requires Unique(p)
    ensures var q := Assign(p, refused).survivors;
      && (forall x :: Named(q, x) ==> Named(p, x)) && (forall x :: Offers(q, x) ==> Offers(p, x))
  {
    hide Assign, Bare;
    var q := Assign(p, refused).survivors;
    forall k | 0 <= k < |q| ensures Named(p, q[k].identity) && forall x :: x in q[k].operations ==> Offers(p, x) {
      var i := OwnerHistory(p, refused, k);
      BareShape(q[k], p[i]);
    }
  }

  lemma ContainersWithin(p: seq<Artifact>, refused: set<string>, a: Artifact)
    requires Unique(p) && a.declaration.Some?
    ensures Containers(a, Assign(p, refused).survivors) <= Containers(a, p)
  {
    hide Assign, Bare, Containers, Holds;
    var q := Assign(p, refused).survivors;
    forall x | x in Containers(a, q) ensures x in Containers(a, p) {
      var k := OutOfContainers(a, q, x);
      var i := OwnerHistory(p, refused, k);
      BareShape(q[k], p[i]);
      HoldsBare(q[k], p[i], a);
      IntoContainers(a, p, i);
    }
  }

  lemma SmallerSet(s: set<string>, t: set<string>)
    requires s <= t
    ensures |s| <= |t|
  {
    assert t == s + (t - s);
  }

  /** What deserves to survive passes the round at hand. */
  lemma PassesNow(p: seq<Artifact>, refused: set<string>, a: Artifact)
    requires Unique(p) && Deserves(a, p, Assign(p, refused))
    ensures Passes(a, p, refused)
  {
    hide Assign, Containers, Named, Offers, DroppedIdentities;
    RefusedAre(p, refused);
    SurvivorsWithin(p, refused);
    if Owned(a) {
      ContainersWithin(p, refused, a);
      SmallerSet(Containers(a, Assign(p, refused).survivors), Containers(a, p));
      if |Containers(a, p)| == 0 { assert Containers(a, p) == {}; }
    }
  }

  lemma {:induction false} KeptAt(p: seq<Artifact>, s: Snapshot, i: nat) returns (j: nat)
    requires i < |p| && Judge(p[i], s).Keep?
    ensures j < |Kept(p, s)| && Kept(p, s)[j] == Judge(p[i], s).kept
    decreases |p|
  {
    hide Judge;
    if i == 0 {
      j := 0;
    } else {
      j := KeptAt(p[1..], s, i - 1);
      if Judge(p[0], s).Keep? { j := j + 1; }
    }
  }

  lemma DeservesBare(a: Artifact, b: Artifact, p: seq<Artifact>, o: Outcome)
    requires Bare(a) == Bare(b) && Deserves(a, p, o)
    ensures Deserves(b, p, o)
  {
    BareShape(a, b);
    assert References(a) == TypeRefs(a) && References(b) == TypeRefs(b);
    if Owned(a) {
      SameContainers(a, b, p);
      SameContainers(a, b, o.survivors);
    }
    hide Containers, TypeRefs, Named, Offers;
  }

  lemma {:induction false} DeservingStays(p: seq<Artifact>, refused: set<string>, i: nat)
    requires Unique(p) && i < |p| && Deserves(p[i], p, Assign(p, refused))
    ensures Named(Assign(p, refused).survivors, p[i].identity)
    decreases |p|
  {
    PassesNow(p, refused, p[i]);
    JudgeExplained(p[i], p, refused);
    hide Judge, Kept, Dropped, Containers, DroppedIdentities, Passes, Explains, Stands, Unique, Bare;
    var s := Take(p, refused);
    var d := Dropped(p, s);
    var q := Kept(p, s);
    var j := KeptAt(p, s, i);
    JudgeBare(p[i], s);
    if d != [] {
      var o := Assign(q, refused + DroppedIdentities(d));
      KeptUnique(p, s);
      FewerContainers(p, s, p[i]);
      assert Deserves(p[i], q, o);
      DeservesBare(p[i], q[j], q, o);
      DeservingStays(q, refused + DroppedIdentities(d), j);
    }
  }

  lemma FewerContainers(p: seq<Artifact>, s: Snapshot, a: Artifact)
    ensures a.declaration.Some? ==> |Containers(a, Kept(p, s))| <= |Containers(a, p)|
  {
    hide Containers, Kept;
    if a.declaration.Some? {
      ContainersShrink(a, p, s);
      SmallerSet(Containers(a, Kept(p, s)), Containers(a, p));
    }
  }

  /** An artifact of the input survives exactly when it deserves to: nothing is refused
      unjustly, and nothing is let by. */
  lemma SurvivesIff(p: seq<Artifact>, refused: set<string>, i: nat)
    requires Unique(p) && i < |p|
    ensures var o := Assign(p, refused); Named(o.survivors, p[i].identity) <==> Deserves(p[i], p, o)
  {
    hide Assign, Deserves, Unique;
    var o := Assign(p, refused);
    if Deserves(p[i], p, o) { DeservingStays(p, refused, i); }
    if Named(o.survivors, p[i].identity) {
      var k :| 0 <= k < |o.survivors| && o.survivors[k].identity == p[i].identity;
      SurvivorDeserves(p, refused, i, k);
    }
  }

  lemma SurvivorDeserves(p: seq<Artifact>, refused: set<string>, i: nat, k: nat)
    requires Unique(p) && i < |p| && k < |Assign(p, refused).survivors|
    requires Assign(p, refused).survivors[k].identity == p[i].identity
    ensures Deserves(p[i], p, Assign(p, refused))
  {
    hide Assign, Containers, Bare, Found;
    var o := Assign(p, refused);
    var a := o.survivors[k];
    var h := OwnerHistory(p, refused, k);
    BareShape(a, p[h]);
    assert h == i;
    SurvivorsClosed(p, refused, k);
    SurvivorsUnique(p, refused);
    NamesAre(o.survivors);
    if a.declaration.Some? { FoundIsContainers(a, o.survivors); }
    assert TypeRefs(a) == References(a);
    if Owned(a) { SameContainers(a, p[i], p); }
    ClosedStands(a, o.survivors, o.refused);
    assert Deserves(a, p, o);
    DeservesBare(a, p[i], p, o);
  }

  lemma ClosedStands(a: Artifact, q: seq<Artifact>, refused: set<string>)
    requires Closed(a, q, refused)
    ensures Stands(a, q, refused)
  {
    NamesAre(q);
    hide Named, Offers, Identities, Operations, OwnerSettled;
    assert TypeRefs(a) == References(a);
    forall x | x in References(a) ensures Named(q, x) {
      var j :| 0 <= j < |TypeRefs(a)| && TypeRefs(a)[j] == x;
    }
    forall e | e in a.edges ensures e.target !in refused {
      var j :| 0 <= j < |a.edges| && a.edges[j] == e;
    }
  }

  // ----- a container that is left

  lemma {:induction false} DroppedAt(p: seq<Artifact>, s: Snapshot, i: nat)
    requires i < |p| && Judge(p[i], s).Refuse?
    ensures p[i].identity in DroppedIdentities(Dropped(p, s))
    decreases |p|
  {
    hide Judge;
    var d := Dropped(p, s);
    if i == 0 {
      assert d[0].0 == p[0];
    } else {
      DroppedAt(p[1..], s, i - 1);
      var rest := Dropped(p[1..], s);
      var k :| 0 <= k < |rest| && rest[k].0.identity == p[i].identity;
      assert d[if Judge(p[0], s).Keep? then k else k + 1] == rest[k];
    }
  }

  lemma {:induction false} SurvivesOrRefused(p: seq<Artifact>, refused: set<string>, i: nat)
    requires i < |p|
    ensures var o := Assign(p, refused); Named(o.survivors, p[i].identity) || p[i].identity in o.refused
    decreases |p|
  {
    hide Judge, Kept, Dropped, DroppedIdentities, Bare;
    var s := Take(p, refused);
    var d := Dropped(p, s);
    if Judge(p[i], s).Keep? {
      var j := KeptAt(p, s, i);
      JudgeBare(p[i], s);
      if d != [] { SurvivesOrRefused(Kept(p, s), refused + DroppedIdentities(d), j); }
    } else {
      DroppedAt(p, s, i);
      RefusedAre(p, refused);
      RefusedGrow(p, refused);
    }
  }

  lemma RefusedGrow(p: seq<Artifact>, refused: set<string>)
    ensures var d := Dropped(p, Take(p, refused)); d != [] ==> DroppedIdentities(d) <= Assign(p, refused).refused
    ensures Dropped(p, Take(p, refused)) == [] ==> DroppedIdentities(Dropped(p, Take(p, refused))) == {}
  {
    hide Judge, Kept, Dropped, DroppedIdentities;
    var s := Take(p, refused);
    var d := Dropped(p, s);
    if d != [] { RefusedAre(Kept(p, s), refused + DroppedIdentities(d)); } else { NoDropped(); }
  }

  /** The owner is the one container there was, and it is left. */
  ghost predicate SoleOwner(a: Artifact, p: seq<Artifact>, o: Outcome, owner: Option<string>)
    requires a.declaration.Some?
  {
    owner.Some? && Containers(a, o.survivors) == Containers(a, p) == {owner.value}
  }

  /** An artifact whose container survives does so too, and one that takes its owner has
      that container for it: no other was there. */
  lemma ContainerLeft(p: seq<Artifact>, refused: set<string>, i: nat)
    requires Unique(p) && i < |p| && p[i].declaration.Some?
    requires Containers(p[i], Assign(p, refused).survivors) != {}
    ensures var o := Assign(p, refused);
      exists k :: 0 <= k < |o.survivors| && o.survivors[k].identity == p[i].identity
        && (Owned(p[i]) ==> SoleOwner(p[i], p, o, o.survivors[k].owner))
  {
    hide Assign, Containers, Bare, Closed, OwnerFrom, Deserves, Unique;
    var (a, o) := (p[i], Assign(p, refused));
    var x :| x in Containers(a, o.survivors);
    var c := OutOfContainers(a, o.survivors, x);
    ContainerHeld(p, refused, a, c);
    SurvivesOrRefused(p, refused, i);
    var k :| 0 <= k < |o.survivors| && o.survivors[k].identity == a.identity;
    if Owned(a) { ContainerOwns(p, refused, i, k); }
  }

  /** A survivor draws no relationship to a refused artifact. */
  lemma ContainerHeld(p: seq<Artifact>, refused: set<string>, a: Artifact, c: nat)
    requires Unique(p) && a.declaration.Some? && c < |Assign(p, refused).survivors|
    requires Holds(Assign(p, refused).survivors[c], a)
    ensures a.identity !in Assign(p, refused).refused
  {
    hide Assign, SharesRole;
    var o := Assign(p, refused);
    SurvivorsClosed(p, refused, c);
    var e :| e in o.survivors[c].edges && e.composite && e.target == a.identity;
    var j :| 0 <= j < |o.survivors[c].edges| && o.survivors[c].edges[j] == e;
  }

  lemma ContainerOwns(p: seq<Artifact>, refused: set<string>, i: nat, k: nat)
    requires Unique(p) && i < |p| && k < |Assign(p, refused).survivors| && Owned(p[i])
    requires Assign(p, refused).survivors[k].identity == p[i].identity
    requires Containers(p[i], Assign(p, refused).survivors) != {}
    ensures var o := Assign(p, refused); SoleOwner(p[i], p, o, o.survivors[k].owner)
  {
    hide Assign, Containers, Bare;
    var h := OwnerHistory(p, refused, k);
    BareShape(Assign(p, refused).survivors[k], p[h]);
    assert h == i;
    ContainersWithin(p, refused, p[i]);
  }
}
