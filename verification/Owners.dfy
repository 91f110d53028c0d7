/** The bundle-wide pass that assigns owners and refuses artifacts until nothing
    changes. */
module Owners {
  import opened Wrappers

  datatype Presence = Required | Optional | Forbidden

  /** What a construct declaration says of the `owner` member. */
  datatype Declaration = Declaration(presence: Presence, roles: Option<seq<string>>, singleOwner: bool)

  datatype Edge = Edge(target: string, composite: bool)

  /** One lowered artifact: the identities it declares, the edges it draws, and the
      type references its construct carries before (`behaviour`) and after
      (`ends`) its owner. */
  datatype Artifact = Artifact(
    identity: string, roles: seq<string>, edges: seq<Edge>, operations: seq<string>,
    behaviour: seq<string>, ends: seq<string>, source: Option<string>,
    owner: Option<string>, ownerFromModel: bool, declaration: Option<Declaration>)

  datatype Rule =
    | DanglingEdge(target: string)
    | DanglingReference(target: string)
    | DanglingSource(target: string)
    | Contained(count: nat)

  datatype Owner = Owner(identity: string, roles: seq<string>)

  /** What one round decides against. */
  datatype Snapshot = Snapshot(refused: set<string>, lowered: set<string>, operations: set<string>,
                               pending: seq<Artifact>)

  datatype Verdict = Refuse(rule: Rule) | Keep(kept: Artifact)

  datatype Outcome = Outcome(survivors: seq<Artifact>, refusals: seq<(Artifact, Rule)>, refused: set<string>)

  // ----- snapshots

  function Identities(p: seq<Artifact>): set<string> { set i | 0 <= i < |p| :: p[i].identity }

  function Operations(p: seq<Artifact>): set<string> {
    set i, j | 0 <= i < |p| && 0 <= j < |p[i].operations| :: p[i].operations[j]
  }

  function Take(p: seq<Artifact>, refused: set<string>): Snapshot {
    Snapshot(refused, Identities(p), Operations(p), p)
  }

  predicate Contains(a: Artifact, target: string) {
    exists j :: 0 <= j < |a.edges| && a.edges[j] == Edge(target, true)
  }

  predicate Lists(owners: seq<Owner>, identity: string) {
    exists i :: 0 <= i < |owners| && owners[i].identity == identity
  }

  function AddOwner(owners: seq<Owner>, a: Artifact): seq<Owner> {
    if Lists(owners, a.identity) then owners else owners + [Owner(a.identity, a.roles)]
  }

  /** The types whose composite relationships target `target`, each once. */
  function OwnerList(p: seq<Artifact>, target: string): seq<Owner> {
    if p == [] then []
    else
      var before := OwnerList(p[..|p| - 1], target);
      if Contains(p[|p| - 1], target) then AddOwner(before, p[|p| - 1]) else before
  }

  function Listed(owners: map<string, seq<Owner>>, target: string): seq<Owner> {
    if target in owners then owners[target] else []
  }

  /** The owners of `target` once the first `j` edges of `a` are read too. */
  ghost function ListedAfter(p: seq<Artifact>, a: Artifact, j: nat, target: string): seq<Owner>
    requires j <= |a.edges|
  {
    if Edge(target, true) in a.edges[..j] then AddOwner(OwnerList(p, target), a) else OwnerList(p, target)
  }

  lemma EdgeStep(p: seq<Artifact>, a: Artifact, j: nat, target: string)
    requires j < |a.edges|
    ensures ListedAfter(p, a, j + 1, target) ==
      if a.edges[j] == Edge(target, true) then AddOwner(ListedAfter(p, a, j, target), a)
        else ListedAfter(p, a, j, target)
  {
    assert a.edges[..j + 1] == a.edges[..j] + [a.edges[j]];
    AddTwice(OwnerList(p, target), a);
  }

  lemma AddTwice(owners: seq<Owner>, a: Artifact)
    ensures AddOwner(AddOwner(owners, a), a) == AddOwner(owners, a)
  {
    if !Lists(owners, a.identity) {
      assert AddOwner(owners, a)[|owners|].identity == a.identity;
    }
  }

  lemma OwnerStep(p: seq<Artifact>, i: nat, target: string)
    requires i < |p|
    ensures OwnerList(p[..i + 1], target) == ListedAfter(p[..i], p[i], |p[i].edges|, target)
  {
    assert p[..i + 1][..i] == p[..i];
    var edges := p[i].edges;
    assert edges[..|edges|] == edges;
    if Edge(target, true) in edges {
      var j :| 0 <= j < |edges| && edges[j] == Edge(target, true);
      assert Contains(p[i], target);
    }
  }

  method CompositeOwners(p: seq<Artifact>) returns (owners: map<string, seq<Owner>>)
    ensures forall target :: Listed(owners, target) == OwnerList(p, target)
  {
    owners := map[];
    for i := 0 to |p|
      invariant forall target :: Listed(owners, target) == OwnerList(p[..i], target)
    {
      var a := p[i];
      for j := 0 to |a.edges|
        invariant forall target :: Listed(owners, target) == ListedAfter(p[..i], a, j, target)
      {
        var edge := a.edges[j];
        if edge.composite {
          owners := owners[edge.target := AddOwner(Listed(owners, edge.target), a)];
        }
        forall target ensures Listed(owners, target) == ListedAfter(p[..i], a, j + 1, target) {
          EdgeStep(p[..i], a, j, target);
        }
      }
      forall target ensures ListedAfter(p[..i], a, |a.edges|, target) == OwnerList(p[..i + 1], target) {
        OwnerStep(p, i, target);
      }
    }
    assert p[..|p|] == p;
  }

  // ----- one artifact against a snapshot

  function FirstOutside(refs: seq<string>, known: set<string>): (found: Option<string>)
    ensures found.None? <==> forall i :: 0 <= i < |refs| ==> refs[i] in known
  {
    if refs == [] then None else if refs[0] !in known then Some(refs[0]) else FirstOutside(refs[1..], known)
  }

  function FirstEdgeInto(edges: seq<Edge>, refused: set<string>): (found: Option<string>)
    ensures found.None? <==> forall i :: 0 <= i < |edges| ==> edges[i].target !in refused
  {
    if edges == [] then None else if edges[0].target in refused then Some(edges[0].target)
      else FirstEdgeInto(edges[1..], refused)
  }

  function ModelOwner(a: Artifact): seq<string> {
    if a.ownerFromModel && a.owner.Some? then [a.owner.value] else []
  }

  function TypeRefs(a: Artifact): seq<string> { a.behaviour + ModelOwner(a) + a.ends }

  /** The pass assigns this artifact's owner: its construct is declared, admits an
      owner, and did not get one from the model. */
  predicate TakesOwner(a: Artifact) {
    !a.ownerFromModel && a.declaration.Some? && !a.declaration.value.presence.Forbidden?
  }

  predicate Admits(roles: Option<seq<string>>, owner: Owner) {
    roles.Some? ==> exists i :: 0 <= i < |owner.roles| && owner.roles[i] in roles.value
  }

  function Admitted(roles: Option<seq<string>>, owners: seq<Owner>): seq<Owner> {
    if owners == [] then []
    else (if Admits(roles, owners[0]) then [owners[0]] else []) + Admitted(roles, owners[1..])
  }

  /** The admitted containers of `a` among `p`. */
  function Found(a: Artifact, p: seq<Artifact>): seq<Owner>
    requires a.declaration.Some?
  {
    Admitted(a.declaration.value.roles, OwnerList(p, a.identity))
  }

  predicate MayLackOwner(a: Artifact)
    requires a.declaration.Some?
  {
    a.declaration.value.presence.Optional? && !a.declaration.value.singleOwner
  }

  function Judge(a: Artifact, s: Snapshot): Verdict {
    var edge := FirstEdgeInto(a.edges, s.refused);
    var reference := FirstOutside(TypeRefs(a), s.lowered);
    if edge.Some? then Refuse(DanglingEdge(edge.value))
    else if reference.Some? then Refuse(DanglingReference(reference.value))
    else if a.source.Some? && a.source.value !in s.lowered && a.source.value !in s.operations
      then Refuse(DanglingSource(a.source.value))
    else if !TakesOwner(a) then Keep(a)
    else
      var found := Found(a, s.pending);
      if |found| == 1 then Keep(a.(owner := Some(found[0].identity)))
      else if |found| == 0 && MayLackOwner(a) then Keep(a)
      else Refuse(Contained(|found|))
  }

  // ----- rounds

  function Kept(p: seq<Artifact>, s: Snapshot): (r: seq<Artifact>)
    ensures |r| <= |p|
  {
    if p == [] then []
    else
      match Judge(p[0], s)
      case Keep(a) => [a] + Kept(p[1..], s)
      case Refuse(_) => Kept(p[1..], s)
  }

  function Dropped(p: seq<Artifact>, s: Snapshot): (r: seq<(Artifact, Rule)>)
    ensures |Kept(p, s)| + |r| == |p|
  {
    if p == [] then []
    else
      match Judge(p[0], s)
      case Keep(_) => Dropped(p[1..], s)
      case Refuse(rule) => [(p[0], rule)] + Dropped(p[1..], s)
  }

  function DroppedIdentities(d: seq<(Artifact, Rule)>): set<string> { set i | 0 <= i < |d| :: d[i].0.identity }

  /** The pass: rounds against snapshots until one refuses nothing. */
  function Assign(p: seq<Artifact>, refused: set<string>): Outcome
    decreases |p|
  {
    var s := Take(p, refused);
    var d := Dropped(p, s);
    if d == [] then Outcome(Kept(p, s), [], refused)
    else
      var rest := Assign(Kept(p, s), refused + DroppedIdentities(d));
      rest.(refusals := d + rest.refusals)
  }

  lemma {:induction false} KeptStep(p: seq<Artifact>, s: Snapshot, i: nat)
    requires i < |p|
    ensures Kept(p[..i + 1], s) == Kept(p[..i], s) + (if Judge(p[i], s).Keep? then [Judge(p[i], s).kept] else [])
    ensures Dropped(p[..i + 1], s) ==
        Dropped(p[..i], s) + (if Judge(p[i], s).Keep? then [] else [(p[i], Judge(p[i], s).rule)])
  {
    assert p[..i + 1] == p[..i] + [p[i]];
    KeptAppend(p[..i], [p[i]], s);
    DroppedAppend(p[..i], [p[i]], s);
    assert [p[i]][1..] == [];
  }

  function KeptOf(a: Artifact, s: Snapshot): seq<Artifact> {
    if Judge(a, s).Keep? then [Judge(a, s).kept] else []
  }

  function DroppedOf(a: Artifact, s: Snapshot): seq<(Artifact, Rule)> {
    if Judge(a, s).Keep? then [] else [(a, Judge(a, s).rule)]
  }

  lemma KeptFirst(p: seq<Artifact>, s: Snapshot)
    requires p != []
    ensures Kept(p, s) == KeptOf(p[0], s) + Kept(p[1..], s)
    ensures Dropped(p, s) == DroppedOf(p[0], s) + Dropped(p[1..], s)
  {
    hide Judge;
  }

  lemma {:induction false} KeptAppend(a: seq<Artifact>, b: seq<Artifact>, s: Snapshot)
    ensures Kept(a + b, s) == Kept(a, s) + Kept(b, s)
    decreases |a|
  {
    if a == [] {
      assert a + b == b;
    } else {
      KeptAppend(a[1..], b, s);
      hide Judge, Kept, Dropped, KeptOf, DroppedOf;
      RestOfConcat(a, b);
      KeptFirst(a + b, s);
      KeptFirst(a, s);
      Associative(KeptOf(a[0], s), Kept(a[1..], s), Kept(b, s));
    }
  }

  lemma {:induction false} DroppedAppend(a: seq<Artifact>, b: seq<Artifact>, s: Snapshot)
    ensures Dropped(a + b, s) == Dropped(a, s) + Dropped(b, s)
    decreases |a|
  {
    if a == [] {
      assert a + b == b;
    } else {
      DroppedAppend(a[1..], b, s);
      hide Judge, Kept, Dropped, KeptOf, DroppedOf;
      RestOfConcat(a, b);
      KeptFirst(a + b, s);
      KeptFirst(a, s);
      Associative(DroppedOf(a[0], s), Dropped(a[1..], s), Dropped(b, s));
    }
  }

  /** One artifact against the tables of the round, read the way the pass reads them. */
  method RefusalRule(item: Artifact, owners: map<string, seq<Owner>>, ghost s: Snapshot, refused: set<string>,
                     lowered: set<string>, operations: set<string>)
    returns (verdict: Verdict)
    requires s.refused == refused && s.lowered == lowered && s.operations == operations
    requires forall target :: Listed(owners, target) == OwnerList(s.pending, target)
    ensures verdict == Judge(item, s)
  {
    var edge := FirstEdgeInto(item.edges, refused);
    if edge.Some? { return Refuse(DanglingEdge(edge.value)); }
    var reference := FirstOutside(TypeRefs(item), lowered);
    if reference.Some? { return Refuse(DanglingReference(reference.value)); }
    if item.source.Some? && item.source.value !in lowered && item.source.value !in operations {
      return Refuse(DanglingSource(item.source.value));
    }
    if item.ownerFromModel || item.declaration.None? { return Keep(item); }
    var declaration := item.declaration.value;
    if declaration.presence.Forbidden? { return Keep(item); }
    var found := Admitted(declaration.roles, Listed(owners, item.identity));
    if |found| == 1 {
      return Keep(item.(owner := Some(found[0].identity)));
    } else if |found| == 0 && declaration.presence.Optional? && !declaration.singleOwner {
      return Keep(item);
    }
    return Refuse(Contained(|found|));
  }

  /** Applies refusals to a fixed point: the survivors with their owners, and one
      refusal for every artifact removed, in the order of the rounds. */
  method AssignOwners(artifacts: seq<Artifact>, initially: set<string>)
    returns (pending: seq<Artifact>, refusals: seq<(Artifact, Rule)>, refused: set<string>)
    ensures Outcome(pending, refusals, refused) == Assign(artifacts, initially)
  {
    hide Judge, OwnerList;
    pending, refusals, refused := artifacts, [], initially;
    while true
      invariant var rest := Assign(pending, refused);
        Assign(artifacts, initially) == rest.(refusals := refusals + rest.refusals)
      decreases |pending|
    {
      var owners := CompositeOwners(pending);
      var lowered, operations := Identities(pending), Operations(pending);
      ghost var s := Take(pending, refused);
      var round, kept := [], [];
      for i := 0 to |pending|
        invariant kept == Kept(pending[..i], s) && round == Dropped(pending[..i], s)
      {
        KeptStep(pending, s, i);
        var verdict := RefusalRule(pending[i], owners, s, refused, lowered, operations);
        match verdict
        case Refuse(rule) => round := round + [(pending[i], rule)];
        case Keep(a) => kept := kept + [a];
      }
      assert pending[..|pending|] == pending;
      pending := kept;
      if round == [] {
        assert refusals + [] == refusals;
        return;
      }
      refused := refused + DroppedIdentities(round);
      ghost var rest := Assign(pending, refused);
      assert refusals + (round + rest.refusals) == refusals + round + rest.refusals;
      refusals := refusals + round;
    }
  }
}
