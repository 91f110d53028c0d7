/** The supertypes of a type in a document, and the features redefined along them. */
module Supertypes {
  import opened Wrappers
  import opened Json
  import opened Graphs
  import Compat
  import SupertypeCycles

  type Types = seq<Json>

  function IdentityOf(node: Json): Option<string> { Compat.Text(node, "identity") }

  /** The strings of an array, in order. */
  function Strings(items: seq<Json>): seq<string> {
    if items == [] then [] else (if items[0].Str? then [items[0].text] else []) + Strings(items[1..])
  }

  function SupertypeNames(definition: Json): seq<string> { Strings(Compat.Listed(definition, "supertypes")) }

  /** The position of the first type of an identity. */
  function PositionOf(types: Types, identity: string): (at: Option<nat>)
    ensures at.Some? ==> at.value < |types| && IdentityOf(types[at.value]) == Some(identity)
    ensures at.Some? ==> forall k :: 0 <= k < at.value ==> IdentityOf(types[k]) != Some(identity)
    ensures at.None? ==> forall k :: 0 <= k < |types| ==> IdentityOf(types[k]) != Some(identity)
  {
    if types == [] then None
    else if IdentityOf(types[0]) == Some(identity) then Some(0)
    else
      match PositionOf(types[1..], identity)
      case None => None
      case Some(at) => Some(at + 1)
  }

  /** The declared types among the given names, in order. */
  function Declared(types: Types, names: seq<string>): (r: seq<nat>)
    ensures forall u :: u in r <==> NamesPosition(types, names, u)
  {
    if names == [] then []
    else
      var rest := Declared(types, names[1..]);
      match PositionOf(types, names[0])
      case None => rest
      case Some(at) => [at] + rest
  }

  ghost predicate NamesPosition(types: Types, names: seq<string>, u: nat) {
    exists j :: 0 <= j < |names| && PositionOf(types, names[j]) == Some(u)
  }

  /** The generalization graph: from each type to the types its supertypes name. */
  function SupertypeGraph(types: Types): (g: Graph)
    ensures |g| == |types| && forall v :: 0 <= v < |g| ==> g[v] == Declared(types, SupertypeNames(types[v]))
  {
    seq(|types|, v requires 0 <= v < |types| => Declared(types, SupertypeNames(types[v])))
  }

  lemma GraphFits(types: Types)
    ensures WellFormed(SupertypeGraph(types))
  {
    var g := SupertypeGraph(types);
    forall v, j | 0 <= v < |g| && 0 <= j < |g[v]| ensures g[v][j] < |g| {
      assert g[v][j] in g[v];
      assert NamesPosition(types, SupertypeNames(types[v]), g[v][j]);
    }
  }

  /** The types that are their own transitive supertype. */
  method SupertypeCycle(types: Types) returns (cyclic: set<nat>)
    ensures forall v: nat :: v in cyclic <==> v < |types| && OnCycle(SupertypeGraph(types), v)
    ensures cyclic == {} <==> Acyclic(SupertypeGraph(types))
  {
    hide OnCycle;
    GraphFits(types);
    ghost var steps;
    cyclic, steps := SupertypeCycles.TypesOnACycle(SupertypeGraph(types));
  }

  // ----- transitive supertypes

  /** The first type of the definition's own identity is the definition itself. */
  ghost predicate FirstOfName(types: Types, v: nat)
    requires v < |types|
  {
    IdentityOf(types[v]).Some? ==> PositionOf(types, IdentityOf(types[v]).value) == Some(v)
  }

  ghost function Own(definition: Json): set<string> {
    match IdentityOf(definition) case None => {} case Some(name) => {name}
  }

  ghost function AllNames(types: Types): set<string> {
    set v, j | 0 <= v < |types| && 0 <= j < |SupertypeNames(types[v])| :: SupertypeNames(types[v])[j]
  }

  /** Every name met so far is the type's own, undeclared, or found. */
  ghost predicate Met(types: Types, v: nat, seen: set<string>, out: seq<nat>)
    requires v < |types|
  {
    && Own(types[v]) <= seen
    && (forall name :: name in seen && name !in Own(types[v]) && PositionOf(types, name).Some? ==>
        PositionOf(types, name).value in out)
    && (forall u :: u in out ==> u < |types| && FoundBy(types, v, seen, u))
    && NoRepeats(out)
  }

  ghost predicate FoundBy(types: Types, v: nat, seen: set<string>, u: nat)
    requires v < |types|
  {
    && u < |types| && IdentityOf(types[u]).Some? && IdentityOf(types[u]).value in seen
        && IdentityOf(types[u]).value !in Own(types[v])
    && PositionOf(types, IdentityOf(types[u]).value) == Some(u) && Reaches(SupertypeGraph(types), v, u)
  }

  /** The names the type's supertypes carry are all met. */
  ghost predicate Explored(types: Types, u: nat, seen: set<string>)
    requires u < |types|
  {
    forall j :: 0 <= j < |SupertypeNames(types[u])| ==> SupertypeNames(types[u])[j] in seen
  }

  ghost predicate Pending(types: Types, v: nat, seen: set<string>, out: seq<nat>, frontier: seq<nat>)
    requires v < |types|
  {
    && (forall u :: u in frontier ==> u == v || u in out)
    && (forall u :: (u == v || u in out) && u < |types| && u !in frontier ==> Explored(types, u, seen))
  }

  /** A declared supertype of a type that is reached is reached. */
  lemma SupertypeReached(types: Types, v: nat, current: nat, name: string)
    requires v < |types| && current < |types| && Reaches(SupertypeGraph(types), v, current)
    requires name in SupertypeNames(types[current]) && PositionOf(types, name).Some?
    ensures Reaches(SupertypeGraph(types), v, PositionOf(types, name).value)
  {
    hide Reaches, SupertypeNames, Declared;
    var (g, u) := (SupertypeGraph(types), PositionOf(types, name).value);
    var j :| 0 <= j < |SupertypeNames(types[current])| && SupertypeNames(types[current])[j] == name;
    assert NamesPosition(types, SupertypeNames(types[current]), u);
    assert u in g[current];
    ReachesEdge(g, current, u);
    ReachesTrans(g, v, current, u);
  }

  lemma FoundStays(types: Types, v: nat, seen: set<string>, more: set<string>, out: seq<nat>)
    requires v < |types| && seen <= more && forall u :: u in out ==> u < |types| && FoundBy(types, v, seen, u)
    ensures forall u :: u in out ==> u < |types| && FoundBy(types, v, more, u)
  {
    hide Reaches, IdentityOf, PositionOf, Own;
  }

  lemma NotYetFound(types: Types, v: nat, seen: set<string>, out: seq<nat>, name: string)
    requires v < |types| && Met(types, v, seen, out) && name !in seen && PositionOf(types, name).Some?
    ensures PositionOf(types, name).value !in out
  {
    hide Reaches, Own, PositionOf;
    forall w | w in out ensures w != PositionOf(types, name).value { assert FoundBy(types, v, seen, w); }
  }

  lemma MeetUndeclared(types: Types, v: nat, seen: set<string>, out: seq<nat>, name: string)
    requires v < |types| && Met(types, v, seen, out) && PositionOf(types, name).None?
    ensures Met(types, v, seen + {name}, out)
  {
    FoundStays(types, v, seen, seen + {name}, out) by { hide FoundBy; }
    hide FoundBy, PositionOf, Own;
  }

  lemma MeetDeclared(types: Types, v: nat, seen: set<string>, out: seq<nat>, name: string, u: nat)
    requires v < |types| && Met(types, v, seen, out) && PositionOf(types, name) == Some(u)
    requires u !in out && FoundBy(types, v, seen + {name}, u)
    ensures Met(types, v, seen + {name}, out + [u])
  {
    FoundStays(types, v, seen, seen + {name}, out) by { hide FoundBy; }
    hide FoundBy, PositionOf, Own;
  }

  lemma MeetStep(types: Types, v: nat, seen: set<string>, out: seq<nat>, current: nat, name: string)
    requires v < |types| && Met(types, v, seen, out) && name !in seen
    requires current < |types| && Reaches(SupertypeGraph(types), v, current) && name in SupertypeNames(types[current])
    ensures var now := if PositionOf(types, name).Some? then out + [PositionOf(types, name).value] else out;
            Met(types, v, seen + {name}, now)
  {
    if PositionOf(types, name).Some? {
      var u := PositionOf(types, name).value;
      SupertypeReached(types, v, current, name);
      NotYetFound(types, v, seen, out, name);
      OwnSeen(types, v, seen, out);
      assert FoundBy(types, v, seen + {name}, u) by { hide Met, Own, Reaches; }
      hide Met, FoundBy, PositionOf;
      MeetDeclared(types, v, seen, out, name, u);
    } else {
      hide Met, FoundBy, PositionOf;
      MeetUndeclared(types, v, seen, out, name);
    }
  }

  lemma OwnSeen(types: Types, v: nat, seen: set<string>, out: seq<nat>)
    requires v < |types| && Met(types, v, seen, out)
    ensures Own(types[v]) <= seen
  {
  }

  ghost predicate PendingBut(types: Types, v: nat, seen: set<string>, out: seq<nat>, frontier: seq<nat>, current: nat)
    requires v < |types|
  {
    && (current == v || current in out)
    && (forall u :: u in frontier ==> u == v || u in out)
    && (forall u :: (u == v || u in out) && u < |types| && u !in frontier && u != current ==> Explored(types, u, seen))
  }

  lemma PopStep(types: Types, v: nat, seen: set<string>, out: seq<nat>, frontier: seq<nat>)
    requires v < |types| && Pending(types, v, seen, out, frontier) && frontier != []
    ensures PendingBut(types, v, seen, out, frontier[..|frontier| - 1], frontier[|frontier| - 1])
  {
    hide Explored;
    var (rest, last) := (frontier[..|frontier| - 1], frontier[|frontier| - 1]);
    assert frontier == rest + [last];
  }

  lemma ExploredStays(types: Types, seen: set<string>, more: set<string>, u: nat)
    requires u < |types| && Explored(types, u, seen) && seen <= more
    ensures Explored(types, u, more)
  {
  }

  /** Meets every supertype of `current`, keeping the declared ones to be expanded in turn. */
  method Expand(types: Types, v: nat, current: nat, out: seq<nat>, seen: set<string>, frontier: seq<nat>)
    returns (found: seq<nat>, met: set<string>, pending: seq<nat>)
    requires v < |types| && Met(types, v, seen, out) && PendingBut(types, v, seen, out, frontier, current)
    ensures Met(types, v, met, found) && Pending(types, v, met, found, pending)
    ensures seen <= met && (met == seen ==> pending == frontier)
    ensures forall name :: name in met ==> name in seen || name in AllNames(types)
  {
    hide Reaches, Met, PendingBut, IdentityOf, SupertypeNames;
    found, met, pending := out, seen, frontier;
    CurrentReached(types, v, seen, out, frontier, current);
    var names := SupertypeNames(types[current]);
    for i := 0 to |names|
      invariant Met(types, v, met, found) && PendingBut(types, v, met, found, pending, current)
      invariant seen <= met && (met == seen ==> pending == frontier)
      invariant forall j :: 0 <= j < i ==> names[j] in met
      invariant forall name :: name in met ==> name in seen || name in AllNames(types)
    {
      var name := names[i];
      if name !in met {
        MeetStep(types, v, met, found, current, name);
        PushStep(types, v, met, found, pending, current, name);
        met := met + {name};
        var parent := PositionOf(types, name);
        if parent.Some? {
          found := found + [parent.value];
          pending := pending + [parent.value];
        }
      }
    }
    assert Explored(types, current, met);
    NonePending(types, v, met, found, pending, current);
  }

  lemma NonePending(types: Types, v: nat, seen: set<string>, out: seq<nat>, frontier: seq<nat>, current: nat)
    requires v < |types| && PendingBut(types, v, seen, out, frontier, current) && current < |types|
    requires Explored(types, current, seen)
    ensures Pending(types, v, seen, out, frontier)
  {
    hide Explored;
  }

  lemma CurrentReached(types: Types, v: nat, seen: set<string>, out: seq<nat>, frontier: seq<nat>, current: nat)
    requires v < |types| && Met(types, v, seen, out) && PendingBut(types, v, seen, out, frontier, current)
    ensures current < |types| && Reaches(SupertypeGraph(types), v, current)
  {
    hide Reaches;
    ReachesSelf(SupertypeGraph(types), v);
    if current in out { assert FoundBy(types, v, seen, current); }
  }

  lemma PushStep(types: Types, v: nat, seen: set<string>, out: seq<nat>, frontier: seq<nat>, current: nat, name: string)
    requires v < |types| && PendingBut(types, v, seen, out, frontier, current)
    ensures match PositionOf(types, name)
            case None => PendingBut(types, v, seen + {name}, out, frontier, current)
            case Some(u) => PendingBut(types, v, seen + {name}, out + [u], frontier + [u], current)
  {
    hide Explored, IdentityOf;
    forall u: nat | u < |types| && Explored(types, u, seen) ensures Explored(types, u, seen + {name}) {
      ExploredStays(types, seen, seen + {name}, u);
    }
  }

  lemma SeenGrows(types: Types, was: set<string>, now: set<string>)
    requires was <= now && (forall name :: name in now ==> name in was || name in AllNames(types))
    ensures now != was ==> AllNames(types) - now < AllNames(types) - was
  {
    hide AllNames;
    if now != was {
      var name :| name in now && name !in was;
      assert name in AllNames(types) - was;
    }
  }

  /** Once nothing is pending, what was found is what the graph reaches. */
  lemma ReachedExactly(types: Types, v: nat, seen: set<string>, out: seq<nat>)
    requires v < |types| && FirstOfName(types, v) && Met(types, v, seen, out) && Pending(types, v, seen, out, [])
    ensures forall u :: u in out <==> u != v && Reaches(SupertypeGraph(types), v, u)
  {
    hide Reaches, IdentityOf;
    var g := SupertypeGraph(types);
    var closed := (set u: nat | u in out) + {v};
    forall x, y | x in closed && x < |g| && y in g[x] ensures y in closed {
      EdgeFound(types, v, seen, out, x, y);
    }
    forall u | u != v && Reaches(g, v, u) ensures u in out { ClosedSet(g, closed, v, u); }
    forall u | u in out ensures u != v && Reaches(g, v, u) { assert FoundBy(types, v, seen, u); }
  }

  lemma EdgeFound(types: Types, v: nat, seen: set<string>, out: seq<nat>, x: nat, y: nat)
    requires v < |types| && FirstOfName(types, v) && Met(types, v, seen, out) && Pending(types, v, seen, out, [])
    requires (x == v || x in out) && x < |types| && y in SupertypeGraph(types)[x]
    ensures y == v || y in out
  {
    hide Reaches, FoundBy;
    assert Explored(types, x, seen);
    assert NamesPosition(types, SupertypeNames(types[x]), y);
    var j :| 0 <= j < |SupertypeNames(types[x])| && PositionOf(types, SupertypeNames(types[x])[j]) == Some(y);
    assert SupertypeNames(types[x])[j] in seen;
  }

  /** The transitive supertypes of the type at `v`, each once and the type itself not
      among them: exactly the other types the generalization graph reaches. */
  method Ancestors(types: Types, v: nat) returns (out: seq<nat>)
    requires v < |types|
    ensures NoRepeats(out) && forall u :: u in out ==> u < |types|
    ensures FirstOfName(types, v) ==> forall u :: u in out <==> u != v && Reaches(SupertypeGraph(types), v, u)
  {
    hide Reaches, FoundBy, Explored, IdentityOf;
    out := [];
    var seen := match IdentityOf(types[v]) case None => {} case Some(name) => {name};
    var frontier := [v];
    ReachesSelf(SupertypeGraph(types), v);
    while frontier != []
      invariant Met(types, v, seen, out) && Pending(types, v, seen, out, frontier)
      decreases AllNames(types) - seen, |frontier|
    {
      var current := frontier[|frontier| - 1];
      ghost var was := seen;
      PopStep(types, v, seen, out, frontier);
      frontier := frontier[..|frontier| - 1];
      out, seen, frontier := Expand(types, v, current, out, seen, frontier);
      SeenGrows(types, was, seen);
    }
    if FirstOfName(types, v) { ReachedExactly(types, v, seen, out); }
  }

  // ----- redefined features

  /** Fields, narrowed by their multiplicity, or operations, narrowed by what they return. */
  datatype Kind = Fields | Operations

  function Listing(kind: Kind): string { if kind == Fields then "fields" else "operations" }

  function Features(types: Types, kind: Kind, v: nat): seq<Json>
    requires v < |types|
  {
    Compat.Listed(types[v], Listing(kind))
  }

  datatype Bounds = Bounds(lower: int, upper: Option<int>) {
    /** A number of values the bounds allow. */
    predicate Allows(count: int) { lower <= count && (upper.Some? ==> count <= upper.value) }
  }

  function BoundsOf(n: Compat.Numerics, node: Json): Bounds {
    match node.Get("multiplicity")
    case None => Bounds(1, None)
    case Some(multiplicity) =>
      Bounds(match Compat.AsI64(n, multiplicity.Get("lower")) case None => 1 case Some(lower) => lower,
             Compat.AsI64(n, multiplicity.Get("upper")))
  }

  predicate Narrows(inner: Bounds, outer: Bounds) {
    inner.lower >= outer.lower && (outer.upper.Some? ==> inner.upper.Some? && inner.upper.value <= outer.upper.value)
  }

  /** The bounds a redefinition compares; an operation without `returns` has none. */
  function Compared(n: Compat.Numerics, kind: Kind, feature: Json): Option<Bounds> {
    if kind == Fields then Some(BoundsOf(n, feature))
    else
      match feature.Get("returns")
      case None => None
      case Some(value) => Some(BoundsOf(n, value))
  }

  predicate Within(n: Compat.Numerics, kind: Kind, inner: Json, outer: Json) {
    match (Compared(n, kind, inner), Compared(n, kind, outer))
    case (Some(a), Some(b)) => Narrows(a, b)
    case (None, None) => true
    case _ => false
  }

  /** Bounds that allow something narrow others exactly when those allow all they do. */
  lemma NarrowsIsInclusion(inner: Bounds, outer: Bounds)
    ensures Narrows(inner, outer) ==> forall count :: inner.Allows(count) ==> outer.Allows(count)
    ensures (exists count :: inner.Allows(count)) && (forall count :: inner.Allows(count) ==> outer.Allows(count)) ==>
        Narrows(inner, outer)
  {
    if (exists count :: inner.Allows(count)) && (forall count :: inner.Allows(count) ==> outer.Allows(count)) {
      var some :| inner.Allows(some);
      assert inner.Allows(inner.lower);
      if outer.upper.Some? {
        var beyond := if outer.upper.value < inner.lower then inner.lower else outer.upper.value + 1;
        assert !outer.Allows(beyond);
        if inner.upper.Some? { assert inner.Allows(inner.upper.value); }
      }
    }
  }

  lemma WithinTrans(n: Compat.Numerics, kind: Kind, a: Json, b: Json, c: Json)
    requires Within(n, kind, a, b) && Within(n, kind, b, c)
    ensures Within(n, kind, a, c)
  {
    hide Compared;
  }

  // ----- bounds, features and supertypes as the documents state them

  /** A bound the multiplicity of a node states as an integer a double holds exactly. */
  ghost predicate Bounded(n: Compat.Numerics, node: Json, name: string, k: int) {
    && node.Get("multiplicity").Some? && node.Get("multiplicity").value.Get(name).Some?
    && var v := node.Get("multiplicity").value.Get(name).value;
       v.Number? && n.value(v.lexeme) == Some(k as real) && -0x20_0000_0000_0000 < k < 0x20_0000_0000_0000
  }

  /** The count reaches the lower bound, one where none is stated. */
  ghost predicate Enough(n: Compat.Numerics, node: Json, count: int) {
    if exists k: int :: Bounded(n, node, "lower", k) then exists k: int :: Bounded(n, node, "lower", k) && k <= count
    else 1 <= count
  }

  /** The count keeps to the upper bound, if one is stated. */
  ghost predicate NotTooMany(n: Compat.Numerics, node: Json, count: int) {
    forall k: int :: Bounded(n, node, "upper", k) ==> count <= k
  }

  /** At each end, what the inner bounds take the outer ones take. */
  ghost predicate Contains(n: Compat.Numerics, outer: Json, inner: Json) {
    && (forall count: int :: Enough(n, inner, count) ==> Enough(n, outer, count))
    && (forall count: int :: NotTooMany(n, inner, count) ==> NotTooMany(n, outer, count))
  }

  lemma BoundedMeans(n: Compat.Numerics, node: Json, name: string, v: Option<Json>)
    requires v == if node.Get("multiplicity").Some? then node.Get("multiplicity").value.Get(name) else None
    ensures forall k: int :: Compat.AsI64(n, v) == Some(k) <==> Bounded(n, node, name, k)
  {
    forall k: int ensures Compat.AsI64(n, v) == Some(k) <==> Bounded(n, node, name, k) {
      assert (k as real).Floor == k;
    }
  }

  lemma CountMeans(n: Compat.Numerics, node: Json)
    ensures forall count: int :: Enough(n, node, count) <==> BoundsOf(n, node).lower <= count
    ensures forall count: int :: NotTooMany(n, node, count) <==>
      (BoundsOf(n, node).upper.Some? ==> count <= BoundsOf(n, node).upper.value)
  {
    hide Bounded, Compat.AsI64;
    var m := node.Get("multiplicity");
    if m.Some? {
      BoundedMeans(n, node, "lower", m.value.Get("lower"));
      BoundedMeans(n, node, "upper", m.value.Get("upper"));
      var (low, high) := (Compat.AsI64(n, m.value.Get("lower")), Compat.AsI64(n, m.value.Get("upper")));
      if low.Some? { assert Bounded(n, node, "lower", low.value); }
      if high.Some? { assert Bounded(n, node, "upper", high.value); }
    } else {
      NothingBounded(n, node);
    }
  }

  lemma NothingBounded(n: Compat.Numerics, node: Json)
    requires node.Get("multiplicity").None?
    ensures forall name, k :: !Bounded(n, node, name, k)
  {
  }

  lemma ContainsMeans(n: Compat.Numerics, inner: Json, outer: Json)
    ensures Narrows(BoundsOf(n, inner), BoundsOf(n, outer)) <==> Contains(n, outer, inner)
  {
    hide Enough, NotTooMany, BoundsOf;
    CountMeans(n, inner);
    CountMeans(n, outer);
    var (a, b) := (BoundsOf(n, inner), BoundsOf(n, outer));
    if Contains(n, outer, inner) {
      assert Enough(n, inner, a.lower);
      if b.upper.Some? {
        var past := b.upper.value + 1;
        assert !NotTooMany(n, outer, past);
        if a.upper.Some? { assert NotTooMany(n, inner, a.upper.value); }
      }
    }
  }

  /** A field keeps to the field it redefines when its bounds lie within that one's at both
      ends; an operation by what it returns, both or neither returning. */
  lemma WithinMeans(n: Compat.Numerics, kind: Kind, inner: Json, outer: Json)
    ensures Within(n, kind, inner, outer) <==>
      if kind == Fields then Contains(n, outer, inner)
      else
        && (inner.Get("returns").Some? <==> outer.Get("returns").Some?)
        && (inner.Get("returns").Some? ==> Contains(n, outer.Get("returns").value, inner.Get("returns").value))
  {
    hide BoundsOf, Contains, Narrows;
    if kind == Fields { ContainsMeans(n, inner, outer); }
    if inner.Get("returns").Some? && outer.Get("returns").Some? {
      ContainsMeans(n, inner.Get("returns").value, outer.Get("returns").value);
    }
  }

  /** The array under the name lists the value. */
  ghost predicate Lists(node: Json, name: string, x: Json) {
    exists items :: node.Get(name) == Some(Array(items)) && x in items
  }

  lemma {:induction false} StringsMean(items: seq<Json>, name: string)
    ensures name in Strings(items) <==> Str(name) in items
  {
    if items != [] {
      StringsMean(items[1..], name);
      assert items == [items[0]] + items[1..];
    }
  }

  /** The node states the identity, and none before it in the document does. */
  ghost predicate FirstStating(types: Types, u: nat, name: string) {
    && u < |types| && types[u].Get("identity") == Some(Str(name))
    && forall w: nat :: w < u ==> types[w].Get("identity") != Some(Str(name))
  }

  lemma PositionMeans(types: Types, name: string, u: nat)
    ensures PositionOf(types, name) == Some(u) <==> FirstStating(types, u, name)
  {
    forall v: nat | v < |types|
      ensures IdentityOf(types[v]) == Some(name) <==> types[v].Get("identity") == Some(Str(name))
    {
    }
    hide IdentityOf;
  }

  /** An edge leads to the first type of a name listed under `supertypes`; the features of a
      type are what `fields` or `operations` lists, and its subsets what `subsets` does. */
  lemma GraphMeans(types: Types, kind: Kind, v: nat, feature: Json)
    requires v < |types|
    ensures forall u :: u in SupertypeGraph(types)[v] <==>
        exists name :: Lists(types[v], "supertypes", Str(name)) && FirstStating(types, u, name)
    ensures forall x :: x in Features(types, kind, v) <==>
        Lists(types[v], if kind == Fields then "fields" else "operations", x)
    ensures forall name :: name in Subsetted(kind, feature) <==> kind == Fields && Lists(feature, "subsets", Str(name))
  {
    forall name ensures name in SupertypeNames(types[v]) <==> Lists(types[v], "supertypes", Str(name)) {
      StringsMean(Compat.Listed(types[v], "supertypes"), name);
    }
    forall name ensures name in Subsetted(kind, feature) <==> kind == Fields && Lists(feature, "subsets", Str(name)) {
      StringsMean(Compat.Listed(feature, "subsets"), name);
    }
    hide SupertypeNames, Lists, Subsetted, FirstStating, PositionOf;
    forall u ensures u in SupertypeGraph(types)[v] <==>
        exists name :: Lists(types[v], "supertypes", Str(name)) && FirstStating(types, u, name)
    {
      EdgeMeans(types, v, u);
    }
    FeaturesMean(types, kind, v);
  }

  lemma EdgeMeans(types: Types, v: nat, u: nat)
    requires v < |types|
    ensures u in SupertypeGraph(types)[v] <==>
        exists name :: name in SupertypeNames(types[v]) && FirstStating(types, u, name)
  {
    hide SupertypeNames, FirstStating, PositionOf;
    var names := SupertypeNames(types[v]);
    forall name ensures PositionOf(types, name) == Some(u) <==> FirstStating(types, u, name) {
      PositionMeans(types, name, u);
    }
    if exists name :: name in names && FirstStating(types, u, name) {
      var name :| name in names && FirstStating(types, u, name);
      var j :| 0 <= j < |names| && names[j] == name;
      assert NamesPosition(types, names, u);
    }
    if NamesPosition(types, names, u) {
      var j :| 0 <= j < |names| && PositionOf(types, names[j]) == Some(u);
      assert names[j] in names;
    }
  }

  lemma FeaturesMean(types: Types, kind: Kind, v: nat)
    requires v < |types|
    ensures forall x :: x in Features(types, kind, v) <==>
        Lists(types[v], if kind == Fields then "fields" else "operations", x)
  {
  }

  /** The first inherited feature of an identity. */
  function FindFeature(inherited: seq<Json>, identity: string): (found: Option<Json>)
    ensures found.Some? ==> found.value in inherited && IdentityOf(found.value) == Some(identity)
    ensures found.None? ==> forall k :: 0 <= k < |inherited| ==> IdentityOf(inherited[k]) != Some(identity)
  {
    if inherited == [] then None
    else if IdentityOf(inherited[0]) == Some(identity) then Some(inherited[0])
    else FindFeature(inherited[1..], identity)
  }

  datatype Refusal = UnresolvedFeatureRef | InvalidRedefinition

  /** The names a field subsets; an operation subsets none. */
  function Subsetted(kind: Kind, feature: Json): seq<string> {
    if kind == Fields then Strings(Compat.Listed(feature, "subsets")) else []
  }

  /** One refusal for every subsetted name that no inherited feature carries. */
  method SubsetRefusals(names: seq<string>, inherited: seq<Json>) returns (refusals: seq<Refusal>)
    ensures refusals == [] <==> forall j :: 0 <= j < |names| ==> FindFeature(inherited, names[j]).Some?
    ensures forall r :: r in refusals ==> r == UnresolvedFeatureRef
  {
    refusals := [];
    for j := 0 to |names|
      invariant refusals == [] <==> forall k :: 0 <= k < j ==> FindFeature(inherited, names[k]).Some?
      invariant forall r :: r in refusals ==> r == UnresolvedFeatureRef
    {
      if FindFeature(inherited, names[j]).None? {
        refusals := refusals + [UnresolvedFeatureRef];
      }
    }
  }

  /** What the rule says of one feature's redefinition against those the type inherits. */
  function Judged(n: Compat.Numerics, kind: Kind, feature: Json, inherited: seq<Json>): Option<Refusal> {
    match Compat.Text(feature, "redefines")
    case None => None
    case Some(name) =>
      match FindFeature(inherited, name)
      case None => Some(UnresolvedFeatureRef)
      case Some(redefined) => if Within(n, kind, feature, redefined) then None else Some(InvalidRedefinition)
  }

  /** The features of every ancestor, in the order the ancestors are found. */
  method Inherited(types: Types, kind: Kind, v: nat) returns (inherited: seq<Json>, ghost from: seq<nat>)
    requires v < |types|
    ensures forall x :: x in inherited <==> InheritedFrom(types, kind, from, x)
    ensures FirstOfName(types, v) ==> forall u :: u in from <==> u != v && Reaches(SupertypeGraph(types), v, u)
  {
    hide Reaches, IdentityOf;
    var ancestors := Ancestors(types, v);
    from := ancestors;
    inherited := [];
    for i := 0 to |ancestors|
      invariant forall x :: x in inherited <==> InheritedFrom(types, kind, ancestors[..i], x)
    {
      assert ancestors[..i + 1] == ancestors[..i] + [ancestors[i]] && ancestors[i] in ancestors;
      InheritedMore(types, kind, ancestors[..i], ancestors[i]);
      inherited := inherited + Features(types, kind, ancestors[i]);
    }
    assert ancestors[..|ancestors|] == ancestors;
  }

  ghost predicate InheritedFrom(types: Types, kind: Kind, from: seq<nat>, x: Json) {
    exists u :: u in from && u < |types| && x in Features(types, kind, u)
  }

  lemma InheritedMore(types: Types, kind: Kind, from: seq<nat>, u: nat)
    requires u < |types|
    ensures forall x :: InheritedFrom(types, kind, from + [u], x) <==>
        InheritedFrom(types, kind, from, x) || x in Features(types, kind, u)
  {
    hide Features;
    forall x
      ensures InheritedFrom(types, kind, from + [u], x) <==>
          InheritedFrom(types, kind, from, x) || x in Features(types, kind, u)
    {
      if x in Features(types, kind, u) { assert u in from + [u]; }
      if InheritedFrom(types, kind, from, x) {
        var w :| w in from && w < |types| && x in Features(types, kind, w);
        assert w in from + [u];
      }
    }
  }

  /** The feature redefines nothing, or a feature of a strict supertype whose bounds contain its own. */
  ghost predicate Sound(n: Compat.Numerics, types: Types, kind: Kind, v: nat, feature: Json)
    requires v < |types|
  {
    Compat.Text(feature, "redefines").Some? ==>
      exists u, x :: Redefined(n, types, kind, v, feature, u, x)
  }

  ghost predicate Redefined(n: Compat.Numerics, types: Types, kind: Kind, v: nat, feature: Json, u: nat, x: Json)
    requires v < |types|
  {
    && u < |types| && u != v && Reaches(SupertypeGraph(types), v, u) && x in Features(types, kind, u)
    && Compat.Text(feature, "redefines").Some? && IdentityOf(x) == Compat.Text(feature, "redefines")
        && Within(n, kind, feature, x)
  }

  /** Every name the feature subsets is one of a strict supertype's feature. */
  ghost predicate Resolved(types: Types, kind: Kind, v: nat, feature: Json)
    requires v < |types|
  {
    forall name :: name in Subsetted(kind, feature) ==> exists u, x :: Provides(types, kind, v, name, u, x)
  }

  ghost predicate Provides(types: Types, kind: Kind, v: nat, name: string, u: nat, x: Json)
    requires v < |types|
  {
    && u < |types| && u != v && Reaches(SupertypeGraph(types), v, u) && x in Features(types, kind, u)
    && IdentityOf(x) == Some(name)
  }

  lemma FoundProvides(types: Types, kind: Kind, v: nat, name: string, from: seq<nat>, inherited: seq<Json>)
    requires v < |types|
    requires forall u :: u in from <==> u != v && Reaches(SupertypeGraph(types), v, u)
    requires forall x :: x in inherited <==> InheritedFrom(types, kind, from, x)
    ensures FindFeature(inherited, name).Some? <==> exists u, x :: Provides(types, kind, v, name, u, x)
  {
    hide Reaches, Features, IdentityOf;
    var found := FindFeature(inherited, name);
    if found.Some? {
      assert InheritedFrom(types, kind, from, found.value);
      var u: nat :| u in from && u < |types| && found.value in Features(types, kind, u);
      assert Provides(types, kind, v, name, u, found.value);
    }
    if exists u: nat, x :: Provides(types, kind, v, name, u, x) {
      var u: nat, x :| Provides(types, kind, v, name, u, x);
      assert u in from;
      assert InheritedFrom(types, kind, from, x);
      assert x in inherited;
    }
  }

  lemma SubsetsResolved(types: Types, kind: Kind, v: nat, feature: Json, from: seq<nat>, inherited: seq<Json>)
    requires v < |types|
    requires forall u :: u in from <==> u != v && Reaches(SupertypeGraph(types), v, u)
    requires forall x :: x in inherited <==> InheritedFrom(types, kind, from, x)
    ensures var names := Subsetted(kind, feature);
      (forall j :: 0 <= j < |names| ==> FindFeature(inherited, names[j]).Some?) <==> Resolved(types, kind, v, feature)
  {
    hide Reaches, InheritedFrom, FindFeature, Provides, Subsetted;
    var names := Subsetted(kind, feature);
    forall name ensures FindFeature(inherited, name).Some? <==> exists u, x :: Provides(types, kind, v, name, u, x) {
      FoundProvides(types, kind, v, name, from, inherited);
    }
    assert forall j :: 0 <= j < |names| ==> names[j] in names;
    if forall j :: 0 <= j < |names| ==> FindFeature(inherited, names[j]).Some? {
      forall name | name in names ensures FindFeature(inherited, name).Some? {
        var j :| 0 <= j < |names| && names[j] == name;
      }
    }
  }

  /** One identity names one feature of one type. */
  ghost predicate UniqueFeatures(types: Types, kind: Kind) {
    forall u, w, x, y :: SameFeatureName(types, kind, u, x, w, y) ==> u == w && x == y
  }

  ghost predicate SameFeatureName(types: Types, kind: Kind, u: nat, x: Json, w: nat, y: Json) {
    && u < |types| && w < |types| && x in Features(types, kind, u) && y in Features(types, kind, w)
    && IdentityOf(x).Some? && IdentityOf(x) == IdentityOf(y)
  }

  lemma JudgedSound(n: Compat.Numerics, types: Types, kind: Kind, v: nat, feature: Json, from: seq<nat>,
                    inherited: seq<Json>)
    requires v < |types| && UniqueFeatures(types, kind)
    requires forall u :: u in from <==> u != v && Reaches(SupertypeGraph(types), v, u)
    requires forall x :: x in inherited <==> InheritedFrom(types, kind, from, x)
    ensures Judged(n, kind, feature, inherited).None? <==> Sound(n, types, kind, v, feature)
  {
    hide Reaches, Features, IdentityOf, Within;
    var named := Compat.Text(feature, "redefines");
    if named.Some? {
      var found := FindFeature(inherited, named.value);
      if Judged(n, kind, feature, inherited).None? {
        assert InheritedFrom(types, kind, from, found.value);
        var u: nat :| u in from && u < |types| && found.value in Features(types, kind, u);
        assert Redefined(n, types, kind, v, feature, u, found.value);
      }
      if Sound(n, types, kind, v, feature) {
        var u: nat, x :| Redefined(n, types, kind, v, feature, u, x);
        assert u in from;
        assert InheritedFrom(types, kind, from, x);
        assert x in inherited;
        assert found.Some?;
        assert InheritedFrom(types, kind, from, found.value);
        var w: nat :| w in from && w < |types| && found.value in Features(types, kind, w);
        assert SameFeatureName(types, kind, u, x, w, found.value);
      }
    }
  }

  /** What is refused of a feature: a name it subsets or redefines that no strict supertype's
      feature carries, or a redefinition out of the bounds of the feature that does. */
  ghost predicate Refused(n: Compat.Numerics, types: Types, kind: Kind, v: nat, feature: Json, r: Refusal)
    requires v < |types|
  {
    match r
    case UnresolvedFeatureRef =>
      exists name :: (name in Subsetted(kind, feature) || Compat.Text(feature, "redefines") == Some(name))
        && Unprovided(types, kind, v, name)
    case InvalidRedefinition =>
      exists name, u, x :: Compat.Text(feature, "redefines") == Some(name)
        && Provides(types, kind, v, name, u, x) && !Within(n, kind, feature, x)
  }

  ghost predicate Unprovided(types: Types, kind: Kind, v: nat, name: string)
    requires v < |types|
  {
    forall u, x :: !Provides(types, kind, v, name, u, x)
  }

  /** What the loop refuses of a feature. */
  ghost predicate Judges(n: Compat.Numerics, kind: Kind, feature: Json, inherited: seq<Json>, r: Refusal) {
    || Judged(n, kind, feature, inherited) == Some(r)
    || (r == UnresolvedFeatureRef && !AllFound(Subsetted(kind, feature), inherited))
  }

  ghost predicate AllFound(names: seq<string>, inherited: seq<Json>) {
    forall j :: 0 <= j < |names| ==> FindFeature(inherited, names[j]).Some?
  }

  lemma JudgesMeans(n: Compat.Numerics, types: Types, kind: Kind, v: nat, feature: Json, from: seq<nat>,
                    inherited: seq<Json>, r: Refusal)
    requires v < |types| && UniqueFeatures(types, kind)
    requires forall u :: u in from <==> u != v && Reaches(SupertypeGraph(types), v, u)
    requires forall x :: x in inherited <==> InheritedFrom(types, kind, from, x)
    ensures Judges(n, kind, feature, inherited, r) <==> Refused(n, types, kind, v, feature, r)
  {
    hide Reaches, Features, IdentityOf, Within, FindFeature, Provides, Subsetted, UniqueFeatures, InheritedFrom,
        Compat.Text;
    forall name ensures FindFeature(inherited, name).None? <==> Unprovided(types, kind, v, name) {
      FoundProvides(types, kind, v, name, from, inherited);
    }
    NamesFound(types, kind, v, Subsetted(kind, feature), inherited);
    forall name | FindFeature(inherited, name).Some?
      ensures exists u :: Provides(types, kind, v, name, u, FindFeature(inherited, name).value)
      ensures forall u, x :: Provides(types, kind, v, name, u, x) ==> x == FindFeature(inherited, name).value
    {
      OnlyProvided(types, kind, v, name, from, inherited);
    }
  }

  lemma NamesFound(types: Types, kind: Kind, v: nat, names: seq<string>, inherited: seq<Json>)
    requires v < |types|
    requires forall name :: FindFeature(inherited, name).None? <==> Unprovided(types, kind, v, name)
    ensures AllFound(names, inherited) <==> forall name :: name in names ==> !Unprovided(types, kind, v, name)
  {
    hide FindFeature, Unprovided;
    if forall name :: name in names ==> !Unprovided(types, kind, v, name) {
      assert forall j :: 0 <= j < |names| ==> names[j] in names;
    }
  }

  lemma OnlyProvided(types: Types, kind: Kind, v: nat, name: string, from: seq<nat>, inherited: seq<Json>)
    requires v < |types| && UniqueFeatures(types, kind) && FindFeature(inherited, name).Some?
    requires forall u :: u in from <==> u != v && Reaches(SupertypeGraph(types), v, u)
    requires forall x :: x in inherited <==> InheritedFrom(types, kind, from, x)
    ensures exists u :: Provides(types, kind, v, name, u, FindFeature(inherited, name).value)
    ensures forall u, x :: Provides(types, kind, v, name, u, x) ==> x == FindFeature(inherited, name).value
  {
    hide Reaches, Features, IdentityOf;
    var found := FindFeature(inherited, name).value;
    assert InheritedFrom(types, kind, from, found);
    var w: nat :| w in from && w < |types| && found in Features(types, kind, w);
    assert Provides(types, kind, v, name, w, found);
    forall u, x | Provides(types, kind, v, name, u, x) ensures x == found {
      assert SameFeatureName(types, kind, u, x, w, found);
    }
  }

  /** The refusals of a type's features: none exactly when each subsets only inherited
      features and redefines soundly; of each feature exactly what is refused of it. */
  method FeatureRefusals(n: Compat.Numerics, types: Types, kind: Kind, v: nat)
      returns (refusals: seq<(nat, Refusal)>)
    requires v < |types|
    ensures FirstOfName(types, v) && UniqueFeatures(types, kind) ==>
              (refusals == [] <==> CleanType(n, types, kind, v) && ResolvedType(types, kind, v))
    ensures FirstOfName(types, v) && UniqueFeatures(types, kind) ==>
              forall k: nat, r :: (k, r) in refusals <==>
                k < |Features(types, kind, v)| && Refused(n, types, kind, v, Features(types, kind, v)[k], r)
  {
    hide Reaches, Judged, Sound, IdentityOf, UniqueFeatures, FirstOfName, Compat.Listed, InheritedFrom, FindFeature,
      Resolved, Subsetted, Refused, Features, Judges;
    ghost var from;
    var inherited;
    inherited, from := Inherited(types, kind, v);
    var own := Features(types, kind, v);
    refusals := [];
    for j := 0 to |own|
      invariant refusals == [] <==> forall k :: 0 <= k < j ==> Passes(n, kind, own[k], inherited)
      invariant forall k: nat, r :: (k, r) in refusals <==> k < j && Judges(n, kind, own[k], inherited, r)
    {
      var subsets := SubsetRefusals(Subsetted(kind, own[j]), inherited);
      var judged := Judged(n, kind, own[j], inherited);
      var more := seq(|subsets|, i requires 0 <= i < |subsets| => (j, subsets[i]))
                  + (if judged.Some? then [(j, judged.value)] else []);
      RefusedNow(n, kind, own[j], inherited, subsets, j, more);
      refusals := refusals + more;
    }
    if FirstOfName(types, v) && UniqueFeatures(types, kind) {
      FeaturesPass(n, types, kind, v, from, inherited);
      forall k: nat, r | k < |own|
        ensures Judges(n, kind, own[k], inherited, r) <==> Refused(n, types, kind, v, own[k], r)
      {
        JudgesMeans(n, types, kind, v, own[k], from, inherited, r);
      }
    }
  }

  /** One feature's refusals, gathered. */
  lemma RefusedNow(n: Compat.Numerics, kind: Kind, feature: Json, inherited: seq<Json>, subsets: seq<Refusal>, j: nat,
                   more: seq<(nat, Refusal)>)
    requires subsets == [] <==> AllFound(Subsetted(kind, feature), inherited)
    requires forall r :: r in subsets ==> r == UnresolvedFeatureRef
    requires var judged := Judged(n, kind, feature, inherited);
      more == seq(|subsets|, i requires 0 <= i < |subsets| => (j, subsets[i]))
              + (if judged.Some? then [(j, judged.value)] else [])
    ensures forall k: nat, r :: (k, r) in more <==> k == j && Judges(n, kind, feature, inherited, r)
    ensures more == [] <==> Passes(n, kind, feature, inherited)
  {
    hide Judged, Subsetted, FindFeature;
    var front := seq(|subsets|, i requires 0 <= i < |subsets| => (j, subsets[i]));
    forall k: nat, r ensures (k, r) in front <==> k == j && r in subsets {
      if k == j && r in subsets {
        var i :| 0 <= i < |subsets| && subsets[i] == r;
        assert front[i] == (k, r);
      }
    }
    if subsets != [] { assert subsets[0] in subsets; }
    hide AllFound;
  }

  /** Nothing is refused of the feature. */
  ghost predicate Passes(n: Compat.Numerics, kind: Kind, feature: Json, inherited: seq<Json>) {
    var names := Subsetted(kind, feature);
    (forall j :: 0 <= j < |names| ==> FindFeature(inherited, names[j]).Some?)
      && Judged(n, kind, feature, inherited).None?
  }

  lemma FeaturesPass(n: Compat.Numerics, types: Types, kind: Kind, v: nat, from: seq<nat>, inherited: seq<Json>)
    requires v < |types| && UniqueFeatures(types, kind)
    requires forall u :: u in from <==> u != v && Reaches(SupertypeGraph(types), v, u)
    requires forall x :: x in inherited <==> InheritedFrom(types, kind, from, x)
    ensures var own := Features(types, kind, v);
      (forall k :: 0 <= k < |own| ==> Passes(n, kind, own[k], inherited)) <==>
        CleanType(n, types, kind, v) && ResolvedType(types, kind, v)
  {
    hide Reaches, Judged, Sound, UniqueFeatures, InheritedFrom, FindFeature, Resolved, Subsetted, Features, Passes;
    var own := Features(types, kind, v);
    forall k | 0 <= k < |own|
      ensures Passes(n, kind, own[k], inherited) <==>
        Sound(n, types, kind, v, own[k]) && Resolved(types, kind, v, own[k])
    {
      PassMeans(n, kind, own[k], inherited);
      JudgedSound(n, types, kind, v, own[k], from, inherited);
      SubsetsResolved(types, kind, v, own[k], from, inherited);
    }
    assert forall k :: 0 <= k < |own| ==> own[k] in own;
  }

  lemma PassMeans(n: Compat.Numerics, kind: Kind, feature: Json, inherited: seq<Json>)
    ensures var names := Subsetted(kind, feature);
      Passes(n, kind, feature, inherited) <==>
        (forall j :: 0 <= j < |names| ==> FindFeature(inherited, names[j]).Some?)
        && Judged(n, kind, feature, inherited).None?
  {
    hide FindFeature, Judged, Subsetted;
  }

  // ----- chains of redefinitions

  /** Every redefinition of the document is sound: the rule refuses none. */
  ghost predicate Clean(n: Compat.Numerics, types: Types, kind: Kind) {
    forall v, x :: 0 <= v < |types| && x in Features(types, kind, v) ==> Sound(n, types, kind, v, x)
  }

  ghost predicate FirstsOfName(types: Types) {
    forall v: nat :: v < |types| ==> FirstOfName(types, v)
  }

  /** The features of one type are sound. */
  ghost predicate CleanType(n: Compat.Numerics, types: Types, kind: Kind, v: nat)
    requires v < |types|
  {
    forall x :: x in Features(types, kind, v) ==> Sound(n, types, kind, v, x)
  }

  /** The features of one type subset only what it inherits. */
  ghost predicate ResolvedType(types: Types, kind: Kind, v: nat)
    requires v < |types|
  {
    forall x :: x in Features(types, kind, v) ==> Resolved(types, kind, v, x)
  }

  lemma CleanTypes(n: Compat.Numerics, types: Types, kind: Kind)
    ensures Clean(n, types, kind) <==> forall v: nat :: v < |types| ==> CleanType(n, types, kind, v)
  {
    hide Sound, Features;
    if forall v: nat :: v < |types| ==> CleanType(n, types, kind, v) {
      forall v, x | 0 <= v < |types| && x in Features(types, kind, v) ensures Sound(n, types, kind, v, x) {
        assert CleanType(n, types, kind, v);
      }
    }
  }

  /** The feature `k` of the type `v` is refused so. */
  ghost predicate RefusedAt(n: Compat.Numerics, types: Types, kind: Kind, v: nat, k: nat, r: Refusal) {
    v < |types| && k < |Features(types, kind, v)| && Refused(n, types, kind, v, Features(types, kind, v)[k], r)
  }

  type Findings = seq<(nat, seq<(nat, Refusal)>)>

  ghost predicate Listed(found: Findings, v: nat, k: nat, r: Refusal) {
    exists own :: (v, own) in found && (k, r) in own
  }

  lemma ListedMore(found: Findings, v: nat, own: seq<(nat, Refusal)>)
    ensures var more := if own != [] then found + [(v, own)] else found;
      forall u: nat, k: nat, r :: Listed(more, u, k, r) <==> Listed(found, u, k, r) || (u == v && (k, r) in own)
  {
    var more := if own != [] then found + [(v, own)] else found;
    forall u: nat, k: nat, r ensures Listed(more, u, k, r) <==> Listed(found, u, k, r) || (u == v && (k, r) in own) {
      if Listed(found, u, k, r) {
        var some :| (u, some) in found && (k, r) in some;
        assert (u, some) in more;
      }
      if (k, r) in own { assert own != [] && (v, own) in more; }
    }
  }

  /** The refusals of every type's features, type by type: none exactly when the
      document's redefinitions are sound and its subsets name inherited features, and
      of each feature exactly what is refused of it. */
  method DocumentRefusals(n: Compat.Numerics, types: Types, kind: Kind) returns (refusals: Findings)
    ensures FirstsOfName(types) && UniqueFeatures(types, kind) ==>
      (refusals == [] <==> Clean(n, types, kind) && forall v: nat :: v < |types| ==> ResolvedType(types, kind, v))
    ensures FirstsOfName(types) && UniqueFeatures(types, kind) ==>
      forall v: nat, k: nat, r :: Listed(refusals, v, k, r) <==> RefusedAt(n, types, kind, v, k, r)
  {
    hide FirstOfName, CleanType, ResolvedType, UniqueFeatures, Clean, Refused, Features, Listed;
    refusals := [];
    NothingListed();
    for v := 0 to |types|
      invariant FirstsOfName(types) && UniqueFeatures(types, kind) ==>
                  (refusals == [] <==>
                   forall u: nat :: u < v ==> CleanType(n, types, kind, u) && ResolvedType(types, kind, u))
      invariant FirstsOfName(types) && UniqueFeatures(types, kind) ==>
                  forall u: nat, k: nat, r :: Listed(refusals, u, k, r) <==> u < v && RefusedAt(n, types, kind, u, k, r)
    {
      var own := FeatureRefusals(n, types, kind, v);
      ListedMore(refusals, v, own);
      if FirstsOfName(types) && UniqueFeatures(types, kind) {
        forall k: nat, r ensures (k, r) in own <==> RefusedAt(n, types, kind, v, k, r) { }
      }
      if own != [] {
        refusals := refusals + [(v, own)];
      }
    }
    CleanTypes(n, types, kind);
  }

  lemma NothingListed()
    ensures forall v: nat, k: nat, r :: !Listed([], v, k, r)
  {
  }

  /** A feature and the type it is declared by. */
  type Owned = (nat, Json)

  ghost predicate Redefines(types: Types, kind: Kind, a: Owned, b: Owned) {
    && a.0 < |types| && b.0 < |types| && a.1 in Features(types, kind, a.0) && b.1 in Features(types, kind, b.0)
    && Compat.Text(a.1, "redefines").Some? && Compat.Text(a.1, "redefines") == IdentityOf(b.1)
  }

  ghost predicate Chain(types: Types, kind: Kind, c: seq<Owned>) {
    forall k :: 0 <= k < |c| - 1 ==> Redefines(types, kind, c[k], c[k + 1])
  }

  lemma RedefinitionStep(n: Compat.Numerics, types: Types, kind: Kind, a: Owned, b: Owned)
    requires Clean(n, types, kind) && UniqueFeatures(types, kind) && Redefines(types, kind, a, b)
    ensures a.0 != b.0 && Reaches(SupertypeGraph(types), a.0, b.0) && Within(n, kind, a.1, b.1)
  {
    hide Reaches, Features, IdentityOf, Within;
    assert Sound(n, types, kind, a.0, a.1);
    var u: nat, x :| Redefined(n, types, kind, a.0, a.1, u, x);
    assert SameFeatureName(types, kind, u, x, b.0, b.1);
  }

  /** Along a chain the types ascend and the bounds only widen. */
  lemma {:induction false} ChainAscends(n: Compat.Numerics, types: Types, kind: Kind, c: seq<Owned>, k: nat, l: nat)
    requires Clean(n, types, kind) && UniqueFeatures(types, kind) && Chain(types, kind, c) && k < l < |c|
    ensures Reaches(SupertypeGraph(types), c[k].0, c[l].0) && Within(n, kind, c[k].1, c[l].1)
    decreases l - k
  {
    hide Reaches, Clean, UniqueFeatures, Within, Features, IdentityOf;
    assert Redefines(types, kind, c[k], c[k + 1]);
    RedefinitionStep(n, types, kind, c[k], c[k + 1]);
    if k + 1 < l {
      ChainAscends(n, types, kind, c, k + 1, l);
      ReachesTrans(SupertypeGraph(types), c[k].0, c[k + 1].0, c[l].0);
      WithinTrans(n, kind, c[k].1, c[k + 1].1, c[l].1);
    }
  }

  lemma ChainTypesDiffer(n: Compat.Numerics, types: Types, kind: Kind, c: seq<Owned>, k: nat, l: nat)
    requires Clean(n, types, kind) && UniqueFeatures(types, kind) && Chain(types, kind, c) && k < l < |c|
    requires Acyclic(SupertypeGraph(types))
    ensures c[k].0 != c[l].0
  {
    hide Reaches, Clean, UniqueFeatures, Within, Features, IdentityOf, OnCycle;
    assert Redefines(types, kind, c[k], c[k + 1]);
    RedefinitionStep(n, types, kind, c[k], c[k + 1]);
    if k + 1 < l && c[k].0 == c[l].0 {
      ChainAscends(n, types, kind, c, k + 1, l);
      MutualOnCycle(SupertypeGraph(types), c[k].0, c[k + 1].0);
    }
  }

  lemma {:induction false} Pigeonhole(s: seq<nat>, n: nat)
    requires NoRepeats(s) && forall i :: 0 <= i < |s| ==> s[i] < n
    ensures |s| <= n
    decreases n
  {
    assert s == [] || s[0] < n;
    if n > 0 {
      if i :| 0 <= i < |s| && s[i] == n - 1 {
        var rest := s[..i] + s[i + 1..];
        Pigeonhole(rest, n - 1);
      } else {
        Pigeonhole(s, n - 1);
      }
    }
  }

  /** In an acyclic document the rules refuse nothing of, every chain of redefinitions
      is finite, and its first feature's bounds lie within every later one's. */
  lemma ChainsEnd(n: Compat.Numerics, types: Types, kind: Kind, c: seq<Owned>)
    requires Clean(n, types, kind) && UniqueFeatures(types, kind) && Acyclic(SupertypeGraph(types))
    requires Chain(types, kind, c)
    ensures |c| > 1 ==> |c| <= |types|
    ensures forall l :: 0 < l < |c| ==> Within(n, kind, c[0].1, c[l].1)
  {
    hide Clean, UniqueFeatures, Acyclic, Within, Features, IdentityOf;
    if |c| > 1 {
      var owners := seq(|c|, i requires 0 <= i < |c| => c[i].0);
      forall i | 0 <= i < |c| ensures owners[i] < |types| {
        assert Redefines(types, kind, c[if i < |c| - 1 then i else i - 1], c[if i < |c| - 1 then i + 1 else i]);
      }
      forall i, j | 0 <= i < j < |c| ensures owners[i] != owners[j] { ChainTypesDiffer(n, types, kind, c, i, j); }
      Pigeonhole(owners, |types|);
    }
    forall l | 0 < l < |c| ensures Within(n, kind, c[0].1, c[l].1) { ChainAscends(n, types, kind, c, 0, l); }
  }
}
