/** What the classifier's verdict says of two documents: each class is reached exactly
    when the documents show a reason of that class or of a stricter one. The reasons are
    stated of the documents, without the comparisons that find them. */
module Verdicts {
  import opened Wrappers
  import opened Json
  import opened Compat
  import CompatLaws
  import Canonical
  import Numbers

  /** How restrictive a class is, most restrictive last. */
  ghost function Severity(c: Classification): nat {
    match c
    case Patch => 0
    case Additive => 1
    case Conditional => 2
    case Unknown => 3
    case Breaking => 4
    case Invalid => 5
  }

  /** The class is at least as restrictive as `c`. */
  ghost predicate Reaches(k: Classification, c: Classification) { Severity(c) <= Severity(k) }

  // ----- what a node says

  ghost predicate Says(node: Json, name: string, text: string) { node.Get(name) == Some(Str(text)) }

  ghost predicate SameText(x: Json, y: Json, name: string) {
    forall text :: Says(x, name, text) <==> Says(y, name, text)
  }

  ghost predicate Marked(node: Json, name: string) { node.Get(name) == Some(Bool(true)) }

  ghost predicate Differs(x: Json, y: Json, name: string) { x.Get(name) != y.Get(name) }

  ghost function Items(node: Json, name: string): seq<Json> {
    if node.Get(name).Some? && node.Get(name).value.Array? then node.Get(name).value.items else []
  }

  /** The identity of a node, empty where it has none. */
  ghost function Id(node: Json): string {
    if exists text :: Says(node, "identity", text) then node.Get("identity").value.text else ""
  }

  /** What the reference in a member resolves to, empty where there is none. */
  ghost function Refers(d: Document, node: Json, name: string): string {
    if exists text :: Says(node, name, text) then d.key(node.Get(name).value.text) else ""
  }

  ghost predicate SameWritten(n: Numerics, x: Json, y: Json) {
    Canonical.CanonicalText(n.decoder, x) == Canonical.CanonicalText(n.decoder, y)
  }

  /** Members other than the place a node comes from. */
  ghost function Placeless(members: seq<(string, Json)>): seq<(string, Json)> {
    if members == [] then []
    else
      var last := members[|members| - 1];
      Placeless(members[..|members| - 1]) + (if last.0 != "origin" then [last] else [])
  }

  ghost predicate SameBesidePlace(n: Numerics, x: Json, y: Json) {
    SameWritten(n, if x.Object? then Object(Placeless(x.members)) else x,
                if y.Object? then Object(Placeless(y.members)) else y)
  }

  // ----- lists

  ghost predicate Absent(identity: string, nodes: seq<Json>) {
    forall i :: 0 <= i < |nodes| ==> Id(nodes[i]) != identity
  }

  /** The node is the first of the identity. */
  ghost predicate Counterpart(identity: string, nodes: seq<Json>, y: Json) {
    exists i :: 0 <= i < |nodes| && nodes[i] == y && Id(y) == identity && Absent(identity, nodes[..i])
  }

  /** Something is gone, something is new, or something has moved, where each matters. */
  ghost predicate ListShows(before: seq<Json>, after: seq<Json>, gone: bool, grown: Json -> bool,
                            moved: (Json, Json) -> bool)
  {
    || (gone && exists x :: x in before && Absent(Id(x), after))
    || (exists y :: y in after && Absent(Id(y), before) && grown(y))
    || (exists x, y :: x in before && Counterpart(Id(x), after, y) && moved(x, y))
  }

  // ----- reasons of a constraint

  /** The number is an integer a double holds exactly. */
  ghost predicate Exactly(n: Numerics, v: Json, k: int) {
    && v.Number? && n.value(v.lexeme) == Some(k as real)
    && -0x20_0000_0000_0000 < k < 0x20_0000_0000_0000
  }

  /** The decimal text of an integer. */
  ghost function Spelled(k: int): string { if k < 0 then "-" + Numbers.Decimal(-k) else Numbers.Decimal(k) }

  /** An integer bound: an exact number, or the decimal text of an integer of 128 bits. */
  ghost predicate Whole(n: Numerics, v: Json, k: int) {
    || Exactly(n, v, k)
    || (&& -0x8000_0000_0000_0000_0000_0000_0000_0000 <= k < 0x8000_0000_0000_0000_0000_0000_0000_0000
        && v == Str(Spelled(k)))
  }

  /** The double a bound is read as. */
  ghost predicate Nearest(n: Numerics, v: Json, r: real) {
    || (exists k: int :: Whole(n, v, k) && r == n.round(k))
    || ((forall k: int :: !Whole(n, v, k)) && v.Number? && n.value(v.lexeme) == Some(r))
  }

  /** The one bound is the greater: as integers where both are, as doubles elsewhere. */
  ghost predicate Greater(n: Numerics, v: Json, w: Json) {
    if (exists k: int :: Whole(n, v, k)) && (exists k: int :: Whole(n, w, k))
    then exists k: int, m: int :: Whole(n, v, k) && Whole(n, w, m) && k > m
    else exists r: real, s: real :: Nearest(n, v, r) && Nearest(n, w, s) && r > s
  }

  ghost predicate Limits(n: Numerics, x: Json, v: Json) {
    && (exists operands :: x.Get("operands") == Some(operands) && operands.Get("value") == Some(v))
    && exists r: real :: Nearest(n, v, r)
  }

  ghost predicate BothSay(x: Json, y: Json, name: string, text: string) { Says(x, name, text) && Says(y, name, text) }

  /** One numeric limit under one keyword, no stricter than before. */
  ghost predicate Relaxes(n: Numerics, x: Json, y: Json) {
    exists v, w :: Limits(n, x, v) && Limits(n, y, w) && (
      || ((exists word :: word in {"min", "minLength", "exclusiveMin"} && BothSay(x, y, "keyword", word))
          && !Greater(n, w, v))
      || ((exists word :: word in {"max", "maxLength", "exclusiveMax"} && BothSay(x, y, "keyword", word))
          && !Greater(n, v, w)))
  }

  ghost predicate ConstraintShows(n: Numerics, x: Json, y: Json, c: Classification) {
    !SameWritten(n, x, y) && Reaches(if Relaxes(n, x, y) then Additive else Conditional, c)
  }

  ghost predicate ConstraintsShow(n: Numerics, x: Json, y: Json, c: Classification) {
    ListShows(Items(x, "constraints"), Items(y, "constraints"), Reaches(Additive, c),
              _ => Reaches(Conditional, c), (a, b) => ConstraintShows(n, a, b, c))
  }

  // ----- reasons of a field

  ghost predicate Counted(field: Json) {
    field.Get("multiplicity").Some? && field.Get("multiplicity").value.Object?
  }

  ghost predicate Bounds(n: Numerics, field: Json, name: string, k: int) {
    && Counted(field) && field.Get("multiplicity").value.Get(name).Some?
    && Exactly(n, field.Get("multiplicity").value.Get(name).value, k)
  }

  ghost predicate Declares(field: Json, name: string) {
    Counted(field) && Marked(field.Get("multiplicity").value, name)
  }

  /** The count is no fewer than the field demands. */
  ghost predicate Enough(n: Numerics, field: Json, count: int) {
    if exists k: int :: Bounds(n, field, "lower", k) then exists k: int :: Bounds(n, field, "lower", k) && k <= count
    else if !Counted(field) && Says(field, "presence", "required") then 1 <= count
    else 0 <= count
  }

  /** The count is no more than the field allows. */
  ghost predicate NotTooMany(n: Numerics, field: Json, count: int) {
    && (forall k: int :: Bounds(n, field, "upper", k) ==> count <= k)
    && (!Counted(field) ==> count <= 1)
  }

  /** Some count the one field took at one end is refused by the other at that end. */
  ghost predicate Narrows(n: Numerics, x: Json, y: Json) {
    exists count: int ::
      || (Enough(n, x, count) && !Enough(n, y, count))
      || (NotTooMany(n, x, count) && !NotTooMany(n, y, count))
  }

  ghost predicate FieldBreaks(n: Numerics, d: Document, x: Json, e: Document, y: Json) {
    || Differs(x, y, "name") || Refers(d, x, "typeRef") != Refers(e, y, "typeRef")
    || Marked(x, "nullable") != Marked(y, "nullable") || !SameText(x, y, "unit")
    || Declares(x, "ordered") != Declares(y, "ordered") || Declares(x, "unique") != Declares(y, "unique")
    || Narrows(n, x, y)
  }

  ghost predicate FieldShows(n: Numerics, d: Document, x: Json, e: Document, y: Json, c: Classification) {
    || (Reaches(Breaking, c) && FieldBreaks(n, d, x, e, y))
    || (Reaches(Conditional, c) && (Differs(x, y, "defaultKind") || Differs(x, y, "defaultValue")))
    || (Reaches(Additive, c) && Narrows(n, y, x))
  }

  /** The consumers of the bundle keep or surface what they do not know. */
  ghost predicate Tolerates(bundle: Json) {
    exists policy :: bundle.Get("consumerPolicy") == Some(policy)
      && (Says(policy, "unknownExtensions", "preserve") || Says(policy, "unknownExtensions", "surface"))
  }

  ghost predicate FieldGrows(n: Numerics, bundle: Json, y: Json, c: Classification) {
    Reaches(if !Enough(n, y, 0) then Breaking else if Tolerates(bundle) then Additive else Conditional, c)
  }

  ghost predicate FieldsShow(n: Numerics, d: Document, x: Json, e: Document, y: Json, c: Classification) {
    ListShows(Items(x, "fields"), Items(y, "fields"), Reaches(Breaking, c),
              f => FieldGrows(n, e.bundle, f, c), (f, g) => FieldShows(n, d, f, e, g, c))
  }

  // ----- reasons of variants, positions, relationships, operations and clauses

  ghost predicate VariantShows(d: Document, x: Json, e: Document, y: Json, c: Classification) {
    Reaches(Breaking, c) && (Differs(x, y, "name") || Refers(d, x, "payloadType") != Refers(e, y, "payloadType"))
  }

  ghost predicate VariantsShow(d: Document, x: Json, e: Document, y: Json, c: Classification) {
    ListShows(Items(x, "variants"), Items(y, "variants"), Reaches(Breaking, c),
              _ => Reaches(Conditional, c), (v, w) => VariantShows(d, v, e, w, c))
  }

  ghost predicate PositionsDiffer(d: Document, x: Json, e: Document, y: Json) {
    var (xs, ys) := (Items(x, "positions"), Items(y, "positions"));
    || |xs| != |ys|
    || exists i :: 0 <= i < |xs| && PositionDiffers(d, xs[i], e, ys[i])
  }

  ghost predicate PositionDiffers(d: Document, p: Json, e: Document, q: Json) {
    Id(p) != Id(q) || Refers(d, p, "typeRef") != Refers(e, q, "typeRef")
  }

  ghost predicate RelationshipsShow(n: Numerics, x: Json, y: Json, c: Classification) {
    ListShows(Items(x, "relationships"), Items(y, "relationships"), Reaches(Breaking, c),
              _ => Reaches(Conditional, c), (r, s) => Reaches(Breaking, c) && !SameBesidePlace(n, r, s))
  }

  ghost predicate ParamsDiffer(n: Numerics, d: Document, x: Json, e: Document, y: Json) {
    var (xs, ys) := (Items(x, "params"), Items(y, "params"));
    || |xs| != |ys|
    || exists i :: 0 <= i < |xs| && ParamDiffers(n, d, xs[i], e, ys[i])
  }

  /** Any change of a parameter that a field would show. */
  ghost predicate ParamDiffers(n: Numerics, d: Document, p: Json, e: Document, q: Json) {
    Id(p) != Id(q) || FieldShows(n, d, p, e, q, Additive)
  }

  ghost function Result(operation: Json): Json {
    if operation.Get("returns").Some? then operation.Get("returns").value else Null
  }

  ghost predicate OperationShows(n: Numerics, d: Document, x: Json, e: Document, y: Json, c: Classification) {
    || (Reaches(Breaking, c)
        && (Differs(x, y, "name") || !SameWritten(n, Result(x), Result(y)) || ParamsDiffer(n, d, x, e, y)))
    || (Reaches(Conditional, c) && (Differs(x, y, "pre") || Differs(x, y, "post")))
  }

  ghost predicate OperationsShow(n: Numerics, d: Document, x: Json, e: Document, y: Json, c: Classification) {
    ListShows(Items(x, "operations"), Items(y, "operations"), Reaches(Breaking, c),
              _ => Reaches(Conditional, c), (o, p) => OperationShows(n, d, o, e, p, c))
  }

  ghost predicate ClausesShow(n: Numerics, x: Json, y: Json, c: Classification) {
    ListShows(Items(x, "clauses"), Items(y, "clauses"), Reaches(Unknown, c),
              _ => Reaches(Unknown, c), (r, s) => Reaches(Unknown, c) && !SameBesidePlace(n, r, s))
  }

  // ----- reasons of types, extensions and documents

  /** How strictly a type takes members it does not know. */
  ghost function Strictness(node: Json): int {
    if Says(node, "unknownPolicy", "reject") then 3
    else if Says(node, "unknownPolicy", "surface") then 2
    else if Says(node, "unknownPolicy", "preserve") then 1
    else 0
  }

  ghost predicate HeadBreaks(d: Document, x: Json, e: Document, y: Json) {
    || Differs(x, y, "kind") || Differs(x, y, "scalar")
    || Refers(d, x, "target") != Refers(e, y, "target") || Refers(d, x, "items") != Refers(e, y, "items")
    || Refers(d, x, "values") != Refers(e, y, "values") || Strictness(x) < Strictness(y)
  }

  ghost predicate TypeShows(n: Numerics, d: Document, x: Json, e: Document, y: Json, c: Classification) {
    || (Reaches(Breaking, c) && (HeadBreaks(d, x, e, y) || PositionsDiffer(d, x, e, y)))
    || (Reaches(Additive, c) && Strictness(y) < Strictness(x))
    || ConstraintsShow(n, x, y, c)
    || FieldsShow(n, d, x, e, y, c)
    || VariantsShow(d, x, e, y, c)
    || RelationshipsShow(n, x, y, c)
    || OperationsShow(n, d, x, e, y, c)
    || ClausesShow(n, x, y, c)
  }

  /** The node is the first that states the identity. */
  ghost predicate Namesake(identity: string, nodes: seq<Json>, y: Json) {
    exists i :: 0 <= i < |nodes| && nodes[i] == y && Says(y, "identity", identity) && Unstated(identity, nodes[..i])
  }

  ghost predicate Unstated(identity: string, nodes: seq<Json>) {
    forall i :: 0 <= i < |nodes| ==> !Says(nodes[i], "identity", identity)
  }

  /** A type is gone, or one of its namesakes shows a reason; a new type is none. */
  ghost predicate TypesShow(n: Numerics, d: Document, e: Document, c: Classification) {
    exists x, identity :: x in Items(d.ir, "types") && Says(x, "identity", identity) && (
      || (Reaches(Breaking, c) && Unstated(identity, Items(e.ir, "types")))
      || exists y :: Namesake(identity, Items(e.ir, "types"), y) && TypeShows(n, d, x, e, y, c))
  }

  ghost predicate ExtensionShows(n: Numerics, x: Json, y: Json, c: Classification) {
    if Marked(x, "required") != Marked(y, "required")
    then Reaches(if Marked(y, "required") then Breaking else Additive, c)
    else Reaches(Conditional, c) && !SameWritten(n, x, y)
  }

  ghost predicate ExtensionsShow(n: Numerics, x: Json, y: Json, c: Classification) {
    ListShows(Items(x, "extensions"), Items(y, "extensions"), Reaches(Breaking, c),
              a => Reaches(if Marked(a, "required") then Breaking else Additive, c),
              (a, b) => ExtensionShows(n, a, b, c))
  }

  /** The documents show a reason of class `c` or of a stricter one. */
  ghost predicate Shows(n: Numerics, d: Document, e: Document, c: Classification) {
    || (Reaches(Conditional, c) && Differs(d.ir, e.ir, "contractVersion"))
    || ExtensionsShow(n, d.ir, e.ir, c)
    || TypesShow(n, d, e, c)
  }

  // ----- verdicts and reasons

  lemma JoinReaches(a: Classification, b: Classification, c: Classification)
    ensures Reaches(Join(a, b), c) <==> Reaches(a, c) || Reaches(b, c)
  {
  }

  lemma DifferReaches<T>(a: T, b: T, verdict: Classification, c: Classification)
    requires c != Patch
    ensures Reaches(Differ(a, b, verdict), c) <==> a != b && Reaches(verdict, c)
  {
  }

  // ----- reading

  lemma TextSays(node: Json, name: string)
    ensures forall text :: Text(node, name) == Some(text) <==> Says(node, name, text)
    ensures Text(node, name).None? <==> forall text :: !Says(node, name, text)
  {
    if Text(node, name).Some? { assert Says(node, name, Text(node, name).value); }
  }

  lemma TextSame(x: Json, y: Json, name: string)
    ensures Text(x, name) == Text(y, name) <==> SameText(x, y, name)
  {
    TextSays(x, name);
    TextSays(y, name);
    hide Text, Says;
    if SameText(x, y, name) && Text(x, name).Some? { assert Says(y, name, Text(x, name).value); }
    if SameText(x, y, name) && Text(y, name).Some? { assert Says(x, name, Text(y, name).value); }
  }

  lemma FlagMarks(node: Json, name: string)
    ensures Flag(node, name) == Some(true) <==> Marked(node, name)
  {
  }

  lemma IdIs(node: Json)
    ensures IdentityOf(node) == Id(node)
  {
    TextSays(node, "identity");
    if Text(node, "identity").Some? { assert Says(node, "identity", Text(node, "identity").value); }
  }

  lemma RefersIs(d: Document, node: Json, name: string)
    ensures ResolvedKey(d, Text(node, name)) == Refers(d, node, name)
  {
    TextSays(node, name);
    if Text(node, name).Some? { assert Says(node, name, Text(node, name).value); }
  }

  lemma ItemsAre(node: Json, name: string)
    ensures Listed(node, name) == Items(node, name)
  {
  }

  lemma {:induction false} PlacelessCons(m: (string, Json), members: seq<(string, Json)>)
    ensures Placeless([m] + members) == (if m.0 == "origin" then [] else [m]) + Placeless(members)
    decreases |members|
  {
    var all := [m] + members;
    if members == [] {
      assert all[..|all| - 1] == [] && Placeless([]) == [];
    } else {
      assert all[..|all| - 1] == [m] + members[..|members| - 1];
      PlacelessCons(m, members[..|members| - 1]);
    }
  }

  lemma {:induction false} PlacelessIs(members: seq<(string, Json)>)
    ensures WithoutOrigin(members) == Placeless(members)
  {
    if members != [] {
      PlacelessCons(members[0], members[1..]);
      PlacelessIs(members[1..]);
      assert members == [members[0]] + members[1..];
    }
  }

  lemma PlaceSame(n: Numerics, x: Json, y: Json)
    ensures Written(n, StripOrigin(x)) == Written(n, StripOrigin(y)) <==> SameBesidePlace(n, x, y)
  {
    if x.Object? { PlacelessIs(x.members); }
    if y.Object? { PlacelessIs(y.members); }
  }

  // ----- lists

  lemma {:induction false} FoundMeans(nodes: seq<Json>, identity: string)
    ensures FindNode(nodes, identity).None? <==> Absent(identity, nodes)
    ensures forall y :: FindNode(nodes, identity) == Some(y) <==> Counterpart(identity, nodes, y)
  {
    hide Id, IdentityOf;
    if nodes != [] {
      IdIs(nodes[0]);
      FoundMeans(nodes[1..], identity);
      AbsentCons(nodes, identity);
      forall y ensures FindNode(nodes, identity) == Some(y) <==> Counterpart(identity, nodes, y) {
        CounterpartCons(nodes, identity, y);
      }
    }
  }

  lemma AbsentCons(nodes: seq<Json>, identity: string)
    requires nodes != []
    ensures Absent(identity, nodes) <==> Id(nodes[0]) != identity && Absent(identity, nodes[1..])
  {
    hide Id;
    if Id(nodes[0]) != identity && Absent(identity, nodes[1..]) {
      forall i | 0 <= i < |nodes| ensures Id(nodes[i]) != identity {
        if i > 0 { assert nodes[1..][i - 1] == nodes[i]; }
      }
    }
  }

  lemma CounterpartCons(nodes: seq<Json>, identity: string, y: Json)
    requires nodes != []
    ensures Counterpart(identity, nodes, y) <==>
      if Id(nodes[0]) == identity then y == nodes[0] else Counterpart(identity, nodes[1..], y)
  {
    hide Id;
    var rest := nodes[1..];
    if Counterpart(identity, nodes, y) {
      var i :| 0 <= i < |nodes| && nodes[i] == y && Id(y) == identity && Absent(identity, nodes[..i]);
      if i > 0 {
        assert nodes[..i][0] == nodes[0];
        var k := i - 1;
        assert rest[k] == y && rest[..k] == nodes[..i][1..];
        AbsentCons(nodes[..i], identity);
      }
    }
    if Id(nodes[0]) == identity {
      assert Absent(identity, nodes[..0]);
    } else if Counterpart(identity, rest, y) {
      var k :| 0 <= k < |rest| && rest[k] == y && Id(y) == identity && Absent(identity, rest[..k]);
      var i := k + 1;
      assert nodes[i] == y && nodes[..i][1..] == rest[..k];
      AbsentCons(nodes[..i], identity);
    }
  }

  /** What a list costs reaches a class exactly when the list shows it, given the same of
      removals, additions and changes. */
  lemma ListMeans(p: Policy, before: seq<Json>, after: seq<Json>, c: Classification,
                  gone: bool, grown: Json -> bool, moved: (Json, Json) -> bool)
    requires c != Patch && (gone <==> Reaches(p.removed, c))
    requires forall y :: grown(y) <==> Reaches(p.added(y), c)
    requires forall x, y :: moved(x, y) <==> Reaches(p.changed(x, y), c)
    ensures Reaches(CompareLists(p, before, after), c) <==> ListShows(before, after, gone, grown, moved)
  {
    hide IdentityOf, Id, Severity, Classification.Rank, Join, Absent, Counterpart;
    ReachesParts(p, before, after, c);
    forall x ensures Reaches(Before(p, x, after), c) <==>
        (gone && Absent(Id(x), after)) || (exists y :: Counterpart(Id(x), after, y) && moved(x, y))
    {
      IdIs(x);
      FoundMeans(after, Id(x));
    }
    forall y ensures Reaches(After(p, y, before), c) <==> Absent(Id(y), before) && grown(y) {
      IdIs(y);
      FoundMeans(before, Id(y));
      NeverPatch(c);
    }
    hide Before, After;
    if ReachedBefore(p, before, after, c) {
      var i :| 0 <= i < |before| && Reaches(Before(p, before[i], after), c);
      assert before[i] in before;
    }
    if ReachedAfter(p, before, after, c) {
      var i :| 0 <= i < |after| && Reaches(After(p, after[i], before), c);
      assert after[i] in after;
    }
  }

  lemma NeverPatch(c: Classification)
    requires c != Patch
    ensures !Reaches(Patch, c)
  {
  }

  ghost predicate ReachedBefore(p: Policy, before: seq<Json>, after: seq<Json>, c: Classification) {
    exists i :: 0 <= i < |before| && Reaches(Before(p, before[i], after), c)
  }

  ghost predicate ReachedAfter(p: Policy, before: seq<Json>, after: seq<Json>, c: Classification) {
    exists i :: 0 <= i < |after| && Reaches(After(p, after[i], before), c)
  }

  function Below(c: Classification): (limit: Classification)
    requires c != Patch
    ensures Severity(limit) + 1 == Severity(c)
  {
    match c
    case Additive => Patch
    case Conditional => Additive
    case Unknown => Conditional
    case Breaking => Unknown
    case Invalid => Breaking
  }

  lemma BelowMeans(k: Classification, c: Classification)
    requires c != Patch
    ensures Reaches(k, c) <==> !CompatLaws.AtMost(k, Below(c))
  {
  }

  lemma ReachesParts(p: Policy, before: seq<Json>, after: seq<Json>, c: Classification)
    requires c != Patch
    ensures Reaches(CompareLists(p, before, after), c) <==>
      ReachedBefore(p, before, after, c) || ReachedAfter(p, before, after, c)
  {
    hide Before, After, CompareLists, Reaches, CompatLaws.AtMost, Below, Severity;
    CompatLaws.ListWorst(p, before, after, Below(c));
    forall k ensures Reaches(k, c) <==> !CompatLaws.AtMost(k, Below(c)) { BelowMeans(k, c); }
  }

  // ----- constraints

  lemma CanonicalSpells(text: string)
    ensures CanonicalDecimal(text) ==> Spelled(DecimalValue(text)) == text
    ensures forall k: int :: Spelled(k) == text ==> CanonicalDecimal(text) && DecimalValue(text) == k
  {
    if CanonicalDecimal(text) { ValueSpells(text); }
    forall k: int | Spelled(k) == text
      ensures CanonicalDecimal(text) && DecimalValue(text) == k
    {
      SpelledCanonical(k);
    }
  }

  lemma ValueSpells(text: string)
    requires CanonicalDecimal(text)
    ensures Spelled(DecimalValue(text)) == text
  {
    if text[0] == '-' {
      Numbers.DecimalIs(text[1..]);
      Numbers.NatPositive(text[1..]);
      assert text == "-" + text[1..];
    } else {
      Numbers.DecimalIs(text);
    }
  }

  lemma SpelledCanonical(k: int)
    ensures CanonicalDecimal(Spelled(k)) && DecimalValue(Spelled(k)) == k
  {
    var text := Spelled(k);
    if k < 0 {
      assert text[1..] == Numbers.Decimal(-k) && text[0] == '-';
    } else {
      assert Numbers.IsDigit(text[0]);
    }
  }

  lemma ExactlyMeans(n: Numerics, v: Json)
    ensures forall k: int :: AsI64(n, Some(v)) == Some(k) <==> Exactly(n, v, k)
  {
    forall k: int ensures AsI64(n, Some(v)) == Some(k) <==> Exactly(n, v, k) {
      assert (k as real).Floor == k;
    }
  }

  lemma BoundMeans(n: Numerics, v: Json)
    ensures forall k: int :: BoundOf(n, v) == Some(Integer(k)) <==> Whole(n, v, k)
    ensures forall r: real :: BoundOf(n, v) == Some(Float(r)) <==>
      (forall k: int :: !Whole(n, v, k)) && v.Number? && n.value(v.lexeme) == Some(r)
  {
    hide CanonicalDecimal, DecimalValue, Spelled;
    if v.Str? { CanonicalSpells(v.text); }
    forall k: int ensures BoundOf(n, v) == Some(Integer(k)) <==> Whole(n, v, k) {
      assert (k as real).Floor == k;
    }
    hide Whole;
    if v.Number? && BoundOf(n, v).Some? && BoundOf(n, v).value.Integer? {
      assert Whole(n, v, BoundOf(n, v).value.value);
    }
  }

  lemma NearestMeans(n: Numerics, v: Json)
    ensures BoundOf(n, v).Some? <==> exists r: real :: Nearest(n, v, r)
    ensures BoundOf(n, v).Some? ==> forall r: real :: Nearest(n, v, r) <==> r == FloatOf(n, BoundOf(n, v).value)
  {
    hide Whole, BoundOf;
    BoundMeans(n, v);
    if BoundOf(n, v).Some? {
      match BoundOf(n, v).value
      case Integer(k) => assert Whole(n, v, k);
      case Float(r) =>
    }
    forall r: real ensures Nearest(n, v, r) <==> BoundOf(n, v).Some? && r == FloatOf(n, BoundOf(n, v).value) {
      if exists k: int :: Whole(n, v, k) && r == n.round(k) {
        var k: int :| Whole(n, v, k) && r == n.round(k);
      }
    }
    if BoundOf(n, v).Some? { assert Nearest(n, v, FloatOf(n, BoundOf(n, v).value)); }
  }

  lemma GreaterMeans(n: Numerics, v: Json, w: Json)
    requires BoundOf(n, v).Some? && BoundOf(n, w).Some?
    ensures Exceeds(n, BoundOf(n, v).value, BoundOf(n, w).value) <==> Greater(n, v, w)
  {
    hide Whole, BoundOf, Nearest;
    BoundMeans(n, v);
    BoundMeans(n, w);
    NearestMeans(n, v);
    NearestMeans(n, w);
    if BoundOf(n, v).value.Integer? { assert Whole(n, v, BoundOf(n, v).value.value); }
    if BoundOf(n, w).value.Integer? { assert Whole(n, w, BoundOf(n, w).value.value); }
    if Exceeds(n, BoundOf(n, v).value, BoundOf(n, w).value) {
      assert Nearest(n, v, FloatOf(n, BoundOf(n, v).value)) && Nearest(n, w, FloatOf(n, BoundOf(n, w).value));
    }
  }

  lemma LimitsMeans(n: Numerics, x: Json)
    ensures Operand(n, x).Some? <==> exists v :: Limits(n, x, v)
    ensures forall v :: Limits(n, x, v) ==> Operand(n, x) == BoundOf(n, v)
  {
    hide BoundOf, Nearest;
    forall v ensures BoundOf(n, v).Some? <==> exists r: real :: Nearest(n, v, r) { NearestMeans(n, v); }
    if Operand(n, x).Some? {
      assert Limits(n, x, x.Get("operands").value.Get("value").value);
    }
  }

  lemma KeywordSays(x: Json, y: Json)
    ensures var word := Keyword(x);
      && (Lower(word) && Text(y, "keyword") == Some(word) <==>
            exists w :: w in {"min", "minLength", "exclusiveMin"} && BothSay(x, y, "keyword", w))
      && (Upper(word) && Text(y, "keyword") == Some(word) <==>
            exists w :: w in {"max", "maxLength", "exclusiveMax"} && BothSay(x, y, "keyword", w))
  {
    TextSays(x, "keyword");
    TextSays(y, "keyword");
    hide Text, Says;
    if Lower(Keyword(x)) || Upper(Keyword(x)) { assert Text(x, "keyword") == Some(Keyword(x)); }
    if Text(y, "keyword") == Some(Keyword(x)) && Text(x, "keyword").Some? {
      assert BothSay(x, y, "keyword", Keyword(x));
    }
  }

  lemma MoveMeans(n: Numerics, x: Json, y: Json)
    ensures OperandMove(n, x, y) == if Relaxes(n, x, y) then Additive else Conditional
  {
    hide Exceeds, Greater, Operand, Limits, BoundOf, Keyword, BothSay, Text;
    KeywordSays(x, y);
    LimitsMeans(n, x);
    LimitsMeans(n, y);
    forall v, w | Limits(n, x, v) && Limits(n, y, w)
      ensures Exceeds(n, Operand(n, x).value, Operand(n, y).value) <==> Greater(n, v, w)
      ensures Exceeds(n, Operand(n, y).value, Operand(n, x).value) <==> Greater(n, w, v)
    {
      GreaterMeans(n, v, w);
      GreaterMeans(n, w, v);
    }
    LowerNotUpper(Keyword(x));
    hide Lower, Upper;
  }

  lemma LowerNotUpper(word: string)
    ensures !(Lower(word) && Upper(word))
  {
  }

  lemma ConstraintsMean(n: Numerics, x: Json, y: Json, c: Classification)
    requires c != Patch
    ensures Reaches(CompareLists(Constraints(n), Listed(x, "constraints"), Listed(y, "constraints")), c) <==>
      ConstraintsShow(n, x, y, c)
  {
    hide OperandMove, Relaxes, CompareLists, ListShows, Listed, Items, Severity;
    ItemsAre(x, "constraints");
    ItemsAre(y, "constraints");
    NeverPatch(c);
    forall a, b
      ensures Reaches(Constraints(n).changed(a, b), c) <==> ConstraintShows(n, a, b, c)
    {
      MoveMeans(n, a, b);
    }
    ListMeans(Constraints(n), Items(x, "constraints"), Items(y, "constraints"), c, Reaches(Additive, c),
              _ => Reaches(Conditional, c), (a, b) => ConstraintShows(n, a, b, c));
  }

  // ----- fields

  lemma CountMeans(n: Numerics, field: Json)
    ensures forall count: int :: Enough(n, field, count) <==> EffectiveMultiplicity(n, field).lower <= count
    ensures forall count: int :: NotTooMany(n, field, count) <==>
      (EffectiveMultiplicity(n, field).upper.Some? ==> count <= EffectiveMultiplicity(n, field).upper.value)
  {
    hide AsI64, Exactly;
    if Counted(field) {
      var m := field.Get("multiplicity").value;
      ReadMeans(n, m.Get("lower"));
      ReadMeans(n, m.Get("upper"));
      if AsI64(n, m.Get("lower")).Some? { assert Bounds(n, field, "lower", AsI64(n, m.Get("lower")).value); }
      if AsI64(n, m.Get("upper")).Some? { assert Bounds(n, field, "upper", AsI64(n, m.Get("upper")).value); }
      CountedMultiplicity(n, field);
    } else {
      TextSays(field, "presence");
    }
  }

  lemma CountedMultiplicity(n: Numerics, field: Json)
    requires Counted(field)
    ensures var (a, m) := (EffectiveMultiplicity(n, field), field.Get("multiplicity").value);
      && a.lower == (if AsI64(n, m.Get("lower")).Some? then AsI64(n, m.Get("lower")).value else 0)
      && a.upper == AsI64(n, m.Get("upper"))
  {
    hide AsI64;
  }

  lemma ReadMeans(n: Numerics, v: Option<Json>)
    ensures forall k: int :: AsI64(n, v) == Some(k) <==> v.Some? && Exactly(n, v.value, k)
  {
    if v.Some? { ExactlyMeans(n, v.value); }
  }

  lemma DeclaresMeans(n: Numerics, field: Json)
    ensures EffectiveMultiplicity(n, field).ordered == Declares(field, "ordered")
    ensures EffectiveMultiplicity(n, field).unique == Declares(field, "unique")
  {
    hide AsI64;
    if Counted(field) {
      FlagMarks(field.Get("multiplicity").value, "ordered");
      FlagMarks(field.Get("multiplicity").value, "unique");
    }
  }

  lemma NarrowsMeans(n: Numerics, x: Json, y: Json)
    ensures Narrowed(EffectiveMultiplicity(n, x), EffectiveMultiplicity(n, y)) <==> Narrows(n, x, y)
  {
    hide Enough, NotTooMany, EffectiveMultiplicity;
    CountMeans(n, x);
    CountMeans(n, y);
    var (a, b) := (EffectiveMultiplicity(n, x), EffectiveMultiplicity(n, y));
    if b.lower > a.lower { assert Enough(n, x, a.lower) && !Enough(n, y, a.lower); }
    if b.upper.Some? && (a.upper.None? || b.upper.value < a.upper.value) {
      var next := b.upper.value + 1;
      assert NotTooMany(n, x, next) && !NotTooMany(n, y, next);
    }
  }

  lemma FieldMeans(n: Numerics, d: Document, x: Json, e: Document, y: Json, c: Classification)
    requires c != Patch
    ensures Reaches(CompareField(n, d, x, e, y), c) <==> FieldShows(n, d, x, e, y, c)
  {
    hide EffectiveMultiplicity, Narrows, Reaches, Differ, Join, Narrowed, Declares, SameText, Text, Flag, ResolvedKey,
        Refers,
        Marked;
    NarrowsMeans(n, x, y);
    NarrowsMeans(n, y, x);
    DeclaresMeans(n, x);
    DeclaresMeans(n, y);
    FlagMarks(x, "nullable");
    FlagMarks(y, "nullable");
    TextSame(x, y, "unit");
    RefersIs(d, x, "typeRef");
    RefersIs(e, y, "typeRef");
    var (a, b) := (EffectiveMultiplicity(n, x), EffectiveMultiplicity(n, y));
    IntervalReaches(a, b, c);
    var (p, q) := ((x.Get("name"), ResolvedKey(d, Text(x, "typeRef")), Nullable(x), Text(x, "unit"), a.ordered,
                    a.unique),
                   (y.Get("name"), ResolvedKey(e, Text(y, "typeRef")), Nullable(y), Text(y, "unit"), b.ordered,
                    b.unique));
    var (g, h) := ((x.Get("defaultKind"), x.Get("defaultValue")), (y.Get("defaultKind"), y.Get("defaultValue")));
    DifferReaches(p, q, Breaking, c);
    DifferReaches(g, h, Conditional, c);
    JoinReaches(Interval(a, b), Differ(g, h, Conditional), c);
    JoinReaches(Differ(p, q, Breaking), Join(Interval(a, b), Differ(g, h, Conditional)), c);
    hide Interval;
  }

  lemma IntervalReaches(a: Multiplicity, b: Multiplicity, c: Classification)
    requires c != Patch
    ensures Reaches(Interval(a, b), c) <==>
      (Reaches(Breaking, c) && Narrowed(a, b)) || (Reaches(Additive, c) && !Narrowed(a, b) && Narrowed(b, a))
    ensures Reaches(Additive, c) ==> Reaches(Breaking, c)
  {
  }

  lemma ToleratesMeans(bundle: Json)
    ensures OptionalAddition(bundle) == if Tolerates(bundle) then Additive else Conditional
  {
    if bundle.Get("consumerPolicy").Some? { TextSays(bundle.Get("consumerPolicy").value, "unknownExtensions"); }
    hide Text, Says;
  }

  lemma FieldsMean(n: Numerics, d: Document, x: Json, e: Document, y: Json, c: Classification)
    requires c != Patch
    ensures Reaches(CompareLists(Fields(n, d, e), Listed(x, "fields"), Listed(y, "fields")), c) <==>
      FieldsShow(n, d, x, e, y, c)
  {
    hide CompareLists, ListShows, Listed, Items, Reaches, CompareField, FieldShows, EffectiveMultiplicity, Enough,
        OptionalAddition, Tolerates;
    ItemsAre(x, "fields");
    ItemsAre(y, "fields");
    ToleratesMeans(e.bundle);
    forall f, g ensures Reaches(Fields(n, d, e).changed(f, g), c) <==> FieldShows(n, d, f, e, g, c) {
      FieldMeans(n, d, f, e, g, c);
    }
    forall g ensures Reaches(Fields(n, d, e).added(g), c) <==> FieldGrows(n, e.bundle, g, c) { CountMeans(n, g); }
    ListMeans(Fields(n, d, e), Items(x, "fields"), Items(y, "fields"), c, Reaches(Breaking, c),
              f => FieldGrows(n, e.bundle, f, c), (f, g) => FieldShows(n, d, f, e, g, c));
  }

  // ----- variants, positions, relationships, operations and clauses

  lemma VariantsMean(d: Document, x: Json, e: Document, y: Json, c: Classification)
    requires c != Patch
    ensures Reaches(CompareLists(Variants(d, e), Listed(x, "variants"), Listed(y, "variants")), c) <==>
      VariantsShow(d, x, e, y, c)
  {
    hide CompareLists, ListShows, Listed, Items, Reaches, Differ, ResolvedKey, Refers, Text;
    ItemsAre(x, "variants");
    ItemsAre(y, "variants");
    forall v, w ensures Reaches(Variants(d, e).changed(v, w), c) <==> VariantShows(d, v, e, w, c) {
      RefersIs(d, v, "payloadType");
      RefersIs(e, w, "payloadType");
      DifferReaches((v.Get("name"), ResolvedKey(d, Text(v, "payloadType"))),
                    (w.Get("name"), ResolvedKey(e, Text(w, "payloadType"))), Breaking, c);
    }
    ListMeans(Variants(d, e), Items(x, "variants"), Items(y, "variants"), c, Reaches(Breaking, c),
              _ => Reaches(Conditional, c), (v, w) => VariantShows(d, v, e, w, c));
  }

  lemma PositionsMean(d: Document, x: Json, e: Document, y: Json)
    ensures ComparePositions(d, x, e, y) == if PositionsDiffer(d, x, e, y) then Breaking else Patch
  {
    hide Listed, Items, IdentityOf, Id, ResolvedKey, Refers, Text;
    ItemsAre(x, "positions");
    ItemsAre(y, "positions");
    forall p, q ensures Position(d, p) == Position(e, q) <==> !PositionDiffers(d, p, e, q) {
      IdIs(p);
      IdIs(q);
      RefersIs(d, p, "typeRef");
      RefersIs(e, q, "typeRef");
    }
    hide Position, PositionDiffers;
  }

  lemma PlacedReaches(n: Numerics, x: Json, y: Json, verdict: Classification, c: Classification)
    requires c != Patch
    ensures Reaches(Differ(Written(n, StripOrigin(x)), Written(n, StripOrigin(y)), verdict), c) <==>
      Reaches(verdict, c) && !SameBesidePlace(n, x, y)
  {
    hide Written, StripOrigin, SameBesidePlace, Differ, Reaches;
    PlaceSame(n, x, y);
    DifferReaches(Written(n, StripOrigin(x)), Written(n, StripOrigin(y)), verdict, c);
  }

  lemma RelationshipsMean(n: Numerics, x: Json, y: Json, c: Classification)
    requires c != Patch
    ensures Reaches(CompareLists(Relationships(n), Listed(x, "relationships"), Listed(y, "relationships")), c) <==>
      RelationshipsShow(n, x, y, c)
  {
    hide CompareLists, ListShows, Listed, Items, Reaches, Differ, Written, StripOrigin, SameBesidePlace;
    ItemsAre(x, "relationships");
    ItemsAre(y, "relationships");
    forall r, s
      ensures Reaches(Relationships(n).changed(r, s), c) <==> Reaches(Breaking, c) && !SameBesidePlace(n, r, s)
    {
      PlacedReaches(n, r, s, Breaking, c);
    }
    ListMeans(Relationships(n), Items(x, "relationships"), Items(y, "relationships"), c, Reaches(Breaking, c),
              _ => Reaches(Conditional, c), (r, s) => Reaches(Breaking, c) && !SameBesidePlace(n, r, s));
  }

  lemma ClausesMean(n: Numerics, x: Json, y: Json, c: Classification)
    requires c != Patch
    ensures Reaches(CompareLists(Clauses(n), Listed(x, "clauses"), Listed(y, "clauses")), c) <==>
        ClausesShow(n, x, y, c)
  {
    hide CompareLists, ListShows, Listed, Items, Reaches, Differ, Written, StripOrigin, SameBesidePlace;
    ItemsAre(x, "clauses");
    ItemsAre(y, "clauses");
    forall r, s ensures Reaches(Clauses(n).changed(r, s), c) <==> Reaches(Unknown, c) && !SameBesidePlace(n, r, s) {
      PlacedReaches(n, r, s, Unknown, c);
    }
    ListMeans(Clauses(n), Items(x, "clauses"), Items(y, "clauses"), c, Reaches(Unknown, c),
              _ => Reaches(Unknown, c), (r, s) => Reaches(Unknown, c) && !SameBesidePlace(n, r, s));
  }

  lemma ParamsMean(n: Numerics, d: Document, x: Json, e: Document, y: Json)
    ensures SameParams(n, d, Listed(x, "params"), e, Listed(y, "params")) <==> !ParamsDiffer(n, d, x, e, y)
  {
    hide Listed, Items, IdentityOf, Id, CompareField, FieldShows;
    ItemsAre(x, "params");
    ItemsAre(y, "params");
    forall p, q
      ensures IdentityOf(p) == IdentityOf(q) && CompareField(n, d, p, e, q) == Patch <==> !ParamDiffers(n, d, p, e, q)
    {
      IdIs(p);
      IdIs(q);
      FieldMeans(n, d, p, e, q, Additive);
    }
    hide ParamDiffers;
  }

  lemma OperationMeans(n: Numerics, d: Document, x: Json, e: Document, y: Json, c: Classification)
    requires c != Patch
    ensures Reaches(ChangedOperation(n, d, x, e, y), c) <==> OperationShows(n, d, x, e, y, c)
  {
    hide Listed, SameParams, ParamsDiffer, Differ, Join, Reaches;
    ParamsMean(n, d, x, e, y);
    var s := if SameParams(n, d, Listed(x, "params"), e, Listed(y, "params")) then Patch else Breaking;
    var (p, q) := ((x.Get("name"), Returns(n, x)), (y.Get("name"), Returns(n, y)));
    var (g, h) := ((x.Get("pre"), x.Get("post")), (y.Get("pre"), y.Get("post")));
    NeverPatch(c);
    DifferReaches(p, q, Breaking, c);
    DifferReaches(g, h, Conditional, c);
    JoinReaches(Differ(p, q, Breaking), Differ(g, h, Conditional), c);
    JoinReaches(s, Join(Differ(p, q, Breaking), Differ(g, h, Conditional)), c);
    assert Returns(n, x) == Returns(n, y) <==> SameWritten(n, Result(x), Result(y));
  }

  lemma OperationsMean(n: Numerics, d: Document, x: Json, e: Document, y: Json, c: Classification)
    requires c != Patch
    ensures Reaches(CompareLists(Operations(n, d, e), Listed(x, "operations"), Listed(y, "operations")), c) <==>
      OperationsShow(n, d, x, e, y, c)
  {
    hide CompareLists, ListShows, Listed, Items, Reaches, ChangedOperation, OperationShows;
    ItemsAre(x, "operations");
    ItemsAre(y, "operations");
    forall o, p ensures Reaches(Operations(n, d, e).changed(o, p), c) <==> OperationShows(n, d, o, e, p, c) {
      OperationMeans(n, d, o, e, p, c);
    }
    ListMeans(Operations(n, d, e), Items(x, "operations"), Items(y, "operations"), c, Reaches(Breaking, c),
              _ => Reaches(Conditional, c), (o, p) => OperationShows(n, d, o, e, p, c));
  }

  // ----- extensions, types and documents

  lemma ExtensionMeans(n: Numerics, x: Json, y: Json, c: Classification)
    requires c != Patch
    ensures Reaches(ChangedExtension(n, x, y), c) <==> ExtensionShows(n, x, y, c)
  {
    hide Flag, Marked, Reaches, Differ;
    FlagMarks(x, "required");
    FlagMarks(y, "required");
    DifferReaches(Written(n, x), Written(n, y), Conditional, c);
  }

  lemma ExtensionsMean(n: Numerics, x: Json, y: Json, c: Classification)
    requires c != Patch
    ensures Reaches(CompareLists(Extensions(n), Listed(x, "extensions"), Listed(y, "extensions")), c) <==>
      ExtensionsShow(n, x, y, c)
  {
    hide CompareLists, ListShows, Listed, Items, Reaches, ChangedExtension, ExtensionShows, Flag, Marked;
    ItemsAre(x, "extensions");
    ItemsAre(y, "extensions");
    forall a, b ensures Reaches(Extensions(n).changed(a, b), c) <==> ExtensionShows(n, a, b, c) {
      ExtensionMeans(n, a, b, c);
    }
    forall a
      ensures Reaches(Extensions(n).added(a), c) <==> Reaches(if Marked(a, "required") then Breaking else Additive, c)
    {
      FlagMarks(a, "required");
    }
    ListMeans(Extensions(n), Items(x, "extensions"), Items(y, "extensions"), c, Reaches(Breaking, c),
              a => Reaches(if Marked(a, "required") then Breaking else Additive, c),
              (a, b) => ExtensionShows(n, a, b, c));
  }

  lemma StrictnessMeans(node: Json)
    ensures PolicyRank(node) + 1 == Strictness(node)
  {
    TextSays(node, "unknownPolicy");
    hide Text, Says;
  }

  lemma ReferenceReaches(d: Document, x: Json, e: Document, y: Json, name: string, c: Classification)
    requires c != Patch
    ensures Reaches(Reference(d, x, e, y, name), c) <==>
        Reaches(Breaking, c) && Refers(d, x, name) != Refers(e, y, name)
  {
    hide Text, Refers;
    RefersIs(d, x, name);
    RefersIs(e, y, name);
  }

  lemma HeadMeans(d: Document, x: Json, e: Document, y: Json, c: Classification)
    requires c != Patch
    ensures Reaches(TypeHead(d, x, e, y), c) <==>
      (Reaches(Breaking, c) && HeadBreaks(d, x, e, y)) || (Reaches(Additive, c) && Strictness(y) < Strictness(x))
  {
    hide Reference, Refers, Differ, Join, Reaches, PolicyRank, Strictness;
    StrictnessMeans(x);
    StrictnessMeans(y);
    NeverPatch(c);
    ReferenceReaches(d, x, e, y, "target", c);
    ReferenceReaches(d, x, e, y, "items", c);
    ReferenceReaches(d, x, e, y, "values", c);
    var (t, i, v) := (Reference(d, x, e, y, "target"), Reference(d, x, e, y, "items"), Reference(d, x, e, y, "values"));
    var u := UnknownPolicy(x, y);
    JoinReaches(v, u, c);
    JoinReaches(i, Join(v, u), c);
    JoinReaches(t, Join(i, Join(v, u)), c);
    var (p, q) := ((x.Get("kind"), x.Get("scalar")), (y.Get("kind"), y.Get("scalar")));
    DifferReaches(p, q, Breaking, c);
    JoinReaches(Differ(p, q, Breaking), Join(t, Join(i, Join(v, u))), c);
  }

  lemma TypeMeans(n: Numerics, d: Document, x: Json, e: Document, y: Json, c: Classification)
    requires c != Patch
    ensures Reaches(CompareType(n, d, x, e, y), c) <==> TypeShows(n, d, x, e, y, c)
  {
    HeadMeans(d, x, e, y, c);
    ConstraintsMean(n, x, y, c);
    FieldsMean(n, d, x, e, y, c);
    VariantsMean(d, x, e, y, c);
    PositionsMean(d, x, e, y);
    RelationshipsMean(n, x, y, c);
    OperationsMean(n, d, x, e, y, c);
    ClausesMean(n, x, y, c);
    NeverPatch(c);
    hide TypeHead, HeadBreaks, CompareLists, ComparePositions, Constraints, Fields, Variants, Relationships, Operations,
        Clauses, Listed, Join, Reaches, ConstraintsShow, FieldsShow, VariantsShow, PositionsDiffer, RelationshipsShow,
        OperationsShow, ClausesShow, Strictness;
    var head, p := TypeHead(d, x, e, y), ComparePositions(d, x, e, y);
    var k := CompareLists(Constraints(n), Listed(x, "constraints"), Listed(y, "constraints"));
    var f := CompareLists(Fields(n, d, e), Listed(x, "fields"), Listed(y, "fields"));
    var v := CompareLists(Variants(d, e), Listed(x, "variants"), Listed(y, "variants"));
    var r := CompareLists(Relationships(n), Listed(x, "relationships"), Listed(y, "relationships"));
    var o := CompareLists(Operations(n, d, e), Listed(x, "operations"), Listed(y, "operations"));
    var l := CompareLists(Clauses(n), Listed(x, "clauses"), Listed(y, "clauses"));
    JoinReaches(o, l, c);
    JoinReaches(r, Join(o, l), c);
    JoinReaches(p, Join(r, Join(o, l)), c);
    JoinReaches(v, Join(p, Join(r, Join(o, l))), c);
    JoinReaches(f, Join(v, Join(p, Join(r, Join(o, l)))), c);
    JoinReaches(k, Join(f, Join(v, Join(p, Join(r, Join(o, l))))), c);
    JoinReaches(head, TypeLists(n, d, x, e, y), c);
  }

  lemma UnstatedCons(nodes: seq<Json>, identity: string)
    requires nodes != []
    ensures Unstated(identity, nodes) <==> !Says(nodes[0], "identity", identity) && Unstated(identity, nodes[1..])
  {
    hide Says;
    if !Says(nodes[0], "identity", identity) && Unstated(identity, nodes[1..]) {
      forall i | 0 <= i < |nodes| ensures !Says(nodes[i], "identity", identity) {
        if i > 0 { assert nodes[1..][i - 1] == nodes[i]; }
      }
    }
  }

  lemma NamesakeCons(nodes: seq<Json>, identity: string, y: Json)
    requires nodes != []
    ensures Namesake(identity, nodes, y) <==>
      if Says(nodes[0], "identity", identity) then y == nodes[0] else Namesake(identity, nodes[1..], y)
  {
    hide Says;
    var rest := nodes[1..];
    if Namesake(identity, nodes, y) {
      var i :| 0 <= i < |nodes| && nodes[i] == y && Says(y, "identity", identity) && Unstated(identity, nodes[..i]);
      if i > 0 {
        assert nodes[..i][0] == nodes[0];
        var k := i - 1;
        assert rest[k] == y && rest[..k] == nodes[..i][1..];
        UnstatedCons(nodes[..i], identity);
      }
    }
    if Says(nodes[0], "identity", identity) {
      assert Unstated(identity, nodes[..0]);
    } else if Namesake(identity, rest, y) {
      var k :| 0 <= k < |rest| && rest[k] == y && Says(y, "identity", identity) && Unstated(identity, rest[..k]);
      var i := k + 1;
      assert nodes[i] == y && nodes[..i][1..] == rest[..k];
      UnstatedCons(nodes[..i], identity);
    }
  }

  lemma StatedId(node: Json, identity: string)
    ensures Text(node, "identity").Some? ==> (IdentityOf(node) == identity <==> Says(node, "identity", identity))
    ensures Text(node, "identity").None? ==> !Says(node, "identity", identity)
  {
  }

  lemma {:induction false} NamesakeFound(nodes: seq<Json>, identity: string)
    ensures FindNode(Named(nodes), identity).None? <==> Unstated(identity, nodes)
    ensures forall y :: FindNode(Named(nodes), identity) == Some(y) <==> Namesake(identity, nodes, y)
  {
    hide Says, IdentityOf, Text;
    if nodes != [] {
      NamesakeFound(nodes[1..], identity);
      StatedId(nodes[0], identity);
      UnstatedCons(nodes, identity);
      forall y ensures Namesake(identity, nodes, y) <==>
          if Says(nodes[0], "identity", identity) then y == nodes[0] else Namesake(identity, nodes[1..], y)
      {
        NamesakeCons(nodes, identity, y);
      }
      NamedCons(nodes, identity);
    }
  }

  lemma NamedCons(nodes: seq<Json>, identity: string)
    requires nodes != []
    ensures FindNode(Named(nodes), identity) ==
      if Text(nodes[0], "identity").Some? && IdentityOf(nodes[0]) == identity then Some(nodes[0])
      else FindNode(Named(nodes[1..]), identity)
  {
    hide IdentityOf, Text;
    if Text(nodes[0], "identity").Some? {
      assert Named(nodes) == [nodes[0]] + Named(nodes[1..]);
      assert Named(nodes)[0] == nodes[0] && Named(nodes)[1..] == Named(nodes[1..]);
    } else {
      assert Named(nodes) == Named(nodes[1..]);
    }
  }

  lemma {:induction false} NamedAre(nodes: seq<Json>, x: Json)
    ensures x in Named(nodes) <==> x in nodes && Text(x, "identity").Some?
  {
    hide Text;
    if nodes != [] {
      NamedAre(nodes[1..], x);
      assert nodes == [nodes[0]] + nodes[1..];
    }
  }

  lemma TypesMean(n: Numerics, d: Document, e: Document, c: Classification)
    requires c != Patch
    ensures Reaches(CompareLists(Types(n, d, e), Named(Listed(d.ir, "types")), Named(Listed(e.ir, "types"))), c) <==>
      TypesShow(n, d, e, c)
  {
    var (a, b) := (Items(d.ir, "types"), Items(e.ir, "types"));
    ItemsAre(d.ir, "types");
    ItemsAre(e.ir, "types");
    hide CompareLists, Listed, Items, Reaches, CompareType, TypeShows, Text, Says, Id, Absent, Counterpart, Unstated,
        Namesake;
    forall x, y ensures Reaches(Types(n, d, e).changed(x, y), c) <==> TypeShows(n, d, x, e, y, c) {
      TypeMeans(n, d, x, e, y, c);
    }
    NeverPatch(c);
    ListMeans(Types(n, d, e), Named(a), Named(b), c, Reaches(Breaking, c), _ => false,
              (x, y) => TypeShows(n, d, x, e, y, c));
    forall x ensures x in Named(a) <==> x in a && exists t :: Says(x, "identity", t) {
      NamedAre(a, x);
      TextSays(x, "identity");
    }
    forall x, t | Says(x, "identity", t)
      ensures Id(x) == t && (Absent(t, Named(b)) <==> Unstated(t, b))
      ensures forall y :: Counterpart(t, Named(b), y) <==> Namesake(t, b, y)
    {
      SaysId(x, t);
      NamesakeFound(b, t);
      FoundMeans(Named(b), t);
    }
  }

  lemma SaysId(x: Json, t: string)
    requires Says(x, "identity", t)
    ensures Id(x) == t
  {
  }

  /** The comparison of two documents reaches a class exactly when they show a reason of
      that class or of a stricter one. */
  lemma ReasonsMean(n: Numerics, d: Document, e: Document, c: Classification)
    requires c != Patch
    ensures Reaches(CompareDocuments(n, d, e), c) <==> Shows(n, d, e, c)
  {
    hide CompareLists, Listed, Named, Extensions, Types, Differ, Join, Reaches, ExtensionsShow, TypesShow;
    var v := Differ(d.ir.Get("contractVersion"), e.ir.Get("contractVersion"), Conditional);
    var x := CompareLists(Extensions(n), Listed(d.ir, "extensions"), Listed(e.ir, "extensions"));
    var t := CompareLists(Types(n, d, e), Named(Listed(d.ir, "types")), Named(Listed(e.ir, "types")));
    DifferReaches(d.ir.Get("contractVersion"), e.ir.Get("contractVersion"), Conditional, c);
    ExtensionsMean(n, d.ir, e.ir, c);
    TypesMean(n, d, e, c);
    JoinReaches(x, t, c);
    JoinReaches(v, Join(x, t), c);
  }

  lemma NothingInvalid(n: Numerics, d: Document, e: Document)
    ensures !Reaches(CompareDocuments(n, d, e), Invalid)
  {
    hide CompareLists, Listed, Named, Extensions, Differ, Join, Reaches, CompatLaws.Mild, CompareType;
    var v := Differ(d.ir.Get("contractVersion"), e.ir.Get("contractVersion"), Conditional);
    var x := CompareLists(Extensions(n), Listed(d.ir, "extensions"), Listed(e.ir, "extensions"));
    var t := CompareLists(Types(n, d, e), Named(Listed(d.ir, "types")), Named(Listed(e.ir, "types")));
    CompatLaws.MildPolicies(n, d, e);
    MildTypes(n, d, e);
    CompatLaws.MildList(Extensions(n), Listed(d.ir, "extensions"), Listed(e.ir, "extensions"));
    CompatLaws.MildList(Types(n, d, e), Named(Listed(d.ir, "types")), Named(Listed(e.ir, "types")));
    DifferReaches(d.ir.Get("contractVersion"), e.ir.Get("contractVersion"), Conditional, Invalid);
    forall k ensures Reaches(k, Invalid) <==> !CompatLaws.AtMost(k, Breaking) { BelowMeans(k, Invalid); }
    NotInvalid();
    JoinReaches(x, t, Invalid);
    JoinReaches(v, Join(x, t), Invalid);
  }

  lemma NotInvalid()
    ensures !Reaches(Conditional, Invalid)
  {
  }

  lemma MildTypes(n: Numerics, d: Document, e: Document)
    ensures CompatLaws.Mild(Types(n, d, e))
  {
    hide CompareType;
    forall x, y ensures CompatLaws.AtMost(CompareType(n, d, x, e, y), Breaking) {
      CompatLaws.TypeAtMostBreaking(n, d, x, e, y);
    }
  }

  /** The most restrictive class the documents show a reason of. */
  ghost function Strictest(n: Numerics, d: Document, e: Document): Classification {
    if Shows(n, d, e, Breaking) then Breaking
    else if Shows(n, d, e, Unknown) then Unknown
    else if Shows(n, d, e, Conditional) then Conditional
    else if Shows(n, d, e, Additive) then Additive
    else Patch
  }

  /** The verdict on two bundles: invalid when one of them is or carries no IR, and the most
      restrictive class they show a reason of otherwise. */
  lemma VerdictMeans(n: Numerics, before: Json, beforeValid: bool, beforeKey: string -> string,
                     after: Json, afterValid: bool, afterKey: string -> string)
    ensures Classify(n, Reading(before, beforeValid, beforeKey), Reading(after, afterValid, afterKey)) ==
      if beforeValid && afterValid && before.Get("ir").Some? && after.Get("ir").Some?
      then Strictest(n, Document(before, before.Get("ir").value, beforeKey),
                     Document(after, after.Get("ir").value, afterKey))
      else Invalid
  {
    hide CompareDocuments, Shows;
    if beforeValid && afterValid && before.Get("ir").Some? && after.Get("ir").Some? {
      var d := Document(before, before.Get("ir").value, beforeKey);
      var e := Document(after, after.Get("ir").value, afterKey);
      ReasonsMean(n, d, e, Additive);
      ReasonsMean(n, d, e, Conditional);
      ReasonsMean(n, d, e, Unknown);
      ReasonsMean(n, d, e, Breaking);
      ReasonsMean(n, d, e, Invalid);
      NothingInvalid(n, d, e);
    }
  }
}
