/** The compatibility classifier over the IR surface: the most restrictive of many
    per-member comparisons. */
module Compat {
  import opened Wrappers
  import opened Json
  import Canonical
  import Numbers

  datatype Classification = Patch | Additive | Conditional | Unknown | Breaking | Invalid {
    /** The declared order, least restrictive first. */
    function Rank(): nat {
      match this
      case Patch => 0
      case Additive => 1
      case Conditional => 2
      case Unknown => 3
      case Breaking => 4
      case Invalid => 5
    }
  }

  function Join(a: Classification, b: Classification): Classification {
    if b.Rank() > a.Rank() then b else a
  }

  /** Breaking when two readings of one member differ. */
  function Differ<T(==)>(a: T, b: T, verdict: Classification): Classification {
    if a == b then Patch else verdict
  }

  // ----- what a comparison reads

  /** How the classifier reads numbers: the writer's decoder, the finite value of
      a lexeme, and the rounding of an integer to binary64. */
  datatype Numerics = Numerics(decoder: Canonical.Decoder, value: string -> Option<real>, round: int -> real)

  /** A document as the classifier reads it: its bundle, its IR, and the identity
      each reference resolves to through aliases. */
  datatype Document = Document(bundle: Json, ir: Json, key: string -> string)

  function Read(bundle: Json, key: string -> string): Option<Document> {
    match bundle.Get("ir")
    case None => None
    case Some(ir) => Some(Document(bundle, ir, key))
  }

  /** A bundle the document layer accepted, as the classifier reads it. */
  function Reading(bundle: Json, valid: bool, key: string -> string): Option<Document> {
    if valid then Read(bundle, key) else None
  }

  function Text(node: Json, name: string): Option<string> {
    match node.Get(name)
    case None => None
    case Some(v) => v.AsStr()
  }

  function Flag(node: Json, name: string): Option<bool> {
    match node.Get(name)
    case None => None
    case Some(v) => v.AsBool()
  }

  /** The array named `name`, or nothing. */
  function Listed(node: Json, name: string): seq<Json> {
    match node.Get(name)
    case Some(Array(items)) => items
    case _ => []
  }

  function IdentityOf(node: Json): string {
    match Text(node, "identity")
    case None => ""
    case Some(text) => text
  }

  /** The type definitions that carry an identity. */
  function Named(types: seq<Json>): seq<Json> {
    if types == [] then []
    else (if Text(types[0], "identity").Some? then [types[0]] else []) + Named(types[1..])
  }

  function ResolvedKey(d: Document, reference: Option<string>): string {
    match reference
    case None => ""
    case Some(identity) => d.key(identity)
  }

  // ----- lists keyed by identity

  /** The first node of a given identity. */
  function FindNode(nodes: seq<Json>, identity: string): (found: Option<Json>)
    ensures found.Some? ==> found.value in nodes && IdentityOf(found.value) == identity
    ensures found.None? ==> forall i :: 0 <= i < |nodes| ==> IdentityOf(nodes[i]) != identity
  {
    if nodes == [] then None
    else if IdentityOf(nodes[0]) == identity then Some(nodes[0])
    else FindNode(nodes[1..], identity)
  }

  /** How one list is compared: what a removal costs, what an addition costs and
      what a change from one node to another costs. */
  datatype Policy = Policy(removed: Classification, added: Json -> Classification,
                           changed: (Json, Json) -> Classification)

  function Before(p: Policy, x: Json, after: seq<Json>): Classification {
    match FindNode(after, IdentityOf(x))
    case None => p.removed
    case Some(y) => p.changed(x, y)
  }

  function After(p: Policy, y: Json, before: seq<Json>): Classification {
    if FindNode(before, IdentityOf(y)).Some? then Patch else p.added(y)
  }

  function Earlier(p: Policy, before: seq<Json>, after: seq<Json>): Classification {
    if before == [] then Patch
      else Join(Earlier(p, before[..|before| - 1], after), Before(p, before[|before| - 1], after))
  }

  function Later(p: Policy, before: seq<Json>, after: seq<Json>): Classification {
    if after == [] then Patch else Join(Later(p, before, after[..|after| - 1]), After(p, after[|after| - 1], before))
  }

  function CompareLists(p: Policy, before: seq<Json>, after: seq<Json>): Classification {
    Join(Earlier(p, before, after), Later(p, before, after))
  }

  // ----- constraints

  datatype Bound = Integer(value: int) | Float(approximate: real)

  predicate CanonicalDecimal(text: string) {
    var digits := if |text| > 0 && text[0] == '-' then text[1..] else text;
    && |digits| > 0 && Numbers.AllDigits(digits)
    && (digits[0] != '0' || text == "0")
  }

  function DecimalValue(text: string): int
    requires CanonicalDecimal(text)
  {
    if text[0] == '-' then -(Numbers.NatOf(text[1..]) as int) else Numbers.NatOf(text)
  }

  const I128_BOUND: int := 0x8000_0000_0000_0000_0000_0000_0000_0000
  const EXACT_BOUND: real := 9007199254740992.0

  /** A constraint operand read as a number: a canonical decimal string that fits
      128 bits, an exactly integral number, or a float. */
  function BoundOf(n: Numerics, v: Json): Option<Bound> {
    match v
    case Str(text) =>
      if CanonicalDecimal(text) && -I128_BOUND <= DecimalValue(text) < I128_BOUND then Some(Integer(DecimalValue(text)))
        else None
    case Number(lexeme) => (
      match n.value(lexeme)
      case None => None
      case Some(r) =>
        if r == r.Floor as real && -EXACT_BOUND < r < EXACT_BOUND then Some(Integer(r.Floor)) else Some(Float(r))
    )
    case _ => None
  }

  function FloatOf(n: Numerics, b: Bound): real {
    match b
    case Integer(value) => n.round(value)
    case Float(r) => r
  }

  predicate Exceeds(n: Numerics, a: Bound, b: Bound) {
    if a.Integer? && b.Integer? then a.value > b.value else FloatOf(n, a) > FloatOf(n, b)
  }

  function Operand(n: Numerics, constraint: Json): Option<Bound> {
    match constraint.Get("operands")
    case None => None
    case Some(operands) =>
      match operands.Get("value")
      case None => None
      case Some(v) => BoundOf(n, v)
  }

  predicate Lower(keyword: string) { keyword == "min" || keyword == "minLength" || keyword == "exclusiveMin" }
  predicate Upper(keyword: string) { keyword == "max" || keyword == "maxLength" || keyword == "exclusiveMax" }

  function Keyword(constraint: Json): string {
    match Text(constraint, "keyword")
    case None => ""
    case Some(keyword) => keyword
  }

  function OperandMove(n: Numerics, earlier: Json, later: Json): Classification {
    var keyword := Keyword(earlier);
    if Text(later, "keyword") != Some(keyword) then Conditional
    else
      match (Operand(n, earlier), Operand(n, later))
      case (Some(before), Some(after)) =>
        if Lower(keyword) then (if Exceeds(n, after, before) then Conditional else Additive)
        else if Upper(keyword) then (if Exceeds(n, before, after) then Conditional else Additive)
        else Conditional
      case _ => Conditional
  }

  function Written(n: Numerics, v: Json): string { Canonical.CanonicalText(n.decoder, v) }

  function ChangedConstraint(n: Numerics, earlier: Json, later: Json): Classification {
    if Written(n, earlier) == Written(n, later) then Patch else OperandMove(n, earlier, later)
  }

  function Constraints(n: Numerics): Policy {
    Policy(Additive, _ => Conditional, (x, y) => ChangedConstraint(n, x, y))
  }

  // ----- fields

  datatype Multiplicity = Multiplicity(lower: int, upper: Option<int>, ordered: bool, unique: bool)

  /** The value of a number that is an exact integer below 2^53. */
  function AsI64(n: Numerics, v: Option<Json>): Option<int> {
    match v
    case Some(Number(lexeme)) => (
      match n.value(lexeme)
      case Some(r) => if r == r.Floor as real && -EXACT_BOUND < r < EXACT_BOUND then Some(r.Floor) else None
      case None => None
    )
    case _ => None
  }

  /** The declared multiplicity, or the one `presence` stands for. */
  function EffectiveMultiplicity(n: Numerics, field: Json): Multiplicity {
    match field.Get("multiplicity")
    case Some(Object(members)) =>
      var m := Object(members);
      Multiplicity(match AsI64(n, m.Get("lower")) case Some(lower) => lower case None => 0,
                   AsI64(n, m.Get("upper")), Flag(m, "ordered") == Some(true), Flag(m, "unique") == Some(true))
    case _ => Multiplicity(if Text(field, "presence") == Some("required") then 1 else 0, Some(1), false, false)
  }

  predicate Narrowed(a: Multiplicity, b: Multiplicity) {
    b.lower > a.lower || (b.upper.Some? && (a.upper.None? || b.upper.value < a.upper.value))
  }

  function Interval(a: Multiplicity, b: Multiplicity): Classification {
    if Narrowed(a, b) then Breaking else if Narrowed(b, a) then Additive else Patch
  }

  function Nullable(field: Json): bool { Flag(field, "nullable") == Some(true) }

  function CompareField(n: Numerics, before: Document, earlier: Json, after: Document, later: Json): Classification {
    var a, b := EffectiveMultiplicity(n, earlier), EffectiveMultiplicity(n, later);
    Join(Differ((earlier.Get("name"), ResolvedKey(before, Text(earlier, "typeRef")), Nullable(earlier),
                 Text(earlier, "unit"), a.ordered, a.unique),
                (later.Get("name"), ResolvedKey(after, Text(later, "typeRef")), Nullable(later), Text(later, "unit"),
                 b.ordered, b.unique), Breaking),
    Join(Interval(a, b),
         Differ((earlier.Get("defaultKind"), earlier.Get("defaultValue")),
                (later.Get("defaultKind"), later.Get("defaultValue")), Conditional)))
  }

  /** An optional field is tolerated only by a consumer policy that keeps or surfaces it. */
  function OptionalAddition(bundle: Json): Classification {
    match bundle.Get("consumerPolicy")
    case None => Conditional
    case Some(policy) =>
      var unknown := Text(policy, "unknownExtensions");
      if unknown == Some("preserve") || unknown == Some("surface") then Additive else Conditional
  }

  function AddedField(n: Numerics, bundle: Json, field: Json): Classification {
    if EffectiveMultiplicity(n, field).lower >= 1 then Breaking else OptionalAddition(bundle)
  }

  function Fields(n: Numerics, before: Document, after: Document): Policy {
    Policy(Breaking, y => AddedField(n, after.bundle, y), (x, y) => CompareField(n, before, x, after, y))
  }

  // ----- variants, positions, relationships, operations, clauses, extensions

  function ChangedVariant(before: Document, x: Json, after: Document, y: Json): Classification {
    Differ((x.Get("name"), ResolvedKey(before, Text(x, "payloadType"))),
           (y.Get("name"), ResolvedKey(after, Text(y, "payloadType"))), Breaking)
  }

  function Variants(before: Document, after: Document): Policy {
    Policy(Breaking, _ => Conditional, (x, y) => ChangedVariant(before, x, after, y))
  }

  function Position(d: Document, p: Json): (string, string) { (IdentityOf(p), ResolvedKey(d, Text(p, "typeRef"))) }

  predicate SamePositions(before: Document, xs: seq<Json>, after: Document, ys: seq<Json>) {
    |xs| == |ys| && forall i :: 0 <= i < |xs| ==> Position(before, xs[i]) == Position(after, ys[i])
  }

  function ComparePositions(before: Document, earlier: Json, after: Document, later: Json): Classification {
    if SamePositions(before, Listed(earlier, "positions"), after, Listed(later, "positions")) then Patch else Breaking
  }

  function StripOrigin(node: Json): Json {
    match node
    case Object(members) => Object(WithoutOrigin(members))
    case _ => node
  }

  function WithoutOrigin(members: seq<(string, Json)>): seq<(string, Json)> {
    if members == [] then []
    else (if members[0].0 == "origin" then [] else [members[0]]) + WithoutOrigin(members[1..])
  }

  function Relationships(n: Numerics): Policy {
    Policy(Breaking, _ => Conditional,
           (x, y) => Differ(Written(n, StripOrigin(x)), Written(n, StripOrigin(y)), Breaking))
  }

  predicate SameParams(n: Numerics, before: Document, xs: seq<Json>, after: Document, ys: seq<Json>) {
    && |xs| == |ys|
    && forall i :: 0 <= i < |xs| ==>
        IdentityOf(xs[i]) == IdentityOf(ys[i]) && CompareField(n, before, xs[i], after, ys[i]) == Patch
  }

  function Returns(n: Numerics, operation: Json): string {
    Written(n, match operation.Get("returns") case None => Null case Some(v) => v)
  }

  function ChangedOperation(n: Numerics, before: Document, x: Json, after: Document, y: Json): Classification {
    Join(if SameParams(n, before, Listed(x, "params"), after, Listed(y, "params")) then Patch else Breaking,
    Join(Differ((x.Get("name"), Returns(n, x)), (y.Get("name"), Returns(n, y)), Breaking),
         Differ((x.Get("pre"), x.Get("post")), (y.Get("pre"), y.Get("post")), Conditional)))
  }

  function Operations(n: Numerics, before: Document, after: Document): Policy {
    Policy(Breaking, _ => Conditional, (x, y) => ChangedOperation(n, before, x, after, y))
  }

  function Clauses(n: Numerics): Policy {
    Policy(Unknown, _ => Unknown, (x, y) => Differ(Written(n, StripOrigin(x)), Written(n, StripOrigin(y)), Unknown))
  }

  predicate IsRequired(extension: Json) { Flag(extension, "required") == Some(true) }

  function ChangedExtension(n: Numerics, x: Json, y: Json): Classification {
    if !IsRequired(x) && IsRequired(y) then Breaking
    else if IsRequired(x) && !IsRequired(y) then Additive
    else Differ(Written(n, x), Written(n, y), Conditional)
  }

  function Extensions(n: Numerics): Policy {
    Policy(Breaking, y => if IsRequired(y) then Breaking else Additive, (x, y) => ChangedExtension(n, x, y))
  }

  // ----- types and documents

  function PolicyRank(node: Json): int {
    match Text(node, "unknownPolicy")
    case Some("preserve") => 0
    case Some("surface") => 1
    case Some("reject") => 2
    case _ => -1
  }

  function UnknownPolicy(x: Json, y: Json): Classification {
    if PolicyRank(y) > PolicyRank(x) then Breaking else if PolicyRank(y) < PolicyRank(x) then Additive else Patch
  }

  /** The reference members: absent on both sides, they are not compared. */
  function Reference(before: Document, x: Json, after: Document, y: Json, member: string): Classification {
    var a, b := Text(x, member), Text(y, member);
    if a.None? && b.None? then Patch else Differ(ResolvedKey(before, a), ResolvedKey(after, b), Breaking)
  }

  function TypeHead(before: Document, x: Json, after: Document, y: Json): Classification {
    Join(Differ((x.Get("kind"), x.Get("scalar")), (y.Get("kind"), y.Get("scalar")), Breaking),
    Join(Reference(before, x, after, y, "target"),
    Join(Reference(before, x, after, y, "items"),
    Join(Reference(before, x, after, y, "values"), UnknownPolicy(x, y)))))
  }

  function TypeLists(n: Numerics, before: Document, x: Json, after: Document, y: Json): Classification {
    Join(CompareLists(Constraints(n), Listed(x, "constraints"), Listed(y, "constraints")),
    Join(CompareLists(Fields(n, before, after), Listed(x, "fields"), Listed(y, "fields")),
    Join(CompareLists(Variants(before, after), Listed(x, "variants"), Listed(y, "variants")),
    Join(ComparePositions(before, x, after, y),
    Join(CompareLists(Relationships(n), Listed(x, "relationships"), Listed(y, "relationships")),
    Join(CompareLists(Operations(n, before, after), Listed(x, "operations"), Listed(y, "operations")),
         CompareLists(Clauses(n), Listed(x, "clauses"), Listed(y, "clauses"))))))))
  }

  function CompareType(n: Numerics, before: Document, x: Json, after: Document, y: Json): Classification {
    Join(TypeHead(before, x, after, y), TypeLists(n, before, x, after, y))
  }

  function Types(n: Numerics, before: Document, after: Document): Policy {
    Policy(Breaking, _ => Patch, (x, y) => CompareType(n, before, x, after, y))
  }

  function CompareDocuments(n: Numerics, before: Document, after: Document): Classification {
    Join(Differ(before.ir.Get("contractVersion"), after.ir.Get("contractVersion"), Conditional),
    Join(CompareLists(Extensions(n), Listed(before.ir, "extensions"), Listed(after.ir, "extensions")),
         CompareLists(Types(n, before, after), Named(Listed(before.ir, "types")), Named(Listed(after.ir, "types")))))
  }

  /** The verdict on a pair, one of which may be invalid or carry no IR. */
  function Classify(n: Numerics, before: Option<Document>, after: Option<Document>): Classification {
    if before.None? || after.None? then Invalid else CompareDocuments(n, before.value, after.value)
  }

  // ----- the classifier

  class Report {
    var worst: Classification

    constructor ()
      ensures worst == Patch
    {
      worst := Patch;
    }

    method Note(classification: Classification)
      modifies this
      ensures worst == Join(old(worst), classification)
    {
      if classification.Rank() > worst.Rank() {
        worst := classification;
      }
    }

    /** Compares two lists node by node: what is gone or changed, then what is new. */
    method Compare(p: Policy, before: seq<Json>, after: seq<Json>)
      modifies this
      ensures worst == Join(old(worst), CompareLists(p, before, after))
    {
      hide Join, Classification.Rank, IdentityOf;
      ghost var o, e := worst, Earlier(p, before, after);
      JoinIdentity(o);
      for i := 0 to |before|
        invariant worst == Join(o, Earlier(p, before[..i], after))
      {
        EarlierStep(p, before, after, i);
        JoinAssociative(o, Earlier(p, before[..i], after), Before(p, before[i], after));
        match FindNode(after, IdentityOf(before[i]))
        case None => Note(p.removed);
        case Some(other) => Note(p.changed(before[i], other));
      }
      assert before[..|before|] == before;
      JoinIdentity(worst);
      for i := 0 to |after|
        invariant worst == Join(Join(o, e), Later(p, before, after[..i]))
      {
        LaterStep(p, before, after, i);
        JoinAssociative(Join(o, e), Later(p, before, after[..i]), After(p, after[i], before));
        JoinIdentity(worst);
        if FindNode(before, IdentityOf(after[i])).None? {
          Note(p.added(after[i]));
        }
      }
      assert after[..|after|] == after;
      JoinAssociative(o, e, Later(p, before, after));
    }
  }

  lemma JoinAssociative(a: Classification, b: Classification, c: Classification)
    ensures Join(Join(a, b), c) == Join(a, Join(b, c))
  {
  }

  lemma JoinChain(o: Classification, a: Classification, b: Classification, c: Classification, d: Classification)
    ensures Join(Join(Join(Join(o, a), b), c), d) == Join(o, Join(a, Join(b, Join(c, d))))
  {
    hide Join;
    JoinAssociative(Join(Join(o, a), b), c, d);
    JoinAssociative(Join(o, a), b, Join(c, d));
    JoinAssociative(o, a, Join(b, Join(c, d)));
  }

  method CompareTypeInto(n: Numerics, before: Document, x: Json, after: Document, y: Json, report: Report)
    modifies report
    ensures report.worst == Join(old(report.worst), CompareType(n, before, x, after, y))
  {
    hide Join, CompareLists, TypeHead, ComparePositions, Constraints, Fields, Variants, Relationships, Operations,
        Clauses, Listed;
    ghost var o := report.worst;
    report.Note(TypeHead(before, x, after, y));
    report.Compare(Constraints(n), Listed(x, "constraints"), Listed(y, "constraints"));
    report.Compare(Fields(n, before, after), Listed(x, "fields"), Listed(y, "fields"));
    report.Compare(Variants(before, after), Listed(x, "variants"), Listed(y, "variants"));
    ghost var middle := report.worst;
    report.Note(ComparePositions(before, x, after, y));
    report.Compare(Relationships(n), Listed(x, "relationships"), Listed(y, "relationships"));
    report.Compare(Operations(n, before, after), Listed(x, "operations"), Listed(y, "operations"));
    report.Compare(Clauses(n), Listed(x, "clauses"), Listed(y, "clauses"));
    ghost var (c, f, v) := (CompareLists(Constraints(n), Listed(x, "constraints"), Listed(y, "constraints")),
                            CompareLists(Fields(n, before, after), Listed(x, "fields"), Listed(y, "fields")),
                            CompareLists(Variants(before, after), Listed(x, "variants"), Listed(y, "variants")));
    ghost var head, p := TypeHead(before, x, after, y), ComparePositions(before, x, after, y);
    ghost var r := CompareLists(Relationships(n), Listed(x, "relationships"), Listed(y, "relationships"));
    ghost var m := CompareLists(Operations(n, before, after), Listed(x, "operations"), Listed(y, "operations"));
    ghost var l := CompareLists(Clauses(n), Listed(x, "clauses"), Listed(y, "clauses"));
    JoinChain(middle, p, r, m, l);
    ghost var tail := Join(p, Join(r, Join(m, l)));
    JoinChain(Join(o, head), c, f, v, tail);
    JoinAssociative(o, head, Join(c, Join(f, Join(v, tail))));
  }

  /** A type only the later document defines costs nothing. */
  lemma {:induction false} NewTypes(n: Numerics, before: Document, after: Document, earlier: seq<Json>,
                                    later: seq<Json>)
    ensures Later(Types(n, before, after), earlier, later) == Patch
    decreases |later|
  {
    if later != [] { NewTypes(n, before, after, earlier, later[..|later| - 1]); }
  }

  lemma EarlierStep(p: Policy, before: seq<Json>, after: seq<Json>, i: nat)
    requires i < |before|
    ensures Earlier(p, before[..i + 1], after) == Join(Earlier(p, before[..i], after), Before(p, before[i], after))
  {
    assert before[..i + 1][..i] == before[..i];
  }

  lemma LaterStep(p: Policy, before: seq<Json>, after: seq<Json>, i: nat)
    requires i < |after|
    ensures Later(p, before, after[..i + 1]) == Join(Later(p, before, after[..i]), After(p, after[i], before))
  {
    assert after[..i + 1][..i] == after[..i];
  }

  /** Every type of the earlier document against its namesake. */
  method CompareTypes(n: Numerics, before: Document, after: Document, earlier: seq<Json>, later: seq<Json>,
                      report: Report)
    modifies report
    ensures report.worst == Join(old(report.worst), CompareLists(Types(n, before, after), earlier, later))
  {
    hide Join, TypeHead, TypeLists;
    ghost var o := report.worst;
    ghost var p := Types(n, before, after);
    JoinIdentity(o);
    for i := 0 to |earlier|
      invariant report.worst == Join(o, Earlier(p, earlier[..i], later))
    {
      match FindNode(later, IdentityOf(earlier[i])) {
        case None => report.Note(Breaking);
        case Some(other) => CompareTypeInto(n, before, earlier[i], after, other, report);
      }
      EarlierStep(p, earlier, later, i);
      JoinAssociative(o, Earlier(p, earlier[..i], later), Before(p, earlier[i], later));
    }
    assert earlier[..|earlier|] == earlier;
    NewTypes(n, before, after, earlier, later);
    JoinIdentity(Earlier(p, earlier, later));
  }

  lemma JoinIdentity(a: Classification)
    ensures Join(a, Patch) == a && Join(Patch, a) == a
  {
  }

  /** The verdict on a pair of bundles, one of which may be invalid or carry no IR. */
  method ClassifyPair(n: Numerics, before: Json, beforeValid: bool, beforeKey: string -> string,
                      after: Json, afterValid: bool, afterKey: string -> string)
    returns (worst: Classification)
    ensures worst == Classify(n, Reading(before, beforeValid, beforeKey), Reading(after, afterValid, afterKey))
  {
    if !beforeValid || !afterValid {
      return Invalid;
    }
    match (Read(before, beforeKey), Read(after, afterKey))
    case (Some(b), Some(a)) => worst := ClassifyDocuments(n, b, a);
    case _ => return Invalid;
  }

  /** The verdict of the document pair, type by type. */
  method ClassifyDocuments(n: Numerics, b: Document, a: Document) returns (worst: Classification)
    ensures worst == CompareDocuments(n, b, a)
  {
    hide Join, Extensions, Types, CompareLists, Listed, Named;
    var report := new Report();
    var version := Differ(b.ir.Get("contractVersion"), a.ir.Get("contractVersion"), Conditional);
    report.Note(version);
    report.Compare(Extensions(n), Listed(b.ir, "extensions"), Listed(a.ir, "extensions"));
    CompareTypes(n, b, a, Named(Listed(b.ir, "types")), Named(Listed(a.ir, "types")), report);
    JoinIdentity(version);
    JoinAssociative(version, CompareLists(Extensions(n), Listed(b.ir, "extensions"), Listed(a.ir, "extensions")),
                    CompareLists(Types(n, b, a), Named(Listed(b.ir, "types")), Named(Listed(a.ir, "types"))));
    worst := report.worst;
  }
}
