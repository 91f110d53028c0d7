/** JSON Schema over values as a Python dict keeps them, for the keywords the
    preparation pass walks or rewrites; every other keyword is an oracle that sees
    only its own value and the instance. */
module Schemas {
  import opened Wrappers
  import opened Members

  datatype Value =
    | Null
    | Bool(flag: bool)
    | Int(number: int)
    | Float(approximate: real)
    | Str(text: string)
    | List(items: seq<Value>)
    | Dict(entries: seq<(string, Value)>)

  function At(d: seq<(string, Value)>, key: string): (found: Option<Value>)
    ensures found.Some? ==> (key, found.value) in d
  {
    var at := Find(d, key);
    if at < |d| then Some(d[at].1) else None
  }

  predicate Has(d: seq<(string, Value)>, key: string) { At(d, key).Some? }

  function Drop(d: seq<(string, Value)>, key: string): seq<(string, Value)> {
    if d == [] then [] else (if d[0].0 == key then [] else [d[0]]) + Drop(d[1..], key)
  }

  // ----- instances

  /** The value of a JSON number. */
  function Numeric(v: Value): Option<real> {
    match v
    case Int(n) => Some(n as real)
    case Float(r) => Some(r)
    case _ => None
  }

  predicate Integral(v: Value) { Numeric(v).Some? && Numeric(v).value == Numeric(v).value.Floor as real }

  predicate IsType(name: string, i: Value) {
    if name == "integer" then Integral(i)
    else if name == "object" then i.Dict?
    else if name == "number" then Numeric(i).Some?
    else if name == "string" then i.Str?
    else if name == "array" then i.List?
    else if name == "boolean" then i.Bool?
    else name == "null" && i.Null?
  }

  ghost predicate TypeHolds(v: Value, i: Value) {
    match v
    case Str(name) => IsType(name, i)
    case List(names) => exists k :: 0 <= k < |names| && names[k].Str? && IsType(names[k].text, i)
    case _ => true
  }

  /** JSON equality: numbers by value, objects whatever the order of members. */
  ghost predicate Equal(a: Value, b: Value)
    decreases a
  {
    match a
    case List(xs) => b.List? && |xs| == |b.items| && forall k :: 0 <= k < |xs| ==> Equal(xs[k], b.items[k])
    case Dict(xs) =>
      && b.Dict? && |xs| == |b.entries|
      && forall k :: 0 <= k < |xs| ==> Has(b.entries, xs[k].0) && Equal(xs[k].1, At(b.entries, xs[k].0).value)
    case _ => if Numeric(a).Some? then Numeric(a) == Numeric(b) else a == b
  }

  // ----- keywords

  datatype Keyword =
    | Type | Const | Minimum | Maximum | Required
    | Properties | PatternProperties | AdditionalProperties | UnevaluatedProperties | PropertyNames
    | AllOf | AnyOf | OneOf | Not | If | Then | Else
    | PrefixItems | Items | Contains
    | Silent
    | Reference
    | Other

  /** What a key asserts; `then`, `else` and the containers of definitions assert nothing by themselves. */
  function KeywordOf(key: string): Keyword {
    if key == "type" then Type
    else if key == "const" then Const
    else if key == "minimum" then Minimum
    else if key == "maximum" then Maximum
    else if key == "required" then Required
    else if key == "properties" then Properties
    else if key == "patternProperties" then PatternProperties
    else if key == "additionalProperties" then AdditionalProperties
    else if key == "unevaluatedProperties" then UnevaluatedProperties
    else if key == "propertyNames" then PropertyNames
    else if key == "allOf" then AllOf
    else if key == "anyOf" then AnyOf
    else if key == "oneOf" then OneOf
    else if key == "not" then Not
    else if key == "if" then If
    else if key == "then" then Then
    else if key == "else" then Else
    else if key == "prefixItems" then PrefixItems
    else if key == "items" then Items
    else if key == "contains" then Contains
    else if key in {"$ref", "$dynamicRef", "$recursiveRef", "dependentSchemas"} then Reference
    else if key in {"default", "$defs", "definitions", "minContains", "maxContains"} then Silent
    else Other
  }

  /** The keywords outside the model: what another keyword asserts, which property
      names a reference or a dependency evaluates, what a pattern matches, and how
      many matching items are enough. */
  datatype Oracle = Oracle(
    asserts: (string, Value, Value) -> bool,
    evaluates: (string, Value, Value, string) -> bool,
    matches: (string, string) -> bool,
    enough: (Option<Value>, Option<Value>, nat) -> bool)

  /** `properties` or `patternProperties` of the schema name the member. */
  ghost predicate NamedBy(o: Oracle, d: seq<(string, Value)>, name: string) {
    || (Has(d, "properties") && At(d, "properties").value.Dict? && Has(At(d, "properties").value.entries, name))
    || (Has(d, "patternProperties") && At(d, "patternProperties").value.Dict?
        && SomePattern(o, At(d, "patternProperties").value.entries, name))
  }

  ghost predicate SomePattern(o: Oracle, d: seq<(string, Value)>, name: string) {
    exists k :: 0 <= k < |d| && o.matches(d[k].0, name)
  }

  function PrefixLength(d: seq<(string, Value)>): nat {
    match At(d, "prefixItems")
    case Some(List(items)) => |items|
    case _ => 0
  }

  /** An instance is valid against a schema: a boolean decides, an object by all its
      keywords, and anything else is no schema and constrains nothing. */
  ghost predicate Accepts(o: Oracle, s: Value, i: Value)
    decreases s, 3
  {
    match s
    case Bool(flag) => flag
    case Dict(d) => forall e :: e in d ==> Holds(o, s, e, i)
    case _ => true
  }

  ghost predicate Holds(o: Oracle, s: Value, entry: (string, Value), i: Value)
    requires s.Dict? && entry in s.entries
    decreases s, 2
  {
    var d, v := s.entries, entry.1;
    match KeywordOf(entry.0)
    case Type => TypeHolds(v, i)
    case Const => Equal(v, i)
    case Minimum => Numeric(v).Some? && Numeric(i).Some? ==> Numeric(v).value <= Numeric(i).value
    case Maximum => Numeric(v).Some? && Numeric(i).Some? ==> Numeric(i).value <= Numeric(v).value
    case Required => v.List? && i.Dict? ==> forall k :: 0 <= k < |v.items| && v.items[k].Str? ==>
        Has(i.entries, v.items[k].text)
    case Properties => v.Dict? && i.Dict? ==> forall e :: e in v.entries ==> MemberHolds(o, e, i)
    case PatternProperties => v.Dict? && i.Dict? ==> forall e :: e in v.entries ==> PatternHolds(o, e, i)
    case AdditionalProperties => i.Dict? ==> forall j :: 0 <= j < |i.entries| ==>
        NamedBy(o, d, i.entries[j].0) || Accepts(o, v, i.entries[j].1)
    case UnevaluatedProperties =>
      (i.Dict? ==> forall j :: 0 <= j < |i.entries| ==>
       Evaluated(o, s, i, i.entries[j].0) || Accepts(o, v, i.entries[j].1))
    case PropertyNames => i.Dict? ==> forall j :: 0 <= j < |i.entries| ==> Accepts(o, v, Str(i.entries[j].0))
    case AllOf => v.List? ==> forall k :: 0 <= k < |v.items| ==> Accepts(o, v.items[k], i)
    case AnyOf => v.List? ==> exists k :: 0 <= k < |v.items| && Accepts(o, v.items[k], i)
    case OneOf => v.List? ==> ExactlyOne(o, v, i)
    case Not => !Accepts(o, v, i)
    case If => if Accepts(o, v, i) then Has(d, "then") ==> Accepts(o, At(d, "then").value, i)
               else Has(d, "else") ==> Accepts(o, At(d, "else").value, i)
    case PrefixItems => v.List? && i.List? ==> forall j :: 0 <= j < |v.items| && j < |i.items| ==>
        Accepts(o, v.items[j], i.items[j])
    case Items => i.List? ==> forall j :: PrefixLength(d) <= j < |i.items| ==> Accepts(o, v, i.items[j])
    case Contains => i.List? ==> o.enough(At(d, "minContains"), At(d, "maxContains"), Matching(o, v, i.items))
    case Then => true
    case Else => true
    case Silent => true
    case Reference => o.asserts(entry.0, v, i)
    case Other => o.asserts(entry.0, v, i)
  }

  ghost predicate MemberHolds(o: Oracle, member: (string, Value), i: Value)
    requires i.Dict?
    decreases member, 3
  {
    Has(i.entries, member.0) ==> Accepts(o, member.1, At(i.entries, member.0).value)
  }

  ghost predicate PatternHolds(o: Oracle, member: (string, Value), i: Value)
    requires i.Dict?
    decreases member, 3
  {
    forall j :: 0 <= j < |i.entries| && o.matches(member.0, i.entries[j].0) ==> Accepts(o, member.1, i.entries[j].1)
  }

  ghost predicate ExactlyOne(o: Oracle, v: Value, i: Value)
    requires v.List?
    decreases v, 5
  {
    exists k :: 0 <= k < |v.items| && OnlyOne(o, v, k, i)
  }

  ghost predicate OnlyOne(o: Oracle, v: Value, k: nat, i: Value)
    requires v.List? && k < |v.items|
    decreases v, 4
  {
    Accepts(o, v.items[k], i) && forall j :: 0 <= j < |v.items| && j != k ==> !Accepts(o, v.items[j], i)
  }

  ghost function Matching(o: Oracle, v: Value, items: seq<Value>): nat
    decreases v, 4, |items|
  {
    if items == [] then 0 else (if Accepts(o, v, items[0]) then 1 else 0) + Matching(o, v, items[1..])
  }

  /** A property name the schema evaluates: named by it, caught by its own
      `additionalProperties`, or evaluated by a subschema applied in place. */
  ghost predicate Evaluated(o: Oracle, s: Value, i: Value, name: string)
    requires s.Dict?
    decreases s, 1
  {
    || NamedBy(o, s.entries, name)
    || Has(s.entries, "additionalProperties")
    || exists k :: 0 <= k < |s.entries| && EvaluatedBy(o, s, s.entries[k], i, name)
  }

  /** A keyword that applies subschemas in place evaluates the name. */
  ghost predicate EvaluatedBy(o: Oracle, s: Value, entry: (string, Value), i: Value, name: string)
    requires s.Dict? && entry in s.entries
    decreases s, 0
  {
    match (KeywordOf(entry.0), entry.1)
    case (AllOf, List(vs)) => exists k :: 0 <= k < |vs| && Inside(o, vs[k], i, name)
    case (AnyOf, List(vs)) => exists k :: 0 <= k < |vs| && Inside(o, vs[k], i, name)
    case (OneOf, List(vs)) => exists k :: 0 <= k < |vs| && Inside(o, vs[k], i, name)
    case (If, v) => Inside(o, v, i, name)
    case (Then, v) => Has(s.entries, "if") && Accepts(o, At(s.entries, "if").value, i) && Inside(o, v, i, name)
    case (Else, v) => Has(s.entries, "if") && !Accepts(o, At(s.entries, "if").value, i) && Inside(o, v, i, name)
    case (Reference, v) => o.evaluates(entry.0, v, i, name)
    case _ => false
  }

  /** A subschema that accepts the instance evaluates the name. */
  ghost predicate Inside(o: Oracle, s: Value, i: Value, name: string)
    decreases s, 4
  {
    s.Dict? && Accepts(o, s, i) && (Evaluated(o, s, i, name) || Has(s.entries, "unevaluatedProperties"))
  }
}
