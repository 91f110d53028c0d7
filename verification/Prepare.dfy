/** The schema preparation pass: closure stated the way the generator reads it, and
    precision-dependent bounds stated as a tagged union. */
module Prepare {
  import opened Wrappers
  import opened Members
  import opened Schemas
  import Numbers

  datatype Rewrite = Rewrite(rule: string, document: string, pointer: string)

  /** Closure stated twice and differently, or a keyword value Python cannot search, size or iterate. */
  datatype Failure = Conflict(pointer: string) | TypeFault

  datatype Outcome<T> = Failed(failure: Failure) | Done(value: T, log: seq<Rewrite>)

  // ----- Python values

  function PyNumber(v: Value): Option<real> {
    match v
    case Bool(flag) => Some(if flag then 1.0 else 0.0)
    case _ => Numeric(v)
  }

  /** `==`: booleans are numbers, dicts compare whatever their order. */
  predicate PyEqual(a: Value, b: Value)
    decreases a
  {
    match a
    case List(xs) => b.List? && |xs| == |b.items| && forall k :: 0 <= k < |xs| ==> PyEqual(xs[k], b.items[k])
    case Dict(xs) =>
      && b.Dict? && |xs| == |b.entries|
      && forall k :: 0 <= k < |xs| ==> Has(b.entries, xs[k].0) && PyEqual(xs[k].1, At(b.entries, xs[k].0).value)
    case _ => if PyNumber(a).Some? then PyNumber(a) == PyNumber(b) else a == b
  }

  /** `word in container`. */
  function PyIn(word: string, container: Value): Option<bool> {
    match container
    case List(items) => Some(Str(word) in items)
    case Str(text) => Some(exists k :: 0 <= k <= |text| && word <= text[k..])
    case Dict(d) => Some(Has(d, word))
    case _ => None
  }

  function PyLen(v: Value): Option<nat> {
    match v
    case List(items) => Some(|items|)
    case Str(text) => Some(|text|)
    case Dict(d) => Some(|d|)
    case _ => None
  }

  predicate KeysAre(d: seq<(string, Value)>, keys: set<string>) { (set k | 0 <= k < |d| :: d[k].0) == keys }

  // ----- precision-dependent bounds as a union

  datatype Reading = Unfit | Faulty | Rule(precision: int, maximum: int)

  /** One clause `if precision is const then scale has maximum`, if it is exactly that. */
  function RuleOf(clause: Value): Reading {
    if !clause.Dict? || !KeysAre(clause.entries, {"if", "then"}) then Unfit
    else
      match (At(clause.entries, "then"), At(clause.entries, "if"))
      case (Some(Dict(t)), Some(Dict(c))) =>
        if !KeysAre(t, {"properties"}) || !KeysAre(c, {"properties"}) then Unfit
        else GuardedBound(At(c, "properties").value, At(t, "properties").value)
      case _ => Unfit
  }

  function GuardedBound(condition: Value, consequent: Value): Reading {
    if PyLen(condition).None? then Faulty
    else if PyLen(condition).value != 1 then Unfit
    else if PyLen(consequent).None? then Faulty
    else if PyLen(consequent).value != 1 then Unfit
    else if !condition.Dict? || !consequent.Dict? then Faulty
    else
      match (condition.entries[0], consequent.entries[0])
      case (("precision", Dict(guarded)), ("scale", Dict(bounded))) => BoundRule(guarded, bounded)
      case _ => Unfit
  }

  function BoundRule(guarded: seq<(string, Value)>, bounded: seq<(string, Value)>): Reading {
    if !KeysAre(guarded, {"const"}) || exists k :: 0 <= k < |bounded| && bounded[k].0 !in {"type", "maximum"} then Unfit
    else
      match (At(guarded, "const"), At(bounded, "maximum"))
      case (Some(Int(precision)), Some(Int(maximum))) =>
        if Has(bounded, "type") && At(bounded, "type") != Some(Str("integer")) then Unfit else Rule(precision, maximum)
      case _ => Unfit
  }

  datatype Table = NoTable(faulty: bool) | Rules(rules: seq<(int, int)>)

  function AddRule(rules: seq<(int, int)>, rule: (int, int)): Table {
    if rule in rules then Rules(rules)
    else if Decides(rules, rule.0) then NoTable(false)
    else Rules(rules + [rule])
  }

  function AddClause(rules: seq<(int, int)>, clause: Value): Table {
    match RuleOf(clause)
    case Unfit => NoTable(false)
    case Faulty => NoTable(true)
    case Rule(precision, maximum) => AddRule(rules, (precision, maximum))
  }

  /** The rules of the clauses, in order and each once. */
  function Collect(clauses: seq<Value>): Table {
    if clauses == [] then Rules([])
    else
      match Collect(clauses[..|clauses| - 1])
      case NoTable(faulty) => NoTable(faulty)
      case Rules(rules) => AddClause(rules, clauses[|clauses| - 1])
  }

  /** The rules decide exactly the precisions from `low` to `high`. */
  predicate Covers(rules: seq<(int, int)>, low: int, high: int) {
    && (forall k :: 0 <= k < |rules| ==> low <= rules[k].0 <= high)
    && (forall p: int :: low <= p <= high ==> Decides(rules, p))
  }

  predicate Decides(rules: seq<(int, int)>, precision: int) { exists k :: 0 <= k < |rules| && rules[k].0 == precision }

  function Tighter(base: Option<Value>, maximum: int): int {
    match base
    case Some(Int(b)) => if b < maximum then b else maximum
    case _ => maximum
  }

  /** What the rewrite reads of a schema it can expand. */
  datatype Shape = Shape(clauses: seq<Value>, properties: seq<(string, Value)>,
    precision: seq<(string, Value)>, scale: seq<(string, Value)>, low: int, high: int)

  datatype Fit = Misfit | Fault | Fits(shape: Shape)

  function Fitting(d: seq<(string, Value)>): Fit {
    match (At(d, "allOf"), At(d, "properties"))
    case (Some(List(clauses)), Some(Dict(properties))) =>
      if At(d, "type") != Some(Str("object")) || clauses == [] || !Has(properties, "precision")
        || !Has(properties, "scale") then Misfit
      else if !Has(d, "required") then Misfit
      else if PyIn("precision", At(d, "required").value).None? then Fault
      else if !PyIn("precision", At(d, "required").value).value then Misfit
      else NumericPair(clauses, properties, At(properties, "precision").value, At(properties, "scale").value)
    case _ => Misfit
  }

  function NumericPair(clauses: seq<Value>, properties: seq<(string, Value)>, precision: Value, scale: Value): Fit {
    if !precision.Dict? || !scale.Dict? then Misfit
    else
      var (p, s) := (precision.entries, scale.entries);
      if Has(p, "const") || At(p, "type") != Some(Str("integer")) || At(s, "type") != Some(Str("integer")) then Misfit
      else if Has(s, "maximum") && !At(s, "maximum").value.Int? then Misfit
      else
        match (At(p, "minimum"), At(p, "maximum"))
        case (Some(Int(low)), Some(Int(high))) => Fits(Shape(clauses, properties, p, s, low, high))
        case _ => Misfit
  }

  /** The schema with one precision fixed and its scale bounded by that precision's rule. */
  function Branch(d: seq<(string, Value)>, shape: Shape, rule: (int, int)): Value {
    var precision := Dict(Put(shape.precision, ("const", Int(rule.0))));
    var scale := Dict(Put(shape.scale, ("maximum", Int(Tighter(At(shape.scale, "maximum"), rule.1)))));
    Dict(Put(Drop(d, "allOf"),
             ("properties", Dict(Put(Put(shape.properties, ("precision", precision)), ("scale", scale))))))
  }

  function Branches(d: seq<(string, Value)>, shape: Shape, rules: seq<(int, int)>): (r: seq<Value>)
    ensures |r| == |rules| && forall k :: 0 <= k < |r| ==> r[k] == Branch(d, shape, rules[k])
  {
    if rules == [] then [] else Branches(d, shape, rules[..|rules| - 1]) + [Branch(d, shape, rules[|rules| - 1])]
  }

  predicate Moved(key: string) {
    key == "type" || key == "required" || key == "properties" || key == "additionalProperties" || key == "allOf"
  }

  function Outer(d: seq<(string, Value)>): seq<(string, Value)> {
    if d == [] then [] else Outer(d[..|d| - 1]) + (if Moved(d[|d| - 1].0) then [] else [d[|d| - 1]])
  }

  function Expand(d: seq<(string, Value)>, document: string, pointer: string): Outcome<seq<(string, Value)>> {
    match Fitting(d)
    case Misfit => Done(d, [])
    case Fault => Failed(TypeFault)
    case Fits(shape) =>
      match Collect(shape.clauses)
      case NoTable(faulty) => if faulty then Failed(TypeFault) else Done(d, [])
      case Rules(rules) =>
        if !Covers(rules, shape.low, shape.high) then Done(d, [])
        else Done(Put(Outer(d), ("oneOf", List(Branches(d, shape, rules)))),
                  [Rewrite("conditional-numeric-to-one-of", document, pointer)])
  }

  method CollectRules(clauses: seq<Value>) returns (table: Table)
    ensures table == Collect(clauses)
  {
    hide RuleOf;
    var rules := [];
    for k := 0 to |clauses|
      invariant Collect(clauses[..k]) == Rules(rules)
    {
      assert clauses[..k + 1][..k] == clauses[..k];
      match RuleOf(clauses[k]) {
        case Rule(precision, maximum) =>
          if (precision, maximum) !in rules {
            if Decides(rules, precision) {
              CollectStops(clauses, k + 1);
              return NoTable(false);
            }
            rules := rules + [(precision, maximum)];
          }
        case Unfit =>
          CollectStops(clauses, k + 1);
          return NoTable(false);
        case Faulty =>
          CollectStops(clauses, k + 1);
          return NoTable(true);
      }
    }
    assert clauses[..|clauses|] == clauses;
    table := Rules(rules);
  }

  lemma {:induction false} CollectStops(clauses: seq<Value>, k: nat)
    requires k <= |clauses| && Collect(clauses[..k]).NoTable?
    ensures Collect(clauses) == Collect(clauses[..k])
    decreases |clauses|
  {
    if k == |clauses| {
      assert clauses[..k] == clauses;
    } else {
      var shorter := clauses[..|clauses| - 1];
      assert shorter[..k] == clauses[..k];
      CollectStops(shorter, k);
    }
  }

  method ExpandConditionalNumeric(d: seq<(string, Value)>, document: string, pointer: string)
    returns (outcome: Outcome<seq<(string, Value)>>)
    ensures outcome == Expand(d, document, pointer)
  {
    hide Fitting, Covers, Branch, Collect;
    var fit := Fitting(d);
    match fit {
      case Misfit => return Done(d, []);
      case Fault => return Failed(TypeFault);
      case Fits(shape) =>
        var table := CollectRules(shape.clauses);
        if table.NoTable? {
          return if table.faulty then Failed(TypeFault) else Done(d, []);
        }
        if !Covers(table.rules, shape.low, shape.high) {
          return Done(d, []);
        }
        var branches := [];
        for k := 0 to |table.rules|
          invariant |branches| == k && forall j :: 0 <= j < k ==> branches[j] == Branch(d, shape, table.rules[j])
        {
          branches := branches + [Branch(d, shape, table.rules[k])];
        }
        assert branches == Branches(d, shape, table.rules);
        var wrapper := [];
        for k := 0 to |d|
          invariant wrapper == Outer(d[..k])
        {
          assert d[..k + 1][..k] == d[..k];
          if !Moved(d[k].0) {
            wrapper := wrapper + [d[k]];
          }
        }
        assert d[..|d|] == d;
        wrapper := Put(wrapper, ("oneOf", List(branches)));
        outcome := Done(wrapper, [Rewrite("conditional-numeric-to-one-of", document, pointer)]);
    }
  }

  // ----- the walk

  predicate MapKey(key: string) {
    key == "properties" || key == "patternProperties" || key == "$defs" || key == "definitions"
  }

  predicate ListKey(key: string) { key == "allOf" || key == "anyOf" || key == "oneOf" || key == "prefixItems" }

  predicate ValueKey(key: string) {
    || key == "items" || key == "not" || key == "if" || key == "then" || key == "else" || key == "propertyNames"
    || key == "contains" || key == "unevaluatedItems" || key == "additionalProperties" || key == "additionalItems"
  }

  function EscapeChar(c: char): string { if c == '~' then "~0" else if c == '/' then "~1" else [c] }

  function EscapeToken(token: string): string {
    if token == "" then "" else EscapeToken(token[..|token| - 1]) + EscapeChar(token[|token| - 1])
  }

  predicate AlwaysFalse(v: Value) {
    match v
    case Bool(flag) => !flag
    case Dict(d) => |d| == 1 && d[0] == ("not", Dict([]))
    case _ => false
  }

  function Closure(v: Value): Value { if AlwaysFalse(v) then Bool(false) else v }

  /** A property with `enum` loses its presentational `default`. */
  function DropDefault(d: seq<(string, Value)>, document: string, pointer: string): Outcome<seq<(string, Value)>> {
    if Has(d, "enum") && Has(d, "default")
      then Done(Drop(d, "default"), [Rewrite("enum-default-conflict-dropped", document, pointer)])
    else Done(d, [])
  }

  /** `unevaluatedProperties` restated as `additionalProperties`. */
  function Close(d: seq<(string, Value)>, document: string, pointer: string): Outcome<seq<(string, Value)>> {
    if !Has(d, "unevaluatedProperties") then Done(d, [])
    else
      var rewritten := Closure(At(d, "unevaluatedProperties").value);
      var rest := Drop(d, "unevaluatedProperties");
      match At(rest, "additionalProperties")
      case Some(existing) => if PyEqual(Closure(existing), rewritten) then Done(rest, []) else Failed(Conflict(pointer))
      case None =>
          Done(Put(rest, ("additionalProperties", rewritten)),
               [Rewrite("unevaluated-properties-to-additional", document, pointer)])
  }

  /** What happens to a dict once its children are walked. */
  function Finish(d: seq<(string, Value)>, document: string, pointer: string): Outcome<Value> {
    match DropDefault(d, document, pointer)
    case Failed(failure) => Failed(failure)
    case Done(plain, log0) =>
      match Close(plain, document, pointer)
      case Failed(failure) => Failed(failure)
      case Done(closed, log1) =>
        match Expand(closed, document, pointer)
        case Failed(failure) => Failed(failure)
        case Done(expanded, log2) => Done(Dict(expanded), log0 + log1 + log2)
  }

  function Walk(node: Value, document: string, pointer: string): Outcome<Value>
    decreases node, 1
  {
    match node
    case List(items) => (
      match WalkItems(items, document, pointer)
      case Failed(failure) => Failed(failure)
      case Done(walked, log) => Done(List(walked), log)
    )
    case Dict(d) => (
      match WalkDict(d, document, pointer)
      case Failed(failure) => Failed(failure)
      case Done(walked, log) => (
        match Finish(walked, document, pointer)
        case Failed(failure) => Failed(failure)
        case Done(value, more) => Done(value, log + more)
      )
    )
    case _ => Done(node, [])
  }

  function WalkItems(items: seq<Value>, document: string, pointer: string): (r: Outcome<seq<Value>>)
    ensures r.Done? ==> |r.value| == |items|
    decreases items, 0
  {
    if items == [] then Done([], [])
    else
      var n := |items| - 1;
      match WalkItems(items[..n], document, pointer)
      case Failed(failure) => Failed(failure)
      case Done(walked, log) =>
        match Walk(items[n], document, pointer + "/" + Numbers.Decimal(n))
        case Failed(failure) => Failed(failure)
        case Done(value, more) => Done(walked + [value], log + more)
  }

  /** A map of subschemas. */
  function WalkMembers(d: seq<(string, Value)>, document: string, pointer: string): (r: Outcome<seq<(string, Value)>>)
    ensures r.Done? ==> |r.value| == |d| && forall k :: 0 <= k < |d| ==> r.value[k].0 == d[k].0
    decreases d, 0
  {
    if d == [] then Done([], [])
    else
      var n := |d| - 1;
      match WalkMembers(d[..n], document, pointer)
      case Failed(failure) => Failed(failure)
      case Done(walked, log) =>
        match WalkMember(d[n], document, pointer)
        case Failed(failure) => Failed(failure)
        case Done(value, more) => Done(walked + [(d[n].0, value)], log + more)
  }

  function WalkMember(member: (string, Value), document: string, pointer: string): Outcome<Value>
    decreases member, 2
  {
    Walk(member.1, document, pointer + "/" + EscapeToken(member.0))
  }

  function WalkEntry(entry: (string, Value), document: string, pointer: string): Outcome<Value>
    decreases entry, 2
  {
    var (key, value) := (entry.0, entry.1);
    if MapKey(key) && value.Dict? then
      match WalkMembers(value.entries, document, pointer)
      case Failed(failure) => Failed(failure)
      case Done(walked, log) => Done(Dict(walked), log)
    else if ListKey(key) && value.List? then
      match WalkItems(value.items, document, pointer)
      case Failed(failure) => Failed(failure)
      case Done(walked, log) => Done(List(walked), log)
    else if ValueKey(key) then Walk(value, document, pointer)
    else Done(value, [])
  }

  function WalkDict(d: seq<(string, Value)>, document: string, pointer: string): (r: Outcome<seq<(string, Value)>>)
    ensures r.Done? ==> |r.value| == |d| && forall k :: 0 <= k < |d| ==> r.value[k].0 == d[k].0
    decreases d, 0
  {
    if d == [] then Done([], [])
    else
      var n := |d| - 1;
      match WalkDict(d[..n], document, pointer)
      case Failed(failure) => Failed(failure)
      case Done(walked, log) =>
        match WalkEntry(d[n], document, pointer + "/" + EscapeToken(d[n].0))
        case Failed(failure) => Failed(failure)
        case Done(value, more) => Done(walked + [(d[n].0, value)], log + more)
  }

  /** The pass over one document; `rewrites` is the list every call appends to. */
  class Pass {
    const document: string
    var rewrites: seq<Rewrite>

    constructor (document: string)
      ensures this.document == document && rewrites == []
    {
      this.document := document;
      rewrites := [];
    }

    method DropEnumDefault(d: seq<(string, Value)>, pointer: string) returns (result: seq<(string, Value)>)
      modifies this
      ensures var outcome := DropDefault(d, document, pointer);
              outcome.Done? && result == outcome.value && rewrites == old(rewrites) + outcome.log
    {
      result := d;
      if Has(result, "enum") && Has(result, "default") {
        result := Drop(result, "default");
        rewrites := rewrites + [Rewrite("enum-default-conflict-dropped", document, pointer)];
      }
    }

    method StateClosure(d: seq<(string, Value)>, pointer: string)
        returns (failed: Option<Failure>, result: seq<(string, Value)>)
      modifies this
      ensures match Close(d, document, pointer)
              case Failed(failure) => failed == Some(failure)
              case Done(closed, log) => failed == None && result == closed && rewrites == old(rewrites) + log
    {
      hide PyEqual, Closure, At, Drop;
      failed, result := None, d;
      if Has(result, "unevaluatedProperties") {
        var rewritten := Closure(At(result, "unevaluatedProperties").value);
        result := Drop(result, "unevaluatedProperties");
        if Has(result, "additionalProperties") {
          var existing := Closure(At(result, "additionalProperties").value);
          if !PyEqual(existing, rewritten) {
            failed := Some(Conflict(pointer));
          }
        } else {
          result := Put(result, ("additionalProperties", rewritten));
          rewrites := rewrites + [Rewrite("unevaluated-properties-to-additional", document, pointer)];
        }
      }
    }

    method FinishDict(d: seq<(string, Value)>, pointer: string) returns (failed: Option<Failure>, value: Value)
      modifies this
      ensures match Finish(d, document, pointer)
              case Failed(failure) => failed == Some(failure)
              case Done(finished, log) => failed == None && value == finished && rewrites == old(rewrites) + log
    {
      hide DropDefault, Close, Expand;
      value := Null;
      var plain := DropEnumDefault(d, pointer);
      var closed;
      failed, closed := StateClosure(plain, pointer);
      if failed.None? {
        var outcome := ExpandConditionalNumeric(closed, document, pointer);
        match outcome {
          case Failed(failure) => failed := Some(failure);
          case Done(expanded, log) =>
            rewrites := rewrites + log;
            value := Dict(expanded);
        }
      }
    }

    method WalkNode(node: Value, pointer: string) returns (failed: Option<Failure>, value: Value)
      modifies this
      ensures match Walk(node, document, pointer)
              case Failed(failure) => failed == Some(failure)
              case Done(walked, log) => failed == None && value == walked && rewrites == old(rewrites) + log
      decreases node, 1
    {
      hide Finish, WalkItems, WalkDict;
      failed, value := None, node;
      match node {
        case List(items) =>
          var walked;
          failed, walked := WalkList(items, pointer);
          value := List(walked);
        case Dict(d) =>
          var walked;
          failed, walked := WalkEntries(d, pointer);
          if failed.None? {
            failed, value := FinishDict(walked, pointer);
          }
        case _ =>
      }
    }

    method WalkList(items: seq<Value>, pointer: string) returns (failed: Option<Failure>, walked: seq<Value>)
      modifies this
      ensures match WalkItems(items, document, pointer)
              case Failed(failure) => failed == Some(failure)
              case Done(value, log) => failed == None && walked == value && rewrites == old(rewrites) + log
      decreases items, 0
    {
      hide Walk;
      failed, walked := None, [];
      for k := 0 to |items|
        invariant failed == None
        invariant WalkItems(items[..k], document, pointer).Done?
        invariant walked == WalkItems(items[..k], document, pointer).value
        invariant rewrites == old(rewrites) + WalkItems(items[..k], document, pointer).log
      {
        assert items[..k + 1][..k] == items[..k];
        var value;
        failed, value := WalkNode(items[k], pointer + "/" + Numbers.Decimal(k));
        if failed.Some? {
          ItemsStop(items, k + 1, document, pointer);
          return;
        }
        walked := walked + [value];
      }
      assert items[..|items|] == items;
    }

    method WalkSub(member: (string, Value), pointer: string) returns (failed: Option<Failure>, value: Value)
      modifies this
      ensures match WalkMember(member, document, pointer)
              case Failed(failure) => failed == Some(failure)
              case Done(walked, log) => failed == None && value == walked && rewrites == old(rewrites) + log
      decreases member, 2
    {
      hide Walk;
      failed, value := WalkNode(member.1, pointer + "/" + EscapeToken(member.0));
    }

    method WalkMap(d: seq<(string, Value)>, pointer: string)
        returns (failed: Option<Failure>, walked: seq<(string, Value)>)
      modifies this
      ensures match WalkMembers(d, document, pointer)
              case Failed(failure) => failed == Some(failure)
              case Done(value, log) => failed == None && walked == value && rewrites == old(rewrites) + log
      decreases d, 0
    {
      hide WalkMember;
      failed, walked := None, [];
      for k := 0 to |d|
        invariant failed == None
        invariant WalkMembers(d[..k], document, pointer).Done?
        invariant walked == WalkMembers(d[..k], document, pointer).value
        invariant rewrites == old(rewrites) + WalkMembers(d[..k], document, pointer).log
      {
        assert d[..k + 1][..k] == d[..k];
        var value;
        failed, value := WalkSub(d[k], pointer);
        if failed.Some? {
          MembersStop(d, k + 1, document, pointer);
          return;
        }
        walked := walked + [(d[k].0, value)];
      }
      assert d[..|d|] == d;
    }

    method WalkKey(entry: (string, Value), pointer: string) returns (failed: Option<Failure>, value: Value)
      modifies this
      ensures match WalkEntry(entry, document, pointer)
              case Failed(failure) => failed == Some(failure)
              case Done(walked, log) => failed == None && value == walked && rewrites == old(rewrites) + log
      decreases entry, 2
    {
      hide Walk, WalkItems, WalkMembers, MapKey, ListKey, ValueKey;
      var key := entry.0;
      failed, value := None, entry.1;
      if MapKey(key) && value.Dict? {
        var walked;
        failed, walked := WalkMap(value.entries, pointer);
        value := Dict(walked);
      } else if ListKey(key) && value.List? {
        var walked;
        failed, walked := WalkList(value.items, pointer);
        value := List(walked);
      } else if ValueKey(key) {
        failed, value := WalkNode(value, pointer);
      }
    }

    method WalkEntries(d: seq<(string, Value)>, pointer: string)
        returns (failed: Option<Failure>, walked: seq<(string, Value)>)
      modifies this
      ensures match WalkDict(d, document, pointer)
              case Failed(failure) => failed == Some(failure)
              case Done(value, log) => failed == None && walked == value && rewrites == old(rewrites) + log
      decreases d, 0
    {
      hide WalkEntry, EscapeToken;
      failed, walked := None, [];
      for k := 0 to |d|
        invariant failed == None
        invariant WalkDict(d[..k], document, pointer).Done?
        invariant walked == WalkDict(d[..k], document, pointer).value
        invariant rewrites == old(rewrites) + WalkDict(d[..k], document, pointer).log
      {
        assert d[..k + 1][..k] == d[..k];
        var value;
        failed, value := WalkKey(d[k], pointer + "/" + EscapeToken(d[k].0));
        if failed.Some? {
          DictStops(d, k + 1, document, pointer);
          return;
        }
        walked := walked + [(d[k].0, value)];
      }
      assert d[..|d|] == d;
    }
  }

  lemma {:induction false} ItemsStop(items: seq<Value>, k: nat, document: string, pointer: string)
    requires k <= |items| && WalkItems(items[..k], document, pointer).Failed?
    ensures WalkItems(items, document, pointer) == WalkItems(items[..k], document, pointer)
    decreases |items|
  {
    if k == |items| {
      assert items[..k] == items;
    } else {
      var shorter := items[..|items| - 1];
      assert shorter[..k] == items[..k];
      ItemsStop(shorter, k, document, pointer);
    }
  }

  lemma {:induction false} MembersStop(d: seq<(string, Value)>, k: nat, document: string, pointer: string)
    requires k <= |d| && WalkMembers(d[..k], document, pointer).Failed?
    ensures WalkMembers(d, document, pointer) == WalkMembers(d[..k], document, pointer)
    decreases |d|
  {
    if k == |d| {
      assert d[..k] == d;
    } else {
      var shorter := d[..|d| - 1];
      assert shorter[..k] == d[..k];
      MembersStop(shorter, k, document, pointer);
    }
  }

  lemma {:induction false} DictStops(d: seq<(string, Value)>, k: nat, document: string, pointer: string)
    requires k <= |d| && WalkDict(d[..k], document, pointer).Failed?
    ensures WalkDict(d, document, pointer) == WalkDict(d[..k], document, pointer)
    decreases |d|
  {
    if k == |d| {
      assert d[..k] == d;
    } else {
      var shorter := d[..|d| - 1];
      assert shorter[..k] == d[..k];
      DictStops(shorter, k, document, pointer);
    }
  }
}
