/** When the preparation pass expands precision-dependent bounds: said of the schema, its
    clauses and their keys, without the readings the pass makes of them. */
module Expansion {
  import opened Wrappers
  import opened Members
  import opened Schemas
  import opened Prepare
  import opened PrepareLaws

  function Keys(d: seq<(string, Value)>): set<string> { set k | 0 <= k < |d| :: d[k].0 }

  /** What `in` can search, and what it finds. */
  predicate Searchable(v: Value) { v.List? || v.Str? || v.Dict? }

  ghost predicate Mentions(v: Value, word: string) {
    match v
    case List(items) => Str(word) in items
    case Str(text) => exists k :: 0 <= k <= |text| && word <= text[k..]
    case Dict(d) => word in Keys(d)
    case _ => false
  }

  /** An object with clauses and the two properties. */
  ghost predicate Candidate(d: seq<(string, Value)>, clauses: seq<Value>, properties: seq<(string, Value)>) {
    && At(d, "type") == Some(Str("object"))
    && At(d, "allOf") == Some(List(clauses)) && clauses != []
    && At(d, "properties") == Some(Dict(properties)) && Has(properties, "precision") && Has(properties, "scale")
    && Has(d, "required")
  }

  /** Its precision is a required integer between two bounds, not fixed, and its scale an
      integer with at most an integer bound. */
  ghost predicate NumericObject(d: seq<(string, Value)>, clauses: seq<Value>, low: int, high: int) {
    exists properties, precision, scale ::
      && Candidate(d, clauses, properties) && Mentions(At(d, "required").value, "precision")
      && At(properties, "precision") == Some(Dict(precision)) && At(properties, "scale") == Some(Dict(scale))
      && !Has(precision, "const")
      && At(precision, "type") == Some(Str("integer")) && At(scale, "type") == Some(Str("integer"))
      && At(precision, "minimum") == Some(Int(low)) && At(precision, "maximum") == Some(Int(high))
      && (Has(scale, "maximum") ==> At(scale, "maximum").value.Int?)
  }

  /** The keyword holds `properties` alone, and that the one property. */
  ghost predicate OneNamed(v: Option<Value>, name: string, sub: seq<(string, Value)>) {
    && v.Some? && v.value.Dict? && Keys(v.value.entries) == {"properties"}
    && At(v.value.entries, "properties") == Some(Dict([(name, Dict(sub))]))
  }

  /** `if precision is p then scale is at most m`, and nothing else. */
  ghost predicate Clause(c: Value, p: int, m: int) {
    exists guarded, bounded ::
      && c.Dict? && Keys(c.entries) == {"if", "then"}
      && OneNamed(At(c.entries, "if"), "precision", guarded) && OneNamed(At(c.entries, "then"), "scale", bounded)
      && Keys(guarded) == {"const"} && At(guarded, "const") == Some(Int(p))
      && Keys(bounded) <= {"type", "maximum"} && At(bounded, "maximum") == Some(Int(m))
      && (Has(bounded, "type") ==> At(bounded, "type") == Some(Str("integer")))
  }

  /** How many items a value has, where `len` takes it. */
  ghost function Items(v: Value): Option<nat> {
    match v
    case List(items) => Some(|items|)
    case Str(text) => Some(|text|)
    case Dict(d) => Some(|d|)
    case _ => None
  }

  /** A clause of the right keys over property maps that cannot be sized or have no items to read. */
  ghost predicate Unreadable(c: Value) {
    && c.Dict? && Keys(c.entries) == {"if", "then"}
    && Wrapped(At(c.entries, "if")) && Wrapped(At(c.entries, "then"))
    && var (condition, consequent) := (Unwrapped(At(c.entries, "if")), Unwrapped(At(c.entries, "then")));
       || Items(condition) == None
       || (Items(condition) == Some(1) && Items(consequent) == None)
       || (Items(condition) == Some(1) && Items(consequent) == Some(1) && !(condition.Dict? && consequent.Dict?))
  }

  ghost predicate Wrapped(v: Option<Value>) { v.Some? && v.value.Dict? && Keys(v.value.entries) == {"properties"} }

  ghost function Unwrapped(v: Option<Value>): Value
    requires Wrapped(v)
  {
    assert "properties" in Keys(v.value.entries);
    At(v.value.entries, "properties").value
  }

  /** Every clause is one, and no two set different bounds for one precision. */
  ghost predicate Agreeing(clauses: seq<Value>) {
    && (forall c :: c in clauses ==> exists p, m :: Clause(c, p, m))
    && (forall a, b, p, m, w :: a in clauses && b in clauses && Clause(a, p, m) && Clause(b, p, w) ==> m == w)
  }

  /** Its clauses agree, and set a bound for each precision of the range and no other. */
  ghost predicate Expandable(d: seq<(string, Value)>) {
    exists clauses, low, high :: NumericObject(d, clauses, low, high) && Agreeing(clauses) && Spans(clauses, low, high)
  }

  ghost predicate Spans(clauses: seq<Value>, low: int, high: int) {
    forall p: int :: low <= p <= high <==> Limited(clauses, p)
  }

  /** Some clause sets a bound for the precision. */
  ghost predicate Limited(clauses: seq<Value>, p: int) { exists c, m :: c in clauses && Clause(c, p, m) }

  /** Python stops with a type error: at `required`, or at the first clause that is neither
      read nor a reason to leave the schema alone. */
  ghost predicate Faults(d: seq<(string, Value)>) {
    || (exists clauses, properties :: Candidate(d, clauses, properties) && !Searchable(At(d, "required").value))
    || (exists clauses, low, high, k ::
          NumericObject(d, clauses, low, high) && UnreadableAt(clauses, k))
  }

  ghost predicate UnreadableAt(clauses: seq<Value>, k: int) {
    0 <= k < |clauses| && Unreadable(clauses[k]) && Agreeing(clauses[..k])
  }

  // ----- the readings mean what they say

  lemma ClauseRule(c: Value, p: int, m: int)
    ensures RuleOf(c) == Rule(p, m) <==> Clause(c, p, m)
  {
    hide At, KeysAre;
    forall d: seq<(string, Value)>, keys ensures KeysAre(d, keys) <==> Keys(d) == keys { KeysSame(d, keys); }
    if RuleOf(c) == Rule(p, m) { RuleClause(c, p, m); }
    if Clause(c, p, m) { ClauseReads(c, p, m); }
  }

  lemma KeysSame(d: seq<(string, Value)>, keys: set<string>)
    ensures KeysAre(d, keys) <==> Keys(d) == keys
  {
  }

  lemma RuleClause(c: Value, p: int, m: int)
    requires RuleOf(c) == Rule(p, m)
    ensures Clause(c, p, m)
  {
    RuleParts(c.entries);
    var (f, t) := (At(c.entries, "if").value, At(c.entries, "then").value);
    var (guarded, bounded) := (SubOf(f.entries, "precision"), SubOf(t.entries, "scale"));
    BoundParts(guarded, bounded);
    KeysBelow(bounded);
    forall d: seq<(string, Value)>, keys ensures KeysAre(d, keys) <==> Keys(d) == keys { KeysSame(d, keys); }
    OneProperties(f.entries, "precision");
    OneProperties(t.entries, "scale");
    hide At, KeysAre, RuleOf, BoundRule, PropertyOf, SubOf, Keys;
    assert OneNamed(At(c.entries, "if"), "precision", guarded) && OneNamed(At(c.entries, "then"), "scale", bounded);
  }

  lemma OneProperties(d: seq<(string, Value)>, name: string)
    requires PropertyOf(d, name)
    ensures At(d, "properties") == Some(Dict([(name, Dict(SubOf(d, name)))]))
  {
    var ps := At(d, "properties").value.entries;
    assert ps == [(name, Dict(SubOf(d, name)))];
  }

  lemma KeysBelow(d: seq<(string, Value)>)
    requires forall e :: e in d ==> e.0 in {"type", "maximum"}
    ensures Keys(d) <= {"type", "maximum"}
  {
    forall key | key in Keys(d) ensures key in {"type", "maximum"} {
      var k :| 0 <= k < |d| && d[k].0 == key;
      assert d[k] in d;
    }
  }

  lemma ClauseReads(c: Value, p: int, m: int)
    requires Clause(c, p, m)
    ensures RuleOf(c) == Rule(p, m)
  {
    hide At, Keys, KeysAre;
    forall d: seq<(string, Value)>, keys ensures KeysAre(d, keys) <==> Keys(d) == keys { KeysSame(d, keys); }
    var guarded: seq<(string, Value)>, bounded: seq<(string, Value)> :|
      && c.Dict? && Keys(c.entries) == {"if", "then"}
      && OneNamed(At(c.entries, "if"), "precision", guarded) && OneNamed(At(c.entries, "then"), "scale", bounded)
      && Keys(guarded) == {"const"} && At(guarded, "const") == Some(Int(p))
      && Keys(bounded) <= {"type", "maximum"} && At(bounded, "maximum") == Some(Int(m))
      && (Has(bounded, "type") ==> At(bounded, "type") == Some(Str("integer")));
    forall k | 0 <= k < |bounded| ensures bounded[k].0 in {"type", "maximum"} { KeyIn(bounded, k); }
    assert BoundRule(guarded, bounded) == Rule(p, m);
    hide BoundRule;
  }

  lemma KeyIn(d: seq<(string, Value)>, k: nat)
    requires k < |d|
    ensures d[k].0 in Keys(d)
  {
  }

  lemma UnreadableFaulty(c: Value)
    ensures RuleOf(c) == Faulty <==> Unreadable(c)
  {
    forall d: seq<(string, Value)>, keys ensures KeysAre(d, keys) <==> Keys(d) == keys { KeysSame(d, keys); }
    forall v ensures PyLen(v) == Items(v) { }
    forall guarded, bounded ensures BoundRule(guarded, bounded) != Faulty { NeverFaulty(guarded, bounded); }
    if c.Dict? && Keys(c.entries) == {"if", "then"} {
      KeyThere(c.entries, "if");
      KeyThere(c.entries, "then");
    }
    hide At, KeysAre, Keys, PyLen, Items, BoundRule;
  }

  lemma NeverFaulty(guarded: seq<(string, Value)>, bounded: seq<(string, Value)>)
    ensures BoundRule(guarded, bounded) != Faulty
  {
  }

  lemma KeyThere(d: seq<(string, Value)>, key: string)
    ensures key in Keys(d) <==> Has(d, key)
  {
    if Has(d, key) { assert (key, At(d, key).value) in d; }
  }

  // ----- the table of rules

  lemma SameClause(clauses: seq<Value>, rules: seq<(int, int)>, p: int)
    requires Tabulated(clauses, rules)
    ensures Limited(clauses, p) <==> Decides(rules, p)
  {
    hide RuleOf, Clause;
    if Limited(clauses, p) {
      var c, m :| c in clauses && Clause(c, p, m);
      ClauseRule(c, p, m);
      assert Ruled(rules, c);
      var k :| 0 <= k < |rules| && rules[k] == (p, m);
    }
    if Decides(rules, p) {
      var k :| 0 <= k < |rules| && rules[k].0 == p;
      assert Stated(clauses, rules[k]);
      var c :| c in clauses && RuleOf(c) == Rule(rules[k].0, rules[k].1);
      ClauseRule(c, p, rules[k].1);
    }
  }

  /** A clause sets the bound the table holds for its precision. */
  lemma OneBound(clauses: seq<Value>, rules: seq<(int, int)>, c: Value, p: int, m: int)
    requires Tabulated(clauses, rules) && c in clauses
    ensures Clause(c, p, m) ==> (p, m) in rules
  {
    hide RuleOf, Clause;
    if Clause(c, p, m) {
      ClauseRule(c, p, m);
      assert Ruled(rules, c);
    }
  }

  lemma TabulatedAgrees(clauses: seq<Value>, rules: seq<(int, int)>)
    requires Tabulated(clauses, rules) && OneRuleEach(rules)
    ensures Agreeing(clauses)
  {
    hide RuleOf, Clause;
    forall c | c in clauses ensures exists p, m :: Clause(c, p, m) {
      assert Ruled(rules, c);
      ClauseRule(c, RuleOf(c).precision, RuleOf(c).maximum);
    }
    forall a, b, p, m, w | a in clauses && b in clauses && Clause(a, p, m) && Clause(b, p, w) ensures m == w {
      OneBound(clauses, rules, a, p, m);
      OneBound(clauses, rules, b, p, w);
      var j :| 0 <= j < |rules| && rules[j] == (p, m);
      var k :| 0 <= k < |rules| && rules[k] == (p, w);
      assert j == k;
    }
  }

  lemma AgreeingPrefix(clauses: seq<Value>, k: nat)
    requires Agreeing(clauses) && k <= |clauses|
    ensures Agreeing(clauses[..k])
  {
    hide Clause;
    assert forall c :: c in clauses[..k] ==> c in clauses;
  }

  lemma LastDisagrees(clauses: seq<Value>, rules: seq<(int, int)>)
    requires clauses != [] && var n := |clauses| - 1; Tabulated(clauses[..n], rules) && OneRuleEach(rules)
    requires AddClause(rules, clauses[|clauses| - 1]).NoTable?
    ensures !Agreeing(clauses)
  {
    hide RuleOf, Clause;
    var n := |clauses| - 1;
    var c := clauses[n];
    assert c in clauses;
    if RuleOf(c).Rule? {
      var (p, m) := (RuleOf(c).precision, RuleOf(c).maximum);
      ClauseRule(c, p, m);
      var k :| 0 <= k < |rules| && rules[k].0 == p;
      assert rules[k] in rules && Stated(clauses[..n], rules[k]);
      var b :| b in clauses[..n] && RuleOf(b) == Rule(rules[k].0, rules[k].1);
      ClauseRule(b, p, rules[k].1);
      assert b in clauses && rules[k].1 != m;
    } else {
      forall p, m ensures !Clause(c, p, m) { ClauseRule(c, p, m); }
    }
  }

  /** The rules are collected exactly when the clauses agree; the collection stops with
      the error exactly at an unreadable clause after clauses that do. */
  lemma {:induction false} CollectMeans(clauses: seq<Value>)
    ensures Collect(clauses).Rules? <==> Agreeing(clauses)
    ensures Collect(clauses) == NoTable(true) <==> exists k :: UnreadableAt(clauses, k)
    decreases |clauses|
  {
    hide AddClause, Agreeing, Unreadable, RuleOf, Tabulated, OneRuleEach;
    if Collect(clauses).Rules? {
      CollectTabulates(clauses);
      TabulatedAgrees(clauses, Collect(clauses).rules);
    }
    if clauses == [] {
      assert Collect(clauses) == Rules([]);
    } else {
      var n := |clauses| - 1;
      CollectMeans(clauses[..n]);
      forall k | 0 <= k < n ensures UnreadableAt(clauses, k) <==> UnreadableAt(clauses[..n], k) {
        assert clauses[..n][..k] == clauses[..k];
      }
      LastUnreadable(clauses, n);
      if Agreeing(clauses) { AgreeingPrefix(clauses, n); }
      if Collect(clauses[..n]).Rules? {
        CollectTabulates(clauses[..n]);
        if AddClause(Collect(clauses[..n]).rules, clauses[n]).NoTable? {
          LastDisagrees(clauses, Collect(clauses[..n]).rules);
        }
        FaultyAdds(Collect(clauses[..n]).rules, clauses[n]);
      }
      CollectLast(clauses, n);
    }
  }

  lemma LastUnreadable(clauses: seq<Value>, n: nat)
    requires n + 1 == |clauses|
    ensures UnreadableAt(clauses, n) <==> Agreeing(clauses[..n]) && RuleOf(clauses[n]) == Faulty
  {
    hide Agreeing, RuleOf, Unreadable;
    UnreadableFaulty(clauses[n]);
  }

  lemma FaultyAdds(rules: seq<(int, int)>, clause: Value)
    ensures AddClause(rules, clause) == NoTable(true) <==> RuleOf(clause) == Faulty
  {
    hide RuleOf;
  }

  lemma CollectLast(clauses: seq<Value>, n: nat)
    requires n + 1 == |clauses|
    ensures Collect(clauses) ==
      match Collect(clauses[..n])
      case NoTable(faulty) => NoTable(faulty)
      case Rules(rules) => AddClause(rules, clauses[n])
  {
    hide AddClause;
  }

  // ----- how many rules there are

  function Range(low: int, high: int): (r: set<int>)
    ensures forall p :: p in r <==> low <= p <= high
    ensures |r| == if low <= high then high - low + 1 else 0
    decreases if low <= high then high - low + 1 else 0
  {
    if low > high then {} else Range(low, high - 1) + {high}
  }

  function Precisions(rules: seq<(int, int)>): (r: set<int>)
    ensures forall p :: p in r <==> Decides(rules, p)
  {
    set k | 0 <= k < |rules| :: rules[k].0
  }

  lemma {:induction false} PrecisionCount(rules: seq<(int, int)>)
    requires OneRuleEach(rules)
    ensures |Precisions(rules)| == |rules|
    decreases |rules|
  {
    if rules != [] {
      var n := |rules| - 1;
      PrecisionCount(rules[..n]);
      assert Precisions(rules) == Precisions(rules[..n]) + {rules[n].0};
    }
  }

  lemma CoversCount(rules: seq<(int, int)>, low: int, high: int)
    requires OneRuleEach(rules) && Covers(rules, low, high)
    ensures |rules| == if low <= high then high - low + 1 else 0
  {
    PrecisionCount(rules);
    forall p ensures p in Precisions(rules) <==> p in Range(low, high) {
      if Decides(rules, p) { var k :| 0 <= k < |rules| && rules[k].0 == p; }
    }
    assert Precisions(rules) == Range(low, high);
  }

  lemma SpansCovers(clauses: seq<Value>, rules: seq<(int, int)>, low: int, high: int)
    requires Tabulated(clauses, rules)
    ensures Spans(clauses, low, high) <==> Covers(rules, low, high)
  {
    hide Tabulated, Limited;
    forall p ensures Limited(clauses, p) <==> Decides(rules, p) { SameClause(clauses, rules, p); }
    assert forall k :: 0 <= k < |rules| ==> Decides(rules, rules[k].0);
    if Covers(rules, low, high) {
      forall p: int ensures low <= p <= high <==> Limited(clauses, p) {
        if Decides(rules, p) { var k :| 0 <= k < |rules| && rules[k].0 == p; }
      }
    }
  }

  // ----- the schema

  lemma SearchMeans(v: Value)
    ensures PyIn("precision", v).Some? <==> Searchable(v)
    ensures PyIn("precision", v) == Some(true) <==> Mentions(v, "precision")
  {
    if v.Dict? { KeyThere(v.entries, "precision"); }
  }

  lemma FittingFaults(d: seq<(string, Value)>)
    ensures Fitting(d).Fault? <==> exists clauses, properties ::
              Candidate(d, clauses, properties) && !Searchable(At(d, "required").value)
  {
    if Has(d, "required") { SearchMeans(At(d, "required").value); }
    hide At, PyIn, Mentions, Searchable, NumericPair;
    if Has(d, "allOf") && Has(d, "properties") && At(d, "properties").value.Dict? {
      NeverFault(d, At(d, "properties").value.entries);
    }
    if Fitting(d).Fault? {
      assert Candidate(d, At(d, "allOf").value.items, At(d, "properties").value.entries);
    }
  }

  lemma NeverFault(d: seq<(string, Value)>, properties: seq<(string, Value)>)
    requires Has(d, "allOf")
    ensures At(d, "allOf").value.List? && Has(properties, "precision") && Has(properties, "scale") ==>
      var (precision, scale) := (At(properties, "precision").value, At(properties, "scale").value);
      !NumericPair(At(d, "allOf").value.items, properties, precision, scale).Fault?
  {
    hide At;
  }

  lemma FittingFits(d: seq<(string, Value)>)
    requires Fitting(d).Fits?
    ensures var shape := Fitting(d).shape; NumericObject(d, shape.clauses, shape.low, shape.high)
  {
    if Has(d, "required") { SearchMeans(At(d, "required").value); }
    hide At, PyIn, Mentions, Searchable;
    var shape := Fitting(d).shape;
    FittingShaped(d);
    hide Fitting;
    assert Candidate(d, shape.clauses, shape.properties);
  }

  lemma NumericFits(d: seq<(string, Value)>, clauses: seq<Value>, low: int, high: int)
    requires NumericObject(d, clauses, low, high)
    ensures Fitting(d).Fits? && Fitting(d).shape.clauses == clauses
    ensures Fitting(d).shape.low == low && Fitting(d).shape.high == high
  {
    if Has(d, "required") { SearchMeans(At(d, "required").value); }
    hide At, PyIn, Mentions, Searchable;
  }

  // ----- what the expansion leaves

  /** The lesser of the clause's bound and the one the scale has, if it has one. */
  ghost predicate Lesser(bound: int, m: int, stated: Option<Value>) {
    && bound <= m && (stated.Some? && stated.value.Int? ==> bound <= stated.value.number)
    && (bound == m || stated == Some(Int(bound)))
  }

  /** `after` is `before` with one key set. */
  ghost predicate SetOnly(before: seq<(string, Value)>, after: seq<(string, Value)>, name: string, v: Value) {
    forall key :: At(after, key) == if key == name then Some(v) else At(before, key)
  }

  /** The properties with the precision fixed at `p` and the scale bounded. */
  ghost predicate FixedTo(properties: seq<(string, Value)>, fixed: seq<(string, Value)>, p: int, m: int) {
    exists precision, scale, constant, bounded, bound ::
      && At(properties, "precision") == Some(Dict(precision)) && At(properties, "scale") == Some(Dict(scale))
      && At(fixed, "precision") == Some(Dict(constant)) && At(fixed, "scale") == Some(Dict(bounded))
      && SetOnly(precision, constant, "const", Int(p)) && SetOnly(scale, bounded, "maximum", Int(bound))
      && Lesser(bound, m, At(scale, "maximum"))
      && forall name :: name != "precision" && name != "scale" ==> At(fixed, name) == At(properties, name)
  }

  /** The schema without its clauses, for the one precision `p`. */
  ghost predicate Alternative(d: seq<(string, Value)>, b: Value, p: int, m: int) {
    exists properties, fixed ::
      && b.Dict? && At(d, "properties") == Some(Dict(properties)) && At(b.entries, "properties") == Some(Dict(fixed))
      && FixedTo(properties, fixed, p, m)
      && !Has(b.entries, "allOf")
      && forall key :: key != "allOf" && key != "properties" ==> At(b.entries, key) == At(d, key)
  }

  /** The schema states the clauses and the range, its clauses agree and span the range,
      and the branches are the alternatives, one a precision, in the order of the clauses. */
  ghost predicate Expanded(d: seq<(string, Value)>, branches: seq<Value>, clauses: seq<Value>, low: int, high: int) {
    && NumericObject(d, clauses, low, high) && Agreeing(clauses) && Spans(clauses, low, high)
    && |branches| == (if low <= high then high - low + 1 else 0)
    && exists precisions: seq<int> ::
        && |precisions| == |branches|
        && (forall p: int :: low <= p <= high <==> p in precisions)
        && (forall k :: 0 <= k < |branches| ==> OneAlternative(d, branches[k], clauses, precisions[k]))
        && (forall i, j :: 0 <= i < j < |precisions| ==> Sooner(clauses, precisions[i], precisions[j]))
  }

  ghost predicate OneAlternative(d: seq<(string, Value)>, b: Value, clauses: seq<Value>, p: int) {
    exists c, m :: c in clauses && Clause(c, p, m) && Alternative(d, b, p, m)
  }

  /** The clauses reach the one precision before the other. */
  ghost predicate Sooner(clauses: seq<Value>, p: int, q: int) {
    exists k: int :: 0 <= k <= |clauses| && Limited(clauses[..k], p) && !Limited(clauses[..k], q)
  }

  lemma {:induction false} RulesInOrder(clauses: seq<Value>, i: nat, j: nat)
    requires Collect(clauses).Rules? && i < j < |Collect(clauses).rules|
    ensures Sooner(clauses, Collect(clauses).rules[i].0, Collect(clauses).rules[j].0)
    decreases |clauses|
  {
    hide Limited, AddClause;
    var rules := Collect(clauses).rules;
    NothingCollected(clauses);
    var n := |clauses| - 1;
    var fewer := clauses[..n];
    CollectLast(clauses, n);
    var earlier := Collect(fewer).rules;
    AddsLast(earlier, clauses[n]);
    if j < |earlier| {
      RulesInOrder(fewer, i, j);
      var k: int :| 0 <= k <= n && Limited(fewer[..k], rules[i].0) && !Limited(fewer[..k], rules[j].0);
      assert fewer[..k] == clauses[..k];
    } else {
      CollectTabulates(fewer);
      CollectTabulates(clauses);
      SameClause(fewer, earlier, rules[i].0);
      SameClause(fewer, earlier, rules[j].0);
      assert clauses[..n] == fewer;
      assert Decides(earlier, rules[i].0);
    }
  }

  lemma NothingCollected(clauses: seq<Value>)
    ensures clauses == [] ==> Collect(clauses) == Rules([])
  {
  }

  lemma AddsLast(rules: seq<(int, int)>, clause: Value)
    requires AddClause(rules, clause).Rules?
    ensures var more := AddClause(rules, clause).rules;
            more == rules || (|more| == |rules| + 1 && more[..|rules|] == rules)
  {
    hide RuleOf, Decides;
  }

  lemma BranchAlternative(d: seq<(string, Value)>, shape: Shape, rule: (int, int))
    requires Distinct(d) && Shaped(d, shape)
    ensures Alternative(d, Branch(d, shape, rule), rule.0, rule.1)
  {
    var fixed := FixedProperties(shape, rule);
    FixedMeans(shape, rule);
    var b := Branch(d, shape, rule);
    BranchIs(d, shape, rule);
    BranchNoClauses(d, shape, rule);
    hide At, Distinct, FixedProperties, FixedTo, Branch, Put, Drop;
    forall key | key != "allOf"
      ensures At(b.entries, key) == if key == "properties" then Some(Dict(fixed)) else At(d, key)
    {
      BranchAt(d, shape, rule, key);
    }
    assert At(d, "properties") == Some(Dict(shape.properties));
  }

  lemma BranchNoClauses(d: seq<(string, Value)>, shape: Shape, rule: (int, int))
    requires Distinct(d)
    ensures !Has(Branch(d, shape, rule).entries, "allOf")
  {
    hide At, Distinct, FixedProperties, Put, Drop;
    BranchIs(d, shape, rule);
    DropAt(d, "allOf", "allOf");
    PutAt(Drop(d, "allOf"), ("properties", Dict(FixedProperties(shape, rule))), "allOf");
  }

  lemma PutSets(d: seq<(string, Value)>, name: string, v: Value)
    ensures SetOnly(d, Put(d, (name, v)), name, v)
  {
    hide At, Put;
    forall key ensures At(Put(d, (name, v)), key) == if key == name then Some(v) else At(d, key) {
      PutAt(d, (name, v), key);
    }
  }

  lemma FixedMeans(shape: Shape, rule: (int, int))
    requires At(shape.properties, "precision") == Some(Dict(shape.precision))
    requires At(shape.properties, "scale") == Some(Dict(shape.scale))
    ensures FixedTo(shape.properties, FixedProperties(shape, rule), rule.0, rule.1)
  {
    var bound := Tighter(At(shape.scale, "maximum"), rule.1);
    var constant := Put(shape.precision, ("const", Int(rule.0)));
    var bounded := Put(shape.scale, ("maximum", Int(bound)));
    var fixed := FixedProperties(shape, rule);
    hide At, Put, Tighter, FixedProperties;
    PutSets(shape.precision, "const", Int(rule.0));
    PutSets(shape.scale, "maximum", Int(bound));
    TighterLesser(At(shape.scale, "maximum"), rule.1);
    forall name ensures At(fixed, name) == if name == "scale" then Some(Dict(bounded))
        else if name == "precision" then Some(Dict(constant)) else At(shape.properties, name)
    {
      FixedAt(shape, rule, name);
    }
    hide SetOnly, Lesser;
  }

  lemma FixedAt(shape: Shape, rule: (int, int), name: string)
    ensures At(FixedProperties(shape, rule), name) == if name == "scale"
        then Some(Dict(Put(shape.scale, ("maximum", Int(Tighter(At(shape.scale, "maximum"), rule.1))))))
        else if name == "precision" then Some(Dict(Put(shape.precision, ("const", Int(rule.0)))))
        else At(shape.properties, name)
  {
    var p := ("precision", Dict(Put(shape.precision, ("const", Int(rule.0)))));
    var q := ("scale", Dict(Put(shape.scale, ("maximum", Int(Tighter(At(shape.scale, "maximum"), rule.1))))));
    hide Put, At;
    PutAt(shape.properties, p, name);
    PutAt(Put(shape.properties, p), q, name);
  }

  lemma TighterLesser(stated: Option<Value>, m: int)
    ensures Lesser(Tighter(stated, m), m, stated)
  {
  }

  lemma BranchesExpanded(d: seq<(string, Value)>, shape: Shape, rules: seq<(int, int)>)
    requires Distinct(d) && Shaped(d, shape) && NumericObject(d, shape.clauses, shape.low, shape.high)
    requires Collect(shape.clauses) == Rules(rules) && Covers(rules, shape.low, shape.high)
    ensures Expanded(d, Branches(d, shape, rules), shape.clauses, shape.low, shape.high)
  {
    hide Distinct, Shaped, NumericObject, Agreeing, Spans, Covers, Tabulated, Clause, Alternative, Branch, At, Sooner;
    CollectTabulates(shape.clauses);
    TabulatedAgrees(shape.clauses, rules);
    SpansCovers(shape.clauses, rules, shape.low, shape.high);
    CoversCount(rules, shape.low, shape.high);
    var branches := Branches(d, shape, rules);
    var precisions := seq(|rules|, k requires 0 <= k < |rules| => rules[k].0);
    forall p: int
      ensures shape.low <= p <= shape.high <==> p in precisions
    {
      CoversDecides(rules, precisions, shape.low, shape.high, p);
    }
    forall k | 0 <= k < |branches| ensures OneAlternative(d, branches[k], shape.clauses, precisions[k]) {
      BranchAlternative(d, shape, rules[k]);
      RuleStated(shape.clauses, rules, k);
    }
    forall i, j | 0 <= i < j < |precisions| ensures Sooner(shape.clauses, precisions[i], precisions[j]) {
      RulesInOrder(shape.clauses, i, j);
    }
  }

  lemma CoversDecides(rules: seq<(int, int)>, precisions: seq<int>, low: int, high: int, p: int)
    requires Covers(rules, low, high)
    requires |precisions| == |rules| && forall k :: 0 <= k < |rules| ==> precisions[k] == rules[k].0
    ensures low <= p <= high <==> p in precisions
  {
    if low <= p <= high {
      assert Decides(rules, p);
      var k :| 0 <= k < |rules| && rules[k].0 == p;
      assert precisions[k] == p;
    }
  }

  lemma RuleStated(clauses: seq<Value>, rules: seq<(int, int)>, k: nat)
    requires Tabulated(clauses, rules) && k < |rules|
    ensures exists c :: c in clauses && Clause(c, rules[k].0, rules[k].1)
  {
    hide RuleOf, Clause;
    assert Stated(clauses, rules[k]);
    var c :| c in clauses && RuleOf(c) == Rule(rules[k].0, rules[k].1);
    ClauseRule(c, rules[k].0, rules[k].1);
  }

  ghost predicate ExpandableFit(fit: Fit) {
    && fit.Fits? && Agreeing(fit.shape.clauses)
    && Spans(fit.shape.clauses, fit.shape.low, fit.shape.high)
  }

  /** The keys the alternatives repeat and the clauses are not beside the union. */
  ghost function Kept(d: seq<(string, Value)>, key: string): Option<Value> {
    if key in {"type", "required", "properties", "additionalProperties", "allOf"} then None else At(d, key)
  }

  lemma FaultsMeans(d: seq<(string, Value)>)
    ensures Faults(d) <==> Fitting(d).Fault? || UnreadableFit(Fitting(d))
  {
    hide At, Fitting, NumericObject, UnreadableAt, Candidate, Searchable;
    FittingFaults(d);
    if Fitting(d).Fits? { FittingFits(d); }
    forall clauses, low, high | NumericObject(d, clauses, low, high)
      ensures Fitting(d).Fits? && Fitting(d).shape.clauses == clauses
    {
      NumericFits(d, clauses, low, high);
    }
  }

  ghost predicate UnreadableFit(fit: Fit) { fit.Fits? && exists k :: UnreadableAt(fit.shape.clauses, k) }

  lemma ExpandableMeans(d: seq<(string, Value)>)
    ensures Expandable(d) <==> ExpandableFit(Fitting(d))
  {
    hide At, Fitting, NumericObject, Agreeing, Spans;
    if Fitting(d).Fits? { FittingFits(d); }
    forall clauses, low, high | NumericObject(d, clauses, low, high)
      ensures Fitting(d).Fits? && Fitting(d).shape.clauses == clauses
      ensures Fitting(d).shape.low == low && Fitting(d).shape.high == high
    {
      NumericFits(d, clauses, low, high);
    }
  }


  /** The expansion happens exactly for the schemas that can be expanded, with the record
      of it; the union replaces the clauses and what the alternatives repeat; the pass
      stops exactly at the faults; any other schema stays with no record. */
  lemma ExpandMeans(d: seq<(string, Value)>, document: string, pointer: string)
    requires Distinct(d)
    ensures Expand(d, document, pointer) == Failed(TypeFault) <==> Faults(d)
    ensures match Expand(d, document, pointer)
            case Failed(failure) => !Expandable(d) && failure == TypeFault
            case Done(result, log) =>
              if !Expandable(d) then result == d && log == []
              else
              && log == [Rewrite("conditional-numeric-to-one-of", document, pointer)]
              && At(result, "oneOf").Some? && At(result, "oneOf").value.List?
              && (exists clauses, low, high :: Expanded(d, At(result, "oneOf").value.items, clauses, low, high))
              && forall key :: key != "oneOf" ==> At(result, key) == Kept(d, key)
  {
    hide At, Distinct, Fitting, Collect, Covers, Branches, Outer, NumericObject, Agreeing, Spans, UnreadableAt,
        Expanded;
    FaultsMeans(d);
    ExpandableMeans(d);
    hide Faults, Expandable;
    if Fitting(d).Fits? {
      var shape := Fitting(d).shape;
      CollectMeans(shape.clauses);
      FittingShaped(d);
      FittingFits(d);
      if Collect(shape.clauses).Rules? {
        var rules := Collect(shape.clauses).rules;
        CollectTabulates(shape.clauses);
        SpansCovers(shape.clauses, rules, shape.low, shape.high);
        if Covers(rules, shape.low, shape.high) {
          BranchesExpanded(d, shape, rules);
          UnionAt(d, List(Branches(d, shape, rules)));
        }
      }
    }
  }

  lemma UnionAt(d: seq<(string, Value)>, union: Value)
    requires Distinct(d)
    ensures At(Put(Outer(d), ("oneOf", union)), "oneOf") == Some(union)
    ensures forall key :: key != "oneOf" ==> At(Put(Outer(d), ("oneOf", union)), key) == Kept(d, key)
  {
    hide At, Distinct, Put, Outer;
    forall key ensures At(Put(Outer(d), ("oneOf", union)), key) == if key == "oneOf" then Some(union)
        else Kept(d, key)
    {
      PutAt(Outer(d), ("oneOf", union), key);
      OuterAt(d, key);
    }
  }

  // ----- closure and defaults

  ghost predicate Forbids(v: Value) { v == Bool(false) || v == Dict([("not", Dict([]))]) }

  /** What a closure keyword states, `not` anything being `false`. */
  ghost function Restated(v: Value): Value { if Forbids(v) then Bool(false) else v }

  /** The keyword goes; its value is `additionalProperties` when nothing else was, with the
      record of it, and must state the same closure when something was. */
  lemma CloseMeans(d: seq<(string, Value)>, document: string, pointer: string)
    requires Distinct(d)
    ensures var (stated, other) := (At(d, "unevaluatedProperties"), At(d, "additionalProperties"));
      match Close(d, document, pointer)
      case Failed(failure) =>
        && stated.Some? && other.Some? && !PyEqual(Restated(other.value), Restated(stated.value))
        && failure == Conflict(pointer)
      case Done(result, log) =>
        && !Has(result, "unevaluatedProperties")
        && (forall key :: key != "unevaluatedProperties" && key != "additionalProperties" ==>
              At(result, key) == At(d, key))
        && (if stated.Some? && other.None?
            then At(result, "additionalProperties") == Some(Restated(stated.value))
                 && log == [Rewrite("unevaluated-properties-to-additional", document, pointer)]
            else At(result, "additionalProperties") == other && log == [])
        && (stated.Some? && other.Some? ==> PyEqual(Restated(other.value), Restated(stated.value)))
  {
    hide At, Distinct, Put, Drop, PyEqual;
    var rest := Drop(d, "unevaluatedProperties");
    forall key ensures At(rest, key) == if key == "unevaluatedProperties" then None else At(d, key) {
      DropAt(d, "unevaluatedProperties", key);
    }
    forall key, v ensures At(Put(rest, ("additionalProperties", v)), key) ==
        if key == "additionalProperties" then Some(v) else At(rest, key)
    {
      PutAt(rest, ("additionalProperties", v), key);
    }
    forall v ensures Closure(v) == Restated(v) { }
    hide Closure, Restated;
  }

  /** A default beside an enumeration goes, with the record of it; nothing else changes. */
  lemma DropDefaultMeans(d: seq<(string, Value)>, document: string, pointer: string)
    requires Distinct(d)
    ensures var drops := Has(d, "enum") && Has(d, "default");
      && DropDefault(d, document, pointer).Done?
      && DropDefault(d, document, pointer).log ==
          (if drops then [Rewrite("enum-default-conflict-dropped", document, pointer)] else [])
      && var result := DropDefault(d, document, pointer).value;
         forall key :: At(result, key) == if key == "default" && drops then None else At(d, key)
  {
    hide At, Distinct, Drop;
    forall key ensures At(Drop(d, "default"), key) == if key == "default" then None else At(d, key) {
      DropAt(d, "default", key);
    }
  }
}
