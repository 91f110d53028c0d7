/** Which verdicts the preparation pass keeps: a schema it rewrites accepts exactly the
    instances the original accepts whose members the restated closure lets by. */
module PrepareLaws {
  import opened Wrappers
  import opened Members
  import opened Schemas
  import opened Prepare

  // ----- dicts

  lemma {:induction false} AtEntry(d: seq<(string, Value)>, e: (string, Value))
    requires Distinct(d)
    ensures e in d <==> At(d, e.0) == Some(e.1)
  {
    var at := Find(d, e.0);
    if e in d {
      var k :| 0 <= k < |d| && d[k] == e;
      assert at == k;
    }
  }

  lemma PutAt(d: seq<(string, Value)>, m: (string, Value), key: string)
    ensures At(Put(d, m), key) == if key == m.0 then Some(m.1) else At(d, key)
  {
    var p, at, was, slot := Put(d, m), Find(Put(d, m), key), Find(d, key), Find(d, m.0);
    assert p[slot] == m;
    assert forall k :: 0 <= k < |p| && k != slot ==> k < |d| && p[k] == d[k];
    if key != m.0 {
      assert forall k :: 0 <= k < |d| && d[k].0 == key ==> p[k] == d[k];
    }
  }

  lemma PutEntry(d: seq<(string, Value)>, m: (string, Value), e: (string, Value))
    requires Distinct(d)
    ensures Distinct(Put(d, m))
    ensures e in Put(d, m) <==> e == m || (e in d && e.0 != m.0)
  {
    PutMembers(d, m, e);
  }

  lemma {:induction false} DropEntry(d: seq<(string, Value)>, key: string, e: (string, Value))
    ensures e in Drop(d, key) <==> e in d && e.0 != key
  {
    if d != [] {
      DropEntry(d[1..], key, e);
      assert d == [d[0]] + d[1..];
    }
  }

  lemma {:induction false} DropDistinct(d: seq<(string, Value)>, key: string)
    requires Distinct(d)
    ensures Distinct(Drop(d, key))
  {
    if d != [] {
      DropDistinct(d[1..], key);
      var rest := Drop(d[1..], key);
      forall k | 0 <= k < |rest| ensures rest[k].0 != d[0].0 {
        DropEntry(d[1..], key, rest[k]);
        var j :| 0 <= j < |d[1..]| && d[1..][j] == rest[k];
        assert d[j + 1] == rest[k];
      }
    }
  }

  lemma DropAt(d: seq<(string, Value)>, key: string, other: string)
    requires Distinct(d)
    ensures At(Drop(d, key), other) == if other == key then None else At(d, other)
  {
    DropDistinct(d, key);
    var dropped := Drop(d, key);
    if At(dropped, other).Some? {
      var e := (other, At(dropped, other).value);
      AtEntry(dropped, e);
      DropEntry(d, key, e);
      AtEntry(d, e);
    }
    if At(d, other).Some? {
      var e := (other, At(d, other).value);
      AtEntry(d, e);
      DropEntry(d, key, e);
      AtEntry(dropped, e);
    }
  }

  lemma {:induction false} OuterEntry(d: seq<(string, Value)>, e: (string, Value))
    ensures e in Outer(d) <==> e in d && !Moved(e.0)
  {
    hide Moved;
    if d != [] {
      OuterEntry(d[..|d| - 1], e);
      assert d == d[..|d| - 1] + [d[|d| - 1]];
    }
  }

  lemma {:induction false} OuterDistinct(d: seq<(string, Value)>)
    requires Distinct(d)
    ensures Distinct(Outer(d))
  {
    hide Moved;
    if d != [] {
      var n := |d| - 1;
      OuterDistinct(d[..n]);
      var rest := Outer(d[..n]);
      forall k | 0 <= k < |rest| ensures rest[k].0 != d[n].0 {
        OuterEntry(d[..n], rest[k]);
        var j :| 0 <= j < n && d[..n][j] == rest[k];
      }
    }
  }

  lemma OuterAt(d: seq<(string, Value)>, key: string)
    requires Distinct(d)
    ensures At(Outer(d), key) == if Moved(key) then None else At(d, key)
  {
    hide Moved;
    OuterDistinct(d);
    if At(Outer(d), key).Some? {
      var e := (key, At(Outer(d), key).value);
      AtEntry(Outer(d), e);
      OuterEntry(d, e);
      AtEntry(d, e);
    }
    if At(d, key).Some? {
      var e := (key, At(d, key).value);
      AtEntry(d, e);
      OuterEntry(d, e);
      AtEntry(Outer(d), e);
    }
  }

  // ----- a keyword and its siblings

  /** The siblings a keyword other than `unevaluatedProperties` consults. */
  ghost predicate SameSiblings(c: seq<(string, Value)>, d: seq<(string, Value)>) {
    && At(c, "then") == At(d, "then") && At(c, "else") == At(d, "else")
    && At(c, "prefixItems") == At(d, "prefixItems")
    && At(c, "minContains") == At(d, "minContains") && At(c, "maxContains") == At(d, "maxContains")
  }

  ghost predicate SameNames(o: Oracle, c: seq<(string, Value)>, d: seq<(string, Value)>) {
    forall name :: NamedBy(o, c, name) <==> NamedBy(o, d, name)
  }

  lemma HoldsBeside(o: Oracle, c: seq<(string, Value)>, d: seq<(string, Value)>, e: (string, Value), i: Value)
    requires SameSiblings(c, d) && e in c && e in d
    requires KeywordOf(e.0) != UnevaluatedProperties
    requires KeywordOf(e.0) == AdditionalProperties ==> SameNames(o, c, d)
    ensures Holds(o, Dict(c), e, i) <==> Holds(o, Dict(d), e, i)
  {
    hide KeywordOf, At, Accepts, NamedBy, MemberHolds, PatternHolds, ExactlyOne, Equal, TypeHolds;
  }

  // ----- closure

  /** No member escapes the restated closure: what `unevaluatedProperties` lets by
      through a subschema applied in place, the schema's own property keywords name. */
  ghost predicate Tight(o: Oracle, d: seq<(string, Value)>, i: Value) {
    Has(d, "unevaluatedProperties") && !Has(d, "additionalProperties") && i.Dict? ==>
      forall j :: 0 <= j < |i.entries| ==>
        NamedBy(o, d, i.entries[j].0) || Accepts(o, At(d, "unevaluatedProperties").value, i.entries[j].1)
  }

  /** Every instance the schema accepts is tight. */
  ghost predicate Settled(o: Oracle, d: seq<(string, Value)>) {
    forall i :: Accepts(o, Dict(d), i) ==> Tight(o, d, i)
  }

  /** What the keywords show by themselves: `additionalProperties` is stated beside
      it, or no reference is applied in place and subschemas applied in place name
      only properties the schema names too. */
  predicate Covered(d: seq<(string, Value)>) {
    Has(d, "additionalProperties") || forall k :: 0 <= k < |d| ==> CoveredEntry(d[k], d)
  }

  predicate CoveredEntry(e: (string, Value), d: seq<(string, Value)>)
    decreases e
  {
    match (KeywordOf(e.0), e.1)
    case (AllOf, List(vs)) => forall k :: 0 <= k < |vs| ==> CoveredSub(vs[k], d)
    case (AnyOf, List(vs)) => forall k :: 0 <= k < |vs| ==> CoveredSub(vs[k], d)
    case (OneOf, List(vs)) => forall k :: 0 <= k < |vs| ==> CoveredSub(vs[k], d)
    case (If, v) => CoveredSub(v, d)
    case (Then, v) => CoveredSub(v, d)
    case (Else, v) => CoveredSub(v, d)
    case (Reference, v) => false
    case _ => true
  }

  predicate CoveredSub(s: Value, d: seq<(string, Value)>)
    decreases s
  {
    s.Dict? ==>
      && !Has(s.entries, "additionalProperties") && !Has(s.entries, "unevaluatedProperties")
      && NamesWithin(s.entries, d, "properties") && NamesWithin(s.entries, d, "patternProperties")
      && forall k :: 0 <= k < |s.entries| ==> CoveredEntry(s.entries[k], d)
  }

  /** The keys of the map under `word` are among those of the other schema's. */
  predicate NamesWithin(c: seq<(string, Value)>, d: seq<(string, Value)>, word: string) {
    Has(c, word) && At(c, word).value.Dict? ==>
      forall k :: 0 <= k < |At(c, word).value.entries| ==>
        Has(d, word) && At(d, word).value.Dict? && Has(At(d, word).value.entries, At(c, word).value.entries[k].0)
  }

  // ----- regular schemas

  /** How a schema may state `unevaluatedProperties`: not at all, or where restating
      it keeps the verdicts, or where its keywords show as much. */
  datatype Closing = Closed | Settling(o: Oracle) | Covering

  ghost predicate Closes(d: seq<(string, Value)>, how: Closing) {
    Has(d, "unevaluatedProperties") ==>
      match how
      case Closed => false
      case Settling(o) => Settled(o, d)
      case Covering => Covered(d)
  }

  /** A schema as the pass may be given it: names in a dict are unique, `required`
      is a list, the item keywords outside the model hold no schema, and closure is
      stated as told. */
  ghost predicate Regular(v: Value, how: Closing)
    decreases v, 1
  {
    match v
    case List(items) => forall k :: 0 <= k < |items| ==> Regular(items[k], how)
    case Dict(d) =>
      && Distinct(d) && (Has(d, "required") ==> At(d, "required").value.List?)
      && Closes(d, how)
      && forall e :: e in d ==> RegularEntry(e, how)
    case _ => true
  }

  ghost predicate RegularEntry(e: (string, Value), how: Closing)
    decreases e, 0
  {
    if MapKey(e.0) && e.1.Dict? then Distinct(e.1.entries) && forall m :: m in e.1.entries ==> RegularMember(m, how)
    else if ListKey(e.0) && e.1.List? then forall k :: 0 <= k < |e.1.items| ==> Regular(e.1.items[k], how)
    else ValueKey(e.0) ==> Exempt(e.0, how) || (Regular(e.1, how) && (ItemKey(e.0) ==> !e.1.Dict? && !e.1.List?))
  }

  /** A closure value is taken over as it stands, not walked. */
  predicate Exempt(key: string, how: Closing) { how.Closed? && key == "additionalProperties" }

  ghost predicate RegularMember(m: (string, Value), how: Closing)
    decreases m, 0
  {
    Regular(m.1, how)
  }

  predicate ItemKey(key: string) { key == "unevaluatedItems" || key == "additionalItems" }

  lemma RegularProperties(d: seq<(string, Value)>, how: Closing, name: string)
    requires Regular(Dict(d), how) && Has(d, "properties") && At(d, "properties").value.Dict?
    requires Has(At(d, "properties").value.entries, name)
    ensures var properties := At(d, "properties").value.entries;
            Distinct(properties) && Regular(At(properties, name).value, how)
  {
    var properties := At(d, "properties").value.entries;
    assert RegularEntry(("properties", Dict(properties)), how);
    assert RegularMember((name, At(properties, name).value), how);
  }

  // ----- one clause

  lemma OnlyEntry(d: seq<(string, Value)>, key: string, e: (string, Value))
    requires Distinct(d) && KeysAre(d, {key})
    ensures Has(d, key) && (e in d <==> e == (key, At(d, key).value))
  {
    var keys := set k | 0 <= k < |d| :: d[k].0;
    assert key in keys;
    if At(d, key).Some? { AtEntry(d, (key, At(d, key).value)); }
    if e in d {
      assert e.0 in keys;
      AtEntry(d, e);
    }
  }

  lemma GuardHolds(o: Oracle, guarded: seq<(string, Value)>, p: int, x: Value)
    requires Distinct(guarded) && KeysAre(guarded, {"const"}) && At(guarded, "const") == Some(Int(p))
    ensures Accepts(o, Dict(guarded), x) <==> Equal(Int(p), x)
  {
    forall e ensures e in guarded <==> e == ("const", Int(p)) { OnlyEntry(guarded, "const", e); }
    assert Holds(o, Dict(guarded), ("const", Int(p)), x) <==> Equal(Int(p), x) by { hide Equal; }
  }

  lemma BoundHolds(o: Oracle, bounded: seq<(string, Value)>, m: int, y: Value)
    requires Distinct(bounded) && forall e :: e in bounded ==> e.0 in {"type", "maximum"}
    requires At(bounded, "maximum") == Some(Int(m))
    requires (Has(bounded, "type") ==> At(bounded, "type") == Some(Str("integer")))
    requires Integral(y)
    ensures Accepts(o, Dict(bounded), y) <==> Numeric(y).value <= m as real
  {
    AtEntry(bounded, ("maximum", Int(m)));
    forall e | e in bounded ensures Holds(o, Dict(bounded), e, y) <==> e.0 == "type" || Numeric(y).value <= m as real {
      AtEntry(bounded, e);
      BoundEntryHolds(o, bounded, e, m, y);
    }
  }

  lemma BoundEntryHolds(o: Oracle, bounded: seq<(string, Value)>, e: (string, Value), m: int, y: Value)
    requires e in bounded && (e == ("type", Str("integer")) || e == ("maximum", Int(m))) && Integral(y)
    ensures Holds(o, Dict(bounded), e, y) <==> e.0 == "type" || Numeric(y).value <= m as real
  {
    assert KeywordOf("type") == Type && KeywordOf("maximum") == Maximum;
  }

  lemma OneProperty(o: Oracle, c: seq<(string, Value)>, name: string, sub: Value, i: Value)
    requires Distinct(c) && KeysAre(c, {"properties"}) && At(c, "properties") == Some(Dict([(name, sub)])) && i.Dict?
    ensures Accepts(o, Dict(c), i) <==> (Has(i.entries, name) ==> Accepts(o, sub, At(i.entries, name).value))
  {
    forall e ensures e in c <==> e == ("properties", Dict([(name, sub)])) { OnlyEntry(c, "properties", e); }
    PropertiesHold(o, c, [(name, sub)], i);
    assert MemberHolds(o, (name, sub), i) <==> (Has(i.entries, name) ==> Accepts(o, sub, At(i.entries, name).value));
    hide MemberHolds, Holds;
    assert (name, sub) in [(name, sub)];
  }

  lemma PropertiesHold(o: Oracle, d: seq<(string, Value)>, properties: seq<(string, Value)>, i: Value)
    requires ("properties", Dict(properties)) in d && i.Dict?
    ensures Holds(o, Dict(d), ("properties", Dict(properties)), i) <==>
        forall e :: e in properties ==> MemberHolds(o, e, i)
  {
    hide MemberHolds;
    assert KeywordOf("properties") == Properties;
  }

  lemma IfThenHolds(o: Oracle, c: seq<(string, Value)>, i: Value)
    requires Distinct(c) && KeysAre(c, {"if", "then"}) && Has(c, "if") && Has(c, "then")
    ensures Accepts(o, Dict(c), i) <==> (Accepts(o, At(c, "if").value, i) ==> Accepts(o, At(c, "then").value, i))
  {
    var (f, t) := (("if", At(c, "if").value), ("then", At(c, "then").value));
    var keys := set k | 0 <= k < |c| :: c[k].0;
    AtEntry(c, f);
    AtEntry(c, t);
    forall e ensures e in c <==> e == f || e == t {
      if e in c {
        assert e.0 in keys;
        AtEntry(c, e);
      }
    }
    IfHolds(o, c, f, i);
    ThenHolds(o, c, t, i);
    hide Holds;
  }

  lemma IfHolds(o: Oracle, c: seq<(string, Value)>, e: (string, Value), i: Value)
    requires e in c && e.0 == "if" && Has(c, "then") && !Has(c, "else")
    ensures Holds(o, Dict(c), e, i) <==> (Accepts(o, e.1, i) ==> Accepts(o, At(c, "then").value, i))
  {
    hide Accepts;
    assert KeywordOf("if") == If;
  }

  lemma ThenHolds(o: Oracle, c: seq<(string, Value)>, e: (string, Value), i: Value)
    requires e in c && e.0 == "then"
    ensures Holds(o, Dict(c), e, i)
  {
    assert KeywordOf("then") == Schemas.Then;
  }

  /** The instance's precision is the given one. */
  ghost predicate Precisely(i: Value, p: int)
    requires i.Dict?
  {
    Has(i.entries, "precision") ==> Equal(Int(p), At(i.entries, "precision").value)
  }

  ghost predicate Within(i: Value, m: int)
    requires i.Dict?
  {
    Has(i.entries, "scale") ==> AtMost(At(i.entries, "scale").value, m)
  }

  /** A number is at most `m`; what is no number is not bounded. */
  ghost predicate AtMost(y: Value, m: int) { Numeric(y).Some? ==> Numeric(y).value <= m as real }

  /** The parts a rule is read from. */
  lemma RuleParts(c: seq<(string, Value)>)
    requires RuleOf(Dict(c)).Rule?
    ensures KeysAre(c, {"if", "then"}) && Has(c, "if") && Has(c, "then") && At(c, "if").value.Dict?
    ensures At(c, "then").value.Dict?
    ensures PropertyOf(At(c, "if").value.entries, "precision") && PropertyOf(At(c, "then").value.entries, "scale")
    ensures BoundRule(SubOf(At(c, "if").value.entries, "precision"), SubOf(At(c, "then").value.entries, "scale")) ==
        RuleOf(Dict(c))
  {
    hide KeysAre, BoundRule;
    KeyHeld(At(c, "if").value.entries, "properties");
    KeyHeld(At(c, "then").value.entries, "properties");
  }

  lemma KeyHeld(d: seq<(string, Value)>, key: string)
    requires KeysAre(d, {key})
    ensures Has(d, key)
  {
    var keys := set k | 0 <= k < |d| :: d[k].0;
    assert key in keys;
  }

  lemma BoundParts(guarded: seq<(string, Value)>, bounded: seq<(string, Value)>)
    requires BoundRule(guarded, bounded).Rule?
    ensures KeysAre(guarded, {"const"}) && At(guarded, "const") == Some(Int(BoundRule(guarded, bounded).precision))
    ensures forall e :: e in bounded ==> e.0 in {"type", "maximum"}
    ensures At(bounded, "maximum") == Some(Int(BoundRule(guarded, bounded).maximum))
    ensures Has(bounded, "type") ==> At(bounded, "type") == Some(Str("integer"))
  {
    hide KeysAre, At;
  }

  lemma RegularProperty(v: Value, name: string)
    requires Regular(v, Closed) && v.Dict? && PropertyOf(v.entries, name)
    ensures Distinct(v.entries) && Distinct(SubOf(v.entries, name))
  {
    hide KeysAre;
    var properties := At(v.entries, "properties").value.entries;
    var entry := ("properties", Dict(properties));
    assert entry in v.entries;
    assert RegularEntry(entry, Closed);
    assert properties[0] in properties;
    assert RegularMember(properties[0], Closed);
    assert Regular(Dict(SubOf(v.entries, name)), Closed);
  }

  lemma RegularClause(c: seq<(string, Value)>)
    requires Regular(Dict(c), Closed) && Has(c, "if") && Has(c, "then")
    ensures Distinct(c) && Regular(At(c, "if").value, Closed) && Regular(At(c, "then").value, Closed)
  {
    assert RegularEntry(("if", At(c, "if").value), Closed);
    assert RegularEntry(("then", At(c, "then").value), Closed);
  }

  lemma PropertyHolds(o: Oracle, c: seq<(string, Value)>, name: string, i: Value)
    requires Distinct(c) && PropertyOf(c, name) && i.Dict?
    ensures Accepts(o, Dict(c), i) <==>
        (Has(i.entries, name) ==> Accepts(o, Dict(SubOf(c, name)), At(i.entries, name).value))
  {
    var properties := At(c, "properties").value.entries;
    assert properties == [(name, Dict(SubOf(c, name)))];
    hide KeysAre, Accepts;
    OneProperty(o, c, name, Dict(SubOf(c, name)), i);
  }

  /** A clause bounds the scale of the instances of its precision. */
  lemma ClauseHolds(o: Oracle, clause: Value, i: Value)
    requires RuleOf(clause).Rule? && Regular(clause, Closed)
    requires i.Dict? && (Has(i.entries, "scale") ==> Integral(At(i.entries, "scale").value))
    ensures Accepts(o, clause, i) <==> (Precisely(i, RuleOf(clause).precision) ==> Within(i, RuleOf(clause).maximum))
  {
    var c := clause.entries;
    RuleParts(c);
    hide Accepts, KeysAre, Regular, RuleOf, BoundRule, Equal, At, PropertyOf, SubOf;
    var (f, t) := (At(c, "if").value, At(c, "then").value);
    var (guarded, bounded) := (SubOf(f.entries, "precision"), SubOf(t.entries, "scale"));
    RegularClause(c);
    RegularProperty(f, "precision");
    RegularProperty(t, "scale");
    BoundParts(guarded, bounded);
    IfThenHolds(o, c, i);
    PropertyHolds(o, f.entries, "precision", i);
    PropertyHolds(o, t.entries, "scale", i);
    if Has(i.entries, "precision") {
      GuardHolds(o, guarded, RuleOf(clause).precision, At(i.entries, "precision").value);
    }
    if Has(i.entries, "scale") { BoundHolds(o, bounded, RuleOf(clause).maximum, At(i.entries, "scale").value); }
  }

  predicate PropertyOf(c: seq<(string, Value)>, name: string) {
    && KeysAre(c, {"properties"}) && At(c, "properties").Some? && At(c, "properties").value.Dict?
    && |At(c, "properties").value.entries| == 1 && At(c, "properties").value.entries[0].0 == name
    && At(c, "properties").value.entries[0].1.Dict?
  }

  function SubOf(c: seq<(string, Value)>, name: string): seq<(string, Value)>
    requires PropertyOf(c, name)
  {
    At(c, "properties").value.entries[0].1.entries
  }

  // ----- the table of rules

  ghost predicate OneRuleEach(rules: seq<(int, int)>) {
    forall j, k :: 0 <= j < k < |rules| ==> rules[j].0 != rules[k].0
  }

  /** The table holds the rule of every clause, and no rule of its own. */
  ghost predicate Tabulated(clauses: seq<Value>, rules: seq<(int, int)>) {
    && (forall c :: c in clauses ==> Ruled(rules, c))
    && (forall r :: r in rules ==> Stated(clauses, r))
  }

  ghost predicate Ruled(rules: seq<(int, int)>, clause: Value) {
    RuleOf(clause).Rule? && (RuleOf(clause).precision, RuleOf(clause).maximum) in rules
  }

  ghost predicate Stated(clauses: seq<Value>, rule: (int, int)) {
    exists c :: c in clauses && RuleOf(c) == Rule(rule.0, rule.1)
  }

  /** One more clause adds its rule, or repeats one already there. */
  lemma AddTabulates(clauses: seq<Value>, rules: seq<(int, int)>, clause: Value)
    requires OneRuleEach(rules) && Tabulated(clauses, rules) && AddClause(rules, clause).Rules?
    ensures OneRuleEach(AddClause(rules, clause).rules) && Tabulated(clauses + [clause], AddClause(rules, clause).rules)
  {
    hide RuleOf;
    var now := AddClause(rules, clause).rules;
    forall c | c in clauses + [clause] ensures Ruled(now, c) {
      if c in clauses { assert Ruled(rules, c); }
    }
    forall r | r in now ensures Stated(clauses + [clause], r) {
      if r in rules {
        assert Stated(clauses, r);
        var c :| c in clauses && RuleOf(c) == Rule(r.0, r.1);
        assert c in clauses + [clause];
      } else {
        assert clause in clauses + [clause];
      }
    }
  }

  lemma {:induction false} CollectTabulates(clauses: seq<Value>)
    requires Collect(clauses).Rules?
    ensures OneRuleEach(Collect(clauses).rules) && Tabulated(clauses, Collect(clauses).rules)
    decreases |clauses|
  {
    hide AddClause, OneRuleEach, Ruled, Stated;
    if clauses == [] {
      NothingTabulated();
    } else {
      var n := |clauses| - 1;
      CollectTabulates(clauses[..n]);
      AddTabulates(clauses[..n], Collect(clauses[..n]).rules, clauses[n]);
      assert clauses == clauses[..n] + [clauses[n]];
    }
  }

  lemma NothingTabulated()
    ensures OneRuleEach([]) && Tabulated([], [])
  {
  }

  // ----- one branch

  lemma ConstHolds(o: Oracle, ps: seq<(string, Value)>, p: int, x: Value)
    requires Distinct(ps) && !Has(ps, "const") && !Has(ps, "unevaluatedProperties")
    ensures Accepts(o, Dict(Put(ps, ("const", Int(p)))), x) <==> Accepts(o, Dict(ps), x) && Equal(Int(p), x)
  {
    hide Holds, Put, Equal, KeywordOf, At, SameSiblings, SameNames, Distinct, Evaluated;
    var m := ("const", Int(p));
    var put := Put(ps, m);
    forall e ensures e in put <==> e == m || e in ps {
      PutEntry(ps, m, e);
      if e in ps { AtEntry(ps, e); }
    }
    PutBeside(o, ps, m);
    assert Holds(o, Dict(put), m, x) <==> Equal(Int(p), x) by { ConstMeans(o, put, m, x); }
    forall e | e in ps ensures Holds(o, Dict(put), e, x) <==> Holds(o, Dict(ps), e, x) {
      AtEntry(ps, e);
      NotUnevaluated(ps, e);
      HoldsBeside(o, put, ps, e, x);
    }
  }

  lemma ConstMeans(o: Oracle, d: seq<(string, Value)>, m: (string, Value), x: Value)
    requires m in d && m.0 == "const"
    ensures Holds(o, Dict(d), m, x) <==> Equal(m.1, x)
  {
    hide Equal;
    assert KeywordOf("const") == Const;
  }

  lemma NotUnevaluated(d: seq<(string, Value)>, e: (string, Value))
    requires Distinct(d) && !Has(d, "unevaluatedProperties") && e in d
    ensures KeywordOf(e.0) != UnevaluatedProperties
  {
    AtEntry(d, e);
  }

  /** Setting a keyword no other consults leaves the others' siblings alone. */
  lemma PutBeside(o: Oracle, d: seq<(string, Value)>, m: (string, Value))
    requires m.0 == "const" || m.0 == "maximum"
    ensures SameSiblings(Put(d, m), d) && SameNames(o, Put(d, m), d)
  {
    hide Put, At;
    forall key ensures At(Put(d, m), key) == if key == m.0 then Some(m.1) else At(d, key) { PutAt(d, m, key); }
  }

  lemma MaximumMeans(o: Oracle, d: seq<(string, Value)>, e: (string, Value), y: Value)
    requires e in d && e.0 == "maximum" && e.1.Int?
    ensures Holds(o, Dict(d), e, y) <==> AtMost(y, e.1.number)
  {
    assert KeywordOf("maximum") == Maximum;
  }

  lemma MaximumHolds(o: Oracle, ss: seq<(string, Value)>, m: int, y: Value)
    requires Distinct(ss) && !Has(ss, "unevaluatedProperties") && (Has(ss, "maximum") ==> At(ss, "maximum").value.Int?)
    ensures Accepts(o, Dict(Put(ss, ("maximum", Int(Tighter(At(ss, "maximum"), m))))), y)
       <==> Accepts(o, Dict(ss), y) && AtMost(y, m)
  {
    hide Holds, Put, KeywordOf, At, SameSiblings, SameNames, Distinct, Evaluated;
    var e := ("maximum", Int(Tighter(At(ss, "maximum"), m)));
    var put := Put(ss, e);
    forall x ensures x in put <==> x == e || (x in ss && x.0 != "maximum") { PutEntry(ss, e, x); }
    PutBeside(o, ss, e);
    MaximumMeans(o, put, e, y);
    forall x | x in ss && x.0 != "maximum" ensures Holds(o, Dict(put), x, y) <==> Holds(o, Dict(ss), x, y) {
      NotUnevaluated(ss, x);
      HoldsBeside(o, put, ss, x, y);
    }
    if Has(ss, "maximum") {
      AtEntry(ss, ("maximum", At(ss, "maximum").value));
      MaximumMeans(o, ss, ("maximum", At(ss, "maximum").value), y);
    }
    forall x | x in ss && x.0 == "maximum" ensures Some(x.1) == At(ss, "maximum") { AtEntry(ss, x); }
  }

  /** What a schema that fits is known to hold. */
  ghost predicate Shaped(d: seq<(string, Value)>, shape: Shape) {
    && At(d, "type") == Some(Str("object"))
    && At(d, "allOf") == Some(List(shape.clauses)) && At(d, "properties") == Some(Dict(shape.properties))
    && At(shape.properties, "precision") == Some(Dict(shape.precision))
        && At(shape.properties, "scale") == Some(Dict(shape.scale))
    && At(shape.precision, "type") == Some(Str("integer")) && At(shape.scale, "type") == Some(Str("integer"))
    && At(shape.precision, "minimum") == Some(Int(shape.low)) && At(shape.precision, "maximum") == Some(Int(shape.high))
    && !Has(shape.precision, "const") && (Has(shape.scale, "maximum") ==> At(shape.scale, "maximum").value.Int?)
    && Has(d, "required") && PyIn("precision", At(d, "required").value) == Some(true)
  }

  lemma FittingShaped(d: seq<(string, Value)>)
    requires Fitting(d).Fits?
    ensures Shaped(d, Fitting(d).shape)
  {
    hide At, PyIn;
  }

  /** Names in the dicts the rewrite edits are unique, and closure is already stated. */
  ghost predicate Neat(d: seq<(string, Value)>, shape: Shape) {
    && Distinct(d) && Distinct(shape.properties) && Distinct(shape.precision) && Distinct(shape.scale)
    && !Has(d, "unevaluatedProperties") && !Has(shape.precision, "unevaluatedProperties")
        && !Has(shape.scale, "unevaluatedProperties")
    && At(d, "required").Some? && At(d, "required").value.List?
  }

  lemma RegularNeat(d: seq<(string, Value)>, shape: Shape)
    requires Regular(Dict(d), Closed) && Shaped(d, shape)
    ensures Neat(d, shape)
  {
    hide At, PyIn;
    RegularProperties(d, Closed, "precision");
    RegularProperties(d, Closed, "scale");
  }

  function FixedProperties(shape: Shape, rule: (int, int)): seq<(string, Value)> {
    var precision := Dict(Put(shape.precision, ("const", Int(rule.0))));
    var scale := Dict(Put(shape.scale, ("maximum", Int(Tighter(At(shape.scale, "maximum"), rule.1)))));
    Put(Put(shape.properties, ("precision", precision)), ("scale", scale))
  }

  lemma FixedEntries(shape: Shape, rule: (int, int), e: (string, Value))
    requires Distinct(shape.properties)
    ensures e in FixedProperties(shape, rule) <==>
      || e == ("precision", Dict(Put(shape.precision, ("const", Int(rule.0)))))
      || e == ("scale", Dict(Put(shape.scale, ("maximum", Int(Tighter(At(shape.scale, "maximum"), rule.1))))))
      || (e in shape.properties && e.0 != "precision" && e.0 != "scale")
  {
    hide Put, At;
    var p := ("precision", Dict(Put(shape.precision, ("const", Int(rule.0)))));
    var q := ("scale", Dict(Put(shape.scale, ("maximum", Int(Tighter(At(shape.scale, "maximum"), rule.1))))));
    PutEntry(shape.properties, p, e);
    PutEntry(Put(shape.properties, p), q, e);
  }

  lemma FixedMembers(o: Oracle, d: seq<(string, Value)>, shape: Shape, rule: (int, int), i: Value)
    requires Shaped(d, shape) && Neat(d, shape) && i.Dict?
    ensures (forall e :: e in FixedProperties(shape, rule) ==> MemberHolds(o, e, i)) <==>
      (forall e :: e in shape.properties ==> MemberHolds(o, e, i)) && Precisely(i, rule.0) && Within(i, rule.1)
  {
    hide FixedProperties, Accepts, Put, Distinct, At, Equal, AtMost;
    var p := ("precision", Dict(Put(shape.precision, ("const", Int(rule.0)))));
    var q := ("scale", Dict(Put(shape.scale, ("maximum", Int(Tighter(At(shape.scale, "maximum"), rule.1))))));
    var (p0, q0) := (("precision", Dict(shape.precision)), ("scale", Dict(shape.scale)));
    forall e
      ensures e in FixedProperties(shape, rule) <==>
          e == p || e == q || (e in shape.properties && e.0 != "precision" && e.0 != "scale")
    {
      FixedEntries(shape, rule, e);
    }
    forall e
      ensures e in shape.properties <==>
          e == p0 || e == q0 || (e in shape.properties && e.0 != "precision" && e.0 != "scale")
    {
      AtEntry(shape.properties, e);
      AtEntry(shape.properties, p0);
      AtEntry(shape.properties, q0);
    }
    if Has(i.entries, "precision") { ConstHolds(o, shape.precision, rule.0, At(i.entries, "precision").value); }
    if Has(i.entries, "scale") { MaximumHolds(o, shape.scale, rule.1, At(i.entries, "scale").value); }
    assert MemberHolds(o, p, i) <==> MemberHolds(o, p0, i) && Precisely(i, rule.0);
    assert MemberHolds(o, q, i) <==> MemberHolds(o, q0, i) && Within(i, rule.1);
    hide MemberHolds, Precisely, Within;
  }

  /** Everything but the clauses holds. */
  ghost predicate Base(o: Oracle, d: seq<(string, Value)>, i: Value) {
    forall e :: e in d && e.0 != "allOf" ==> Holds(o, Dict(d), e, i)
  }

  lemma BranchEntries(d: seq<(string, Value)>, shape: Shape, rule: (int, int), e: (string, Value))
    requires Distinct(d)
    ensures e in Branch(d, shape, rule).entries <==>
      e == ("properties", Dict(FixedProperties(shape, rule))) || (e in d && e.0 != "allOf" && e.0 != "properties")
  {
    hide FixedProperties, Put, Drop;
    DropDistinct(d, "allOf");
    DropEntry(d, "allOf", e);
    PutEntry(Drop(d, "allOf"), ("properties", Dict(FixedProperties(shape, rule))), e);
    BranchIs(d, shape, rule);
  }

  lemma BranchIs(d: seq<(string, Value)>, shape: Shape, rule: (int, int))
    ensures Branch(d, shape, rule) == Dict(Put(Drop(d, "allOf"), ("properties", Dict(FixedProperties(shape, rule)))))
  {
  }

  lemma BranchAt(d: seq<(string, Value)>, shape: Shape, rule: (int, int), key: string)
    requires Distinct(d) && key != "allOf"
    ensures At(Branch(d, shape, rule).entries, key) == if key == "properties"
        then Some(Dict(FixedProperties(shape, rule))) else At(d, key)
  {
    hide FixedProperties, Put, Drop, At;
    BranchIs(d, shape, rule);
    DropAt(d, "allOf", key);
    PutAt(Drop(d, "allOf"), ("properties", Dict(FixedProperties(shape, rule))), key);
  }

  lemma FixedNames(shape: Shape, rule: (int, int), name: string)
    requires Has(shape.properties, "precision") && Has(shape.properties, "scale")
    ensures Has(FixedProperties(shape, rule), name) <==> Has(shape.properties, name)
  {
    var p := ("precision", Dict(Put(shape.precision, ("const", Int(rule.0)))));
    var q := ("scale", Dict(Put(shape.scale, ("maximum", Int(Tighter(At(shape.scale, "maximum"), rule.1))))));
    hide Put, At;
    PutAt(shape.properties, p, name);
    PutAt(Put(shape.properties, p), q, name);
  }

  lemma BranchSiblings(d: seq<(string, Value)>, shape: Shape, rule: (int, int))
    requires Distinct(d)
    ensures SameSiblings(Branch(d, shape, rule).entries, d)
  {
    hide Branch, FixedProperties, At, Distinct;
    BranchAt(d, shape, rule, "then");
    BranchAt(d, shape, rule, "else");
    BranchAt(d, shape, rule, "prefixItems");
    BranchAt(d, shape, rule, "minContains");
    BranchAt(d, shape, rule, "maxContains");
  }

  lemma BranchNames(o: Oracle, d: seq<(string, Value)>, shape: Shape, rule: (int, int))
    requires Distinct(d) && At(d, "properties") == Some(Dict(shape.properties))
    requires Has(shape.properties, "precision") && Has(shape.properties, "scale")
    ensures SameNames(o, Branch(d, shape, rule).entries, d)
  {
    var b := Branch(d, shape, rule).entries;
    hide Branch, FixedProperties, At, NamedBy, Distinct;
    BranchAt(d, shape, rule, "properties");
    BranchAt(d, shape, rule, "patternProperties");
    forall name ensures NamedBy(o, b, name) <==> NamedBy(o, d, name) {
      FixedNames(shape, rule, name);
      NamedAlike(o, b, d, name);
    }
  }

  lemma NamedAlike(o: Oracle, c: seq<(string, Value)>, d: seq<(string, Value)>, name: string)
    requires At(c, "patternProperties") == At(d, "patternProperties")
    requires At(c, "properties").Some? && At(c, "properties").value.Dict? && At(d, "properties").Some?
    requires At(d, "properties").value.Dict?
    requires Has(At(c, "properties").value.entries, name) <==> Has(At(d, "properties").value.entries, name)
    ensures NamedBy(o, c, name) <==> NamedBy(o, d, name)
  {
    hide At, SomePattern;
  }

  /** A branch accepts the instances of its precision within its bound. */
  lemma BranchHolds(o: Oracle, d: seq<(string, Value)>, shape: Shape, rule: (int, int), i: Value)
    requires Shaped(d, shape) && Neat(d, shape) && i.Dict?
    ensures Accepts(o, Branch(d, shape, rule), i) <==> Base(o, d, i) && Precisely(i, rule.0) && Within(i, rule.1)
  {
    hide Holds, At, FixedProperties, PyIn, MemberHolds, Precisely, Within, Branch, SameSiblings, SameNames, KeywordOf,
        Distinct;
    var b := Branch(d, shape, rule);
    var (p, q) := (("properties", Dict(shape.properties)), ("properties", Dict(FixedProperties(shape, rule))));
    AtEntry(d, p);
    BranchIs(d, shape, rule);
    forall e
      ensures e in b.entries <==> e == q || (e in d && e.0 != "allOf" && e.0 != "properties")
    {
      BranchEntries(d, shape, rule, e);
    }
    BranchSiblings(d, shape, rule);
    BranchNames(o, d, shape, rule);
    forall e | e in d && e.0 != "allOf" && e.0 != "properties" ensures Holds(o, b, e, i) <==> Holds(o, Dict(d), e, i) {
      NotUnevaluated(d, e);
      HoldsBeside(o, b.entries, d, e, i);
    }
    forall e | e in d && e.0 == "properties" ensures e == p { AtEntry(d, e); }
    PropertiesHold(o, d, shape.properties, i);
    PropertiesHold(o, b.entries, FixedProperties(shape, rule), i);
    FixedMembers(o, d, shape, rule, i);
  }

  lemma ClausesHold(o: Oracle, d: seq<(string, Value)>, clauses: seq<Value>, i: Value)
    requires Distinct(d) && At(d, "allOf") == Some(List(clauses))
    ensures Accepts(o, Dict(d), i) <==> Base(o, d, i) && forall c :: c in clauses ==> Accepts(o, c, i)
  {
    var e := ("allOf", List(clauses));
    AtEntry(d, e);
    forall x | x in d && x.0 == "allOf" ensures x == e { AtEntry(d, x); }
    AllOfMeans(o, d, e, i);
    hide Holds, At;
  }

  lemma AllOfMeans(o: Oracle, d: seq<(string, Value)>, e: (string, Value), i: Value)
    requires e in d && e.0 == "allOf" && e.1.List?
    ensures Holds(o, Dict(d), e, i) <==> forall c :: c in e.1.items ==> Accepts(o, c, i)
  {
    hide Accepts;
    assert KeywordOf("allOf") == AllOf;
    var items := e.1.items;
    assert Holds(o, Dict(d), e, i) <==> forall k :: 0 <= k < |items| ==> Accepts(o, items[k], i);
    hide Holds;
    assert forall k :: 0 <= k < |items| ==> items[k] in items;
    forall c | c in items && Holds(o, Dict(d), e, i) ensures Accepts(o, c, i) {
      var k :| 0 <= k < |items| && items[k] == c;
    }
  }

  // ----- the union

  /** What the base alone says of an instance: its precision is there, integral and in range. */
  lemma BaseBounds(o: Oracle, d: seq<(string, Value)>, shape: Shape, i: Value)
    requires Shaped(d, shape) && Neat(d, shape) && Base(o, d, i)
    ensures i.Dict? && Has(i.entries, "precision")
    ensures Has(i.entries, "scale") ==> Integral(At(i.entries, "scale").value)
    ensures var x := At(i.entries, "precision").value;
            Integral(x) && shape.low as real <= Numeric(x).value <= shape.high as real
  {
    hide Holds, At, Accepts, Integral, Numeric;
    var (t, r, p) := (("type", Str("object")), ("required", At(d, "required").value),
                      ("properties", Dict(shape.properties)));
    AtEntry(d, t);
    AtEntry(d, r);
    AtEntry(d, p);
    ObjectMeans(o, d, t, i);
    RequiredMeans(o, d, r, i);
    PropertiesHold(o, d, shape.properties, i);
    var (u, v) := (("precision", Dict(shape.precision)), ("scale", Dict(shape.scale)));
    AtEntry(shape.properties, u);
    AtEntry(shape.properties, v);
    assert MemberHolds(o, u, i) && MemberHolds(o, v, i);
    IntegerHolds(o, shape.precision, At(i.entries, "precision").value);
    RangeHolds(o, shape.precision, shape.low, shape.high, At(i.entries, "precision").value);
    if Has(i.entries, "scale") { IntegerHolds(o, shape.scale, At(i.entries, "scale").value); }
  }

  lemma ObjectMeans(o: Oracle, d: seq<(string, Value)>, e: (string, Value), i: Value)
    requires e in d && e == ("type", Str("object")) && Holds(o, Dict(d), e, i)
    ensures i.Dict?
  {
    assert KeywordOf("type") == Type;
  }

  lemma RequiredMeans(o: Oracle, d: seq<(string, Value)>, e: (string, Value), i: Value)
    requires e in d && e.0 == "required" && e.1.List? && PyIn("precision", e.1) == Some(true) && i.Dict?
    requires Holds(o, Dict(d), e, i)
    ensures Has(i.entries, "precision")
  {
    assert KeywordOf("required") == Required;
    var k :| 0 <= k < |e.1.items| && e.1.items[k] == Str("precision");
  }

  lemma IntegerHolds(o: Oracle, d: seq<(string, Value)>, x: Value)
    requires Distinct(d) && At(d, "type") == Some(Str("integer")) && Accepts(o, Dict(d), x)
    ensures Integral(x)
  {
    var e := ("type", Str("integer"));
    AtEntry(d, e);
    assert Holds(o, Dict(d), e, x);
    assert KeywordOf("type") == Type;
  }

  lemma RangeHolds(o: Oracle, d: seq<(string, Value)>, low: int, high: int, x: Value)
    requires Distinct(d) && At(d, "minimum") == Some(Int(low)) && At(d, "maximum") == Some(Int(high))
    requires Accepts(o, Dict(d), x) && Integral(x)
    ensures low as real <= Numeric(x).value <= high as real
  {
    var (e, f) := (("minimum", Int(low)), ("maximum", Int(high)));
    AtEntry(d, e);
    AtEntry(d, f);
    assert Holds(o, Dict(d), e, x) && Holds(o, Dict(d), f, x);
    assert KeywordOf("minimum") == Minimum && KeywordOf("maximum") == Maximum;
  }

  /** The integer an instance's precision is. */
  ghost function PrecisionOf(i: Value): int
    requires i.Dict? && Has(i.entries, "precision") && Integral(At(i.entries, "precision").value)
  {
    Numeric(At(i.entries, "precision").value).value.Floor
  }

  lemma PreciselyMeans(i: Value, p: int)
    requires i.Dict? && Has(i.entries, "precision") && Integral(At(i.entries, "precision").value)
    ensures Precisely(i, p) <==> p == PrecisionOf(i)
  {
    hide At;
  }

  /** On an instance the base accepts, the clauses together say what the rule of its precision says. */
  lemma ClausesSayRule(o: Oracle, d: seq<(string, Value)>, shape: Shape, rules: seq<(int, int)>, i: Value, k: nat)
    requires Base(o, d, i) && Shaped(d, shape) && Neat(d, shape) && k < |rules|
    requires OneRuleEach(rules) && Tabulated(shape.clauses, rules) && forall c :: c in shape.clauses ==>
        Regular(c, Closed)
    requires i.Dict? && Precisely(i, rules[k].0)
    ensures (forall c :: c in shape.clauses ==> Accepts(o, c, i)) <==> Within(i, rules[k].1)
  {
    BaseBounds(o, d, shape, i);
    hide Accepts, Regular, RuleOf, Within, Precisely, Base, Shaped, Neat, At, Integral, PrecisionOf;
    PreciselyMeans(i, rules[k].0);
    forall c | c in shape.clauses
      ensures RuleOf(c).Rule?
      ensures (Accepts(o, c, i) <==> (RuleOf(c).precision == PrecisionOf(i) ==> Within(i, RuleOf(c).maximum)))
    {
      assert Ruled(rules, c);
      ClauseHolds(o, c, i);
      PreciselyMeans(i, RuleOf(c).precision);
    }
    forall c | c in shape.clauses && RuleOf(c).precision == PrecisionOf(i) ensures RuleOf(c).maximum == rules[k].1 {
      assert Ruled(rules, c);
      var j :| 0 <= j < |rules| && rules[j] == (RuleOf(c).precision, RuleOf(c).maximum);
      assert j == k;
    }
    assert rules[k] in rules && Stated(shape.clauses, rules[k]);
  }

  lemma BranchNeedsObject(o: Oracle, d: seq<(string, Value)>, shape: Shape, rule: (int, int), i: Value)
    requires Distinct(d) && At(d, "type") == Some(Str("object")) && Accepts(o, Branch(d, shape, rule), i)
    ensures i.Dict?
  {
    var e := ("type", Str("object"));
    var b := Branch(d, shape, rule).entries;
    hide Holds, At, Branch;
    AtEntry(d, e);
    BranchEntries(d, shape, rule, e);
    ObjectMeans(o, b, e, i);
  }

  /** Of the branches exactly the one of the instance's precision can accept it. */
  lemma UnionExact(o: Oracle, d: seq<(string, Value)>, shape: Shape, rules: seq<(int, int)>, i: Value)
    requires Shaped(d, shape) && Neat(d, shape) && Covers(rules, shape.low, shape.high)
    requires OneRuleEach(rules) && Tabulated(shape.clauses, rules) && forall c :: c in shape.clauses ==>
        Regular(c, Closed)
    ensures ExactlyOne(o, List(Branches(d, shape, rules)), i) <==> Accepts(o, Dict(d), i)
  {
    var bs := Branches(d, shape, rules);
    hide Accepts, At, Shaped, Tabulated, Regular, Base, Integral, Precisely, Within, Branch, Branches;
    assert Shaped(d, shape) ==>
        Distinct(d) && At(d, "allOf") == Some(List(shape.clauses)) && At(d, "type") == Some(Str("object")) by {
      ShapedHead(d, shape);
    }
    ClausesHold(o, d, shape.clauses, i);
    if Accepts(o, Dict(d), i) {
      BaseBounds(o, d, shape, i);
      PrecisionInRange(shape, i);
      assert Decides(rules, PrecisionOf(i));
      var k :| 0 <= k < |rules| && rules[k].0 == PrecisionOf(i);
      PreciselyMeans(i, rules[k].0);
      ClausesSayRule(o, d, shape, rules, i, k);
      forall j | 0 <= j < |rules| ensures Accepts(o, bs[j], i) <==> j == k {
        BranchHolds(o, d, shape, rules[j], i);
        PreciselyMeans(i, rules[j].0);
      }
      assert OnlyOne(o, List(bs), k, i);
    }
    if ExactlyOne(o, List(bs), i) {
      var k := AcceptedBranch(o, List(bs), i);
      BranchNeedsObject(o, d, shape, rules[k], i);
      BranchHolds(o, d, shape, rules[k], i);
      ClausesSayRule(o, d, shape, rules, i, k);
    }
  }

  lemma AcceptedBranch(o: Oracle, union: Value, i: Value) returns (k: nat)
    requires union.List? && ExactlyOne(o, union, i)
    ensures k < |union.items| && Accepts(o, union.items[k], i)
  {
    k :| 0 <= k < |union.items| && OnlyOne(o, union, k, i);
  }

  lemma ShapedHead(d: seq<(string, Value)>, shape: Shape)
    requires Shaped(d, shape) && Neat(d, shape)
    ensures Distinct(d) && At(d, "allOf") == Some(List(shape.clauses)) && At(d, "type") == Some(Str("object"))
  {
    hide At, PyIn;
  }

  lemma PrecisionInRange(shape: Shape, i: Value)
    requires i.Dict? && Has(i.entries, "precision") && Integral(At(i.entries, "precision").value)
    requires shape.low as real <= Numeric(At(i.entries, "precision").value).value <= shape.high as real
    ensures shape.low <= PrecisionOf(i) <= shape.high
  {
    hide At;
  }

  // ----- the wrapper

  lemma WrapperHolds(o: Oracle, d: seq<(string, Value)>, union: Value, i: Value)
    requires Distinct(d) && !Has(d, "unevaluatedProperties") && union.List?
    ensures Accepts(o, Dict(Put(Outer(d), ("oneOf", union))), i) <==>
      (forall e :: e in d && !Moved(e.0) && e.0 != "oneOf" ==> Holds(o, Dict(d), e, i)) && ExactlyOne(o, union, i)
  {
    var m := ("oneOf", union);
    var w := Put(Outer(d), m);
    hide Holds, Outer, Put, Moved, ExactlyOne, SameSiblings, KeywordOf, At;
    OuterDistinct(d);
    forall e ensures e in w <==> e == m || (e in d && !Moved(e.0) && e.0 != "oneOf") {
      OuterEntry(d, e);
      PutEntry(Outer(d), m, e);
    }
    WrapperBeside(d, union);
    forall e | e in d && !Moved(e.0) && e.0 != "oneOf" ensures Holds(o, Dict(w), e, i) <==> Holds(o, Dict(d), e, i) {
      NotUnevaluated(d, e);
      NotAdditional(e.0);
      HoldsBeside(o, w, d, e, i);
    }
    OneOfMeans(o, w, m, i);
  }

  lemma WrapperBeside(d: seq<(string, Value)>, union: Value)
    requires Distinct(d)
    ensures SameSiblings(Put(Outer(d), ("oneOf", union)), d)
  {
    hide Outer, Put, At, Distinct;
    forall key | key != "oneOf" && !Moved(key) ensures At(Put(Outer(d), ("oneOf", union)), key) == At(d, key) {
      PutAt(Outer(d), ("oneOf", union), key);
      OuterAt(d, key);
    }
  }

  lemma NotAdditional(key: string)
    requires !Moved(key)
    ensures KeywordOf(key) != AdditionalProperties
  {
  }

  lemma OneOfMeans(o: Oracle, d: seq<(string, Value)>, e: (string, Value), i: Value)
    requires e in d && e.0 == "oneOf" && e.1.List?
    ensures Holds(o, Dict(d), e, i) <==> ExactlyOne(o, e.1, i)
  {
    hide ExactlyOne;
    assert KeywordOf("oneOf") == OneOf;
  }

  /** Expanding precision-dependent bounds into a union keeps every verdict. */
  lemma ExpandPreserves(o: Oracle, d: seq<(string, Value)>, document: string, pointer: string, i: Value)
    requires Regular(Dict(d), Closed) && Expand(d, document, pointer).Done?
    ensures Accepts(o, Dict(Expand(d, document, pointer).value), i) <==> Accepts(o, Dict(d), i)
  {
    hide Fitting, Collect, Covers, Branches, Holds, Put, Outer, Regular, Shaped, Tabulated, ExactlyOne, At;
    if Fitting(d).Fits? {
      var shape := Fitting(d).shape;
      FittingShaped(d);
      RegularNeat(d, shape);
      ShapedHead(d, shape);
      if Collect(shape.clauses).Rules? && Covers(Collect(shape.clauses).rules, shape.low, shape.high) {
        var rules := Collect(shape.clauses).rules;
        CollectTabulates(shape.clauses);
        RegularClauses(d, shape.clauses);
        UnionExact(o, d, shape, rules, i);
        WrapperHolds(o, d, List(Branches(d, shape, rules)), i);
      }
    }
  }

  lemma RegularClauses(d: seq<(string, Value)>, clauses: seq<Value>)
    requires Regular(Dict(d), Closed) && At(d, "allOf") == Some(List(clauses))
    ensures forall c :: c in clauses ==> Regular(c, Closed)
  {
    assert RegularEntry(("allOf", List(clauses)), Closed);
  }

  // ----- schemas that accept the same instances

  ghost predicate Alike(o: Oracle, a: Value, b: Value) {
    forall i :: Accepts(o, a, i) <==> Accepts(o, b, i)
  }

  ghost predicate AlikeLists(o: Oracle, a: seq<Value>, b: seq<Value>) {
    |a| == |b| && forall k :: 0 <= k < |a| ==> Alike(o, a[k], b[k])
  }

  ghost predicate AlikeMaps(o: Oracle, a: seq<(string, Value)>, b: seq<(string, Value)>) {
    |a| == |b| && forall k :: 0 <= k < |a| ==> a[k].0 == b[k].0 && Alike(o, a[k].1, b[k].1)
  }

  /** One keyword before and after its subschemas are replaced by like ones. */
  ghost predicate AlikeEntries(o: Oracle, a: (string, Value), b: (string, Value)) {
    && a.0 == b.0
    && (if MapKey(a.0) && a.1.Dict? then b.1.Dict? && AlikeMaps(o, a.1.entries, b.1.entries)
        else if ListKey(a.0) && a.1.List? then b.1.List? && AlikeLists(o, a.1.items, b.1.items)
        else if ValueKey(a.0) && !ItemKey(a.0) then Alike(o, a.1, b.1)
        else a.1 == b.1)
  }

  ghost predicate AlikeDicts(o: Oracle, a: seq<(string, Value)>, b: seq<(string, Value)>) {
    |a| == |b| && forall k :: 0 <= k < |a| ==> AlikeEntries(o, a[k], b[k])
  }

  lemma AtAlike(o: Oracle, a: seq<(string, Value)>, b: seq<(string, Value)>, key: string)
    requires AlikeDicts(o, a, b)
    ensures Has(a, key) <==> Has(b, key)
    ensures Has(a, key) ==> AlikeEntries(o, (key, At(a, key).value), (key, At(b, key).value))
  {
    hide AlikeEntries;
    var (j, k) := (Find(a, key), Find(b, key));
    assert forall n :: 0 <= n < |a| ==> a[n].0 == b[n].0 by {
      forall n | 0 <= n < |a|
        ensures a[n].0 == b[n].0
      {
        assert AlikeEntries(o, a[n], b[n]);
        EntryNames(o, a[n], b[n]);
      }
    }
    assert j == k;
    if j < |a| {
      assert a[j] == (key, At(a, key).value) && b[j] == (key, At(b, key).value);
    }
  }

  lemma EntryNames(o: Oracle, a: (string, Value), b: (string, Value))
    requires AlikeEntries(o, a, b)
    ensures a.0 == b.0
  {
  }

  lemma HasAlike(o: Oracle, a: seq<(string, Value)>, b: seq<(string, Value)>, name: string)
    requires AlikeMaps(o, a, b)
    ensures Has(a, name) <==> Has(b, name)
  {
    hide Alike;
    assert Find(a, name) == Find(b, name);
  }

  lemma NamedByAlike(o: Oracle, a: seq<(string, Value)>, b: seq<(string, Value)>, name: string)
    requires AlikeDicts(o, a, b)
    ensures NamedBy(o, a, name) <==> NamedBy(o, b, name)
  {
    hide Alike, AlikeDicts, At;
    AtAlike(o, a, b, "properties");
    AtAlike(o, a, b, "patternProperties");
    if Has(a, "properties") && At(a, "properties").value.Dict? {
      HasAlike(o, At(a, "properties").value.entries, At(b, "properties").value.entries, name);
    }
    if Has(a, "patternProperties") && At(a, "patternProperties").value.Dict? {
      PatternsAlike(o, At(a, "patternProperties").value.entries, At(b, "patternProperties").value.entries, name);
    }
  }

  lemma PatternsAlike(o: Oracle, a: seq<(string, Value)>, b: seq<(string, Value)>, name: string)
    requires AlikeMaps(o, a, b)
    ensures SomePattern(o, a, name) <==> SomePattern(o, b, name)
  {
    hide Alike;
    assert forall k :: 0 <= k < |a| ==> o.matches(a[k].0, name) == o.matches(b[k].0, name);
  }

  predicate Leaf(k: Keyword) {
    || k == Type || k == Const || k == Minimum || k == Maximum || k == Required
    || k == Schemas.Then || k == Else || k == Silent || k == Reference || k == Other
  }

  lemma LeafKey(key: string)
    requires Leaf(KeywordOf(key)) && KeywordOf(key) != Schemas.Then && KeywordOf(key) != Else
    requires KeywordOf(key) != Silent
    ensures !MapKey(key) && !ListKey(key) && (ValueKey(key) ==> ItemKey(key))
  {
    hide KeywordOf, ValueKey, ItemKey, MapKey, ListKey;
    if MapKey(key) { MapKeyWord(key); }
    if ListKey(key) { ListKeyWord(key); }
    if ValueKey(key) { ValueKeyWord(key); }
  }

  lemma MapKeyWord(key: string)
    requires MapKey(key)
    ensures KeywordOf(key) in {Properties, PatternProperties, Silent}
  {
  }

  lemma ListKeyWord(key: string)
    requires ListKey(key)
    ensures KeywordOf(key) in {AllOf, AnyOf, OneOf, PrefixItems}
  {
  }

  lemma ValueKeyWord(key: string)
    requires ValueKey(key)
    ensures ItemKey(key) || KeywordOf(key) == Schemas.Then || KeywordOf(key) == Else || ValueWord(KeywordOf(key))
  {
  }

  lemma LeafEntry(o: Oracle, a: seq<(string, Value)>, b: seq<(string, Value)>, k: nat)
    requires AlikeDicts(o, a, b) && k < |a| && Leaf(KeywordOf(a[k].0))
    ensures k < |b| && a[k].0 == b[k].0
    ensures a[k] == b[k] || KeywordOf(a[k].0) == Schemas.Then || KeywordOf(a[k].0) == Else
        || KeywordOf(a[k].0) == Silent
  {
    assert AlikeEntries(o, a[k], b[k]);
    hide KeywordOf, MapKey, ListKey, ValueKey, ItemKey, Alike, AlikeDicts;
    if KeywordOf(a[k].0) != Schemas.Then && KeywordOf(a[k].0) != Else && KeywordOf(a[k].0) != Silent {
      LeafKey(a[k].0);
    }
  }

  lemma LeafAlike(o: Oracle, a: seq<(string, Value)>, b: seq<(string, Value)>, k: nat, i: Value)
    requires AlikeDicts(o, a, b) && k < |a| && Leaf(KeywordOf(a[k].0))
    ensures k < |b| && (Holds(o, Dict(a), a[k], i) <==> Holds(o, Dict(b), b[k], i))
  {
    LeafEntry(o, a, b, k);
    hide KeywordOf, TypeHolds, Equal, Has, At, AlikeDicts;
  }

  lemma MembersAlike(o: Oracle, a: seq<(string, Value)>, b: seq<(string, Value)>, i: Value)
    requires AlikeMaps(o, a, b) && i.Dict?
    ensures (forall e :: e in a ==> MemberHolds(o, e, i)) <==> (forall e :: e in b ==> MemberHolds(o, e, i))
    ensures (forall e :: e in a ==> PatternHolds(o, e, i)) <==> (forall e :: e in b ==> PatternHolds(o, e, i))
  {
    hide MemberHolds, PatternHolds, Alike;
    forall k | 0 <= k < |a|
      ensures MemberHolds(o, a[k], i) <==> MemberHolds(o, b[k], i)
      ensures PatternHolds(o, a[k], i) <==> PatternHolds(o, b[k], i)
    {
      MemberAlike(o, a[k], b[k], i);
    }
    assert forall k :: 0 <= k < |a| ==> a[k] in a && b[k] in b;
  }

  lemma MemberAlike(o: Oracle, m: (string, Value), n: (string, Value), i: Value)
    requires m.0 == n.0 && Alike(o, m.1, n.1) && i.Dict?
    ensures MemberHolds(o, m, i) <==> MemberHolds(o, n, i)
    ensures PatternHolds(o, m, i) <==> PatternHolds(o, n, i)
  {
    hide Accepts, At;
  }

  lemma MapWordKey(key: string)
    requires KeywordOf(key) == Properties || KeywordOf(key) == PatternProperties
    ensures MapKey(key) && !ListKey(key) && !ValueKey(key)
  {
  }

  lemma MapAlike(o: Oracle, a: seq<(string, Value)>, b: seq<(string, Value)>, k: nat, i: Value)
    requires AlikeDicts(o, a, b) && k < |a|
    requires (KeywordOf(a[k].0) == Properties || KeywordOf(a[k].0) == PatternProperties)
    ensures Holds(o, Dict(a), a[k], i) <==> Holds(o, Dict(b), b[k], i)
  {
    MapWordKey(a[k].0);
    assert AlikeEntries(o, a[k], b[k]);
    hide KeywordOf, MapKey, ListKey, ValueKey, ItemKey, AlikeDicts, MemberHolds, PatternHolds, AlikeMaps;
    if a[k].1.Dict? && i.Dict? { MembersAlike(o, a[k].1.entries, b[k].1.entries, i); }
  }

  lemma OneOfAlike(o: Oracle, a: Value, b: Value, i: Value)
    requires a.List? && b.List? && AlikeLists(o, a.items, b.items) && ExactlyOne(o, a, i)
    ensures ExactlyOne(o, b, i)
  {
    var k :| 0 <= k < |a.items| && OnlyOne(o, a, k, i);
    forall j | 0 <= j < |a.items| ensures Accepts(o, b.items[j], i) <==> Accepts(o, a.items[j], i) {
      assert Alike(o, a.items[j], b.items[j]);
    }
    assert OnlyOne(o, b, k, i);
  }

  lemma AlikeBack(o: Oracle, a: seq<Value>, b: seq<Value>)
    requires AlikeLists(o, a, b)
    ensures AlikeLists(o, b, a)
  {
    forall k | 0 <= k < |a| ensures Alike(o, b[k], a[k]) { assert Alike(o, a[k], b[k]); }
  }

  lemma AcceptedAlike(o: Oracle, a: seq<Value>, b: seq<Value>, k: nat, i: Value)
    requires AlikeLists(o, a, b) && k < |a|
    ensures Accepts(o, a[k], i) <==> Accepts(o, b[k], i)
  {
    assert Alike(o, a[k], b[k]);
    hide Accepts;
  }

  predicate ListWord(k: Keyword) { k == AllOf || k == AnyOf || k == OneOf || k == PrefixItems }

  lemma ListWordKey(key: string)
    requires ListWord(KeywordOf(key))
    ensures ListKey(key) && !MapKey(key) && !ValueKey(key)
  {
    hide KeywordOf, ListWord, ListKey, MapKey, ValueKey;
    ListWordIs(key);
    if MapKey(key) { MapNotList(key); }
    if ValueKey(key) { ValueKeyOnly(key); }
  }

  lemma ListWordIs(key: string)
    requires ListWord(KeywordOf(key))
    ensures ListKey(key)
  {
  }

  lemma MapNotList(key: string)
    ensures MapKey(key) ==> !ListKey(key)
  {
  }

  lemma ListEntry(o: Oracle, a: seq<(string, Value)>, b: seq<(string, Value)>, k: nat)
    requires AlikeDicts(o, a, b) && k < |a| && ListWord(KeywordOf(a[k].0))
    ensures k < |b| && a[k].0 == b[k].0
    ensures if a[k].1.List? then b[k].1.List? && AlikeLists(o, a[k].1.items, b[k].1.items) else a[k] == b[k]
  {
    assert AlikeEntries(o, a[k], b[k]);
    ListWordKey(a[k].0);
    hide KeywordOf, MapKey, ListKey, ValueKey, ItemKey, AlikeDicts, AlikeLists;
  }

  /** What a keyword over a list of subschemas asserts. */
  ghost predicate ListHolds(o: Oracle, word: Keyword, v: Value, i: Value)
    requires v.List?
  {
    if word == AllOf then forall k :: 0 <= k < |v.items| ==> Accepts(o, v.items[k], i)
    else if word == AnyOf then exists k :: 0 <= k < |v.items| && Accepts(o, v.items[k], i)
    else if word == OneOf then ExactlyOne(o, v, i)
    else i.List? ==> forall j :: 0 <= j < |v.items| && j < |i.items| ==> Accepts(o, v.items[j], i.items[j])
  }

  lemma ListMeans(o: Oracle, d: seq<(string, Value)>, e: (string, Value), i: Value)
    requires e in d && ListWord(KeywordOf(e.0))
    ensures Holds(o, Dict(d), e, i) <==> (e.1.List? ==> ListHolds(o, KeywordOf(e.0), e.1, i))
  {
    hide KeywordOf, Accepts, At, ExactlyOne;
  }

  lemma ListAlike(o: Oracle, a: seq<(string, Value)>, b: seq<(string, Value)>, k: nat, i: Value)
    requires AlikeDicts(o, a, b) && k < |a| && ListWord(KeywordOf(a[k].0))
    ensures k < |b| && (Holds(o, Dict(a), a[k], i) <==> Holds(o, Dict(b), b[k], i))
  {
    hide KeywordOf, AlikeDicts, AlikeLists, ListHolds, Holds, ListWord;
    ListEntry(o, a, b, k);
    ListMeans(o, a, a[k], i);
    ListMeans(o, b, b[k], i);
    if a[k].1.List? { ListHoldsAlike(o, KeywordOf(a[k].0), a[k].1, b[k].1, i); }
  }

  lemma ListHoldsAlike(o: Oracle, word: Keyword, u: Value, v: Value, i: Value)
    requires u.List? && v.List? && AlikeLists(o, u.items, v.items)
    ensures ListHolds(o, word, u, i) <==> ListHolds(o, word, v, i)
  {
    hide AlikeLists, ExactlyOne, Accepts;
    AlikeBack(o, u.items, v.items);
    forall j, x | 0 <= j < |u.items|
      ensures Accepts(o, u.items[j], x) <==> Accepts(o, v.items[j], x)
    {
      AcceptedAlike(o, u.items, v.items, j, x);
    }
    if ExactlyOne(o, u, i) { OneOfAlike(o, u, v, i); }
    if ExactlyOne(o, v, i) { OneOfAlike(o, v, u, i); }
    SameLengths(o, u.items, v.items);
  }

  lemma SameLengths(o: Oracle, a: seq<Value>, b: seq<Value>)
    requires AlikeLists(o, a, b)
    ensures |a| == |b|
  {
  }

  predicate ValueWord(k: Keyword) {
    k == Not || k == If || k == Items || k == PropertyNames || k == AdditionalProperties || k == Contains
  }

  lemma ValueWordKey(key: string)
    requires ValueWord(KeywordOf(key))
    ensures ValueKey(key) && !ItemKey(key) && !MapKey(key) && !ListKey(key)
  {
    hide KeywordOf, ValueWord, ValueKey, ItemKey, MapKey, ListKey;
    ValueWordIs(key);
    ValueNoOther(key);
  }

  /** The keys whose value is one subschema that is applied. */
  predicate ValueWords(key: string) {
    || key == "not" || key == "if" || key == "items"
    || key == "propertyNames" || key == "additionalProperties" || key == "contains"
  }

  lemma ValueWordIs(key: string)
    requires ValueWord(KeywordOf(key))
    ensures ValueWords(key)
  {
  }

  lemma ValueNoOther(key: string)
    requires ValueWords(key)
    ensures ValueKey(key) && !ItemKey(key) && !MapKey(key) && !ListKey(key)
  {
  }

  lemma {:induction false} MatchingAlike(o: Oracle, a: Value, b: Value, items: seq<Value>)
    requires Alike(o, a, b)
    ensures Matching(o, a, items) == Matching(o, b, items)
    decreases |items|
  {
    hide Accepts;
    if items != [] { MatchingAlike(o, a, b, items[1..]); }
  }

  lemma StaysAlike(o: Oracle, key: string, v: Value, w: Value)
    requires (key == "minContains" || key == "maxContains") && AlikeEntries(o, (key, v), (key, w))
    ensures v == w
  {
  }

  lemma PrefixAlike(o: Oracle, v: Value, w: Value)
    requires AlikeEntries(o, ("prefixItems", v), ("prefixItems", w))
    ensures v.List? == w.List? && (v.List? ==> |v.items| == |w.items|)
  {
    hide Alike;
  }

  lemma SiblingsAlike(o: Oracle, a: seq<(string, Value)>, b: seq<(string, Value)>)
    requires AlikeDicts(o, a, b)
    ensures At(a, "minContains") == At(b, "minContains") && At(a, "maxContains") == At(b, "maxContains")
    ensures PrefixLength(a) == PrefixLength(b)
  {
    hide At, AlikeDicts, AlikeEntries;
    AtAlike(o, a, b, "minContains");
    AtAlike(o, a, b, "maxContains");
    AtAlike(o, a, b, "prefixItems");
    if Has(a, "minContains") { StaysAlike(o, "minContains", At(a, "minContains").value, At(b, "minContains").value); }
    if Has(a, "maxContains") { StaysAlike(o, "maxContains", At(a, "maxContains").value, At(b, "maxContains").value); }
    if Has(a, "prefixItems") { PrefixAlike(o, At(a, "prefixItems").value, At(b, "prefixItems").value); }
  }

  lemma BranchAlike(o: Oracle, a: seq<(string, Value)>, b: seq<(string, Value)>, key: string, i: Value)
    requires AlikeDicts(o, a, b) && (key == "then" || key == "else")
    ensures Has(a, key) <==> Has(b, key)
    ensures Has(a, key) ==> (Accepts(o, At(a, key).value, i) <==> Accepts(o, At(b, key).value, i))
  {
    AtAlike(o, a, b, key);
    hide At, AlikeDicts, Accepts;
  }

  lemma AlikeValue(o: Oracle, a: seq<(string, Value)>, b: seq<(string, Value)>, k: nat)
    requires AlikeDicts(o, a, b) && k < |a| && ValueWord(KeywordOf(a[k].0))
    ensures k < |b| && a[k].0 == b[k].0 && Alike(o, a[k].1, b[k].1)
  {
    assert AlikeEntries(o, a[k], b[k]);
    hide KeywordOf, MapKey, ListKey, ValueKey, ItemKey, Alike, AlikeDicts;
    ValueWordKey(a[k].0);
  }

  lemma IfMeans(o: Oracle, d: seq<(string, Value)>, e: (string, Value), i: Value)
    requires e in d && KeywordOf(e.0) == If
    ensures Holds(o, Dict(d), e, i) <==>
      if Accepts(o, e.1, i) then Has(d, "then") ==> Accepts(o, At(d, "then").value, i)
      else Has(d, "else") ==> Accepts(o, At(d, "else").value, i)
  {
    hide KeywordOf, Accepts, At;
  }

  lemma IfAlike(o: Oracle, a: seq<(string, Value)>, b: seq<(string, Value)>, k: nat, i: Value)
    requires AlikeDicts(o, a, b) && k < |a| && KeywordOf(a[k].0) == If
    ensures k < |b| && (Holds(o, Dict(a), a[k], i) <==> Holds(o, Dict(b), b[k], i))
  {
    hide KeywordOf, AlikeDicts, Accepts, At, Holds;
    AlikeValue(o, a, b, k);
    BranchAlike(o, a, b, "then", i);
    BranchAlike(o, a, b, "else", i);
    IfMeans(o, a, a[k], i);
    IfMeans(o, b, b[k], i);
  }

  lemma AdditionalAlike(o: Oracle, a: seq<(string, Value)>, b: seq<(string, Value)>, k: nat, i: Value)
    requires AlikeDicts(o, a, b) && k < |a| && KeywordOf(a[k].0) == AdditionalProperties
    ensures k < |b| && (Holds(o, Dict(a), a[k], i) <==> Holds(o, Dict(b), b[k], i))
  {
    AlikeValue(o, a, b, k);
    hide KeywordOf, AlikeDicts, Accepts, NamedBy;
    forall name ensures NamedBy(o, a, name) <==> NamedBy(o, b, name) { NamedByAlike(o, a, b, name); }
  }

  lemma ItemsMean(o: Oracle, d: seq<(string, Value)>, e: (string, Value), i: Value)
    requires e in d && KeywordOf(e.0) == Items
    ensures Holds(o, Dict(d), e, i) <==>
        (i.List? ==> forall j :: PrefixLength(d) <= j < |i.items| ==> Accepts(o, e.1, i.items[j]))
  {
    hide KeywordOf, PrefixLength, Accepts;
  }

  lemma ItemsAlike(o: Oracle, a: seq<(string, Value)>, b: seq<(string, Value)>, k: nat, i: Value)
    requires AlikeDicts(o, a, b) && k < |a| && KeywordOf(a[k].0) == Items
    ensures k < |b| && (Holds(o, Dict(a), a[k], i) <==> Holds(o, Dict(b), b[k], i))
  {
    AlikeValue(o, a, b, k);
    hide KeywordOf, AlikeDicts, Accepts, At, PrefixLength, Holds;
    SiblingsAlike(o, a, b);
    ItemsMean(o, a, a[k], i);
    ItemsMean(o, b, b[k], i);
  }

  lemma ContainsMeans(o: Oracle, d: seq<(string, Value)>, e: (string, Value), i: Value)
    requires e in d && KeywordOf(e.0) == Contains
    ensures Holds(o, Dict(d), e, i) <==>
      (i.List? ==> o.enough(At(d, "minContains"), At(d, "maxContains"), Matching(o, e.1, i.items)))
  {
    hide KeywordOf, Matching, Accepts, At;
  }

  lemma ContainsAlike(o: Oracle, a: seq<(string, Value)>, b: seq<(string, Value)>, k: nat, i: Value)
    requires AlikeDicts(o, a, b) && k < |a| && KeywordOf(a[k].0) == Contains
    ensures k < |b| && (Holds(o, Dict(a), a[k], i) <==> Holds(o, Dict(b), b[k], i))
  {
    hide KeywordOf, AlikeDicts, Accepts, At, PrefixLength, Matching, Alike, Holds, ValueWord;
    ContainsWord();
    AlikeValue(o, a, b, k);
    SiblingsAlike(o, a, b);
    if i.List? { MatchingAlike(o, a[k].1, b[k].1, i.items); }
    ContainsMeans(o, a, a[k], i);
    ContainsMeans(o, b, b[k], i);
  }

  lemma ContainsWord()
    ensures ValueWord(Contains)
  {
  }

  lemma DirectAlike(o: Oracle, a: seq<(string, Value)>, b: seq<(string, Value)>, k: nat, i: Value)
    requires AlikeDicts(o, a, b) && k < |a| && (KeywordOf(a[k].0) == Not || KeywordOf(a[k].0) == PropertyNames)
    ensures k < |b| && (Holds(o, Dict(a), a[k], i) <==> Holds(o, Dict(b), b[k], i))
  {
    AlikeValue(o, a, b, k);
    hide KeywordOf, AlikeDicts, Accepts;
  }

  lemma ValueAlike(o: Oracle, a: seq<(string, Value)>, b: seq<(string, Value)>, k: nat, i: Value)
    requires AlikeDicts(o, a, b) && k < |a| && ValueWord(KeywordOf(a[k].0))
    ensures k < |b| && (Holds(o, Dict(a), a[k], i) <==> Holds(o, Dict(b), b[k], i))
  {
    var word := KeywordOf(a[k].0);
    hide KeywordOf, AlikeDicts, Holds, AlikeEntries;
    if word == If {
      IfAlike(o, a, b, k, i);
    } else if word == AdditionalProperties {
      AdditionalAlike(o, a, b, k, i);
    } else if word == Items {
      ItemsAlike(o, a, b, k, i);
    } else if word == Contains {
      ContainsAlike(o, a, b, k, i);
    } else {
      DirectAlike(o, a, b, k, i);
    }
  }

  lemma KeywordFamilies(k: Keyword)
    ensures k == UnevaluatedProperties || Leaf(k) || ListWord(k) || ValueWord(k) || k == Properties
        || k == PatternProperties
  {
  }

  lemma EntryAlike(o: Oracle, a: seq<(string, Value)>, b: seq<(string, Value)>, k: nat, i: Value)
    requires AlikeDicts(o, a, b) && k < |a| && KeywordOf(a[k].0) != UnevaluatedProperties
    ensures k < |b| && (Holds(o, Dict(a), a[k], i) <==> Holds(o, Dict(b), b[k], i))
  {
    var word := KeywordOf(a[k].0);
    KeywordFamilies(word);
    hide KeywordOf, Holds, Leaf, ListWord, ValueWord, AlikeEntries;
    if Leaf(word) {
      LeafAlike(o, a, b, k, i);
    } else if ListWord(word) {
      ListAlike(o, a, b, k, i);
    } else if ValueWord(word) {
      ValueAlike(o, a, b, k, i);
    } else {
      MapAlike(o, a, b, k, i);
    }
  }

  lemma AcceptsByPosition(o: Oracle, d: seq<(string, Value)>, i: Value)
    ensures Accepts(o, Dict(d), i) <==> forall k :: 0 <= k < |d| ==> Holds(o, Dict(d), d[k], i)
  {
    hide Holds;
    if forall k :: 0 <= k < |d| ==> Holds(o, Dict(d), d[k], i) {
      forall e | e in d ensures Holds(o, Dict(d), e, i) {
        var k :| 0 <= k < |d| && d[k] == e;
      }
    }
    assert forall k :: 0 <= k < |d| ==> d[k] in d;
  }

  /** Replacing subschemas by like ones gives a like schema, where closure is not
      stated by what subschemas evaluate. */
  lemma PlainAlike(o: Oracle, a: seq<(string, Value)>, b: seq<(string, Value)>)
    requires AlikeDicts(o, a, b) && !Has(a, "unevaluatedProperties") && Distinct(a)
    ensures Alike(o, Dict(a), Dict(b))
  {
    hide KeywordOf, Holds, AlikeDicts, At, Accepts, Distinct;
    AlikeLength(o, a, b);
    forall i ensures Accepts(o, Dict(a), i) <==> Accepts(o, Dict(b), i) {
      forall k | 0 <= k < |a| ensures Holds(o, Dict(a), a[k], i) <==> Holds(o, Dict(b), b[k], i) {
        NotUnevaluated(a, a[k]);
        EntryAlike(o, a, b, k, i);
      }
      AcceptsByPosition(o, a, i);
      AcceptsByPosition(o, b, i);
    }
  }

  lemma AlikeLength(o: Oracle, a: seq<(string, Value)>, b: seq<(string, Value)>)
    requires AlikeDicts(o, a, b)
    ensures |a| == |b|
  {
  }

  // ----- closure restated

  /** The schema with its closure restated, whether or not two statements agree. */
  function Restated(d: seq<(string, Value)>): seq<(string, Value)> {
    match At(d, "unevaluatedProperties")
    case None => d
    case Some(u) =>
      var rest := Drop(d, "unevaluatedProperties");
      if Has(d, "additionalProperties") then rest else Put(rest, ("additionalProperties", Closure(u)))
  }

  lemma CloseRestates(d: seq<(string, Value)>, document: string, pointer: string)
    requires Distinct(d) && Close(d, document, pointer).Done?
    ensures Close(d, document, pointer).value == Restated(d)
  {
    DropAt(d, "unevaluatedProperties", "additionalProperties");
    hide Drop, Put, At, PyEqual, Closure, Distinct;
  }

  lemma DropSiblings(d: seq<(string, Value)>, key: string)
    requires Distinct(d) && (key == "default" || key == "unevaluatedProperties")
    ensures SameSiblings(Drop(d, key), d)
    ensures At(Drop(d, key), "properties") == At(d, "properties")
    ensures At(Drop(d, key), "patternProperties") == At(d, "patternProperties")
  {
    hide Drop, At, Distinct;
    forall other
      ensures At(Drop(d, key), other) == if other == key then None else At(d, other)
    {
      DropAt(d, key, other);
    }
  }

  lemma SameNamesOf(o: Oracle, c: seq<(string, Value)>, d: seq<(string, Value)>)
    requires At(c, "properties") == At(d, "properties") && At(c, "patternProperties") == At(d, "patternProperties")
    ensures SameNames(o, c, d)
  {
    hide At, SomePattern;
  }

  lemma ClosureKey(key: string)
    ensures KeywordOf(key) == UnevaluatedProperties <==> key == "unevaluatedProperties"
    ensures KeywordOf(key) == AdditionalProperties <==> key == "additionalProperties"
  {
  }

  lemma ClosureAlike(o: Oracle, v: Value)
    ensures Alike(o, Closure(v), v)
  {
    if AlwaysFalse(v) && v.Dict? {
      var e := ("not", Dict([]));
      assert KeywordOf("not") == Not;
      forall i ensures !Accepts(o, v, i) {
        assert v.entries[0] == e && e in v.entries;
        assert Accepts(o, Dict([]), i);
        assert !Holds(o, v, e, i);
      }
    }
  }

  /** A member that is named, or whose value the closure accepts, is no unevaluated one. */
  lemma ClosedHolds(o: Oracle, d: seq<(string, Value)>, e: (string, Value), i: Value)
    requires e in d && e.0 == "unevaluatedProperties"
    requires Has(d, "additionalProperties") || (i.Dict? ==> forall j :: 0 <= j < |i.entries| ==>
      NamedBy(o, d, i.entries[j].0) || Accepts(o, e.1, i.entries[j].1))
    ensures Holds(o, Dict(d), e, i)
  {
    hide KeywordOf, Accepts, NamedBy, EvaluatedBy, At;
    ClosureKey(e.0);
  }

  /** Beside `additionalProperties`, `unevaluatedProperties` has nothing left to decide. */
  lemma IdleAlike(o: Oracle, d: seq<(string, Value)>)
    requires Distinct(d) && Has(d, "unevaluatedProperties") && Has(d, "additionalProperties")
    ensures Alike(o, Dict(Drop(d, "unevaluatedProperties")), Dict(d))
  {
    var w := Drop(d, "unevaluatedProperties");
    hide Drop, Holds, KeywordOf, At, SameSiblings, SameNames, Distinct;
    DropSiblings(d, "unevaluatedProperties");
    SameNamesOf(o, w, d);
    forall e ensures e in w <==> e in d && e.0 != "unevaluatedProperties" { DropEntry(d, "unevaluatedProperties", e); }
    forall i ensures Accepts(o, Dict(w), i) <==> Accepts(o, Dict(d), i) {
      forall e | e in d && e.0 != "unevaluatedProperties" ensures Holds(o, Dict(w), e, i) <==> Holds(o, Dict(d), e, i) {
        ClosureKey(e.0);
        HoldsBeside(o, w, d, e, i);
      }
      forall e | e in d && e.0 == "unevaluatedProperties" ensures Holds(o, Dict(d), e, i) { ClosedHolds(o, d, e, i); }
    }
  }

  lemma AdditionalMeans(o: Oracle, d: seq<(string, Value)>, e: (string, Value), i: Value)
    requires e in d && e.0 == "additionalProperties"
    ensures Holds(o, Dict(d), e, i) <==>
      (i.Dict? ==> forall j :: 0 <= j < |i.entries| ==>
       NamedBy(o, d, i.entries[j].0) || Accepts(o, e.1, i.entries[j].1))
  {
    hide NamedBy, Accepts;
    assert KeywordOf("additionalProperties") == AdditionalProperties;
  }

  lemma RestatedSiblings(o: Oracle, d: seq<(string, Value)>, v: Value)
    requires Distinct(d)
    ensures var w := Put(Drop(d, "unevaluatedProperties"), ("additionalProperties", v));
            SameSiblings(w, d) && SameNames(o, w, d)
  {
    hide Drop, At, Distinct, Put, SameNames;
    var rest := Drop(d, "unevaluatedProperties");
    var w := Put(rest, ("additionalProperties", v));
    forall key | key != "additionalProperties" && key != "unevaluatedProperties" ensures At(w, key) == At(d, key) {
      DropAt(d, "unevaluatedProperties", key);
      PutAt(rest, ("additionalProperties", v), key);
    }
    SameNamesOf(o, w, d);
  }

  lemma RestatedEntries(d: seq<(string, Value)>, v: Value, e: (string, Value))
    requires Distinct(d) && !Has(d, "additionalProperties")
    ensures e in Put(Drop(d, "unevaluatedProperties"), ("additionalProperties", v)) <==>
      e == ("additionalProperties", v) || (e in d && e.0 != "unevaluatedProperties")
  {
    hide Drop, At, Distinct, Put;
    DropDistinct(d, "unevaluatedProperties");
    DropEntry(d, "unevaluatedProperties", e);
    PutEntry(Drop(d, "unevaluatedProperties"), ("additionalProperties", v), e);
    if e in d { AtEntry(d, e); }
  }

  /** The restated keyword decides what is tight. */
  lemma RestatedHolds(o: Oracle, d: seq<(string, Value)>, u: Value, i: Value)
    requires Distinct(d) && At(d, "unevaluatedProperties") == Some(u) && !Has(d, "additionalProperties")
    requires ("additionalProperties", Closure(u)) in Put(Drop(d, "unevaluatedProperties"),
                                                         ("additionalProperties", Closure(u)))
    ensures Holds(o, Dict(Put(Drop(d, "unevaluatedProperties"), ("additionalProperties", Closure(u)))),
                  ("additionalProperties", Closure(u)), i)
       <==> Tight(o, d, i)
  {
    hide Drop, Put, Holds, At, SameSiblings, NamedBy, Accepts, Distinct, Closure;
    var w := Put(Drop(d, "unevaluatedProperties"), ("additionalProperties", Closure(u)));
    ClosureAlike(o, u);
    RestatedSiblings(o, d, Closure(u));
    AdditionalMeans(o, w, ("additionalProperties", Closure(u)), i);
  }

  lemma TightHolds(o: Oracle, d: seq<(string, Value)>, u: Value, i: Value)
    requires Distinct(d) && At(d, "unevaluatedProperties") == Some(u) && Tight(o, d, i)
    ensures Holds(o, Dict(d), ("unevaluatedProperties", u), i)
  {
    hide Holds, At, NamedBy, Accepts, Distinct;
    AtEntry(d, ("unevaluatedProperties", u));
    ClosedHolds(o, d, ("unevaluatedProperties", u), i);
  }

  lemma SoleExact(o: Oracle, d: seq<(string, Value)>, u: Value, i: Value)
    requires Distinct(d) && At(d, "unevaluatedProperties") == Some(u) && !Has(d, "additionalProperties")
    ensures Accepts(o, Dict(Put(Drop(d, "unevaluatedProperties"), ("additionalProperties", Closure(u)))), i)
       <==> Accepts(o, Dict(d), i) && Tight(o, d, i)
  {
    hide Drop, Put, Holds, KeywordOf, At, SameSiblings, SameNames, Distinct, Closure, Tight;
    var (m, was) := (("additionalProperties", Closure(u)), ("unevaluatedProperties", u));
    var w := Put(Drop(d, "unevaluatedProperties"), m);
    RestatedSiblings(o, d, Closure(u));
    AtEntry(d, was);
    forall e
      ensures e in w <==> e == m || (e in d && e.0 != "unevaluatedProperties")
    {
      RestatedEntries(d, Closure(u), e);
    }
    forall e | e in d && e.0 == "unevaluatedProperties" ensures e == was { AtEntry(d, e); }
    forall e | e in d && e.0 != "unevaluatedProperties" ensures Holds(o, Dict(w), e, i) <==> Holds(o, Dict(d), e, i) {
      ClosureKey(e.0);
      HoldsBeside(o, w, d, e, i);
    }
    RestatedHolds(o, d, u, i);
    if Tight(o, d, i) { TightHolds(o, d, u, i); }
  }

  /** The instance is accepted, and no member of it escapes the restated closure. */
  ghost predicate Admits(o: Oracle, d: seq<(string, Value)>, i: Value) { Accepts(o, Dict(d), i) && Tight(o, d, i) }

  /** Restating closure keeps the instances that are tight, and no other. */
  lemma RestatedExact(o: Oracle, d: seq<(string, Value)>, i: Value)
    requires Distinct(d)
    ensures Accepts(o, Dict(Restated(d)), i) <==> Admits(o, d, i)
  {
    hide Drop, Put, At, Distinct, Closure, NamedBy, Accepts;
    if Has(d, "unevaluatedProperties") {
      if Has(d, "additionalProperties") {
        IdleAlike(o, d);
      } else {
        SoleExact(o, d, At(d, "unevaluatedProperties").value, i);
      }
    }
  }

  /** Stating closure the generator's way keeps the instances that are tight, and no other. */
  lemma CloseExact(o: Oracle, d: seq<(string, Value)>, document: string, pointer: string, i: Value)
    requires Distinct(d) && Close(d, document, pointer).Done?
    ensures Accepts(o, Dict(Close(d, document, pointer).value), i) <==> Accepts(o, Dict(d), i) && Tight(o, d, i)
  {
    hide Close, Restated, Distinct, Accepts, Tight;
    CloseRestates(d, document, pointer);
    RestatedExact(o, d, i);
  }

  lemma RestatedPlain(d: seq<(string, Value)>)
    requires Distinct(d)
    ensures Distinct(Restated(d)) && !Has(Restated(d), "unevaluatedProperties")
  {
    var rest := Drop(d, "unevaluatedProperties");
    hide Drop, Put, At, Distinct, Closure;
    DropDistinct(d, "unevaluatedProperties");
    DropAt(d, "unevaluatedProperties", "unevaluatedProperties");
    if Has(d, "unevaluatedProperties") {
      var m := ("additionalProperties", Closure(At(d, "unevaluatedProperties").value));
      PutEntry(rest, m, m);
      PutAt(rest, m, "unevaluatedProperties");
    }
  }

  lemma {:induction false} DropAlike(o: Oracle, a: seq<(string, Value)>, b: seq<(string, Value)>, key: string)
    requires AlikeDicts(o, a, b)
    ensures AlikeDicts(o, Drop(a, key), Drop(b, key))
    decreases |a|
  {
    hide AlikeEntries;
    if a != [] {
      DropAlike(o, a[1..], b[1..], key);
      EntryNames(o, a[0], b[0]);
    }
  }

  lemma PutAlike(o: Oracle, a: seq<(string, Value)>, b: seq<(string, Value)>, m: (string, Value))
    requires AlikeDicts(o, a, b) && !Has(a, m.0) && !Has(b, m.0)
    ensures AlikeDicts(o, Put(a, m), Put(b, m))
  {
    EntryItself(o, m);
    hide AlikeEntries;
  }

  lemma EntryItself(o: Oracle, m: (string, Value))
    ensures AlikeEntries(o, m, m)
  {
  }

  lemma UnevaluatedValue(o: Oracle, v: Value, w: Value)
    requires AlikeEntries(o, ("unevaluatedProperties", v), ("unevaluatedProperties", w))
    ensures v == w
  {
  }

  lemma DistinctAlike(o: Oracle, a: seq<(string, Value)>, b: seq<(string, Value)>)
    requires AlikeDicts(o, a, b) && Distinct(a)
    ensures Distinct(b)
  {
    hide AlikeEntries;
    forall k | 0 <= k < |a| ensures a[k].0 == b[k].0 {
      assert AlikeEntries(o, a[k], b[k]);
      EntryNames(o, a[k], b[k]);
    }
  }

  lemma RestatedDicts(o: Oracle, a: seq<(string, Value)>, b: seq<(string, Value)>)
    requires AlikeDicts(o, a, b) && Distinct(a)
    ensures AlikeDicts(o, Restated(a), Restated(b))
  {
    hide AlikeDicts, AlikeEntries, Drop, Put, At, Distinct, Closure;
    AtAlike(o, a, b, "unevaluatedProperties");
    AtAlike(o, a, b, "additionalProperties");
    if Has(a, "unevaluatedProperties") {
      var u := At(a, "unevaluatedProperties").value;
      UnevaluatedValue(o, u, At(b, "unevaluatedProperties").value);
      DropAlike(o, a, b, "unevaluatedProperties");
      DistinctAlike(o, a, b);
      DropAt(a, "unevaluatedProperties", "additionalProperties");
      DropAt(b, "unevaluatedProperties", "additionalProperties");
      if !Has(a, "additionalProperties") {
        PutAlike(o, Drop(a, "unevaluatedProperties"), Drop(b, "unevaluatedProperties"),
                 ("additionalProperties", Closure(u)));
      }
    }
  }

  /** Replacing subschemas by like ones keeps the verdicts on tight instances, and
      with them every verdict where no closure is stated by what subschemas evaluate. */
  lemma DictAlike(o: Oracle, a: seq<(string, Value)>, b: seq<(string, Value)>, i: Value)
    requires AlikeDicts(o, a, b) && Distinct(a)
    ensures Admits(o, a, i) <==> Admits(o, b, i)
  {
    hide AlikeDicts, Restated, Distinct, Admits, At, Accepts;
    RestatedPlain(a);
    DistinctAlike(o, a, b);
    RestatedDicts(o, a, b);
    PlainAlike(o, Restated(a), Restated(b));
    RestatedExact(o, a, i);
    RestatedExact(o, b, i);
  }

  // ----- the three edits of a walked dict

  /** A dict whose subschemas are regular, however it states closure itself. */
  ghost predicate Half(d: seq<(string, Value)>, how: Closing) {
    && Distinct(d) && (Has(d, "required") ==> At(d, "required").value.List?)
    && forall e :: e in d ==> RegularEntry(e, how)
  }

  lemma HalfRegular(d: seq<(string, Value)>)
    requires Half(d, Closed) && !Has(d, "unevaluatedProperties")
    ensures Regular(Dict(d), Closed)
  {
  }

  lemma DropHalf(d: seq<(string, Value)>, key: string)
    requires Half(d, Closed) && key != "required"
    ensures Half(Drop(d, key), Closed)
  {
    hide RegularEntry, Drop, At, Distinct;
    DropDistinct(d, key);
    DropAt(d, key, "required");
    forall e ensures e in Drop(d, key) <==> e in d && e.0 != key { DropEntry(d, key, e); }
  }

  lemma PutHalf(d: seq<(string, Value)>, m: (string, Value))
    requires Half(d, Closed) && RegularEntry(m, Closed) && m.0 != "required" && m.0 != "unevaluatedProperties"
    requires !Has(d, "unevaluatedProperties")
    ensures Half(Put(d, m), Closed) && !Has(Put(d, m), "unevaluatedProperties")
  {
    hide RegularEntry, Put, At, Distinct;
    PutAt(d, m, "required");
    PutAt(d, m, "unevaluatedProperties");
    PutEntry(d, m, m);
    forall e ensures e in Put(d, m) <==> e == m || (e in d && e.0 != m.0) { PutEntry(d, m, e); }
  }

  lemma DefaultMeans(o: Oracle, d: seq<(string, Value)>, e: (string, Value), i: Value)
    requires e in d && e.0 == "default"
    ensures Holds(o, Dict(d), e, i)
  {
    assert KeywordOf("default") == Silent;
  }

  lemma EvaluatedBeside(o: Oracle, c: seq<(string, Value)>, d: seq<(string, Value)>, e: (string, Value), i: Value,
                        name: string)
    requires e in c && e in d && At(c, "if") == At(d, "if")
    ensures EvaluatedBy(o, Dict(c), e, i, name) <==> EvaluatedBy(o, Dict(d), e, i, name)
  {
    hide KeywordOf, At, Accepts, Inside;
  }

  lemma DefaultEvaluates(o: Oracle, d: seq<(string, Value)>, e: (string, Value), i: Value, name: string)
    requires e in d && e.0 == "default"
    ensures !EvaluatedBy(o, Dict(d), e, i, name)
  {
    assert KeywordOf("default") == Silent;
  }

  /** A default evaluates no name. */
  lemma DefaultNames(o: Oracle, d: seq<(string, Value)>, i: Value, name: string)
    requires Distinct(d)
    ensures Evaluated(o, Dict(Drop(d, "default")), i, name) <==> Evaluated(o, Dict(d), i, name)
  {
    var w := Drop(d, "default");
    hide Drop, At, Distinct, NamedBy, EvaluatedBy;
    DropSiblings(d, "default");
    SameNamesOf(o, w, d);
    DropAt(d, "default", "if");
    DropAt(d, "default", "additionalProperties");
    forall e ensures e in w <==> e in d && e.0 != "default" { DropEntry(d, "default", e); }
    forall k | 0 <= k < |w| && EvaluatedBy(o, Dict(w), w[k], i, name) ensures Evaluated(o, Dict(d), i, name) {
      assert w[k] in w;
      EvaluatedBeside(o, w, d, w[k], i, name);
      var j :| 0 <= j < |d| && d[j] == w[k];
    }
    forall k | 0 <= k < |d| && EvaluatedBy(o, Dict(d), d[k], i, name) ensures Evaluated(o, Dict(w), i, name) {
      assert d[k] in d;
      if d[k].0 == "default" { DefaultEvaluates(o, d, d[k], i, name); }
      EvaluatedBeside(o, w, d, d[k], i, name);
      var j :| 0 <= j < |w| && w[j] == d[k];
    }
  }

  lemma UnevaluatedBeside(o: Oracle, c: seq<(string, Value)>, d: seq<(string, Value)>, e: (string, Value), i: Value)
    requires e in c && e in d && e.0 == "unevaluatedProperties"
    requires forall name :: Evaluated(o, Dict(c), i, name) <==> Evaluated(o, Dict(d), i, name)
    ensures Holds(o, Dict(c), e, i) <==> Holds(o, Dict(d), e, i)
  {
    hide KeywordOf, Evaluated, Accepts;
    ClosureKey(e.0);
  }

  lemma DefaultBeside(o: Oracle, d: seq<(string, Value)>, e: (string, Value), i: Value)
    requires Distinct(d) && e in d && e.0 != "default" && e in Drop(d, "default")
    ensures Holds(o, Dict(Drop(d, "default")), e, i) <==> Holds(o, Dict(d), e, i)
  {
    var w := Drop(d, "default");
    hide Drop, Holds, KeywordOf, At, SameSiblings, SameNames, Distinct, Evaluated;
    DropSiblings(d, "default");
    SameNamesOf(o, w, d);
    ClosureKey(e.0);
    if e.0 == "unevaluatedProperties" {
      forall name
        ensures Evaluated(o, Dict(w), i, name) <==> Evaluated(o, Dict(d), i, name)
      {
        DefaultNames(o, d, i, name);
      }
      UnevaluatedBeside(o, w, d, e, i);
    } else {
      HoldsBeside(o, w, d, e, i);
    }
  }

  /** Dropping a default changes no verdict. */
  lemma DefaultAlike(o: Oracle, d: seq<(string, Value)>)
    requires Distinct(d)
    ensures Alike(o, Dict(Drop(d, "default")), Dict(d))
  {
    var w := Drop(d, "default");
    hide Drop, Holds, Distinct;
    forall e ensures e in w <==> e in d && e.0 != "default" { DropEntry(d, "default", e); }
    forall i ensures Accepts(o, Dict(w), i) <==> Accepts(o, Dict(d), i) {
      forall e | e in d && e.0 != "default"
        ensures Holds(o, Dict(w), e, i) <==> Holds(o, Dict(d), e, i)
      {
        DefaultBeside(o, d, e, i);
      }
      forall e | e in d && e.0 == "default" ensures Holds(o, Dict(d), e, i) { DefaultMeans(o, d, e, i); }
    }
  }

  lemma DefaultTight(o: Oracle, d: seq<(string, Value)>, i: Value)
    requires Distinct(d)
    ensures Tight(o, Drop(d, "default"), i) <==> Tight(o, d, i)
  {
    hide Drop, At, Distinct, NamedBy, Accepts, SameSiblings;
    DropSiblings(d, "default");
    SameNamesOf(o, Drop(d, "default"), d);
    DropAt(d, "default", "unevaluatedProperties");
    DropAt(d, "default", "additionalProperties");
  }

  lemma CloseHalf(d: seq<(string, Value)>, document: string, pointer: string)
    requires Half(d, Closed) && Close(d, document, pointer).Done?
    ensures Half(Close(d, document, pointer).value, Closed)
    ensures !Has(Close(d, document, pointer).value, "unevaluatedProperties")
  {
    if Has(d, "unevaluatedProperties") {
      var rest := Drop(d, "unevaluatedProperties");
      var u := At(d, "unevaluatedProperties").value;
      DropHalf(d, "unevaluatedProperties");
      DropAt(d, "unevaluatedProperties", "unevaluatedProperties") by { hide Half; }
      hide Half, Drop, Put, At, PyEqual, Closure;
      ExemptEntry(Closure(u));
      if !Has(rest, "additionalProperties") { PutHalf(rest, ("additionalProperties", Closure(u))); }
    }
  }

  lemma ExemptEntry(v: Value)
    ensures RegularEntry(("additionalProperties", v), Closed)
  {
  }

  lemma NumberKeyRegular(key: string, n: int)
    requires key == "const" || key == "maximum"
    ensures RegularEntry((key, Int(n)), Closed)
  {
  }

  lemma RegularHalf(d: seq<(string, Value)>)
    requires Regular(Dict(d), Closed)
    ensures Half(d, Closed) && !Has(d, "unevaluatedProperties")
  {
  }

  lemma PutRegular(d: seq<(string, Value)>, key: string, n: int)
    requires Regular(Dict(d), Closed) && (key == "const" || key == "maximum")
    ensures Regular(Dict(Put(d, (key, Int(n)))), Closed)
  {
    RegularHalf(d);
    NumberKeyRegular(key, n);
    hide Half, RegularEntry, Put, At, Regular;
    PutHalf(d, (key, Int(n)));
    HalfRegular(Put(d, (key, Int(n))));
  }

  lemma FixedRegular(d: seq<(string, Value)>, shape: Shape, rule: (int, int))
    requires Regular(Dict(d), Closed) && Shaped(d, shape)
    ensures RegularEntry(("properties", Dict(FixedProperties(shape, rule))), Closed)
  {
    RegularProperties(d, Closed, "precision") by { hide At, PyIn, Regular; }
    RegularProperties(d, Closed, "scale") by { hide At, PyIn, Regular; }
    PropertiesRegular(d, shape.properties) by { hide PyIn, Regular; }
    FixedDistinct(shape, rule);
    hide Regular, RegularEntry, Put, At, FixedProperties, Distinct, PyIn;
    PutRegular(shape.precision, "const", rule.0);
    PutRegular(shape.scale, "maximum", Tighter(At(shape.scale, "maximum"), rule.1));
    var fixed := FixedProperties(shape, rule);
    forall m | m in fixed ensures RegularMember(m, Closed) {
      FixedEntries(shape, rule, m);
      if m in shape.properties { assert RegularMember(m, Closed); }
    }
    MapEntryRegular(fixed, Closed);
  }

  lemma MapEntryRegular(m: seq<(string, Value)>, how: Closing)
    requires Distinct(m) && forall e :: e in m ==> RegularMember(e, how)
    ensures RegularEntry(("properties", Dict(m)), how)
  {
  }

  lemma PropertiesRegular(d: seq<(string, Value)>, properties: seq<(string, Value)>)
    requires Regular(Dict(d), Closed) && At(d, "properties") == Some(Dict(properties))
    ensures Distinct(properties) && forall e :: e in properties ==> RegularMember(e, Closed)
  {
    assert RegularEntry(("properties", Dict(properties)), Closed);
  }

  lemma FixedDistinct(shape: Shape, rule: (int, int))
    requires Distinct(shape.properties)
    ensures Distinct(FixedProperties(shape, rule))
  {
    var p := ("precision", Dict(Put(shape.precision, ("const", Int(rule.0)))));
    var q := ("scale", Dict(Put(shape.scale, ("maximum", Int(Tighter(At(shape.scale, "maximum"), rule.1))))));
    PutEntry(shape.properties, p, p);
    PutEntry(Put(shape.properties, p), q, q);
    hide Put, Distinct, At;
  }

  lemma BranchRegular(d: seq<(string, Value)>, shape: Shape, rule: (int, int))
    requires Regular(Dict(d), Closed) && Shaped(d, shape)
    ensures Regular(Branch(d, shape, rule), Closed)
  {
    FixedRegular(d, shape, rule);
    RegularHalf(d);
    hide Half, Regular, RegularEntry, Put, Drop, At, FixedProperties, Shaped, Branch, Distinct;
    HalfDistinct(d);
    BranchIs(d, shape, rule);
    DropHalf(d, "allOf");
    DropAt(d, "allOf", "unevaluatedProperties");
    var m := ("properties", Dict(FixedProperties(shape, rule)));
    PutHalf(Drop(d, "allOf"), m);
    HalfRegular(Put(Drop(d, "allOf"), m));
  }

  lemma HalfDistinct(d: seq<(string, Value)>)
    requires Half(d, Closed)
    ensures Distinct(d)
  {
  }

  lemma OuterHalf(d: seq<(string, Value)>)
    requires Half(d, Closed) && !Has(d, "unevaluatedProperties")
    ensures Half(Outer(d), Closed) && !Has(Outer(d), "unevaluatedProperties")
  {
    hide RegularEntry, Outer, At, Distinct, KeywordOf;
    OuterDistinct(d);
    OuterAt(d, "required");
    OuterAt(d, "unevaluatedProperties");
    forall e ensures e in Outer(d) <==> e in d && !Moved(e.0) { OuterEntry(d, e); }
  }

  lemma UnionRegular(union: Value)
    requires union.List? && forall k :: 0 <= k < |union.items| ==> Regular(union.items[k], Closed)
    ensures RegularEntry(("oneOf", union), Closed)
  {
  }

  lemma BranchesRegular(d: seq<(string, Value)>, shape: Shape, rules: seq<(int, int)>)
    requires Regular(Dict(d), Closed) && Shaped(d, shape)
    ensures RegularEntry(("oneOf", List(Branches(d, shape, rules))), Closed)
  {
    hide Branch, Branches, Regular, RegularEntry, Shaped;
    var bs := Branches(d, shape, rules);
    forall k | 0 <= k < |bs| ensures Regular(bs[k], Closed) { BranchRegular(d, shape, rules[k]); }
    UnionRegular(List(bs));
  }

  lemma WrapperRegular(d: seq<(string, Value)>, union: Value)
    requires Regular(Dict(d), Closed) && RegularEntry(("oneOf", union), Closed)
    ensures Regular(Dict(Put(Outer(d), ("oneOf", union))), Closed)
  {
    hide Half, Put, Outer, Regular, RegularEntry, At;
    RegularHalf(d);
    OuterHalf(d);
    PutHalf(Outer(d), ("oneOf", union));
    HalfRegular(Put(Outer(d), ("oneOf", union)));
  }

  lemma ExpandRegular(d: seq<(string, Value)>, document: string, pointer: string)
    requires Regular(Dict(d), Closed) && Expand(d, document, pointer).Done?
    ensures Regular(Dict(Expand(d, document, pointer).value), Closed)
  {
    hide Fitting, Collect, Covers, Branches, Put, Outer, Regular, RegularEntry, Shaped;
    if Fitting(d).Fits? {
      var shape := Fitting(d).shape;
      FittingShaped(d);
      if Collect(shape.clauses).Rules? {
        BranchesRegular(d, shape, Collect(shape.clauses).rules);
        WrapperRegular(d, List(Branches(d, shape, Collect(shape.clauses).rules)));
      }
    }
  }

  lemma PlainExact(o: Oracle, d: seq<(string, Value)>, document: string, pointer: string, i: Value)
    requires Distinct(d)
    ensures Admits(o, DropDefault(d, document, pointer).value, i) <==> Admits(o, d, i)
  {
    hide Drop, At, Distinct, Accepts, Tight;
    DefaultAlike(o, d);
    DefaultTight(o, d, i);
  }

  /** The three edits of a walked dict keep the instances that are tight, and no other. */
  lemma FinishExact(o: Oracle, d: seq<(string, Value)>, document: string, pointer: string)
    requires Half(d, Closed) && Finish(d, document, pointer).Done?
    ensures var w := Finish(d, document, pointer).value;
            Regular(w, Closed) && forall i :: Accepts(o, w, i) <==> Admits(o, d, i)
  {
    hide Half, Close, Expand, Drop, Regular, Accepts, Tight, Admits, At, Distinct;
    var plain := DropDefault(d, document, pointer).value;
    DropHalf(d, "default");
    assert Half(plain, Closed);
    var closed := Close(plain, document, pointer).value;
    CloseHalf(plain, document, pointer);
    HalfRegular(closed);
    HalfDistinct(plain);
    HalfDistinct(d);
    ExpandRegular(closed, document, pointer);
    var expanded := Dict(Expand(closed, document, pointer).value);
    forall i ensures Accepts(o, expanded, i) <==> Admits(o, d, i) {
      ExpandPreserves(o, closed, document, pointer, i);
      CloseAdmits(o, plain, document, pointer, i);
      PlainExact(o, d, document, pointer, i);
    }
  }

  lemma CloseAdmits(o: Oracle, d: seq<(string, Value)>, document: string, pointer: string, i: Value)
    requires Distinct(d) && Close(d, document, pointer).Done?
    ensures Accepts(o, Dict(Close(d, document, pointer).value), i) <==> Admits(o, d, i)
  {
    hide Close, Distinct, Accepts, Tight;
    CloseExact(o, d, document, pointer, i);
  }

  // ----- the walk

  /** A walked keyword: like the one before, and closed. */
  lemma {:induction false} EntryWalks(o: Oracle, e: (string, Value), document: string, pointer: string)
    requires RegularEntry(e, Settling(o)) && WalkEntry(e, document, pointer).Done?
    ensures var w := (e.0, WalkEntry(e, document, pointer).value); AlikeEntries(o, e, w) && RegularEntry(w, Closed)
    decreases e, 2
  {
    hide MapKey, ListKey, ValueKey, ItemKey, Walk, WalkItems, WalkMembers, Regular, RegularMember, Alike, Distinct;
    if MapKey(e.0) && e.1.Dict? {
      MembersWalk(o, e.1.entries, document, pointer);
    } else if ListKey(e.0) && e.1.List? {
      ItemsWalk(o, e.1.items, document, pointer);
    } else if ValueKey(e.0) {
      ItemStays(e.1, document, pointer);
      ValueKeyOnly(e.0);
      Walks(o, e.1, document, pointer);
    }
  }

  lemma ValueKeyOnly(key: string)
    requires ValueKey(key)
    ensures !MapKey(key) && !ListKey(key)
  {
  }

  lemma ItemStays(v: Value, document: string, pointer: string)
    ensures !v.Dict? && !v.List? ==> Walk(v, document, pointer) == Done(v, [])
  {
    hide Finish;
  }

  lemma {:induction false} ItemsWalk(o: Oracle, items: seq<Value>, document: string, pointer: string)
    requires forall k :: 0 <= k < |items| ==> Regular(items[k], Settling(o))
    requires WalkItems(items, document, pointer).Done?
    ensures var w := WalkItems(items, document, pointer).value;
            AlikeLists(o, items, w) && forall k :: 0 <= k < |w| ==> Regular(w[k], Closed)
    decreases items, 0
  {
    hide Walk, Regular, Alike;
    if items != [] {
      var n := |items| - 1;
      ItemsWalk(o, items[..n], document, pointer);
      Walks(o, items[n], document, pointer + "/" + Numbers.Decimal(n));
    }
  }

  lemma {:induction false} MembersWalk(o: Oracle, d: seq<(string, Value)>, document: string, pointer: string)
    requires Distinct(d) && (forall m :: m in d ==> RegularMember(m, Settling(o)))
    requires WalkMembers(d, document, pointer).Done?
    ensures var w := WalkMembers(d, document, pointer).value;
            AlikeMaps(o, d, w) && Distinct(w) && forall m :: m in w ==> RegularMember(m, Closed)
    decreases d, 0
  {
    hide WalkMember, Alike, RegularMember;
    if d != [] {
      var n := |d| - 1;
      var w := WalkMembers(d, document, pointer).value;
      assert forall m :: m in d[..n] ==> m in d;
      MembersWalk(o, d[..n], document, pointer);
      MemberWalks(o, d[n], document, pointer);
      forall m | m in w ensures RegularMember(m, Closed) {
        if m != w[n] { assert m in w[..n]; }
      }
    }
  }

  lemma {:induction false} MemberWalks(o: Oracle, m: (string, Value), document: string, pointer: string)
    requires RegularMember(m, Settling(o)) && WalkMember(m, document, pointer).Done?
    ensures var v := WalkMember(m, document, pointer).value; Alike(o, m.1, v) && RegularMember((m.0, v), Closed)
    decreases m, 2
  {
    hide Walk, Alike, Regular;
    Walks(o, m.1, document, pointer + "/" + EscapeToken(m.0));
  }

  lemma WalkLast(d: seq<(string, Value)>, document: string, pointer: string)
    requires d != [] && WalkDict(d, document, pointer).Done?
    ensures var (n, token) := (|d| - 1, EscapeToken(d[|d| - 1].0));
      var (before, last) := (WalkDict(d[..n], document, pointer), WalkEntry(d[n], document, pointer + "/" + token));
      before.Done? && last.Done? && WalkDict(d, document, pointer).value == before.value + [(d[n].0, last.value)]
  {
    hide WalkEntry, EscapeToken;
  }

  lemma DictsAppend(o: Oracle, a: seq<(string, Value)>, x: (string, Value), b: seq<(string, Value)>,
                    y: (string, Value))
    requires AlikeDicts(o, a, b) && AlikeEntries(o, x, y)
    ensures AlikeDicts(o, a + [x], b + [y])
  {
    hide AlikeEntries;
  }

  lemma NothingAlike(o: Oracle, document: string, pointer: string)
    ensures WalkDict([], document, pointer) == Done([], []) && AlikeDicts(o, [], [])
  {
  }

  /** What a walked dict is to the one before. */
  ghost predicate WalkedInto(o: Oracle, d: seq<(string, Value)>, w: seq<(string, Value)>) {
    AlikeDicts(o, d, w) && forall e :: e in w ==> RegularEntry(e, Closed)
  }

  lemma WalkedMore(o: Oracle, d: seq<(string, Value)>, w: seq<(string, Value)>, e: (string, Value),
                   x: (string, Value))
    requires WalkedInto(o, d, w) && AlikeEntries(o, e, x) && RegularEntry(x, Closed)
    ensures WalkedInto(o, d + [e], w + [x])
  {
    hide AlikeEntries, AlikeDicts, RegularEntry;
    DictsAppend(o, d, e, w, x);
  }

  lemma {:induction false} DictWalks(o: Oracle, d: seq<(string, Value)>, document: string, pointer: string)
    requires (forall e :: e in d ==> RegularEntry(e, Settling(o))) && WalkDict(d, document, pointer).Done?
    ensures WalkedInto(o, d, WalkDict(d, document, pointer).value)
    decreases d, 0
  {
    hide WalkDict, WalkEntry, AlikeEntries, AlikeDicts, RegularEntry, EscapeToken;
    if d == [] {
      NothingAlike(o, document, pointer);
    } else {
      var n := |d| - 1;
      var (before, token) := (WalkDict(d[..n], document, pointer), EscapeToken(d[n].0));
      WalkLast(d, document, pointer);
      hide WalkedInto;
      DictWalks(o, d[..n], document, pointer);
      EntryWalks(o, d[n], document, pointer + "/" + token);
      var last := (d[n].0, WalkEntry(d[n], document, pointer + "/" + token).value);
      WalkedMore(o, d[..n], before.value, d[n], last);
      assert d[..n] + [d[n]] == d;
    }
  }

  lemma WalkedHalf(o: Oracle, d: seq<(string, Value)>, w: seq<(string, Value)>)
    requires Half(d, Settling(o)) && AlikeDicts(o, d, w) && forall e :: e in w ==> RegularEntry(e, Closed)
    ensures Half(w, Closed)
  {
    hide RegularEntry, At, AlikeDicts, Distinct;
    DistinctAlike(o, d, w);
    AtAlike(o, d, w, "required");
    if Has(w, "required") { RequiredAlike(o, At(d, "required").value, At(w, "required").value); }
  }

  lemma RequiredAlike(o: Oracle, v: Value, w: Value)
    requires AlikeEntries(o, ("required", v), ("required", w))
    ensures v == w
  {
  }

  /** Walking a schema keeps the instances that are tight, and no other. */
  lemma {:induction false} DictExact(o: Oracle, d: seq<(string, Value)>, document: string, pointer: string)
    requires Half(d, Settling(o)) && Walk(Dict(d), document, pointer).Done?
    ensures var w := Walk(Dict(d), document, pointer).value;
            Regular(w, Closed) && forall i :: Accepts(o, w, i) <==> Admits(o, d, i)
    decreases d, 1
  {
    hide WalkDict, Finish, RegularEntry, AlikeDicts, At, Admits, Accepts, Regular, Distinct;
    DictWalks(o, d, document, pointer);
    var w := WalkDict(d, document, pointer).value;
    WalkedHalf(o, d, w);
    FinishExact(o, w, document, pointer);
    forall i ensures Admits(o, d, i) <==> Admits(o, w, i) { DictAlike(o, d, w, i); }
  }

  lemma SettledAlike(o: Oracle, d: seq<(string, Value)>, w: Value)
    requires forall i :: Accepts(o, w, i) <==> Admits(o, d, i)
    ensures Alike(o, Dict(d), w) <==> Settled(o, d)
  {
    hide Accepts, Tight;
  }

  lemma RegularParts(o: Oracle, d: seq<(string, Value)>)
    requires Regular(Dict(d), Settling(o))
    ensures Half(d, Settling(o)) && Settled(o, d)
  {
    hide RegularEntry, Distinct, At, Accepts, NamedBy;
  }

  /** The walk gives a closed schema that accepts the same instances. */
  lemma {:induction false} Walks(o: Oracle, v: Value, document: string, pointer: string)
    requires Regular(v, Settling(o)) && Walk(v, document, pointer).Done?
    ensures var w := Walk(v, document, pointer).value; Alike(o, v, w) && Regular(w, Closed)
    decreases v, 1
  {
    match v
    case List(items) => {
      hide WalkItems;
      ItemsWalk(o, items, document, pointer) by { hide Alike, Regular; }
    }
    case Dict(d) => {
      hide Walk, Regular, Alike, Settled, Half, Admits, Accepts;
      RegularParts(o, d);
      DictExact(o, d, document, pointer);
      SettledAlike(o, d, Walk(v, document, pointer).value);
    }
    case _ => {
      hide Walk;
      ItemStays(v, document, pointer);
    }
  }

  /** Preparing a schema with regular subschemas keeps exactly the accepted instances
      that are tight. */
  lemma PrepareExact(o: Oracle, d: seq<(string, Value)>, document: string, i: Value)
    requires Half(d, Settling(o)) && Walk(Dict(d), document, "").Done?
    ensures Accepts(o, Walk(Dict(d), document, "").value, i) <==> Accepts(o, Dict(d), i) && Tight(o, d, i)
  {
    hide Walk, Accepts, Tight, Half, Regular;
    DictExact(o, d, document, "");
    assert Admits(o, d, i) <==> Accepts(o, Dict(d), i) && Tight(o, d, i);
  }

  /** It keeps every verdict exactly when all accepted instances are tight. */
  lemma PreparePreservesIff(o: Oracle, d: seq<(string, Value)>, document: string)
    requires Half(d, Settling(o)) && Walk(Dict(d), document, "").Done?
    ensures Alike(o, Dict(d), Walk(Dict(d), document, "").value) <==> Settled(o, d)
  {
    hide Walk, Accepts, Tight, Half, Regular, Alike, Settled, Admits;
    DictExact(o, d, document, "");
    SettledAlike(o, d, Walk(Dict(d), document, "").value);
  }

  /** Preparing a regular schema keeps the verdict on every instance, and leaves no
      `unevaluatedProperties` for the generator to misread. */
  lemma PreparePreserves(o: Oracle, schema: Value, document: string, i: Value)
    requires Regular(schema, Settling(o)) && Walk(schema, document, "").Done?
    ensures Accepts(o, Walk(schema, document, "").value, i) <==> Accepts(o, schema, i)
    ensures Regular(Walk(schema, document, "").value, Closed)
  {
    hide Walk, Accepts, Regular;
    Walks(o, schema, document, "");
  }

  // ----- closure the keywords show

  lemma MapNamed(o: Oracle, c: seq<(string, Value)>, d: seq<(string, Value)>, name: string)
    requires NamesWithin(c, d, "properties") && NamesWithin(c, d, "patternProperties") && NamedBy(o, c, name)
    ensures NamedBy(o, d, name)
  {
    if Has(c, "properties") && At(c, "properties").value.Dict? && Has(At(c, "properties").value.entries, name) {
      HasWithin(c, d, name);
    } else {
      PatternWithin(o, c, d, name);
    }
  }

  lemma HasWithin(c: seq<(string, Value)>, d: seq<(string, Value)>, name: string)
    requires NamesWithin(c, d, "properties")
    requires Has(c, "properties") && At(c, "properties").value.Dict? && Has(At(c, "properties").value.entries, name)
    ensures Has(d, "properties") && At(d, "properties").value.Dict? && Has(At(d, "properties").value.entries, name)
  {
    var m := At(c, "properties").value.entries;
    var k := Find(m, name);
    assert m[k].0 == name;
  }

  lemma PatternWithin(o: Oracle, c: seq<(string, Value)>, d: seq<(string, Value)>, name: string)
    requires NamesWithin(c, d, "patternProperties")
    requires Has(c, "patternProperties") && At(c, "patternProperties").value.Dict?
    requires SomePattern(o, At(c, "patternProperties").value.entries, name)
    ensures Has(d, "patternProperties") && At(d, "patternProperties").value.Dict?
    ensures SomePattern(o, At(d, "patternProperties").value.entries, name)
  {
    var (m, p) := (At(c, "patternProperties").value.entries, At(d, "patternProperties").value.entries);
    var k :| 0 <= k < |m| && o.matches(m[k].0, name);
    var j := Find(p, m[k].0);
    assert p[j].0 == m[k].0;
  }

  /** What a covered keyword evaluates, the covering schema names. */
  lemma {:induction false} EntryCovered(o: Oracle, s: Value, e: (string, Value), d: seq<(string, Value)>, i: Value,
                                        name: string)
    requires s.Dict? && e in s.entries && CoveredEntry(e, d) && EvaluatedBy(o, s, e, i, name)
    ensures NamedBy(o, d, name)
    decreases e, 0
  {
    hide KeywordOf, NamedBy, Accepts, Inside, CoveredSub, At;
    match (KeywordOf(e.0), e.1)
    case (AllOf, List(vs)) => { SomeCovered(o, vs, d, i, name); }
    case (AnyOf, List(vs)) => { SomeCovered(o, vs, d, i, name); }
    case (OneOf, List(vs)) => { SomeCovered(o, vs, d, i, name); }
    case (If, v) => { SubCovered(o, v, d, i, name); }
    case (Then, v) => { SubCovered(o, v, d, i, name); }
    case (Else, v) => { SubCovered(o, v, d, i, name); }
    case _ => {}
  }

  lemma {:induction false} SomeCovered(o: Oracle, vs: seq<Value>, d: seq<(string, Value)>, i: Value, name: string)
    requires forall k :: 0 <= k < |vs| ==> CoveredSub(vs[k], d)
    requires exists k :: 0 <= k < |vs| && Inside(o, vs[k], i, name)
    ensures NamedBy(o, d, name)
    decreases vs, 0
  {
    hide CoveredSub, Inside, NamedBy;
    var k :| 0 <= k < |vs| && Inside(o, vs[k], i, name);
    SubCovered(o, vs[k], d, i, name);
  }

  lemma {:induction false} SubCovered(o: Oracle, s: Value, d: seq<(string, Value)>, i: Value, name: string)
    requires CoveredSub(s, d) && Inside(o, s, i, name)
    ensures NamedBy(o, d, name)
    decreases s, 1
  {
    hide CoveredEntry, NamesWithin, NamedBy, Accepts, EvaluatedBy, At;
    if NamedBy(o, s.entries, name) {
      MapNamed(o, s.entries, d, name);
    } else {
      var k :| 0 <= k < |s.entries| && EvaluatedBy(o, s, s.entries[k], i, name);
      EntryCovered(o, s, s.entries[k], d, i, name);
    }
  }

  lemma UnevaluatedMeans(o: Oracle, d: seq<(string, Value)>, e: (string, Value), i: Value)
    requires e in d && e.0 == "unevaluatedProperties"
    ensures Holds(o, Dict(d), e, i) <==>
      (i.Dict? ==> forall j :: 0 <= j < |i.entries| ==>
       Evaluated(o, Dict(d), i, i.entries[j].0) || Accepts(o, e.1, i.entries[j].1))
  {
    hide KeywordOf, Accepts, Evaluated;
    ClosureKey(e.0);
  }

  lemma CoveredTight(o: Oracle, d: seq<(string, Value)>, i: Value)
    requires Covered(d) && Accepts(o, Dict(d), i)
    ensures Tight(o, d, i)
  {
    if Has(d, "unevaluatedProperties") && !Has(d, "additionalProperties") && i.Dict? {
      var e := ("unevaluatedProperties", At(d, "unevaluatedProperties").value);
      UnevaluatedMeans(o, d, e, i);
      assert Holds(o, Dict(d), e, i);
      hide Accepts, Holds, NamedBy, EvaluatedBy, CoveredEntry, At;
      forall j | 0 <= j < |i.entries| && Evaluated(o, Dict(d), i, i.entries[j].0)
        ensures NamedBy(o, d, i.entries[j].0)
      {
        if !NamedBy(o, d, i.entries[j].0) {
          var k :| 0 <= k < |d| && EvaluatedBy(o, Dict(d), d[k], i, i.entries[j].0);
          EntryCovered(o, Dict(d), d[k], d, i, i.entries[j].0);
        }
      }
    }
  }

  /** A schema whose keywords show that its closure may be restated is settled under
      every reading of the keywords outside the model. */
  lemma CoveredSettled(o: Oracle, d: seq<(string, Value)>)
    requires Covered(d)
    ensures Settled(o, d)
  {
    hide Covered, Accepts, Tight;
    forall i | Accepts(o, Dict(d), i) ensures Tight(o, d, i) { CoveredTight(o, d, i); }
  }

  lemma {:induction false} CoveringSettles(o: Oracle, v: Value)
    requires Regular(v, Covering)
    ensures Regular(v, Settling(o))
    decreases v, 1
  {
    hide RegularEntry, Covered, Settled, Distinct, At;
    match v
    case List(items) => {
      forall k | 0 <= k < |items| ensures Regular(items[k], Settling(o)) { CoveringSettles(o, items[k]); }
    }
    case Dict(d) => {
      if Has(d, "unevaluatedProperties") { CoveredSettled(o, d); }
      forall e | e in d ensures RegularEntry(e, Settling(o)) { EntrySettles(o, e); }
    }
    case _ => {}
  }

  lemma {:induction false} EntrySettles(o: Oracle, e: (string, Value))
    requires RegularEntry(e, Covering)
    ensures RegularEntry(e, Settling(o))
    decreases e, 0
  {
    hide MapKey, ListKey, ValueKey, ItemKey, Regular, RegularMember, Distinct;
    if MapKey(e.0) && e.1.Dict? {
      forall m | m in e.1.entries ensures RegularMember(m, Settling(o)) { MemberSettles(o, m); }
    } else if ListKey(e.0) && e.1.List? {
      forall k | 0 <= k < |e.1.items| ensures Regular(e.1.items[k], Settling(o)) { CoveringSettles(o, e.1.items[k]); }
    } else if ValueKey(e.0) {
      CoveringSettles(o, e.1);
    }
  }

  lemma {:induction false} MemberSettles(o: Oracle, m: (string, Value))
    requires RegularMember(m, Covering)
    ensures RegularMember(m, Settling(o))
    decreases m, 0
  {
    hide Regular;
    CoveringSettles(o, m.1);
  }

  /** Preparing keeps every verdict of a schema whose keywords show that its closures
      may be restated, whatever the keywords outside the model mean. */
  lemma PrepareCovered(o: Oracle, schema: Value, document: string, i: Value)
    requires Regular(schema, Covering) && Walk(schema, document, "").Done?
    ensures Accepts(o, Walk(schema, document, "").value, i) <==> Accepts(o, schema, i)
  {
    hide Walk, Accepts, Regular;
    CoveringSettles(o, schema);
    PreparePreserves(o, schema, document, i);
  }

  predicate InPlace(k: Keyword) {
    k == AllOf || k == AnyOf || k == OneOf || k == If || k == Schemas.Then || k == Else || k == Reference
  }

  /** The subschema applies none itself and names only properties the schema names. */
  predicate Restates(s: Value, d: seq<(string, Value)>) {
    s.Dict? ==>
      && !Has(s.entries, "additionalProperties") && !Has(s.entries, "unevaluatedProperties")
      && NamesWithin(s.entries, d, "properties") && NamesWithin(s.entries, d, "patternProperties")
      && forall k :: 0 <= k < |s.entries| ==> !InPlace(KeywordOf(s.entries[k].0))
  }

  /** Nothing is applied in place but `allOf`, and that only restates properties. */
  predicate RestatesOnly(d: seq<(string, Value)>) {
    forall k :: 0 <= k < |d| ==>
      if d[k].0 == "allOf" && d[k].1.List? then
        forall j :: 0 <= j < |d[k].1.items| ==> Restates(d[k].1.items[j], d)
      else !InPlace(KeywordOf(d[k].0))
  }

  lemma NotInPlaceCovered(e: (string, Value), d: seq<(string, Value)>)
    requires !InPlace(KeywordOf(e.0))
    ensures CoveredEntry(e, d)
  {
    hide KeywordOf, CoveredSub;
  }

  lemma RestatesCovered(s: Value, d: seq<(string, Value)>)
    requires Restates(s, d)
    ensures CoveredSub(s, d)
  {
    hide At, CoveredEntry, NamesWithin, KeywordOf, InPlace;
    if s.Dict? {
      forall k | 0 <= k < |s.entries| ensures CoveredEntry(s.entries[k], d) { NotInPlaceCovered(s.entries[k], d); }
    }
  }

  lemma AllOfCovered(items: seq<Value>, d: seq<(string, Value)>)
    requires forall j :: 0 <= j < |items| ==> CoveredSub(items[j], d)
    ensures CoveredEntry(("allOf", List(items)), d)
  {
    assert KeywordOf("allOf") == AllOf;
    hide KeywordOf, CoveredSub;
  }

  /** A sealed schema whose `allOf` only restates properties it names is regular by its
      keywords alone, so preparing it keeps every verdict. */
  lemma RestatingRegular(d: seq<(string, Value)>)
    requires Half(d, Covering) && RestatesOnly(d)
    ensures Covered(d) && Regular(Dict(d), Covering)
  {
    hide RegularEntry, Distinct, At, CoveredEntry, CoveredSub, Restates, KeywordOf, InPlace;
    forall k | 0 <= k < |d| ensures CoveredEntry(d[k], d) {
      if d[k].0 == "allOf" && d[k].1.List? {
        var items := d[k].1.items;
        forall j | 0 <= j < |items| ensures CoveredSub(items[j], d) { RestatesCovered(items[j], d); }
        AllOfCovered(items, d);
        assert d[k] == ("allOf", List(items));
      } else {
        NotInPlaceCovered(d[k], d);
      }
    }
  }

  // ----- beside an in-place applicator

  const NAMES_A := Dict([("properties", Dict([("a", Dict([]))]))])
  const ONLY_A := Dict([("a", Null)])

  /** A sealed object whose only property is named by a subschema applied in place. */
  const SEALED := [("allOf", List([NAMES_A])), ("unevaluatedProperties", Bool(false))]

  lemma NamesA(o: Oracle)
    ensures Accepts(o, NAMES_A, ONLY_A) && Evaluated(o, NAMES_A, ONLY_A, "a")
  {
    var (d, e) := (NAMES_A.entries, ("properties", Dict([("a", Dict([]))])));
    assert d == [e];
    assert At(d, "properties") == Some(e.1);
    PropertiesHold(o, d, [("a", Dict([]))], ONLY_A);
    assert Accepts(o, Dict([]), Null);
    assert MemberHolds(o, ("a", Dict([])), ONLY_A);
  }

  lemma SealedAccepts(o: Oracle)
    ensures Accepts(o, Dict(SEALED), ONLY_A)
  {
    NamesA(o);
    var (e, f) := (("allOf", List([NAMES_A])), ("unevaluatedProperties", Bool(false)));
    assert SEALED == [e, f];
    hide Holds;
    SealedApplies(o);
    SealedCloses(o);
  }

  lemma SealedApplies(o: Oracle)
    requires Accepts(o, NAMES_A, ONLY_A)
    ensures Holds(o, Dict(SEALED), ("allOf", List([NAMES_A])), ONLY_A)
  {
    var e := ("allOf", List([NAMES_A]));
    assert SEALED[0] == e;
    AllOfMeans(o, SEALED, e, ONLY_A);
  }

  /** A subschema of `allOf` that accepts the instance evaluates what it names. */
  lemma AllOfEvaluates(o: Oracle, d: seq<(string, Value)>, k: nat, i: Value, name: string)
    requires k < |d| && d[k].0 == "allOf" && d[k].1.List? && d[k].1.items != [] && Inside(o, d[k].1.items[0], i, name)
    ensures Evaluated(o, Dict(d), i, name)
  {
    assert KeywordOf("allOf") == AllOf;
    hide KeywordOf, Inside, NamedBy, At;
    assert EvaluatedBy(o, Dict(d), d[k], i, name);
  }

  lemma EvaluatedCloses(o: Oracle, d: seq<(string, Value)>, e: (string, Value), i: Value)
    requires e in d && e.0 == "unevaluatedProperties" && i.Dict?
    requires forall j :: 0 <= j < |i.entries| ==> Evaluated(o, Dict(d), i, i.entries[j].0)
    ensures Holds(o, Dict(d), e, i)
  {
    ClosureKey(e.0);
    hide KeywordOf, Evaluated, Accepts;
  }

  lemma SealedCloses(o: Oracle)
    requires Accepts(o, NAMES_A, ONLY_A) && Evaluated(o, NAMES_A, ONLY_A, "a")
    ensures Holds(o, Dict(SEALED), ("unevaluatedProperties", Bool(false)), ONLY_A)
  {
    var (e, f) := (("allOf", List([NAMES_A])), ("unevaluatedProperties", Bool(false)));
    assert SEALED[0] == e && SEALED[1] == f;
    hide Accepts, NamedBy, KeywordOf, Evaluated, Holds;
    assert Inside(o, [NAMES_A][0], ONLY_A, "a");
    AllOfEvaluates(o, SEALED, 0, ONLY_A, "a");
    EvaluatedCloses(o, SEALED, f, ONLY_A);
  }

  lemma PlainFinish(d: seq<(string, Value)>, document: string, pointer: string)
    requires !Has(d, "enum") && !Has(d, "unevaluatedProperties") && !Has(d, "allOf")
    ensures Finish(d, document, pointer) == Done(Dict(d), [])
  {
    hide At, Drop;
  }

  lemma EmptyWalks(document: string, pointer: string)
    ensures Walk(Dict([]), document, pointer) == Done(Dict([]), [])
  {
    hide Finish;
    PlainFinish([], document, pointer);
  }

  lemma DictStays(d: seq<(string, Value)>, e: (string, Value), document: string, pointer: string)
    requires WalkDict(d, document, pointer) == Done(d, [])
    requires WalkEntry(e, document, pointer + "/" + EscapeToken(e.0)) == Done(e.1, [])
    ensures WalkDict(d + [e], document, pointer) == Done(d + [e], [])
  {
    assert (d + [e])[..|d|] == d;
    hide EscapeToken, WalkEntry;
  }

  lemma ItemWalk(v: Value, document: string, pointer: string)
    requires Walk(v, document, pointer + "/" + Numbers.Decimal(0)) == Done(v, [])
    ensures WalkItems([v], document, pointer) == Done([v], [])
  {
    hide Walk;
    var none: seq<Value> := [];
    assert [v][..0] == none;
    assert WalkItems(none, document, pointer) == Done(none, []);
    assert none + [v] == [v];
  }

  lemma MemberWalk(m: (string, Value), document: string, pointer: string)
    requires WalkMember(m, document, pointer) == Done(m.1, [])
    ensures WalkMembers([m], document, pointer) == Done([m], [])
  {
    hide WalkMember;
    var none: seq<(string, Value)> := [];
    assert [m][..0] == none;
    assert WalkMembers(none, document, pointer) == Done(none, []);
    assert none + [m] == [m];
  }

  lemma NothingWalks(document: string, pointer: string)
    ensures WalkDict([], document, pointer) == Done([], [])
  {
  }

  lemma PropertiesStay(document: string, pointer: string)
    ensures WalkEntry(("properties", Dict([("a", Dict([]))])), document, pointer) == Done(Dict([("a", Dict([]))]), [])
  {
    var m := ("a", Dict([]));
    EmptyWalks(document, pointer + "/" + EscapeToken("a"));
    hide Walk, EscapeToken;
    MemberWalk(m, document, pointer);
  }

  lemma NamesWalk(document: string, pointer: string)
    ensures Walk(NAMES_A, document, pointer) == Done(NAMES_A, [])
  {
    hide Finish, EscapeToken, WalkEntry, WalkDict, At;
    var (d, e) := (NAMES_A.entries, ("properties", Dict([("a", Dict([]))])));
    NamesFinish(document, pointer);
    NothingWalks(document, pointer);
    PropertiesStay(document, pointer + "/" + EscapeToken("properties"));
    DictStays([], e, document, pointer);
    assert [] + [e] == d;
  }

  lemma NamesFinish(document: string, pointer: string)
    ensures Finish(NAMES_A.entries, document, pointer) == Done(NAMES_A, [])
  {
    hide Finish;
    var d := NAMES_A.entries;
    assert !Has(d, "enum") && !Has(d, "unevaluatedProperties") && !Has(d, "allOf");
    PlainFinish(d, document, pointer);
  }

  lemma SealedFinishes(document: string, pointer: string)
    ensures Finish(SEALED, document, pointer).Done?
  {
    assert At(SEALED, "properties") == None && At(SEALED, "enum") == None && At(SEALED, "additionalProperties") == None;
    assert Distinct(SEALED);
    var rest := Drop(SEALED, "unevaluatedProperties");
    var m := ("additionalProperties", Closure(Bool(false)));
    assert At(rest, "additionalProperties") == None by {
      DropAt(SEALED, "unevaluatedProperties", "additionalProperties");
    }
    assert At(Put(rest, m), "properties") == None by {
      DropAt(SEALED, "unevaluatedProperties", "properties");
      PutAt(rest, m, "properties");
    }
    hide Drop, Put;
  }

  lemma AllOfStays(document: string, pointer: string)
    ensures WalkEntry(("allOf", List([NAMES_A])), document, pointer) == Done(List([NAMES_A]), [])
  {
    hide Walk, WalkItems;
    NamesWalk(document, pointer + "/" + Numbers.Decimal(0));
    ItemWalk(NAMES_A, document, pointer);
  }

  lemma ClosureStays(document: string, pointer: string)
    ensures WalkEntry(("unevaluatedProperties", Bool(false)), document, pointer) == Done(Bool(false), [])
  {
  }

  lemma SealedWalks(document: string, pointer: string)
    ensures Walk(Dict(SEALED), document, pointer).Done?
  {
    var (e, f) := (("allOf", List([NAMES_A])), ("unevaluatedProperties", Bool(false)));
    SealedFinishes(document, pointer);
    NothingWalks(document, pointer);
    hide Finish, EscapeToken, WalkEntry, WalkDict;
    AllOfStays(document, pointer + "/" + EscapeToken("allOf"));
    ClosureStays(document, pointer + "/" + EscapeToken("unevaluatedProperties"));
    DictStays([], e, document, pointer);
    assert [] + [e] == [e];
    DictStays([e], f, document, pointer);
    assert [e] + [f] == SEALED;
  }

  lemma EmptyRegular(how: Closing)
    ensures Regular(Dict([]), how)
  {
  }

  lemma OneRegular(e: (string, Value), how: Closing)
    requires RegularEntry(e, how) && e.0 != "required" && e.0 != "unevaluatedProperties"
    ensures Regular(Dict([e]), how)
  {
    hide RegularEntry;
    assert At([e], "required") == None && At([e], "unevaluatedProperties") == None;
    assert Distinct([e]);
    hide At, Distinct;
  }

  lemma OneMember(m: (string, Value), how: Closing)
    requires Regular(m.1, how)
    ensures RegularEntry(("properties", Dict([m])), how)
  {
    hide Regular, RegularEntry;
    assert RegularMember(m, how);
    MapEntryRegular([m], how);
  }

  lemma NamesRegular(how: Closing)
    ensures Regular(NAMES_A, how)
  {
    hide Regular, RegularEntry;
    EmptyRegular(how);
    OneMember(("a", Dict([])), how);
    OneRegular(("properties", Dict([("a", Dict([]))])), how);
  }

  lemma SealedHalf(how: Closing)
    ensures Half(SEALED, how)
  {
    hide Regular, RegularEntry, At, Distinct;
    NamesRegular(how);
    SealedEntries(how);
    SealedNames();
  }

  lemma SealedEntries(how: Closing)
    requires Regular(NAMES_A, how)
    ensures RegularEntry(SEALED[0], how) && RegularEntry(SEALED[1], how)
  {
    hide Regular;
  }

  lemma SealedNames()
    ensures Distinct(SEALED) && At(SEALED, "required") == None
  {
  }

  lemma SealedLoose(o: Oracle)
    ensures !Tight(o, SEALED, ONLY_A)
  {
    assert At(SEALED, "unevaluatedProperties") == Some(Bool(false)) by {
      assert SEALED[1].0 == "unevaluatedProperties";
    }
    assert At(SEALED, "properties") == None && At(SEALED, "patternProperties") == None
        && At(SEALED, "additionalProperties") == None;
    assert ONLY_A.entries[0].0 == "a";
    assert !NamedBy(o, SEALED, "a");
  }

  /** Beside an in-place applicator the pass is not faithful: the sealed schema
      accepts the property its subschema names, the prepared one refuses it. */
  lemma ApplicatorBeside(o: Oracle, document: string)
    ensures var walked := Walk(Dict(SEALED), document, "");
            walked.Done? && Accepts(o, Dict(SEALED), ONLY_A) && !Accepts(o, walked.value, ONLY_A)
  {
    hide Walk, Accepts, Tight, Half;
    SealedAccepts(o);
    SealedWalks(document, "");
    SealedHalf(Settling(o));
    SealedLoose(o);
    PrepareExact(o, SEALED, document, ONLY_A);
  }
}
