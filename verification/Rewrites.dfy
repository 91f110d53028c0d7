/** Which rewrites the preparation pass records: exactly those of the schemas it walks to
    that call for one, each at the pointer that leads there. */
module Rewrites {
  import opened Wrappers
  import opened Members
  import opened Schemas
  import opened Prepare
  import opened Expansion
  import PrepareLaws
  import Pointers
  import Numbers

  // ----- where the pass goes

  const MAPS := {"properties", "patternProperties", "$defs", "definitions"}
  const LISTS := {"allOf", "anyOf", "oneOf", "prefixItems"}
  const VALUES := {"items", "not", "if", "then", "else", "propertyNames", "contains", "unevaluatedItems",
                   "additionalProperties", "additionalItems"}

  /** The tokens lead from the node to a schema, through lists, maps of schemas, lists of
      schemas and schemas. */
  ghost predicate Leads(node: Value, path: seq<string>, d: seq<(string, Value)>)
    decreases |path|, 0
  {
    match node
    case List(items) => path != [] && LeadsItem(items, path, d)
    case Dict(entries) =>
      if path == [] then entries == d
      else exists j :: 0 <= j < |entries| && entries[j].0 == path[0] && LeadsEntry(entries[j], path[1..], d)
    case _ => false
  }

  ghost predicate LeadsItem(items: seq<Value>, path: seq<string>, d: seq<(string, Value)>)
    requires path != []
    decreases |path| - 1, 2
  {
    exists k :: 0 <= k < |items| && path[0] == Numbers.Decimal(k) && Leads(items[k], path[1..], d)
  }

  ghost predicate LeadsMember(m: (string, Value), path: seq<string>, d: seq<(string, Value)>)
    requires path != []
    decreases |path| - 1, 1
  {
    m.0 == path[0] && Leads(m.1, path[1..], d)
  }

  ghost predicate LeadsEntry(entry: (string, Value), path: seq<string>, d: seq<(string, Value)>)
    decreases |path|, 1
  {
    if entry.0 in MAPS && entry.1.Dict? then
      path != [] && exists j :: 0 <= j < |entry.1.entries| && LeadsMember(entry.1.entries[j], path, d)
    else if entry.0 in LISTS && entry.1.List? then path != [] && LeadsItem(entry.1.items, path, d)
    else entry.0 in VALUES && Leads(entry.1, path, d)
  }

  function Spelled(pointer: string, path: seq<string>): string
    decreases |path|
  {
    if path == [] then pointer else Spelled(Pointers.Child(pointer, path[0]), path[1..])
  }

  /** The schema calls for the rewrite: a default beside an enumeration, a closure no other
      keyword states, or clauses that can be expanded once its subschemas are prepared. */
  ghost predicate Calls(d: seq<(string, Value)>, document: string, pointer: string, rule: string) {
    || (rule == "enum-default-conflict-dropped" && Has(d, "enum") && Has(d, "default"))
    || (rule == "unevaluated-properties-to-additional" && Has(d, "unevaluatedProperties")
        && !Has(d, "additionalProperties"))
    || (rule == "conditional-numeric-to-one-of" && ExpandableInside(d, document, pointer))
  }

  ghost predicate ExpandableInside(d: seq<(string, Value)>, document: string, pointer: string) {
    WalkDict(d, document, pointer).Done? && Expandable(WalkDict(d, document, pointer).value)
  }

  /** A schema the pass walks to calls for the rewrite recorded. */
  ghost predicate Due(node: Value, document: string, pointer: string, r: Rewrite) {
    r.document == document && exists path, d :: Leads(node, path, d) && DueAt(d, document, pointer, path, r)
  }

  ghost predicate DueAt(d: seq<(string, Value)>, document: string, pointer: string, path: seq<string>, r: Rewrite) {
    r.pointer == Spelled(pointer, path) && Calls(d, document, r.pointer, r.rule)
  }

  // ----- tokens

  lemma {:induction false} EscapeIsToken(token: string)
    ensures EscapeToken(token) == Pointers.Token(token)
    decreases |token|
  {
    Pointers.TokenSpells("", "");
    if token != "" {
      var n := |token| - 1;
      EscapeIsToken(token[..n]);
      Pointers.TokenSpells(token[..n], [token[n]]);
      assert token == token[..n] + [token[n]];
      assert token[n] == '~' ==> [token[n]] == "~";
      assert token[n] == '/' ==> [token[n]] == "/";
      hide Pointers.Token;
    }
  }

  lemma {:induction false} DigitsToken(digits: string)
    requires Numbers.AllDigits(digits)
    ensures Pointers.Token(digits) == digits
  {
    Pointers.TokenSpells("", "");
    if digits != "" {
      DigitsToken(digits[1..]);
      assert digits == [digits[0]] + digits[1..];
      assert Numbers.IsDigit(digits[0]);
      Pointers.TokenSpells([digits[0]], digits[1..]);
      hide Pointers.Token;
    }
  }

  lemma ChildIs(pointer: string, token: string)
    ensures pointer + "/" + EscapeToken(token) == Pointers.Child(pointer, token)
  {
    EscapeIsToken(token);
  }

  lemma ItemIs(pointer: string, k: nat)
    ensures pointer + "/" + Numbers.Decimal(k) == Pointers.Child(pointer, Numbers.Decimal(k))
  {
    DigitsToken(Numbers.Decimal(k));
  }

  // ----- what is due beneath a node

  ghost predicate DueItems(items: seq<Value>, document: string, pointer: string, r: Rewrite) {
    exists k: nat :: k < |items| && Due(items[k], document, Pointers.Child(pointer, Numbers.Decimal(k)), r)
  }

  ghost predicate DueMembers(d: seq<(string, Value)>, document: string, pointer: string, r: Rewrite) {
    exists j :: 0 <= j < |d| && DueMember(d[j], document, pointer, r)
  }

  ghost predicate DueMember(m: (string, Value), document: string, pointer: string, r: Rewrite) {
    Due(m.1, document, Pointers.Child(pointer, m.0), r)
  }

  ghost predicate DueEntry(entry: (string, Value), document: string, pointer: string, r: Rewrite) {
    if entry.0 in MAPS && entry.1.Dict? then DueMembers(entry.1.entries, document, pointer, r)
    else if entry.0 in LISTS && entry.1.List? then DueItems(entry.1.items, document, pointer, r)
    else entry.0 in VALUES && Due(entry.1, document, pointer, r)
  }

  ghost predicate DueEntries(d: seq<(string, Value)>, document: string, pointer: string, r: Rewrite) {
    exists j :: 0 <= j < |d| && DueEntry(d[j], document, Pointers.Child(pointer, d[j].0), r)
  }

  ghost predicate DueHere(d: seq<(string, Value)>, document: string, pointer: string, r: Rewrite) {
    r.document == document && r.pointer == pointer && Calls(d, document, pointer, r.rule)
  }

  lemma SpelledStep(pointer: string, token: string, path: seq<string>)
    ensures Spelled(pointer, [token] + path) == Spelled(Pointers.Child(pointer, token), path)
  {
    assert ([token] + path)[1..] == path;
  }

  lemma DueList(items: seq<Value>, document: string, pointer: string, r: Rewrite)
    requires r.document == document
    ensures (exists path, d :: path != [] && LeadsItem(items, path, d) && DueAt(d, document, pointer, path, r)) <==>
      DueItems(items, document, pointer, r)
  {
    hide Leads, Calls, Pointers.Child, Numbers.Decimal;
    if path, d :| path != [] && LeadsItem(items, path, d) && DueAt(d, document, pointer, path, r) {
      var k: nat :| k < |items| && path[0] == Numbers.Decimal(k) && Leads(items[k], path[1..], d);
      assert DueAt(d, document, Pointers.Child(pointer, path[0]), path[1..], r);
    }
    if DueItems(items, document, pointer, r) {
      var k: nat :| k < |items| && Due(items[k], document, Pointers.Child(pointer, Numbers.Decimal(k)), r);
      var path, d :| Leads(items[k], path, d)
        && DueAt(d, document, Pointers.Child(pointer, Numbers.Decimal(k)), path, r);
      var longer := [Numbers.Decimal(k)] + path;
      SpelledStep(pointer, Numbers.Decimal(k), path);
      assert longer[1..] == path && LeadsItem(items, longer, d);
      assert DueAt(d, document, pointer, longer, r);
    }
  }

  lemma DueMap(entries: seq<(string, Value)>, document: string, pointer: string, r: Rewrite)
    requires r.document == document
    ensures (exists path, d ::
             path != [] && LeadsMembers(entries, path, d) && DueAt(d, document, pointer, path, r)) <==>
      DueMembers(entries, document, pointer, r)
  {
    hide Leads, Calls, Pointers.Child;
    if path, d :| path != [] && LeadsMembers(entries, path, d) && DueAt(d, document, pointer, path, r) {
      var j :| 0 <= j < |entries| && LeadsMember(entries[j], path, d);
      assert DueAt(d, document, Pointers.Child(pointer, path[0]), path[1..], r);
      assert DueMember(entries[j], document, pointer, r);
    }
    if DueMembers(entries, document, pointer, r) {
      var j :| 0 <= j < |entries| && DueMember(entries[j], document, pointer, r);
      var path, d :| Leads(entries[j].1, path, d)
        && DueAt(d, document, Pointers.Child(pointer, entries[j].0), path, r);
      var longer := [entries[j].0] + path;
      SpelledStep(pointer, entries[j].0, path);
      assert longer[1..] == path && LeadsMember(entries[j], longer, d);
      assert DueAt(d, document, pointer, longer, r);
    }
  }

  ghost predicate LeadsMembers(entries: seq<(string, Value)>, path: seq<string>, d: seq<(string, Value)>)
    requires path != []
  {
    exists j :: 0 <= j < |entries| && LeadsMember(entries[j], path, d)
  }

  /** What leads into an entry makes due what the entry does. */
  lemma DueInto(entry: (string, Value), document: string, pointer: string, r: Rewrite)
    requires r.document == document
    ensures (exists path, d :: LeadsEntry(entry, path, d) && DueAt(d, document, pointer, path, r)) <==>
      DueEntry(entry, document, pointer, r)
  {
    hide Leads, DueAt, LeadsItem, LeadsMember, DueItems, DueMembers;
    if entry.0 in MAPS && entry.1.Dict? {
      DueMap(entry.1.entries, document, pointer, r);
      forall path: seq<string>, d | path != []
        ensures LeadsEntry(entry, path, d) <==> LeadsMembers(entry.1.entries, path, d)
      {
      }
    } else if entry.0 in LISTS && entry.1.List? {
      DueList(entry.1.items, document, pointer, r);
    }
  }

  lemma DueDict(entries: seq<(string, Value)>, document: string, pointer: string, r: Rewrite)
    ensures Due(Dict(entries), document, pointer, r) <==>
      DueHere(entries, document, pointer, r) || (r.document == document && DueEntries(entries, document, pointer, r))
  {
    hide LeadsEntry, Calls, DueEntry, Pointers.Child;
    if r.document == document {
      forall j | 0 <= j < |entries|
        ensures (exists path, d :: LeadsEntry(entries[j], path, d)
                                   && DueAt(d, document, Pointers.Child(pointer, entries[j].0), path, r)) <==>
          DueEntry(entries[j], document, Pointers.Child(pointer, entries[j].0), r)
      {
        DueInto(entries[j], document, Pointers.Child(pointer, entries[j].0), r);
      }
      if Due(Dict(entries), document, pointer, r) {
        var path, d :| Leads(Dict(entries), path, d) && DueAt(d, document, pointer, path, r);
        if path != [] {
          var j :| 0 <= j < |entries| && entries[j].0 == path[0] && LeadsEntry(entries[j], path[1..], d);
          assert DueAt(d, document, Pointers.Child(pointer, path[0]), path[1..], r);
        }
      }
      if DueHere(entries, document, pointer, r) {
        assert Leads(Dict(entries), [], entries) && DueAt(entries, document, pointer, [], r);
      }
      if DueEntries(entries, document, pointer, r) {
        var j :| 0 <= j < |entries| && DueEntry(entries[j], document, Pointers.Child(pointer, entries[j].0), r);
        var path, d :| LeadsEntry(entries[j], path, d)
          && DueAt(d, document, Pointers.Child(pointer, entries[j].0), path, r);
        var longer := [entries[j].0] + path;
        SpelledStep(pointer, entries[j].0, path);
        assert longer[1..] == path && Leads(Dict(entries), longer, d);
        assert DueAt(d, document, pointer, longer, r);
      }
    }
  }

  // ----- what finishing a schema records

  lemma {:induction false} DropKeeps(d: seq<(string, Value)>, key: string, other: string)
    ensures At(Drop(d, key), other) == if other == key then None else At(d, other)
  {
    if d == [] {
      NothingAt(other);
    } else {
      hide At;
      DropKeeps(d[1..], key, other);
      AtRest(d, other);
      if d[0].0 == key {
        assert Drop(d, key) == Drop(d[1..], key);
      } else {
        var dropped := [d[0]] + Drop(d[1..], key);
        AtRest(dropped, other);
        assert dropped[1..] == Drop(d[1..], key);
      }
    }
  }

  lemma NothingAt(key: string)
    ensures At([], key) == None
  {
  }

  lemma AtRest(d: seq<(string, Value)>, key: string)
    requires d != []
    ensures At(d, key) == if d[0].0 == key then Some(d[0].1) else At(d[1..], key)
  {
  }

  lemma {:induction false} SameKeys(a: seq<(string, Value)>, b: seq<(string, Value)>, key: string)
    requires |a| == |b| && forall k :: 0 <= k < |a| ==> a[k].0 == b[k].0
    ensures Has(a, key) <==> Has(b, key)
  {
    if a != [] { SameKeys(a[1..], b[1..], key); }
  }

  lemma NumericAlike(a: seq<(string, Value)>, b: seq<(string, Value)>, clauses: seq<Value>, low: int, high: int)
    requires forall key :: key in {"type", "allOf", "properties", "required"} ==> At(a, key) == At(b, key)
    requires NumericObject(a, clauses, low, high)
    ensures NumericObject(b, clauses, low, high)
  {
    hide At, Mentions;
    assert At(a, "type") == At(b, "type") && At(a, "allOf") == At(b, "allOf");
    assert At(a, "properties") == At(b, "properties") && At(a, "required") == At(b, "required");
    var properties, precision, scale :|
      && Candidate(a, clauses, properties) && Mentions(At(a, "required").value, "precision")
      && At(properties, "precision") == Some(Dict(precision)) && At(properties, "scale") == Some(Dict(scale))
      && !Has(precision, "const")
      && At(precision, "type") == Some(Str("integer")) && At(scale, "type") == Some(Str("integer"))
      && At(precision, "minimum") == Some(Int(low)) && At(precision, "maximum") == Some(Int(high))
      && (Has(scale, "maximum") ==> At(scale, "maximum").value.Int?);
    assert Candidate(b, clauses, properties);
  }

  lemma ExpandableAlike(a: seq<(string, Value)>, b: seq<(string, Value)>)
    requires forall key :: key in {"type", "allOf", "properties", "required"} ==> At(a, key) == At(b, key)
    ensures Expandable(a) <==> Expandable(b)
  {
    hide At, NumericObject, Agreeing, Spans;
    forall clauses, low, high ensures NumericObject(a, clauses, low, high) <==> NumericObject(b, clauses, low, high) {
      if NumericObject(a, clauses, low, high) { NumericAlike(a, b, clauses, low, high); }
      if NumericObject(b, clauses, low, high) { NumericAlike(b, a, clauses, low, high); }
    }
  }

  lemma ExpandRecords(d: seq<(string, Value)>, document: string, pointer: string)
    requires Expand(d, document, pointer).Done?
    ensures Expand(d, document, pointer).log ==
      if Expandable(d) then [Rewrite("conditional-numeric-to-one-of", document, pointer)] else []
  {
    ExpandableMeans(d);
    hide At, Fitting, Collect, Covers, Agreeing, Spans, Expandable;
    if Fitting(d).Fits? {
      var shape := Fitting(d).shape;
      CollectMeans(shape.clauses);
      if Collect(shape.clauses).Rules? {
        PrepareLaws.CollectTabulates(shape.clauses);
        SpansCovers(shape.clauses, Collect(shape.clauses).rules, shape.low, shape.high);
      }
    }
  }

  lemma CloseRecords(d: seq<(string, Value)>, document: string, pointer: string)
    requires Close(d, document, pointer).Done?
    ensures Close(d, document, pointer).log == if Has(d, "unevaluatedProperties") && !Has(d, "additionalProperties")
        then [Rewrite("unevaluated-properties-to-additional", document, pointer)] else []
    ensures forall key :: key in {"type", "allOf", "properties", "required"} ==>
        At(Close(d, document, pointer).value, key) == At(d, key)
  {
    hide At, Put, PyEqual;
    var rest := Drop(d, "unevaluatedProperties");
    forall key ensures At(rest, key) == if key == "unevaluatedProperties" then None else At(d, key) {
      DropKeeps(d, "unevaluatedProperties", key);
    }
    forall key, v ensures At(Put(rest, ("additionalProperties", v)), key) ==
        if key == "additionalProperties" then Some(v) else At(rest, key)
    {
      PrepareLaws.PutAt(rest, ("additionalProperties", v), key);
    }
    hide Drop, Closure;
  }

  lemma DropRecords(d: seq<(string, Value)>, document: string, pointer: string)
    ensures DropDefault(d, document, pointer).Done?
    ensures DropDefault(d, document, pointer).log ==
      if Has(d, "enum") && Has(d, "default") then [Rewrite("enum-default-conflict-dropped", document, pointer)] else []
    ensures forall key :: key != "default" ==> At(DropDefault(d, document, pointer).value, key) == At(d, key)
  {
    hide At;
    forall key ensures At(Drop(d, "default"), key) == if key == "default" then None else At(d, key) {
      DropKeeps(d, "default", key);
    }
    hide Drop;
  }

  ghost predicate Finishes(d: seq<(string, Value)>, document: string, pointer: string, r: Rewrite) {
    r.document == document && r.pointer == pointer && (
      || (r.rule == "enum-default-conflict-dropped" && Has(d, "enum") && Has(d, "default"))
      || (r.rule == "unevaluated-properties-to-additional" && Has(d, "unevaluatedProperties")
          && !Has(d, "additionalProperties"))
      || (r.rule == "conditional-numeric-to-one-of" && Expandable(d)))
  }

  lemma FinishRecords(d: seq<(string, Value)>, document: string, pointer: string, r: Rewrite)
    requires Finish(d, document, pointer).Done?
    ensures r in Finish(d, document, pointer).log <==> Finishes(d, document, pointer, r)
  {
    hide At, DropDefault, Close, Expand, Expandable;
    DropRecords(d, document, pointer);
    var plain := DropDefault(d, document, pointer).value;
    CloseRecords(plain, document, pointer);
    var closed := Close(plain, document, pointer).value;
    ExpandRecords(closed, document, pointer);
    ExpandableAlike(closed, d);
    assert Has(plain, "unevaluatedProperties") <==> Has(d, "unevaluatedProperties");
    assert Has(plain, "additionalProperties") <==> Has(d, "additionalProperties");
    FinishLog(d, document, pointer);
    hide Has;
  }

  lemma FinishLog(d: seq<(string, Value)>, document: string, pointer: string)
    requires Finish(d, document, pointer).Done?
    ensures DropDefault(d, document, pointer).Done?
    ensures var dropped := DropDefault(d, document, pointer);
      && Close(dropped.value, document, pointer).Done?
      && var closed := Close(dropped.value, document, pointer);
         && Expand(closed.value, document, pointer).Done?
         && Finish(d, document, pointer).log == dropped.log + closed.log + Expand(closed.value, document, pointer).log
  {
    hide DropDefault, Close, Expand;
  }

  // ----- the walk

  /** The pass records exactly the rewrites due. */
  lemma {:induction false} WalkRecords(node: Value, document: string, pointer: string, r: Rewrite)
    requires Walk(node, document, pointer).Done?
    ensures r in Walk(node, document, pointer).log <==> Due(node, document, pointer, r)
    decreases node, 1
  {
    hide Finish, WalkItems, WalkDict, DueAt;
    match node
    case List(items) =>
      ItemsRecord(items, document, pointer, r);
      if r.document == document {
        DueList(items, document, pointer, r);
        assert forall path: seq<string>, d :: path != [] ==> (Leads(node, path, d) <==> LeadsItem(items, path, d));
      }
    case Dict(d) =>
      EntriesRecord(d, document, pointer, r);
      DueDict(d, document, pointer, r);
      var walked := WalkDict(d, document, pointer).value;
      FinishRecords(walked, document, pointer, r);
      WalkedKeys(d, document, pointer);
      hide Due, DueEntries, Has, Expandable;
    case _ =>
  }

  lemma WalkedKeys(d: seq<(string, Value)>, document: string, pointer: string)
    requires WalkDict(d, document, pointer).Done?
    ensures forall key :: Has(WalkDict(d, document, pointer).value, key) <==> Has(d, key)
  {
    var walked := WalkDict(d, document, pointer).value;
    forall key ensures Has(walked, key) <==> Has(d, key) { SameKeys(walked, d, key); }
  }

  lemma {:induction false} ItemsRecord(items: seq<Value>, document: string, pointer: string, r: Rewrite)
    requires WalkItems(items, document, pointer).Done?
    ensures r in WalkItems(items, document, pointer).log <==> DueItems(items, document, pointer, r)
    decreases items, 0
  {
    hide Walk, Due, Numbers.Decimal, Pointers.Child;
    if items != [] {
      var n := |items| - 1;
      ItemsRecord(items[..n], document, pointer, r);
      WalkRecords(items[n], document, pointer + "/" + Numbers.Decimal(n), r);
      ItemIs(pointer, n);
      if DueItems(items[..n], document, pointer, r) {
        var k: nat :| k < n && Due(items[..n][k], document, Pointers.Child(pointer, Numbers.Decimal(k)), r);
        assert items[k] == items[..n][k];
      }
      if DueItems(items, document, pointer, r) {
        var k: nat :| k <= n && Due(items[k], document, Pointers.Child(pointer, Numbers.Decimal(k)), r);
        assert k < n ==> items[k] == items[..n][k];
      }
    }
  }

  lemma {:induction false} MembersRecord(d: seq<(string, Value)>, document: string, pointer: string, r: Rewrite)
    requires WalkMembers(d, document, pointer).Done?
    ensures r in WalkMembers(d, document, pointer).log <==> DueMembers(d, document, pointer, r)
    decreases d, 0
  {
    hide Walk, Due, Pointers.Child;
    if d != [] {
      var n := |d| - 1;
      MembersRecord(d[..n], document, pointer, r);
      MemberRecords(d[n], document, pointer, r);
      hide DueMember, WalkMember;
      if DueMembers(d[..n], document, pointer, r) {
        var j :| 0 <= j < n && DueMember(d[..n][j], document, pointer, r);
        assert d[j] == d[..n][j];
      }
      if DueMembers(d, document, pointer, r) {
        var j :| 0 <= j <= n && DueMember(d[j], document, pointer, r);
        assert j < n ==> d[j] == d[..n][j];
      }
    }
  }

  lemma {:induction false} MemberRecords(m: (string, Value), document: string, pointer: string, r: Rewrite)
    requires WalkMember(m, document, pointer).Done?
    ensures r in WalkMember(m, document, pointer).log <==> DueMember(m, document, pointer, r)
    decreases m, 2
  {
    hide Walk, Due, EscapeToken;
    ChildIs(pointer, m.0);
    WalkRecords(m.1, document, pointer + "/" + EscapeToken(m.0), r);
  }

  lemma {:induction false} EntryRecords(entry: (string, Value), document: string, pointer: string, r: Rewrite)
    requires WalkEntry(entry, document, pointer).Done?
    ensures r in WalkEntry(entry, document, pointer).log <==> DueEntry(entry, document, pointer, r)
    decreases entry, 2
  {
    KeysAlike(entry.0);
    hide Walk, WalkItems, WalkMembers, Due, DueItems, DueMembers, MapKey, ListKey, ValueKey;
    if MapKey(entry.0) && entry.1.Dict? {
      MembersRecord(entry.1.entries, document, pointer, r);
    } else if ListKey(entry.0) && entry.1.List? {
      ItemsRecord(entry.1.items, document, pointer, r);
    } else if ValueKey(entry.0) {
      WalkRecords(entry.1, document, pointer, r);
    }
  }

  lemma KeysAlike(key: string)
    ensures (MapKey(key) <==> key in MAPS) && (ListKey(key) <==> key in LISTS) && (ValueKey(key) <==> key in VALUES)
  {
  }

  lemma {:induction false} EntriesRecord(d: seq<(string, Value)>, document: string, pointer: string, r: Rewrite)
    requires WalkDict(d, document, pointer).Done?
    ensures r in WalkDict(d, document, pointer).log <==> DueEntries(d, document, pointer, r)
    decreases d, 0
  {
    hide WalkEntry, DueEntry, Pointers.Child;
    if d != [] {
      var n := |d| - 1;
      EntriesRecord(d[..n], document, pointer, r);
      ChildIs(pointer, d[n].0);
      EntryRecords(d[n], document, pointer + "/" + EscapeToken(d[n].0), r);
      hide EscapeToken;
      if DueEntries(d[..n], document, pointer, r) {
        var j :| 0 <= j < n && DueEntry(d[..n][j], document, Pointers.Child(pointer, d[..n][j].0), r);
        assert d[j] == d[..n][j];
      }
      if DueEntries(d, document, pointer, r) {
        var j :| 0 <= j <= n && DueEntry(d[j], document, Pointers.Child(pointer, d[j].0), r);
        assert j < n ==> d[j] == d[..n][j];
      }
    }
  }
}
