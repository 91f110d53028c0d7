/** The order of a document's identity-keyed sets, sorted by identity before it is written. */
module NodeOrder {
  import opened Wrappers
  import opened Json
  import opened Members
  import opened Normalize
  import opened Collapse
  import Canonical
  import opened CanonicalLaws
  import Compat
  import CompatLaws
  import NormalizeLaws

  // ----- one list

  function Id(node: Json): string { Compat.IdentityOf(node) }

  function InsertNode(node: Json, s: seq<Json>): seq<Json> {
    if s == [] || !Less(Id(s[0]), Id(node)) then [node] + s else [s[0]] + InsertNode(node, s[1..])
  }

  /** A stable sort by identity, in code point order. */
  function SortNodes(s: seq<Json>): seq<Json> {
    if s == [] then [] else InsertNode(s[0], SortNodes(s[1..]))
  }

  ghost predicate Unique(s: seq<Json>) { forall i, j :: 0 <= i < j < |s| ==> Id(s[i]) != Id(s[j]) }

  ghost predicate Ordered(s: seq<Json>) { forall i, j :: 0 <= i < j < |s| ==> Less(Id(s[i]), Id(s[j])) }

  lemma {:induction false} InsertNodeElements(node: Json, s: seq<Json>)
    ensures multiset(InsertNode(node, s)) == multiset{node} + multiset(s)
  {
    hide Less, Id;
    if s != [] && Less(Id(s[0]), Id(node)) {
      InsertNodeElements(node, s[1..]);
      assert s == [s[0]] + s[1..];
    }
  }

  lemma {:induction false} SortNodesElements(s: seq<Json>)
    ensures multiset(SortNodes(s)) == multiset(s)
    decreases |s|
  {
    hide InsertNode;
    if s != [] {
      SortNodesElements(s[1..]);
      InsertNodeElements(s[0], SortNodes(s[1..]));
      assert s == [s[0]] + s[1..];
    }
  }

  lemma {:induction false} InsertNodeOrders(node: Json, s: seq<Json>)
    requires Ordered(s) && forall x :: x in s ==> Id(x) != Id(node)
    ensures Ordered(InsertNode(node, s))
    decreases |s|
  {
    hide Less, Id;
    if s != [] {
      LessOrder(Id(s[0]), Id(node));
      if Less(Id(s[0]), Id(node)) {
        InsertNodeOrders(node, s[1..]);
        InsertNodeElements(node, s[1..]);
        var rest := InsertNode(node, s[1..]);
        forall j | 0 <= j < |rest| ensures Less(Id(s[0]), Id(rest[j])) {
          assert rest[j] in multiset(rest);
          assert rest[j] == node || rest[j] in s[1..];
        }
      } else {
        forall j | 0 <= j < |s| ensures Less(Id(node), Id(s[j])) {
          if j > 0 { LessTrans(Id(node), Id(s[0]), Id(s[j])); }
        }
      }
    }
  }

  /** Sorting distinct identities puts them in strict order. */
  lemma {:induction false} SortNodesOrders(s: seq<Json>)
    requires Unique(s)
    ensures Ordered(SortNodes(s))
    decreases |s|
  {
    hide InsertNode, Id, Less;
    if s != [] {
      SortNodesOrders(s[1..]);
      SortNodesElements(s[1..]);
      forall x | x in SortNodes(s[1..]) ensures Id(x) != Id(s[0]) {
        InElements(SortNodes(s[1..]), s[1..], x);
        var j :| 0 <= j < |s[1..]| && s[1..][j] == x;
      }
      InsertNodeOrders(s[0], SortNodes(s[1..]));
    }
  }

  lemma MultisetAround(b: seq<Json>, k: nat)
    requires k < |b|
    ensures multiset(b) == multiset(b[..k] + b[k + 1..]) + multiset{b[k]}
  {
    assert b == b[..k] + [b[k]] + b[k + 1..];
  }

  lemma Removing(a: seq<Json>, b: seq<Json>, k: nat)
    requires a != [] && k < |b| && b[k] == a[0] && multiset(a) == multiset(b)
    ensures multiset(a[1..]) == multiset(b[..k] + b[k + 1..])
  {
    MultisetAround(a, 0);
    MultisetAround(b, k);
    assert a[..0] + a[1..] == a[1..];
    SameRest(multiset(a[1..]), multiset(b[..k] + b[k + 1..]), multiset{a[0]});
  }

  lemma SameRest(x: multiset<Json>, y: multiset<Json>, z: multiset<Json>)
    requires x + z == y + z
    ensures x == y
  {
    assert x + z - z == x && y + z - z == y;
  }

  /** Nodes in strict order are determined by which nodes they are. */
  lemma {:induction false} OrderedUnique(a: seq<Json>, b: seq<Json>)
    requires Ordered(a) && Ordered(b) && multiset(a) == multiset(b)
    ensures a == b
    decreases |a|
  {
    hide Less, Id, Ordered;
    SameCount(a, b);
    if a != [] {
      FirstOf(a, b);
      RemovingFirst(a, b);
      OrderedRest(a);
      OrderedRest(b);
      OrderedUnique(a[1..], b[1..]);
      assert a == [a[0]] + a[1..] && b == [b[0]] + b[1..];
    }
  }

  lemma RemovingFirst(a: seq<Json>, b: seq<Json>)
    requires a != [] && b != [] && b[0] == a[0] && multiset(a) == multiset(b)
    ensures multiset(a[1..]) == multiset(b[1..])
  {
    Removing(a, b, 0);
    assert b[..0] + b[1..] == b[1..];
  }

  lemma OrderedRest(a: seq<Json>)
    requires a != [] && Ordered(a)
    ensures Ordered(a[1..])
  {
    hide Less, Id;
  }

  lemma FirstOf(a: seq<Json>, b: seq<Json>)
    requires Ordered(a) && Ordered(b) && multiset(a) == multiset(b) && a != [] && b != []
    ensures a[0] == b[0]
  {
    hide Less, Id;
    assert a[0] in multiset(a) && b[0] in multiset(b);
    var i :| 0 <= i < |b| && b[i] == a[0];
    var j :| 0 <= j < |a| && a[j] == b[0];
    LessOrder(Id(a[0]), Id(b[0]));
  }

  lemma {:induction false} UniqueShuffle(a: seq<Json>, b: seq<Json>)
    requires Unique(a) && multiset(a) == multiset(b)
    ensures Unique(b)
  {
    hide Id;
    forall i, j | 0 <= i < j < |b| ensures Id(b[i]) != Id(b[j]) {
      var (x, y) := (b[i], b[j]);
      assert x in multiset(b) && y in multiset(b);
      if x == y {
        TwiceIn(b, i, j);
        OnceIn(a, x);
      } else {
        var k :| 0 <= k < |a| && a[k] == x;
        var l :| 0 <= l < |a| && a[l] == y;
        assert k < l || l < k;
      }
    }
  }

  lemma TwiceIn(b: seq<Json>, i: nat, j: nat)
    requires i < j < |b| && b[i] == b[j]
    ensures multiset(b)[b[i]] >= 2
  {
    assert b == b[..j] + [b[j]] + b[j + 1..];
    assert b[..j][i] == b[i];
    assert b[i] in multiset(b[..j]);
  }

  lemma {:induction false} OnceIn(a: seq<Json>, x: Json)
    requires Unique(a)
    ensures multiset(a)[x] <= 1
    decreases |a|
  {
    hide Id;
    if a != [] {
      var n := |a| - 1;
      OnceIn(a[..n], x);
      assert a == a[..n] + [a[n]];
      forall k | 0 <= k < n ensures a[..n][k] != a[n] { assert Id(a[k]) != Id(a[n]); }
      assert a[n] !in a[..n];
    }
  }

  /** Whatever the order a set of distinct identities is given in, it sorts to one list. */
  lemma SortNodesShuffle(a: seq<Json>, b: seq<Json>)
    requires Unique(a) && multiset(a) == multiset(b)
    ensures SortNodes(a) == SortNodes(b)
  {
    hide Unique, Ordered;
    UniqueShuffle(a, b);
    SortNodesOrders(a);
    SortNodesOrders(b);
    SortNodesElements(a);
    SortNodesElements(b);
    OrderedUnique(SortNodes(a), SortNodes(b));
  }

  // ----- sorting and changing nodes in place commute

  ghost predicate KeepsId(change: Json -> Json) { forall x :: Id(change(x)) == Id(x) }

  function Each(change: Json -> Json, s: seq<Json>): (r: seq<Json>)
    ensures |r| == |s| && forall i :: 0 <= i < |s| ==> r[i] == change(s[i])
  {
    seq(|s|, i requires 0 <= i < |s| => change(s[i]))
  }

  lemma {:induction false} InsertEach(change: Json -> Json, node: Json, s: seq<Json>)
    requires KeepsId(change)
    ensures Each(change, InsertNode(node, s)) == InsertNode(change(node), Each(change, s))
    decreases |s|
  {
    hide Less, Id;
    if s != [] && Less(Id(s[0]), Id(node)) {
      InsertEach(change, node, s[1..]);
      assert Each(change, s)[1..] == Each(change, s[1..]);
    }
  }

  lemma {:induction false} SortEach(change: Json -> Json, s: seq<Json>)
    requires KeepsId(change)
    ensures Each(change, SortNodes(s)) == SortNodes(Each(change, s))
    decreases |s|
  {
    hide InsertNode, KeepsId;
    if s != [] {
      SortEach(change, s[1..]);
      InsertEach(change, s[0], SortNodes(s[1..]));
      assert Each(change, s)[1..] == Each(change, s[1..]);
    }
  }

  lemma EachConcat(change: Json -> Json, a: seq<Json>, b: seq<Json>)
    ensures Each(change, a + b) == Each(change, a) + Each(change, b)
  {
  }

  lemma EachAround(change: Json -> Json, b: seq<Json>, k: nat)
    requires k < |b|
    ensures multiset(Each(change, b)) == multiset{change(b[k])} + multiset(Each(change, b[..k] + b[k + 1..]))
  {
    hide Each;
    assert b == b[..k] + ([b[k]] + b[k + 1..]);
    EachConcat(change, b[..k], [b[k]] + b[k + 1..]);
    EachConcat(change, [b[k]], b[k + 1..]);
    EachConcat(change, b[..k], b[k + 1..]);
    assert Each(change, [b[k]]) == [change(b[k])];
  }

  lemma Occurs(a: seq<Json>, b: seq<Json>) returns (k: nat)
    requires a != [] && multiset(a) == multiset(b)
    ensures k < |b| && b[k] == a[0]
  {
    assert a[0] in multiset(b);
    k :| 0 <= k < |b| && b[k] == a[0];
  }

  lemma {:induction false} EachShuffle(change: Json -> Json, a: seq<Json>, b: seq<Json>)
    requires multiset(a) == multiset(b)
    ensures multiset(Each(change, a)) == multiset(Each(change, b))
    decreases |a|
  {
    hide Each;
    SameCount(a, b);
    if a != [] {
      var k := Occurs(a, b);
      Removing(a, b, k);
      var rest := b[..k] + b[k + 1..];
      EachShuffle(change, a[1..], rest);
      EachHead(change, a);
      EachAround(change, b, k);
    }
  }

  lemma SameCount(a: seq<Json>, b: seq<Json>)
    requires multiset(a) == multiset(b)
    ensures |a| == |b|
  {
    assert |a| == |multiset(a)| && |b| == |multiset(b)|;
  }

  lemma EachHead(change: Json -> Json, a: seq<Json>)
    requires a != []
    ensures multiset(Each(change, a)) == multiset{change(a[0])} + multiset(Each(change, a[1..]))
  {
    hide Each;
    EachAround(change, a, 0);
    assert a[..0] + a[1..] == a[1..];
  }

  lemma UniqueEach(change: Json -> Json, s: seq<Json>)
    requires Unique(s) && KeepsId(change)
    ensures Unique(Each(change, s))
  {
    hide Id;
  }

  // ----- a document

  /** The identity-keyed sets of a type definition. */
  predicate TypeList(name: string) {
    || name == "variants" || name == "constraints" || name == "relationships" || name == "operations"
        || name == "clauses"
    || name == "extensions"
  }

  function SortedList(v: Json): Json { if v.Array? then Array(SortNodes(v.items)) else v }

  function FieldPart(name: string, value: Json): Json { if name == "extensions" then SortedList(value) else value }

  /** A field or parameter with its extensions sorted. */
  function SortedField(field: Json): Json { EachMember(FieldPart, field) }

  function OperationPart(name: string, value: Json): Json {
    if name == "params" then EachItem(SortedField, value) else value
  }

  function SortedOperation(operation: Json): Json { EachMember(OperationPart, operation) }

  function TypePart(name: string, value: Json): Json {
    if name == "fields" then EachItem(SortedField, value)
    else if name == "operations" then EachItem(SortedOperation, SortedList(value))
    else if TypeList(name) then SortedList(value)
    else value
  }

  function SortedType(definition: Json): Json { EachMember(TypePart, definition) }

  function DocumentPart(name: string, value: Json): Json {
    if name == "types" then SortedList(EachItem(SortedType, value))
    else if name == "occurrences" || name == "extensions" then SortedList(value)
    else value
  }

  /** The document with every identity-keyed set sorted. */
  function SortedDocument(document: Json): Json { EachMember(DocumentPart, document) }

  method SortField(field: Json) returns (out: Json)
    ensures out == SortedField(field)
  {
    if !field.Object? {
      return field;
    }
    hide SortNodes;
    var members := field.members;
    for i := 0 to |members|
      invariant |members| == |field.members|
      invariant forall k :: i <= k < |members| ==> members[k] == field.members[k]
      invariant forall k :: 0 <= k < i ==>
          members[k] == (field.members[k].0, FieldPart(field.members[k].0, field.members[k].1))
    {
      if members[i].0 == "extensions" {
        members := members[i := (members[i].0, SortedList(members[i].1))];
      }
    }
    assert members == Changed(FieldPart, field.members);
    out := Object(members);
  }

  method SortFields(fields: Json) returns (out: Json)
    ensures out == EachItem(SortedField, fields)
  {
    if !fields.Array? {
      return fields;
    }
    hide SortedField;
    var items := fields.items;
    for i := 0 to |items|
      invariant |items| == |fields.items|
      invariant forall k :: i <= k < |items| ==> items[k] == fields.items[k]
      invariant forall k :: 0 <= k < i ==> items[k] == SortedField(fields.items[k])
    {
      var field := SortField(items[i]);
      items := items[i := field];
    }
    out := Array(items);
  }

  method SortOperations(operations: Json) returns (out: Json)
    ensures out == EachItem(SortedOperation, operations)
  {
    if !operations.Array? {
      return operations;
    }
    hide SortedOperation;
    var items := operations.items;
    for i := 0 to |items|
      invariant |items| == |operations.items|
      invariant forall k :: i <= k < |items| ==> items[k] == operations.items[k]
      invariant forall k :: 0 <= k < i ==> items[k] == SortedOperation(operations.items[k])
    {
      var operation := SortParams(items[i]);
      items := items[i := operation];
    }
    out := Array(items);
  }

  method SortParams(operation: Json) returns (out: Json)
    ensures out == SortedOperation(operation)
  {
    if !operation.Object? {
      return operation;
    }
    hide EachItem, SortedField;
    var members := operation.members;
    for i := 0 to |members|
      invariant |members| == |operation.members|
      invariant forall k :: i <= k < |members| ==> members[k] == operation.members[k]
      invariant forall k :: 0 <= k < i ==>
          members[k] == (operation.members[k].0, OperationPart(operation.members[k].0, operation.members[k].1))
    {
      if members[i].0 == "params" {
        var params := SortFields(members[i].1);
        members := members[i := (members[i].0, params)];
      }
    }
    assert members == Changed(OperationPart, operation.members);
    out := Object(members);
  }

  method SortDefinition(definition: Json) returns (out: Json)
    ensures out == SortedType(definition)
  {
    if !definition.Object? {
      return definition;
    }
    hide EachItem, SortedField, SortedOperation, SortedList;
    var members := definition.members;
    for i := 0 to |members|
      invariant |members| == |definition.members|
      invariant forall k :: i <= k < |members| ==> members[k] == definition.members[k]
      invariant forall k :: 0 <= k < i ==>
          members[k] == (definition.members[k].0, TypePart(definition.members[k].0, definition.members[k].1))
    {
      var (name, value) := members[i];
      if TypeList(name) {
        value := SortedList(value);
      }
      if name == "fields" {
        value := SortFields(value);
      } else if name == "operations" {
        value := SortOperations(value);
      }
      members := members[i := (name, value)];
    }
    assert members == Changed(TypePart, definition.members);
    out := Object(members);
  }

  method SortTypes(types: Json) returns (out: Json)
    ensures out == SortedList(EachItem(SortedType, types))
  {
    if !types.Array? {
      return types;
    }
    hide SortedType, SortNodes;
    var items := types.items;
    for i := 0 to |items|
      invariant |items| == |types.items|
      invariant forall k :: i <= k < |items| ==> items[k] == types.items[k]
      invariant forall k :: 0 <= k < i ==> items[k] == SortedType(types.items[k])
    {
      var definition := SortDefinition(items[i]);
      items := items[i := definition];
    }
    assert Array(items) == EachItem(SortedType, types);
    out := Array(SortNodes(items));
  }

  /** An assembled document, sorted in place. */
  class Assembled {
    var document: Json

    constructor (document: Json)
      ensures this.document == document
    {
      this.document := document;
    }

    method SortNodeLists()
      modifies this
      ensures document == SortedDocument(old(document))
    {
      if document.Object? {
        hide EachItem, SortedType, SortedList;
        var was, members := document.members, document.members;
        for i := 0 to |members|
          invariant |members| == |was|
          invariant forall k :: i <= k < |members| ==> members[k] == was[k]
          invariant forall k :: 0 <= k < i ==> members[k] == (was[k].0, DocumentPart(was[k].0, was[k].1))
        {
          var (name, value) := members[i];
          if name == "types" {
            value := SortTypes(value);
          } else if name == "occurrences" || name == "extensions" {
            value := SortedList(value);
          }
          members := members[i := (name, value)];
        }
        assert members == Changed(DocumentPart, was);
        document := Object(members);
      }
    }
  }

  // ----- documents that differ in the order of their sets and members only

  /** Two lists of one set: the first related item by item to a rearrangement of the second. */
  ghost predicate Shuffled(f: Canonical.Decoder, related: (Json, Json) -> bool, a: Json, b: Json) {
    if a.Array? && b.Array? then exists c :: Arranges(related, a.items, c, b.items) else Same(f, a, b)
  }

  ghost predicate Arranges(related: (Json, Json) -> bool, a: seq<Json>, c: seq<Json>, b: seq<Json>) {
    && Unique(a) && |c| == |a| && multiset(c) == multiset(b)
    && forall i :: 0 <= i < |a| ==> related(a[i], c[i])
  }

  /** Two lists whose order is kept, related item by item. */
  ghost predicate InOrder(f: Canonical.Decoder, related: (Json, Json) -> bool, a: Json, b: Json) {
    if a.Array? && b.Array? then
      |a.items| == |b.items| && forall i :: 0 <= i < |a.items| ==> related(a.items[i], b.items[i])
    else Same(f, a, b)
  }

  /** Two objects of the same names, related name by name, in whatever order they stand. */
  ghost predicate MemberWise(f: Canonical.Decoder, related: (string, Json, Json) -> bool, a: Json, b: Json) {
    if a.Object? && b.Object? then forall name :: Paired(related, name, a.Get(name), b.Get(name)) else Same(f, a, b)
  }

  ghost predicate Paired(related: (string, Json, Json) -> bool, name: string, a: Option<Json>, b: Option<Json>) {
    (a.Some? <==> b.Some?) && (a.Some? ==> related(name, a.value, b.value))
  }

  ghost predicate SetLike(f: Canonical.Decoder, a: Json, b: Json) { Shuffled(f, (x, y) => Same(f, x, y), a, b) }

  ghost predicate FieldPartLike(f: Canonical.Decoder, name: string, a: Json, b: Json) {
    if name == "extensions" then SetLike(f, a, b) else Same(f, a, b)
  }

  ghost predicate FieldLike(f: Canonical.Decoder, a: Json, b: Json) {
    MemberWise(f, (n, x, y) => FieldPartLike(f, n, x, y), a, b)
  }

  ghost predicate OperationPartLike(f: Canonical.Decoder, name: string, a: Json, b: Json) {
    if name == "params" then InOrder(f, (x, y) => FieldLike(f, x, y), a, b) else Same(f, a, b)
  }

  ghost predicate OperationLike(f: Canonical.Decoder, a: Json, b: Json) {
    MemberWise(f, (n, x, y) => OperationPartLike(f, n, x, y), a, b)
  }

  ghost predicate TypePartLike(f: Canonical.Decoder, name: string, a: Json, b: Json) {
    if name == "fields" then InOrder(f, (x, y) => FieldLike(f, x, y), a, b)
    else if name == "operations" then Shuffled(f, (x, y) => OperationLike(f, x, y), a, b)
    else if TypeList(name) then SetLike(f, a, b)
    else Same(f, a, b)
  }

  ghost predicate TypeLike(f: Canonical.Decoder, a: Json, b: Json) {
    MemberWise(f, (n, x, y) => TypePartLike(f, n, x, y), a, b)
  }

  ghost predicate DocumentPartLike(f: Canonical.Decoder, name: string, a: Json, b: Json) {
    if name == "types" then Shuffled(f, (x, y) => TypeLike(f, x, y), a, b)
    else if name == "occurrences" || name == "extensions" then SetLike(f, a, b)
    else Same(f, a, b)
  }

  /** Two documents that differ only in how their identity-keyed sets are arranged, in
      the order of members and in the spelling of numbers. */
  ghost predicate DocumentLike(f: Canonical.Decoder, a: Json, b: Json) {
    MemberWise(f, (n, x, y) => DocumentPartLike(f, n, x, y), a, b)
  }

  // ----- sorting sees no arrangement

  /** Item by item of one identity and in agreement. */
  ghost predicate Matched(f: Canonical.Decoder, s: seq<Json>, t: seq<Json>) {
    |s| == |t| && forall i :: 0 <= i < |s| ==> Id(s[i]) == Id(t[i]) && Same(f, s[i], t[i])
  }

  lemma {:induction false} InsertMatched(f: Canonical.Decoder, x: Json, y: Json, s: seq<Json>, t: seq<Json>)
    requires Id(x) == Id(y) && Same(f, x, y) && Matched(f, s, t)
    ensures Matched(f, InsertNode(x, s), InsertNode(y, t))
    decreases |s|
  {
    hide Less, Id, Same;
    if s != [] && Less(Id(s[0]), Id(x)) { InsertMatched(f, x, y, s[1..], t[1..]); }
  }

  lemma {:induction false} SortMatched(f: Canonical.Decoder, s: seq<Json>, t: seq<Json>)
    requires Matched(f, s, t)
    ensures Matched(f, SortNodes(s), SortNodes(t))
    decreases |s|
  {
    hide InsertNode, Id, Same;
    if s != [] {
      SortMatched(f, s[1..], t[1..]);
      InsertMatched(f, s[0], t[0], SortNodes(s[1..]), SortNodes(t[1..]));
    }
  }

  lemma MatchedSame(f: Canonical.Decoder, s: seq<Json>, t: seq<Json>)
    requires Matched(f, s, t)
    ensures Same(f, Array(s), Array(t))
  {
    hide Same, Id;
    NormalizeLaws.SameItems(f, s, t);
  }

  lemma MemberWiseSame(f: Canonical.Decoder, related: (string, Json, Json) -> bool, change: (string, Json) -> Json,
                       a: Json, b: Json)
    requires MemberWise(f, related, a, b)
    requires forall n, x, y :: related(n, x, y) ==> Same(f, change(n, x), change(n, y))
    ensures Same(f, EachMember(change, a), EachMember(change, b))
  {
    hide Same;
    if a.Object? && b.Object? {
      forall name ensures NormalizeLaws.Brought(f, change, name, a.Get(name), b.Get(name)) {
        assert Paired(related, name, a.Get(name), b.Get(name));
      }
      NormalizeLaws.MembersBrought(f, change, a, b);
    } else {
      NormalizeLaws.SameShape(f, a, b);
    }
  }

  lemma InOrderSame(f: Canonical.Decoder, related: (Json, Json) -> bool, change: Json -> Json, a: Json, b: Json)
    requires InOrder(f, related, a, b) && forall x, y :: related(x, y) ==> Same(f, change(x), change(y))
    ensures Same(f, EachItem(change, a), EachItem(change, b))
  {
    hide Same;
    if a.Array? && b.Array? {
      NormalizeLaws.SameItems(f, EachItem(change, a).items, EachItem(change, b).items);
    } else {
      NormalizeLaws.SameShape(f, a, b);
    }
  }

  lemma ShuffledSame(f: Canonical.Decoder, related: (Json, Json) -> bool, change: Json -> Json, a: Json, b: Json)
    requires Shuffled(f, related, a, b) && KeepsId(change)
    requires forall x, y :: related(x, y) ==> Id(x) == Id(y) && Same(f, change(x), change(y))
    ensures Same(f, SortedList(EachItem(change, a)), SortedList(EachItem(change, b)))
    ensures Same(f, EachItem(change, SortedList(a)), EachItem(change, SortedList(b)))
  {
    hide KeepsId, Unique, SortNodes, Same, Id;
    if a.Array? && b.Array? {
      var c :| Arranges(related, a.items, c, b.items);
      SortedMatch(f, related, change, a.items, c, b.items);
      var (x, y) := (SortNodes(Each(change, a.items)), SortNodes(Each(change, b.items)));
      MatchedSame(f, x, y);
      assert EachItem(change, a) == Array(Each(change, a.items)) && EachItem(change, b) == Array(Each(change, b.items));
      SortEach(change, a.items);
      SortEach(change, b.items);
      assert EachItem(change, SortedList(a)) == Array(Each(change, SortNodes(a.items)));
      assert EachItem(change, SortedList(b)) == Array(Each(change, SortNodes(b.items)));
    } else {
      NormalizeLaws.SameShape(f, a, b);
    }
  }

  lemma SortedMatch(f: Canonical.Decoder, related: (Json, Json) -> bool, change: Json -> Json, a: seq<Json>,
                    c: seq<Json>, b: seq<Json>)
    requires Arranges(related, a, c, b) && KeepsId(change)
    requires forall x, y :: related(x, y) ==> Id(x) == Id(y) && Same(f, change(x), change(y))
    ensures Matched(f, SortNodes(Each(change, a)), SortNodes(Each(change, b)))
  {
    hide SortNodes, Same, Id;
    forall i | 0 <= i < |a|
      ensures Id(a[i]) == Id(c[i]) && Id(change(a[i])) == Id(change(c[i])) && Same(f, change(a[i]), change(c[i]))
    {
      assert related(a[i], c[i]);
    }
    SortMatched(f, Each(change, a), Each(change, c));
    assert Unique(c);
    hide Unique, KeepsId, Matched;
    EachShuffle(change, c, b);
    UniqueEach(change, c);
    SortNodesShuffle(Each(change, c), Each(change, b));
  }

  lemma IdSame(f: Canonical.Decoder, a: Json, b: Json)
    requires Same(f, a, b)
    ensures Id(a) == Id(b)
  {
    hide Same, Compat.Text;
    CompatLaws.SameWord(f, a, b, "identity");
  }

  /** Objects whose identities agree have one identity. */
  lemma MemberWiseId(f: Canonical.Decoder, related: (string, Json, Json) -> bool, a: Json, b: Json)
    requires MemberWise(f, related, a, b) && forall x, y :: related("identity", x, y) ==> Same(f, x, y)
    ensures Id(a) == Id(b)
  {
    hide Same, Json.Get;
    if a.Object? && b.Object? {
      var (x, y) := (a.Get("identity"), b.Get("identity"));
      assert Paired(related, "identity", x, y);
      if x.Some? { TextSame(f, x.value, y.value); }
    } else {
      IdSame(f, a, b);
    }
  }

  lemma TextSame(f: Canonical.Decoder, a: Json, b: Json)
    requires Same(f, a, b)
    ensures a.AsStr() == b.AsStr()
  {
  }

  lemma SetSame(f: Canonical.Decoder, a: Json, b: Json)
    requires SetLike(f, a, b)
    ensures Same(f, SortedList(a), SortedList(b))
  {
    var (related, itself) := ((x, y) => Same(f, x, y), (v: Json) => v);
    hide Same, Shuffled, SortedList, Id;
    forall x, y | related(x, y) ensures Id(x) == Id(y) && Same(f, itself(x), itself(y)) { IdSame(f, x, y); }
    ShuffledSame(f, related, itself, a, b);
    EachItself(a);
    EachItself(b);
  }

  lemma EachItself(v: Json)
    ensures EachItem((x: Json) => x, v) == v
  {
    if v.Array? { assert EachItem((x: Json) => x, v).items == v.items; }
  }

  /** Changing other members keeps an object's identity. */
  lemma MembersKeepId(change: (string, Json) -> Json, v: Json)
    requires forall x :: change("identity", x) == x
    ensures Id(EachMember(change, v)) == Id(v)
  {
    if v.Object? { NormalizeLaws.ChangedLookup(change, v.members, "identity"); }
  }

  lemma FieldSame(f: Canonical.Decoder, a: Json, b: Json)
    requires FieldLike(f, a, b)
    ensures Same(f, SortedField(a), SortedField(b))
  {
    var related := (n, x, y) => FieldPartLike(f, n, x, y);
    hide SetLike, SortedList, EachMember, MemberWise, Same;
    forall n, x, y | related(n, x, y) ensures Same(f, FieldPart(n, x), FieldPart(n, y)) {
      if n == "extensions" { SetSame(f, x, y); }
    }
    MemberWiseSame(f, related, FieldPart, a, b);
  }

  lemma OperationSame(f: Canonical.Decoder, a: Json, b: Json)
    requires OperationLike(f, a, b)
    ensures Same(f, SortedOperation(a), SortedOperation(b)) && Id(a) == Id(b)
  {
    var related := (n, x, y) => OperationPartLike(f, n, x, y);
    var fields := (x, y) => FieldLike(f, x, y);
    hide InOrder, EachItem, EachMember, MemberWise, FieldLike, SortedField, Same, Id;
    forall n, x, y | related(n, x, y) ensures Same(f, OperationPart(n, x), OperationPart(n, y)) {
      if n == "params" {
        forall u, w | fields(u, w) ensures Same(f, SortedField(u), SortedField(w)) { FieldSame(f, u, w); }
        InOrderSame(f, fields, SortedField, x, y);
      }
    }
    MemberWiseSame(f, related, OperationPart, a, b);
    MemberWiseId(f, related, a, b);
  }

  lemma SortedKeepId()
    ensures KeepsId(SortedOperation) && KeepsId(SortedType)
  {
    hide EachMember, SortedList, EachItem, Id;
    forall x ensures Id(SortedOperation(x)) == Id(x) { MembersKeepId(OperationPart, x); }
    forall x ensures Id(SortedType(x)) == Id(x) { MembersKeepId(TypePart, x); }
  }

  lemma TypeSame(f: Canonical.Decoder, a: Json, b: Json)
    requires TypeLike(f, a, b)
    ensures Same(f, SortedType(a), SortedType(b)) && Id(a) == Id(b)
  {
    var related := (n, x, y) => TypePartLike(f, n, x, y);
    forall x, y | related("identity", x, y) ensures Same(f, x, y) { TypeIdentity(f, x, y); }
    hide EachMember, MemberWise, Same, Id, TypePart, TypePartLike;
    forall n, x, y | related(n, x, y) ensures Same(f, TypePart(n, x), TypePart(n, y)) { TypePartSame(f, n, x, y); }
    MemberWiseSame(f, related, TypePart, a, b);
    MemberWiseId(f, related, a, b);
  }

  lemma TypeIdentity(f: Canonical.Decoder, x: Json, y: Json)
    requires TypePartLike(f, "identity", x, y)
    ensures Same(f, x, y)
  {
    hide Same;
  }

  lemma TypePartSame(f: Canonical.Decoder, n: string, x: Json, y: Json)
    requires TypePartLike(f, n, x, y)
    ensures Same(f, TypePart(n, x), TypePart(n, y))
  {
    var (fields, operations) := ((u, w) => FieldLike(f, u, w), (u, w) => OperationLike(f, u, w));
    hide InOrder, Shuffled, SetLike, EachItem, SortedList, FieldLike, OperationLike, SortedField, SortedOperation,
      KeepsId, Same, Id;
    if n == "fields" {
      forall u, w | fields(u, w) ensures Same(f, SortedField(u), SortedField(w)) { FieldSame(f, u, w); }
      InOrderSame(f, fields, SortedField, x, y);
    } else if n == "operations" {
      forall u, w | operations(u, w) ensures Id(u) == Id(w) && Same(f, SortedOperation(u), SortedOperation(w)) {
        OperationSame(f, u, w);
      }
      SortedKeepId();
      ShuffledSame(f, operations, SortedOperation, x, y);
    } else if TypeList(n) {
      SetSame(f, x, y);
    }
  }

  /** Sorted, documents that differ only in the arrangement of their identity-keyed
      sets, the order of members and the spelling of numbers agree, fields and
      parameters in their authored order. */
  lemma SortedDocumentSame(f: Canonical.Decoder, a: Json, b: Json)
    requires DocumentLike(f, a, b)
    ensures Same(f, SortedDocument(a), SortedDocument(b))
  {
    var (related, types) := ((n, x, y) => DocumentPartLike(f, n, x, y), (u, w) => TypeLike(f, u, w));
    hide EachMember, MemberWise, Shuffled, SetLike, SortedList, EachItem, TypeLike, SortedType, KeepsId, Same, Id;
    forall n, x, y | related(n, x, y) ensures Same(f, DocumentPart(n, x), DocumentPart(n, y)) {
      if n == "types" {
        forall u, w | types(u, w) ensures Id(u) == Id(w) && Same(f, SortedType(u), SortedType(w)) { TypeSame(f, u, w); }
        SortedKeepId();
        ShuffledSame(f, types, SortedType, x, y);
      } else if n == "occurrences" || n == "extensions" {
        SetSame(f, x, y);
      }
    }
    MemberWiseSame(f, related, DocumentPart, a, b);
  }

  /** So they are written as the same text. */
  lemma SortedTextSame(f: Canonical.Decoder, a: Json, b: Json)
    requires Faithful(f) && DocumentLike(f, a, b)
    ensures NormalizedText(f, NormalizeLaws.BundleOf(SortedDocument(a))) ==
      NormalizedText(f, NormalizeLaws.BundleOf(SortedDocument(b)))
  {
    hide DocumentLike, SortedDocument, NormalizedText, Faithful, Same;
    SortedDocumentSame(f, a, b);
    NormalizeLaws.NormalizedSame(f, SortedDocument(a), SortedDocument(b));
  }

  // ----- what is sorted, and what keeps its order

  /** The text is the earlier by code point: at the first difference, or as a proper prefix. */
  ghost predicate Earlier(a: string, b: string) { DiffersBelow(CodeBefore, a, b) }

  predicate CodeBefore(c: char, d: char) { c < d }

  /** The nodes of one identity, in order. */
  ghost function Of(s: seq<Json>, identity: string): seq<Json> {
    if s == [] then [] else (if Id(s[0]) == identity then [s[0]] else []) + Of(s[1..], identity)
  }

  /** No node stands before one of an earlier identity. */
  ghost predicate Ascends(s: seq<Json>) { forall i, j :: 0 <= i < j < |s| ==> !Earlier(Id(s[j]), Id(s[i])) }

  /** The second list has the nodes of the first, ascending, those of one identity in the order they were. */
  ghost predicate SortOf(a: seq<Json>, b: seq<Json>) {
    Ascends(b) && forall identity :: Of(b, identity) == Of(a, identity)
  }

  ghost predicate ListSorted(a: Json, b: Json) {
    if a.Array? then b.Array? && SortOf(a.items, b.items) else b == a
  }

  ghost predicate ItemsSorted(sorted: (Json, Json) -> bool, a: Json, b: Json) {
    if a.Array? then b.Array? && |b.items| == |a.items| && forall i :: 0 <= i < |a.items| ==>
      sorted(a.items[i], b.items[i])
    else b == a
  }

  /** The members keep their names and places; each value is related as its name says. */
  ghost predicate MembersSorted(sorted: (string, Json, Json) -> bool, a: Json, b: Json) {
    if a.Object? then
      && b.Object? && |b.members| == |a.members|
      && forall i :: 0 <= i < |a.members| ==>
          b.members[i].0 == a.members[i].0 && sorted(a.members[i].0, a.members[i].1, b.members[i].1)
    else b == a
  }

  ghost predicate FieldPartSorted(name: string, a: Json, b: Json) {
    if name == "extensions" then ListSorted(a, b) else b == a
  }

  ghost predicate FieldSorted(a: Json, b: Json) { MembersSorted(FieldPartSorted, a, b) }

  ghost predicate OperationPartSorted(name: string, a: Json, b: Json) {
    if name == "params" then ItemsSorted(FieldSorted, a, b) else b == a
  }

  ghost predicate OperationSorted(a: Json, b: Json) { MembersSorted(OperationPartSorted, a, b) }

  ghost predicate TypePartSorted(name: string, a: Json, b: Json) {
    if name == "fields" then ItemsSorted(FieldSorted, a, b)
    else if name == "operations" then exists c :: ListSorted(a, c) && ItemsSorted(OperationSorted, c, b)
    else if name in {"variants", "constraints", "relationships", "clauses", "extensions"} then ListSorted(a, b)
    else b == a
  }

  ghost predicate TypeSorted(a: Json, b: Json) { MembersSorted(TypePartSorted, a, b) }

  ghost predicate DocumentPartSorted(name: string, a: Json, b: Json) {
    if name == "types" then exists c :: ItemsSorted(TypeSorted, a, c) && ListSorted(c, b)
    else if name == "occurrences" || name == "extensions" then ListSorted(a, b)
    else b == a
  }

  /** The sets of the document are sorted, stably; fields, parameters, members and all
      other values stand as they were. */
  ghost predicate DocumentSorted(a: Json, b: Json) { MembersSorted(DocumentPartSorted, a, b) }

  lemma {:induction false} PrecedesMeans(a: string, b: string)
    ensures Less(a, b) <==> Earlier(a, b)
    decreases |a|
  {
    if a != "" && b != "" {
      assert Codes(a)[1..] == Codes(a[1..]) && Codes(b)[1..] == Codes(b[1..]);
      PrecedesMeans(a[1..], b[1..]);
      DiffersRest(CodeBefore, a, b);
    } else {
      DiffersEmpty(CodeBefore, a, b);
    }
  }

  lemma {:induction false} InsertOf(node: Json, s: seq<Json>, identity: string)
    ensures Of(InsertNode(node, s), identity) == Of([node] + s, identity)
  {
    hide Less, Id;
    assert ([node] + s)[1..] == s;
    if s != [] && Less(Id(s[0]), Id(node)) {
      InsertOf(node, s[1..], identity);
      assert ([node] + s[1..])[1..] == s[1..];
      var inserted := [s[0]] + InsertNode(node, s[1..]);
      assert inserted[1..] == InsertNode(node, s[1..]);
      LessOrder(Id(s[0]), Id(node));
    }
  }

  lemma {:induction false} InsertAscends(node: Json, s: seq<Json>)
    requires Ascends(s)
    ensures Ascends(InsertNode(node, s))
    decreases |s|
  {
    hide Less, Id, Earlier;
    forall a, b ensures Less(a, b) <==> Earlier(a, b) { PrecedesMeans(a, b); }
    if s != [] {
      var k := Id(node);
      if Less(Id(s[0]), k) {
        InsertAscends(node, s[1..]);
        var rest := InsertNode(node, s[1..]);
        forall j | 0 <= j < |rest| ensures !Earlier(Id(rest[j]), Id(s[0])) {
          InsertNodeElements(node, s[1..]);
          assert rest[j] in multiset(rest);
          if rest[j] == node { LessOrder(k, Id(s[0])); } else {
            var i :| 0 <= i < |s[1..]| && s[1..][i] == rest[j];
            assert s[i + 1] == rest[j];
          }
        }
      } else {
        forall j | 0 <= j < |s| ensures !Earlier(Id(s[j]), k) {
          LessOrder(Id(s[0]), k);
          if Less(Id(s[j]), k) {
            LessOrder(Id(s[0]), Id(s[j]));
            if Less(Id(s[0]), Id(s[j])) { LessTrans(Id(s[0]), Id(s[j]), k); }
          }
        }
      }
    }
  }

  /** Sorting is the stable sort by code point. */
  lemma {:induction false} SortNodesMeans(s: seq<Json>)
    ensures SortOf(s, SortNodes(s))
    decreases |s|
  {
    hide InsertNode, Ascends, Id;
    if s == [] {
      EmptyAscends();
    } else {
      SortNodesMeans(s[1..]);
      InsertAscends(s[0], SortNodes(s[1..]));
      forall identity ensures Of(SortNodes(s), identity) == Of(s, identity) {
        InsertOf(s[0], SortNodes(s[1..]), identity);
        assert ([s[0]] + SortNodes(s[1..]))[1..] == SortNodes(s[1..]);
      }
    }
  }

  lemma EmptyAscends()
    ensures Ascends([])
  {
  }

  lemma ListIsSorted(a: Json)
    ensures ListSorted(a, SortedList(a))
  {
    hide SortOf;
    if a.Array? { SortNodesMeans(a.items); }
  }

  lemma FieldIsSorted(a: Json)
    ensures FieldSorted(a, SortedField(a))
  {
    hide SortedList, ListSorted;
    forall v ensures ListSorted(v, SortedList(v)) { ListIsSorted(v); }
  }

  lemma FieldsAreSorted(a: Json)
    ensures ItemsSorted(FieldSorted, a, EachItem(SortedField, a))
  {
    hide SortedField, FieldSorted;
    forall v ensures FieldSorted(v, SortedField(v)) { FieldIsSorted(v); }
  }

  lemma OperationIsSorted(a: Json)
    ensures OperationSorted(a, SortedOperation(a))
  {
    hide EachItem, ItemsSorted;
    forall v ensures ItemsSorted(FieldSorted, v, EachItem(SortedField, v)) { FieldsAreSorted(v); }
  }

  lemma OperationsAreSorted(a: Json)
    ensures ItemsSorted(OperationSorted, a, EachItem(SortedOperation, a))
  {
    hide SortedOperation, OperationSorted;
    forall v ensures OperationSorted(v, SortedOperation(v)) { OperationIsSorted(v); }
  }

  lemma TypePartIsSorted(name: string, a: Json)
    ensures TypePartSorted(name, a, TypePart(name, a))
  {
    hide EachItem, ItemsSorted, ListSorted, SortedList;
    ListIsSorted(a);
    FieldsAreSorted(a);
    OperationsAreSorted(SortedList(a));
  }

  lemma TypeIsSorted(a: Json)
    ensures TypeSorted(a, SortedType(a))
  {
    hide TypePart, TypePartSorted;
    forall name, v ensures TypePartSorted(name, v, TypePart(name, v)) { TypePartIsSorted(name, v); }
  }

  lemma TypesAreSorted(a: Json)
    ensures ItemsSorted(TypeSorted, a, EachItem(SortedType, a))
  {
    hide SortedType, TypeSorted;
    forall v ensures TypeSorted(v, SortedType(v)) { TypeIsSorted(v); }
  }

  lemma DocumentPartIsSorted(name: string, a: Json)
    ensures DocumentPartSorted(name, a, DocumentPart(name, a))
  {
    hide EachItem, ItemsSorted, ListSorted, SortedList;
    ListIsSorted(a);
    TypesAreSorted(a);
    ListIsSorted(EachItem(SortedType, a));
  }

  /** The sorted document is the document with its sets, and nothing else, sorted. */
  lemma DocumentIsSorted(a: Json)
    ensures DocumentSorted(a, SortedDocument(a))
  {
    hide DocumentPart, DocumentPartSorted;
    forall name, v ensures DocumentPartSorted(name, v, DocumentPart(name, v)) { DocumentPartIsSorted(name, v); }
  }
}
