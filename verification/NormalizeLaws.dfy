/** Normalizing is a projection, and touches nothing but `nullable` and the descriptor. */
module NormalizeLaws {
  import opened Wrappers
  import opened Json
  import opened Members
  import opened Canonical
  import opened CanonicalLaws
  import opened Normalize
  import CompatLaws
  import Numbers
  import Reader

  // ----- members by name

  lemma LookupDistinct(ms: seq<(string, Json)>, name: string, v: Json)
    requires Distinct(ms) && (name, v) in ms
    ensures Lookup(ms, name) == Some(v)
  {
    var i := CompatLaws.LookupLast(ms, name);
    var j :| 0 <= j < |ms| && ms[j] == (name, v);
    assert i == j;
  }

  /** A member of the written form is the written form of the member. */
  lemma FormLookup(f: Decoder, ms: seq<(string, Json)>, name: string)
    ensures Lookup(Arrange(FormMembers(f, ms, true), true), name) ==
      match Lookup(ms, name) case None => None case Some(v) => Some(Form(f, v, true))
  {
    hide Arrange, Form, IsLast, Distinct;
    var fs := FormMembers(f, ms, true);
    var arranged := Arrange(fs, true);
    if Lookup(ms, name).Some? {
      var i := CompatLaws.LookupLast(ms, name);
      var x := FormMember(f, ms[i], true);
      FormedWins(f, ms, true, x);
      ArrangeWins(fs, true, x);
      LookupDistinct(arranged, name, x.1);
    } else if Lookup(arranged, name).Some? {
      var k := CompatLaws.LookupLast(arranged, name);
      var x := arranged[k];
      assert x in arranged;
      ArrangeWins(fs, true, x);
      FormedWins(f, ms, true, x);
    }
  }

  lemma FormGet(f: Decoder, v: Json, name: string)
    ensures Form(f, v, true).Get(name) == match v.Get(name) case None => None
        case Some(member) => Some(Form(f, member, true))
  {
    hide Arrange, FormMembers;
    if v.Object? { FormLookup(f, v.members, name); }
  }

  lemma SameSelf(f: Decoder, v: Json)
    ensures Same(f, v, v)
  {
    hide Same, Form;
    SameFormIsSame(f, v, v);
  }

  /** Values agree that have agreeing members under every name. */
  ghost predicate Agree(f: Decoder, a: Option<Json>, b: Option<Json>) {
    (a.Some? <==> b.Some?) && (a.Some? ==> Same(f, a.value, b.value))
  }

  lemma SameByGet(f: Decoder, a: Json, b: Json)
    requires a.Object? && b.Object? && forall name :: Agree(f, a.Get(name), b.Get(name))
    ensures Same(f, a, b)
  {
    var (ms, ns) := (a.members, b.members);
    forall i: nat | IsLast(ms, i) ensures exists j: nat :: IsLast(ns, j) && SameMember(f, ms[i], ns[j]) {
      LastLookup(ms, i);
      assert Agree(f, a.Get(ms[i].0), b.Get(ms[i].0));
      var j := CompatLaws.LookupLast(ns, ms[i].0);
      assert SameMember(f, ms[i], ns[j]);
    }
    forall j | 0 <= j < |ns| ensures Named(ms, ns[j].0) {
      assert Agree(f, a.Get(ns[j].0), b.Get(ns[j].0));
    }
  }

  lemma LastLookup(ms: seq<(string, Json)>, i: nat)
    requires IsLast(ms, i)
    ensures Lookup(ms, ms[i].0) == Some(ms[i].1)
  {
    var k := CompatLaws.LookupLast(ms, ms[i].0);
    LastUnique(ms, i, k);
  }

  // ----- what each step leaves under each name

  lemma {:induction false} WithoutLookup(ms: seq<(string, Json)>, name: string, other: string)
    ensures Lookup(Without(ms, name), other) == if other == name then None else Lookup(ms, other)
    decreases |ms|
  {
    if ms != [] {
      var (n, rest) := (|ms| - 1, Without(ms[..|ms| - 1], name));
      WithoutLookup(ms[..n], name, other);
      if ms[n].0 != name { AppendLookup(rest, ms[n], other); } else { assert rest + [] == rest; }
    }
  }

  lemma AppendLookup(ms: seq<(string, Json)>, m: (string, Json), name: string)
    ensures Lookup(ms + [m], name) == if name == m.0 then Some(m.1) else Lookup(ms, name)
  {
    assert (ms + [m])[..|ms + [m]| - 1] == ms;
  }

  /** A field's `nullable` becomes true exactly when it is the literal, and nothing else changes. */
  lemma FieldGet(field: Json, name: string)
    requires field.Object?
    ensures Field(field).Get(name) ==
      if name == "nullable" then Some(Bool(field.Get("nullable") == Some(Bool(true)))) else field.Get(name)
  {
    WithoutLookup(field.members, "nullable", name);
    AppendLookup(Without(field.members, "nullable"), ("nullable", Bool(field.Get("nullable") == Some(Bool(true)))),
                 name);
  }

  lemma {:induction false} ChangedLookup(change: (string, Json) -> Json, ms: seq<(string, Json)>, name: string)
    ensures Lookup(Changed(change, ms), name) == match Lookup(ms, name) case None => None
        case Some(v) => Some(change(name, v))
    decreases |ms|
  {
    if ms != [] {
      var n := |ms| - 1;
      ChangedLookup(change, ms[..n], name);
      assert Changed(change, ms) == Changed(change, ms[..n]) + [(ms[n].0, change(ms[n].0, ms[n].1))];
      AppendLookup(Changed(change, ms[..n]), (ms[n].0, change(ms[n].0, ms[n].1)), name);
    }
  }

  lemma {:induction false} IrMembersLookup(ms: seq<(string, Json)>, name: string)
    ensures Lookup(IrMembers(ms), name) ==
      match Lookup(ms, name)
      case None => None
      case Some(v) =>
          Some(if name == "canonicalization" then DESCRIPTOR else if name == "types" then EachItem(Type, v) else v)
    decreases |ms|
  {
    hide EachItem, Type;
    if ms != [] {
      var n := |ms| - 1;
      IrMembersLookup(ms[..n], name);
      IrMembersLookup(ms[..n], "canonicalization");
      var value := (
        if ms[n].0 == "canonicalization" then DESCRIPTOR
        else if ms[n].0 == "types" then EachItem(Type, ms[n].1)
        else ms[n].1
      );
      AppendLookup(IrMembers(ms[..n]), (ms[n].0, value), name);
    }
  }

  /** The IR keeps every member but the descriptor and its types. */
  lemma IrGet(ir: Json, name: string)
    requires ir.Object?
    ensures Ir(ir).Get(name) ==
      if name == "canonicalization" then Some(DESCRIPTOR)
      else if name == "types" then (match ir.Get(name) case None => None case Some(v) => Some(EachItem(Type, v)))
      else ir.Get(name)
  {
    hide EachItem, Type, IrMembers;
    IrMembersLookup(ir.members, name);
    IrMembersLookup(ir.members, "canonicalization");
    if !Emitted(ir.members) {
      AppendLookup(IrMembers(ir.members), ("canonicalization", DESCRIPTOR), name);
    } else {
      assert IrMembers(ir.members) + [] == IrMembers(ir.members);
    }
  }

  // ----- settling: a second pass over the written first pass changes nothing

  /** Changing the written form of what a change gave changes it no further. */
  ghost predicate Settles(f: Decoder, change: Json -> Json, v: Json) {
    Same(f, change(Form(f, change(v), true)), Form(f, change(v), true))
  }

  lemma FieldSettles(f: Decoder, v: Json)
    ensures Settles(f, Field, v)
  {
    hide Same, Field, Form;
    var once := Form(f, Field(v), true);
    FieldShape(v);
    FormShape(f, Field(v));
    FieldShape(once);
    if v.Object? {
      forall name ensures Agree(f, Field(once).Get(name), once.Get(name)) {
        FieldGet(once, name);
        FormGet(f, Field(v), name);
        FieldGet(v, name);
        if name == "nullable" { FormBool(f, v.Get("nullable") == Some(Bool(true))); }
        if once.Get(name).Some? { SameSelf(f, once.Get(name).value); }
      }
      SameByGet(f, Field(once), once);
    } else {
      SameSelf(f, once);
    }
  }

  lemma FieldShape(v: Json)
    ensures Field(v).Object? <==> v.Object?
    ensures !v.Object? ==> Field(v) == v
  {
  }

  lemma FormShape(f: Decoder, v: Json)
    ensures Form(f, v, true).Object? <==> v.Object?
    ensures Form(f, v, true).Array? <==> v.Array?
  {
  }

  lemma FormBool(f: Decoder, flag: bool)
    ensures Form(f, Bool(flag), true) == Bool(flag)
  {
  }

  lemma ItemsSettle(f: Decoder, change: Json -> Json, v: Json)
    requires forall item :: Settles(f, change, item)
    ensures Same(f, EachItem(change, Form(f, EachItem(change, v), true)), Form(f, EachItem(change, v), true))
  {
    var once := Form(f, EachItem(change, v), true);
    if v.Array? {
      var twice := EachItem(change, once);
      var n := |v.items|;
      assert once.Array? && |once.items| == n && twice.Array? && |twice.items| == n;
      forall i | 0 <= i < n ensures Same(f, twice.items[i], once.items[i]) {
        assert once.items[i] == Form(f, change(v.items[i]), true);
        assert twice.items[i] == change(once.items[i]);
        assert Settles(f, change, v.items[i]);
        hide Same, Form;
      }
    } else {
      FormShape(f, v);
      SameSelf(f, once);
    }
  }

  lemma MembersSettle(f: Decoder, change: (string, Json) -> Json, v: Json)
    requires forall name, value ::
        Same(f, change(name, Form(f, change(name, value), true)), Form(f, change(name, value), true))
    ensures Same(f, EachMember(change, Form(f, EachMember(change, v), true)), Form(f, EachMember(change, v), true))
  {
    hide Same, Form;
    var first := EachMember(change, v);
    var once := Form(f, first, true);
    FormShape(f, first);
    if v.Object? {
      var twice := EachMember(change, once);
      forall name ensures Agree(f, twice.Get(name), once.Get(name)) {
        ChangedLookup(change, v.members, name);
        FormGet(f, first, name);
        ChangedLookup(change, once.members, name);
      }
      SameByGet(f, twice, once);
    } else {
      SameSelf(f, once);
    }
  }

  lemma OperationSettles(f: Decoder, v: Json)
    ensures Settles(f, Operation, v)
  {
    hide Same, Form, EachItem, EachMember, Field;
    forall name, value
      ensures Same(f, OperationMember(name, Form(f, OperationMember(name, value), true)),
                   Form(f, OperationMember(name, value), true))
    {
      if name == "params" {
        forall item ensures Settles(f, Field, item) { FieldSettles(f, item); }
        ItemsSettle(f, Field, value);
      } else {
        PlainSettles(f, value);
      }
    }
    MembersSettle(f, OperationMember, v);
  }

  lemma PlainSettles(f: Decoder, v: Json)
    ensures Same(f, Form(f, v, true), Form(f, v, true))
  {
    SameSelf(f, Form(f, v, true));
  }

  lemma TypeSettles(f: Decoder, v: Json)
    ensures Settles(f, Type, v)
  {
    hide Same, Form, EachItem, EachMember, Field, Operation;
    forall name, value
      ensures Same(f, TypeMember(name, Form(f, TypeMember(name, value), true)), Form(f, TypeMember(name, value), true))
    {
      if name == "fields" {
        forall item ensures Settles(f, Field, item) { FieldSettles(f, item); }
        ItemsSettle(f, Field, value);
      } else if name == "operations" {
        forall item ensures Settles(f, Operation, item) { OperationSettles(f, item); }
        ItemsSettle(f, Operation, value);
      } else {
        PlainSettles(f, value);
      }
    }
    MembersSettle(f, TypeMember, v);
  }

  lemma IrShape(v: Json)
    ensures Ir(v).Object? <==> v.Object?
    ensures !v.Object? ==> Ir(v) == v
  {
  }

  lemma DescriptorForm(f: Decoder)
    ensures Form(f, DESCRIPTOR, true) == DESCRIPTOR
  {
    var ms := [("algorithm", Str("rfc8785-v1"))];
    assert FormMembers(f, ms, true) == ms;
    assert Ascending(ms);
    SortOfAscending(ms);
    ResolveOfDistinct(ms);
  }

  lemma IrSettles(f: Decoder, v: Json)
    ensures Settles(f, Ir, v)
  {
    hide Same, Form, EachItem, Ir, Type;
    var once := Form(f, Ir(v), true);
    IrShape(v);
    FormShape(f, Ir(v));
    IrShape(once);
    if v.Object? {
      forall name ensures Agree(f, Ir(once).Get(name), once.Get(name)) {
        IrGet(once, name);
        FormGet(f, Ir(v), name);
        IrGet(v, name);
        if name == "canonicalization" {
          DescriptorForm(f);
          SameSelf(f, DESCRIPTOR);
        } else if name == "types" && v.Get("types").Some? {
          forall item ensures Settles(f, Type, item) { TypeSettles(f, item); }
          ItemsSettle(f, Type, v.Get("types").value);
        } else if once.Get(name).Some? {
          SameSelf(f, once.Get(name).value);
        }
      }
      SameByGet(f, Ir(once), once);
    } else {
      SameSelf(f, once);
    }
  }

  // ----- values that agree are normalized alike

  ghost predicate Respects(f: Decoder, change: Json -> Json) {
    forall x, y :: Same(f, x, y) ==> Same(f, change(x), change(y))
  }

  lemma SameShape(f: Decoder, a: Json, b: Json)
    requires Same(f, a, b)
    ensures a.Object? == b.Object? && a.Array? == b.Array?
    ensures a.Array? ==> |a.items| == |b.items| && forall i :: 0 <= i < |a.items| ==> Same(f, a.items[i], b.items[i])
  {
  }

  lemma SameItems(f: Decoder, a: seq<Json>, b: seq<Json>)
    requires |a| == |b| && forall i :: 0 <= i < |a| ==> Same(f, a[i], b[i])
    ensures Same(f, Array(a), Array(b))
  {
  }

  lemma ItemsRespect(f: Decoder, change: Json -> Json)
    requires Respects(f, change)
    ensures Respects(f, v => EachItem(change, v))
  {
    hide Same;
    forall a, b | Same(f, a, b) ensures Same(f, EachItem(change, a), EachItem(change, b)) {
      SameShape(f, a, b);
      if a.Array? { SameItems(f, EachItem(change, a).items, EachItem(change, b).items); }
    }
  }

  /** Two members of one name, both there or neither, that the change makes agree. */
  ghost predicate Brought(f: Decoder, change: (string, Json) -> Json, name: string, a: Option<Json>, b: Option<Json>) {
    (a.Some? <==> b.Some?) && (a.Some? ==> Same(f, change(name, a.value), change(name, b.value)))
  }

  lemma MembersBrought(f: Decoder, change: (string, Json) -> Json, a: Json, b: Json)
    requires a.Object? && b.Object? && forall name :: Brought(f, change, name, a.Get(name), b.Get(name))
    ensures Same(f, EachMember(change, a), EachMember(change, b))
  {
    hide Same, Changed;
    var (x, y) := (EachMember(change, a), EachMember(change, b));
    forall name ensures Agree(f, x.Get(name), y.Get(name)) {
      ChangedLookup(change, a.members, name);
      ChangedLookup(change, b.members, name);
      assert Brought(f, change, name, a.Get(name), b.Get(name));
    }
    SameByGet(f, x, y);
  }

  ghost predicate RespectsMember(f: Decoder, change: (string, Json) -> Json, name: string) {
    forall x, y :: Same(f, x, y) ==> Same(f, change(name, x), change(name, y))
  }

  lemma MembersRespect(f: Decoder, change: (string, Json) -> Json)
    requires forall name :: RespectsMember(f, change, name)
    ensures Respects(f, v => EachMember(change, v))
  {
    hide Same;
    forall a, b | Same(f, a, b) ensures Same(f, EachMember(change, a), EachMember(change, b)) {
      SameShape(f, a, b);
      if a.Object? {
        forall name ensures Brought(f, change, name, a.Get(name), b.Get(name)) {
          CompatLaws.SameGet(f, a, b, name);
          assert RespectsMember(f, change, name);
        }
        MembersBrought(f, change, a, b);
      }
    }
  }

  lemma BoolSame(f: Decoder, a: Json, b: Json, flag: bool)
    requires Same(f, a, b)
    ensures a == Bool(flag) <==> b == Bool(flag)
  {
  }

  lemma FieldRespects(f: Decoder)
    ensures Respects(f, Field)
  {
    hide Same, Field;
    forall a, b | Same(f, a, b) ensures Same(f, Field(a), Field(b)) {
      SameShape(f, a, b);
      FieldShape(a);
      FieldShape(b);
      if a.Object? {
        forall name ensures Agree(f, Field(a).Get(name), Field(b).Get(name)) { FieldAgrees(f, a, b, name); }
        SameByGet(f, Field(a), Field(b));
      }
    }
  }

  lemma FieldAgrees(f: Decoder, a: Json, b: Json, name: string)
    requires Same(f, a, b) && a.Object? && b.Object?
    ensures Agree(f, Field(a).Get(name), Field(b).Get(name))
  {
    hide Same, Field, Json.Get;
    FieldGet(a, name);
    FieldGet(b, name);
    CompatLaws.SameGet(f, a, b, name);
    CompatLaws.SameGet(f, a, b, "nullable");
    if a.Get("nullable").Some? { BoolSame(f, a.Get("nullable").value, b.Get("nullable").value, true); }
    SameSelf(f, Bool(a.Get("nullable") == Some(Bool(true))));
  }

  lemma OperationRespects(f: Decoder)
    ensures Respects(f, Operation)
  {
    hide Same, EachItem, EachMember, Field;
    FieldRespects(f);
    ItemsRespect(f, Field);
    forall name ensures RespectsMember(f, OperationMember, name) {
      var items := (v: Json) => EachItem(Field, v);
      forall x, y | Same(f, x, y) ensures Same(f, OperationMember(name, x), OperationMember(name, y)) {
        assert Same(f, items(x), items(y));
      }
    }
    MembersRespect(f, OperationMember);
    SameChange(f, v => EachMember(OperationMember, v), Operation);
  }

  lemma SameChange(f: Decoder, change: Json -> Json, other: Json -> Json)
    requires Respects(f, change) && forall v :: change(v) == other(v)
    ensures Respects(f, other)
  {
    hide Same;
  }

  lemma TypeRespects(f: Decoder)
    ensures Respects(f, Type)
  {
    hide Same, EachItem, EachMember, Field, Operation;
    FieldRespects(f);
    OperationRespects(f);
    ItemsRespect(f, Field);
    ItemsRespect(f, Operation);
    forall name ensures RespectsMember(f, TypeMember, name) {
      var (fields, operations) := ((v: Json) => EachItem(Field, v), (v: Json) => EachItem(Operation, v));
      forall x, y | Same(f, x, y) ensures Same(f, TypeMember(name, x), TypeMember(name, y)) {
        assert Same(f, fields(x), fields(y)) && Same(f, operations(x), operations(y));
      }
    }
    MembersRespect(f, TypeMember);
    SameChange(f, v => EachMember(TypeMember, v), Type);
  }

  lemma IrAgrees(f: Decoder, a: Json, b: Json, name: string)
    requires Same(f, a, b) && a.Object? && b.Object?
    ensures Agree(f, Ir(a).Get(name), Ir(b).Get(name))
  {
    hide Same, Ir, Json.Get, EachItem, Type;
    IrGet(a, name);
    IrGet(b, name);
    CompatLaws.SameGet(f, a, b, name);
    SameSelf(f, DESCRIPTOR);
    TypeRespects(f);
    ItemsRespect(f, Type);
    var change := (v: Json) => EachItem(Type, v);
    if name == "types" && a.Get(name).Some? {
      assert Same(f, change(a.Get(name).value), change(b.Get(name).value));
    }
  }

  lemma IrRespects(f: Decoder)
    ensures Respects(f, Ir)
  {
    hide Same, Ir;
    forall a, b | Same(f, a, b) ensures Same(f, Ir(a), Ir(b)) {
      SameShape(f, a, b);
      IrShape(a);
      IrShape(b);
      if a.Object? {
        forall name ensures Agree(f, Ir(a).Get(name), Ir(b).Get(name)) { IrAgrees(f, a, b, name); }
        SameByGet(f, Ir(a), Ir(b));
      }
    }
  }

  /** Documents that agree, whatever the order of their members and the spelling of
      their numbers, have one normalized text. */
  lemma NormalizedSame(f: Decoder, a: Json, b: Json)
    requires Faithful(f) && Same(f, a, b)
    ensures NormalizedText(f, BundleOf(a)) == NormalizedText(f, BundleOf(b))
  {
    hide Same, Ir, CanonicalText, Faithful;
    BundleIr(a);
    BundleIr(b);
    IrRespects(f);
    SameCanonicalText(f, Ir(a), Ir(b));
  }

  // ----- what is written stays writable

  lemma {:induction false} NumbersWritable(f: Decoder, v: Json)
    requires Faithful(f) && NumbersOk(v)
    ensures Writable(f, v)
    decreases v
  {
    hide Numbers.EcmaNumberToString;
    match v
    case Array(items) =>
      forall i | 0 <= i < |items| ensures Writable(f, items[i]) { NumbersWritable(f, items[i]); }
    case Object(members) =>
      forall i: nat | i < |members| && IsLast(members, i) ensures WritableMember(f, members[i]) {
        assert MemberNumbersOk(members[i]);
        NumbersWritable(f, members[i].1);
      }
    case _ =>
  }

  lemma WritableGet(f: Decoder, v: Json, name: string)
    requires Writable(f, v) && v.Get(name).Some?
    ensures Writable(f, v.Get(name).value)
  {
    var i := CompatLaws.LookupLast(v.members, name);
    assert WritableMember(f, v.members[i]);
  }

  lemma WritableByGet(f: Decoder, v: Json)
    requires v.Object? && forall name :: v.Get(name).Some? ==> Writable(f, v.Get(name).value)
    ensures Writable(f, v)
  {
    var members := v.members;
    forall i: nat | i < |members| && IsLast(members, i) ensures WritableMember(f, members[i]) {
      LastLookup(members, i);
      assert v.Get(members[i].0) == Some(members[i].1);
    }
  }

  lemma ItemsWritable(f: Decoder, change: Json -> Json, v: Json)
    requires Writable(f, v) && forall item :: Writable(f, item) ==> Writable(f, change(item))
    ensures Writable(f, EachItem(change, v))
  {
  }

  lemma FieldWritable(f: Decoder, v: Json)
    requires Writable(f, v)
    ensures Writable(f, Field(v))
  {
    FieldShape(v);
    hide Writable, Field;
    if v.Object? {
      forall name | Field(v).Get(name).Some? ensures Writable(f, Field(v).Get(name).value) {
        FieldGet(v, name);
        if name == "nullable" {
          BoolWritable(f, v.Get("nullable") == Some(Bool(true)));
        } else {
          WritableGet(f, v, name);
        }
      }
      WritableByGet(f, Field(v));
    }
  }

  lemma BoolWritable(f: Decoder, flag: bool)
    ensures Writable(f, Bool(flag)) && Writable(f, DESCRIPTOR)
  {
  }

  lemma MembersWritable(f: Decoder, change: (string, Json) -> Json, v: Json)
    requires Writable(f, v) && forall name, value :: Writable(f, value) ==> Writable(f, change(name, value))
    ensures Writable(f, EachMember(change, v))
  {
    hide Writable;
    if v.Object? {
      var out := EachMember(change, v);
      forall name | out.Get(name).Some? ensures Writable(f, out.Get(name).value) {
        ChangedLookup(change, v.members, name);
        WritableGet(f, v, name);
      }
      WritableByGet(f, out);
    }
  }

  lemma OperationWritable(f: Decoder, v: Json)
    requires Writable(f, v)
    ensures Writable(f, Operation(v))
  {
    hide Writable, EachItem, EachMember, Field;
    forall name, value | Writable(f, value) ensures Writable(f, OperationMember(name, value)) {
      if name == "params" {
        forall item | Writable(f, item) ensures Writable(f, Field(item)) { FieldWritable(f, item); }
        ItemsWritable(f, Field, value);
      }
    }
    MembersWritable(f, OperationMember, v);
  }

  lemma TypeWritable(f: Decoder, v: Json)
    requires Writable(f, v)
    ensures Writable(f, Type(v))
  {
    hide Writable, EachItem, EachMember, Field, Operation;
    forall name, value | Writable(f, value) ensures Writable(f, TypeMember(name, value)) {
      if name == "fields" {
        forall item | Writable(f, item) ensures Writable(f, Field(item)) { FieldWritable(f, item); }
        ItemsWritable(f, Field, value);
      } else if name == "operations" {
        forall item | Writable(f, item) ensures Writable(f, Operation(item)) { OperationWritable(f, item); }
        ItemsWritable(f, Operation, value);
      }
    }
    MembersWritable(f, TypeMember, v);
  }

  lemma IrWritable(f: Decoder, v: Json)
    requires Writable(f, v)
    ensures Writable(f, Ir(v))
  {
    IrShape(v);
    hide Writable, Ir, EachItem, Type;
    if v.Object? {
      forall name | Ir(v).Get(name).Some? ensures Writable(f, Ir(v).Get(name).value) {
        IrGet(v, name);
        if name == "canonicalization" {
          BoolWritable(f, true);
        } else {
          WritableGet(f, v, name);
          if name == "types" {
            forall item | Writable(f, item) ensures Writable(f, Type(item)) { TypeWritable(f, item); }
            ItemsWritable(f, Type, v.Get("types").value);
          }
        }
      }
      WritableByGet(f, Ir(v));
    }
  }

  // ----- the normalized text

  function BundleOf(ir: Json): Json { Object([("ir", ir)]) }

  lemma BundleIr(ir: Json)
    ensures BundleOf(ir).Get("ir") == Some(ir)
  {
    assert [("ir", ir)][..0] == [];
  }

  /** The value whose canonical text is the normalized text. */
  function Source(bundle: Json): Json {
    match bundle.Get("ir")
    case None => Null
    case Some(ir) => Ir(ir)
  }

  /** Normalizing is a projection: read back and normalized again, the text is the same. */
  lemma NormalizedAgain(f: Decoder, bundle: Json)
    requires Faithful(f) && (bundle.Get("ir").Some? ==> Writable(f, bundle.Get("ir").value))
    ensures var text := NormalizedText(f, bundle);
            && Reader.ReadText(text, None) == Reader.Ok(Form(f, Source(bundle), true), |text|)
            && NormalizedText(f, BundleOf(Form(f, Source(bundle), true))) == text
  {
    var v := Source(bundle);
    var once := Form(f, v, true);
    SourceWritable(f, bundle);
    ReadBack(f, v, true) by { hide Form; }
    BundleIr(once);
    FormTwice(f, v, true) by { hide Form, Writable; }
    hide Same, Form, Ir, Reader.ReadText;
    assert Same(f, Ir(once), once) by {
      if bundle.Get("ir").Some? {
        IrSettles(f, bundle.Get("ir").value);
      } else {
        IrShape(once);
        NullForm(f);
        SameSelf(f, once);
      }
    }
    SameIsSameForm(f, Ir(once), once);
    FormNumbersOk(f, v, true);
    NumbersWritable(f, once);
    IrWritable(f, once);
  }

  lemma SourceWritable(f: Decoder, bundle: Json)
    requires bundle.Get("ir").Some? ==> Writable(f, bundle.Get("ir").value)
    ensures Writable(f, Source(bundle))
  {
    hide Ir;
    if bundle.Get("ir").Some? { IrWritable(f, bundle.Get("ir").value); }
  }

  lemma NullForm(f: Decoder)
    ensures Form(f, Null, true) == Null
  {
  }

  // ----- every field and parameter

  /** A field as normalizing leaves it: `nullable` a boolean, true only for the literal, the rest as authored. */
  ghost predicate Materialized(before: Json, after: Json) {
    if before.Object? then
      && after.Object?
      && after.Get("nullable") == Some(Bool(before.Get("nullable") == Some(Bool(true))))
      && forall name :: name != "nullable" ==> after.Get(name) == before.Get(name)
    else after == before
  }

  ghost predicate AllMaterialized(before: Option<Json>, after: Option<Json>) {
    match before
    case Some(Array(fields)) =>
      && after.Some? && after.value.Array? && |after.value.items| == |fields|
      && forall j :: 0 <= j < |fields| ==> Materialized(fields[j], after.value.items[j])
    case _ => after == before
  }

  lemma FieldsMaterialized(v: Json)
    ensures AllMaterialized(Some(v), Some(EachItem(Field, v)))
  {
    hide Field;
    if v.Array? {
      forall j | 0 <= j < |v.items| ensures Materialized(v.items[j], Field(v.items[j])) {
        FieldShape(v.items[j]);
        if v.items[j].Object? {
          forall name ensures Field(v.items[j]).Get(name) ==
            (if name == "nullable" then Some(Bool(v.items[j].Get("nullable") == Some(Bool(true))))
             else v.items[j].Get(name))
          {
            FieldGet(v.items[j], name);
          }
        }
      }
    }
  }

  /** A type keeps everything but its fields and the parameters of its operations, which are materialized. */
  ghost predicate TypeMaterialized(before: Json, after: Json) {
    if before.Object? then
      && after.Object? && AllMaterialized(before.Get("fields"), after.Get("fields"))
      && (forall name :: name != "fields" && name != "operations" ==> after.Get(name) == before.Get(name))
      && OperationsMaterialized(before.Get("operations"), after.Get("operations"))
    else after == before
  }

  ghost predicate OperationsMaterialized(before: Option<Json>, after: Option<Json>) {
    match before
    case Some(Array(operations)) =>
      && after.Some? && after.value.Array? && |after.value.items| == |operations|
      && forall j :: 0 <= j < |operations| ==> OperationMaterialized(operations[j], after.value.items[j])
    case _ => after == before
  }

  ghost predicate OperationMaterialized(before: Json, after: Json) {
    if before.Object? then
      && after.Object? && AllMaterialized(before.Get("params"), after.Get("params"))
      && forall name :: name != "params" ==> after.Get(name) == before.Get(name)
    else after == before
  }

  lemma OperationIsMaterialized(v: Json)
    ensures OperationMaterialized(v, Operation(v))
  {
    hide EachItem, Field, AllMaterialized;
    if v.Object? {
      forall name
        ensures Operation(v).Get(name) == match v.Get(name) case None => None
            case Some(x) => Some(OperationMember(name, x))
      {
        ChangedLookup(OperationMember, v.members, name);
      }
      if v.Get("params").Some? { FieldsMaterialized(v.Get("params").value); } else { NothingMaterialized(); }
    }
  }

  lemma NothingMaterialized()
    ensures AllMaterialized(None, None)
  {
  }

  lemma TypeIsMaterialized(v: Json)
    ensures TypeMaterialized(v, Type(v))
  {
    hide Operation, Field, AllMaterialized, OperationMaterialized;
    if v.Object? {
      forall name
        ensures Type(v).Get(name) == match v.Get(name) case None => None case Some(x) => Some(TypeMember(name, x))
      {
        ChangedLookup(TypeMember, v.members, name);
      }
      if v.Get("fields").Some? { FieldsMaterialized(v.Get("fields").value); } else { NothingMaterialized(); }
      forall x ensures OperationMaterialized(x, Operation(x)) { OperationIsMaterialized(x); }
    }
  }

  /** Normalizing an IR materializes `nullable` on every field and parameter of every
      type and the descriptor of the document, and changes no other member. */
  lemma OnlyNullable(ir: Json, name: string)
    requires ir.Object?
    ensures Ir(ir).Get("canonicalization") == Some(Object([("algorithm", Str("rfc8785-v1"))]))
    ensures name != "canonicalization" && name != "types" ==> Ir(ir).Get(name) == ir.Get(name)
    ensures Ir(ir).Get("types").Some? <==> ir.Get("types").Some?
    ensures ir.Get("types").Some? && ir.Get("types").value.Array? ==>
              && Ir(ir).Get("types").value.Array? && |Ir(ir).Get("types").value.items| == |ir.Get("types").value.items|
              && forall i :: 0 <= i < |ir.Get("types").value.items| ==>
                   TypeMaterialized(ir.Get("types").value.items[i], Ir(ir).Get("types").value.items[i])
  {
    hide Ir, Type, TypeMaterialized;
    IrGet(ir, "canonicalization");
    IrGet(ir, name);
    IrGet(ir, "types");
    forall x ensures TypeMaterialized(x, Type(x)) { TypeIsMaterialized(x); }
  }
}
