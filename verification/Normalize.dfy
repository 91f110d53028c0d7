/** The normalized form of an IR document: `nullable` a literal boolean on every field
    and parameter, the canonicalization descriptor in place, everything else as authored. */
module Normalize {
  import opened Wrappers
  import opened Json
  import Canonical

  const DESCRIPTOR := Object([("algorithm", Str("rfc8785-v1"))])

  /** The items of an array, each changed; anything else as it is. */
  function EachItem(change: Json -> Json, v: Json): Json {
    if v.Array? then Array(seq(|v.items|, i requires 0 <= i < |v.items| => change(v.items[i]))) else v
  }

  /** The members of an object, each value changed as its name says; anything else as it is. */
  function EachMember(change: (string, Json) -> Json, v: Json): Json {
    if v.Object? then Object(Changed(change, v.members)) else v
  }

  function Changed(change: (string, Json) -> Json, members: seq<(string, Json)>): (r: seq<(string, Json)>)
    ensures |r| == |members| && forall i :: 0 <= i < |r| ==> r[i] == (members[i].0, change(members[i].0, members[i].1))
  {
    seq(|members|, i requires 0 <= i < |members| => (members[i].0, change(members[i].0, members[i].1)))
  }

  function Without(members: seq<(string, Json)>, name: string): seq<(string, Json)> {
    if members == [] then []
    else
      var last := members[|members| - 1];
      Without(members[..|members| - 1], name) + (if last.0 == name then [] else [last])
  }

  function Field(field: Json): Json {
    if field.Object? then
      Object(Without(field.members, "nullable") + [("nullable", Bool(field.Get("nullable") == Some(Bool(true))))])
    else field
  }

  function OperationMember(name: string, value: Json): Json {
    if name == "params" then EachItem(Field, value) else value
  }

  function Operation(operation: Json): Json { EachMember(OperationMember, operation) }

  function TypeMember(name: string, value: Json): Json {
    if name == "fields" then EachItem(Field, value) else if name == "operations" then EachItem(Operation, value)
      else value
  }

  function Type(definition: Json): Json { EachMember(TypeMember, definition) }

  /** The IR's members: the first descriptor replaced, later ones dropped, types changed. */
  function IrMembers(members: seq<(string, Json)>): seq<(string, Json)> {
    if members == [] then []
    else
      var (name, value) := members[|members| - 1];
      var before := IrMembers(members[..|members| - 1]);
      if name == "canonicalization"
        then (if Emitted(members[..|members| - 1]) then before else before + [(name, DESCRIPTOR)])
      else before + [(name, if name == "types" then EachItem(Type, value) else value)]
  }

  predicate Emitted(members: seq<(string, Json)>) { Lookup(members, "canonicalization").Some? }

  function Ir(ir: Json): Json {
    if ir.Object? then
      Object(IrMembers(ir.members) + if Emitted(ir.members) then [] else [("canonicalization", DESCRIPTOR)])
    else ir
  }

  /** The normalized text of the bundle's IR. */
  function NormalizedText(f: Canonical.Decoder, bundle: Json): string {
    match bundle.Get("ir")
    case None => Canonical.CanonicalText(f, Null)
    case Some(ir) => Canonical.CanonicalText(f, Ir(ir))
  }

  // ----- the materializing loops

  method MaterializeField(field: Json) returns (out: Json)
    ensures out == Field(field)
  {
    if !field.Object? {
      return field;
    }
    var nullable := field.Get("nullable") == Some(Bool(true));
    var members, kept := field.members, [];
    for i := 0 to |members|
      invariant kept == Without(members[..i], "nullable")
    {
      assert members[..i + 1][..i] == members[..i];
      if members[i].0 != "nullable" {
        kept := kept + [members[i]];
      }
    }
    assert members[..|members|] == members;
    out := Object(kept + [("nullable", Bool(nullable))]);
  }

  method MaterializeFieldArray(fields: Json) returns (out: Json)
    ensures out == EachItem(Field, fields)
  {
    if !fields.Array? {
      return fields;
    }
    hide Field;
    var items := [];
    for i := 0 to |fields.items|
      invariant |items| == i && forall k :: 0 <= k < i ==> items[k] == Field(fields.items[k])
    {
      var item := MaterializeField(fields.items[i]);
      items := items + [item];
    }
    out := Array(items);
  }

  method MaterializeOperations(operations: Json) returns (out: Json)
    ensures out == EachItem(Operation, operations)
  {
    if !operations.Array? {
      return operations;
    }
    hide Operation;
    var items := [];
    for i := 0 to |operations.items|
      invariant |items| == i && forall k :: 0 <= k < i ==> items[k] == Operation(operations.items[k])
    {
      var item := MaterializeOperation(operations.items[i]);
      items := items + [item];
    }
    out := Array(items);
  }

  method MaterializeOperation(operation: Json) returns (out: Json)
    ensures out == Operation(operation)
  {
    if !operation.Object? {
      return operation;
    }
    var members, changed := operation.members, [];
    for i := 0 to |members|
      invariant |changed| == i && forall k :: 0 <= k < i ==>
          changed[k] == (members[k].0, OperationMember(members[k].0, members[k].1))
    {
      var (name, value) := members[i];
      if name == "params" {
        value := MaterializeFieldArray(value);
      }
      changed := changed + [(name, value)];
    }
    out := Object(changed);
    assert changed == Changed(OperationMember, members);
  }

  method MaterializeType(definition: Json) returns (out: Json)
    ensures out == Type(definition)
  {
    if !definition.Object? {
      return definition;
    }
    var members, changed := definition.members, [];
    for i := 0 to |members|
      invariant |changed| == i && forall k :: 0 <= k < i ==>
          changed[k] == (members[k].0, TypeMember(members[k].0, members[k].1))
    {
      var (name, value) := members[i];
      if name == "fields" {
        value := MaterializeFieldArray(value);
      } else if name == "operations" {
        value := MaterializeOperations(value);
      }
      changed := changed + [(name, value)];
    }
    out := Object(changed);
    assert changed == Changed(TypeMember, members);
  }

  method MaterializeTypes(types: Json) returns (out: Json)
    ensures out == EachItem(Type, types)
  {
    if !types.Array? {
      return types;
    }
    hide Type;
    var items := [];
    for i := 0 to |types.items|
      invariant |items| == i && forall k :: 0 <= k < i ==> items[k] == Type(types.items[k])
    {
      var item := MaterializeType(types.items[i]);
      items := items + [item];
    }
    out := Array(items);
  }

  method MaterializeIr(ir: Json) returns (out: Json)
    ensures out == Ir(ir)
  {
    if !ir.Object? {
      return ir;
    }
    hide Type, EachItem;
    var members, changed, emitted := ir.members, [], false;
    for i := 0 to |members|
      invariant changed == IrMembers(members[..i]) && emitted == Emitted(members[..i])
    {
      assert members[..i + 1][..i] == members[..i];
      var (name, value) := members[i];
      if name == "canonicalization" {
        if !emitted {
          changed := changed + [(name, DESCRIPTOR)];
          emitted := true;
        }
      } else if name == "types" {
        value := MaterializeTypes(value);
        changed := changed + [(name, value)];
      } else {
        changed := changed + [(name, value)];
      }
    }
    assert members[..|members|] == members;
    if !emitted {
      changed := changed + [("canonicalization", DESCRIPTOR)];
    }
    out := Object(changed);
  }

  method Normalized(f: Canonical.Decoder, bundle: Json) returns (text: string)
    ensures text == NormalizedText(f, bundle)
  {
    var ir := bundle.Get("ir");
    if ir.None? {
      text := Canonical.ToCanonicalString(f, Null);
    } else {
      var out := MaterializeIr(ir.value);
      text := Canonical.ToCanonicalString(f, out);
    }
  }
}
