/** The writers: the normalized `rfc8785-v1` form and the form that keeps member
    order, over one explicit stack. */
module Canonical {
  import opened Wrappers
  import opened Json
  import opened Members
  import opened Numbers

  // ----- strings

  function HexChar(d: nat): char
    requires d < 16
  {
    if d < 10 then DigitChar(d) else ('a' as int + (d - 10)) as char
  }

  /** One character as `JSON.stringify` escapes it. */
  function Escape(c: char): string {
    if c == '"' then "\\\""
    else if c == '\\' then "\\\\"
    else if c == '\U{8}' then "\\b"
    else if c == '\U{C}' then "\\f"
    else if c == '\n' then "\\n"
    else if c == '\r' then "\\r"
    else if c == '\t' then "\\t"
    else if c < ' ' then "\\u00" + [HexChar(c as int / 16), HexChar(c as int % 16)]
    else [c]
  }

  function Escapes(text: string): string {
    if text == "" then "" else Escape(text[0]) + Escapes(text[1..])
  }

  function Quote(text: string): string { "\"" + Escapes(text) + "\"" }

  method WriteString(out: string, text: string) returns (written: string)
    ensures written == out + Quote(text)
  {
    hide Escape;
    written := out + "\"";
    for i := 0 to |text|
      invariant written + Escapes(text[i..]) == out + "\"" + Escapes(text)
    {
      assert text[i..][1..] == text[i + 1..];
      Associative(written, Escape(text[i]), Escapes(text[i + 1..]));
      written := written + Escape(text[i]);
    }
    assert written + Escapes("") == written;
    Associative(out, "\"", Escapes(text));
    Associative(out, "\"" + Escapes(text), "\"");
    written := written + "\"";
  }

  // ----- the text of a value, as it stands

  function Print(v: Json): string {
    match v
    case Null => "null"
    case Bool(flag) => if flag then "true" else "false"
    case Number(lexeme) => lexeme
    case Str(text) => Quote(text)
    case Array(items) => "[" + (PrintItems(items) + "]")
    case Object(members) => "{" + (PrintMembers(members) + "}")
  }

  function PrintItems(items: seq<Json>): string {
    if items == [] then ""
    else if |items| == 1 then Print(items[0])
    else Print(items[0]) + ("," + PrintItems(items[1..]))
  }

  function PrintMember(member: (string, Json)): string {
    Quote(member.0) + (":" + Print(member.1))
  }

  function PrintMembers(members: seq<(string, Json)>): string {
    if members == [] then ""
    else if |members| == 1 then PrintMember(members[0])
    else PrintMember(members[0]) + ("," + PrintMembers(members[1..]))
  }

  // ----- the written form of a value

  /** How the writer reads a lexeme as a binary64 value; what is not a finite
      number, it refuses to write. */
  type Decoder = string -> Double

  function Form(f: Decoder, v: Json, sorted: bool): Json {
    match v
    case Number(lexeme) => Number(EcmaNumberToString(f(lexeme)))
    case Array(items) => Array(FormItems(f, items, sorted))
    case Object(members) => Object(Arrange(FormMembers(f, members, sorted), sorted))
    case _ => v
  }

  function Arrange(members: seq<(string, Json)>, sorted: bool): seq<(string, Json)> {
    if sorted then Sort(Resolve(members)) else Resolve(members)
  }

  function FormItems(f: Decoder, items: seq<Json>, sorted: bool): (r: seq<Json>)
    ensures |r| == |items| && forall i :: 0 <= i < |items| ==> r[i] == Form(f, items[i], sorted)
  {
    if items == [] then [] else [Form(f, items[0], sorted)] + FormItems(f, items[1..], sorted)
  }

  function FormMember(f: Decoder, member: (string, Json), sorted: bool): (string, Json) {
    (member.0, Form(f, member.1, sorted))
  }

  function FormMembers(f: Decoder, members: seq<(string, Json)>, sorted: bool): (r: seq<(string, Json)>)
    ensures |r| == |members| && forall i :: 0 <= i < |members| ==> r[i] == FormMember(f, members[i], sorted)
  {
    if members == [] then [] else [FormMember(f, members[0], sorted)] + FormMembers(f, members[1..], sorted)
  }

  /** Every number that is written, the last of each repeated member included, is finite. */
  predicate Writable(f: Decoder, v: Json) {
    match v
    case Number(lexeme) => f(lexeme).IsFinite()
    case Array(items) => forall i :: 0 <= i < |items| ==> Writable(f, items[i])
    case Object(members) => forall i: nat :: i < |members| && IsLast(members, i) ==> WritableMember(f, members[i])
    case _ => true
  }

  predicate WritableMember(f: Decoder, member: (string, Json)) { Writable(f, member.1) }

  /** The normalized `rfc8785-v1` form, or the empty text when a number is not finite. */
  function CanonicalText(f: Decoder, v: Json): string {
    if Writable(f, v) then Print(Form(f, v, true)) else ""
  }

  // ----- the writer

  /** One piece of work of the writer. */
  datatype Emit = Node(value: Json) | Text(text: char) | Name(name: string)

  ghost function EmitText(f: Decoder, e: Emit, sorted: bool): string {
    match e
    case Node(value) => Print(Form(f, value, sorted))
    case Text(text) => [text]
    case Name(name) => Quote(name) + ":"
  }

  /** What a list of work writes, first entry first. */
  ghost function Written(f: Decoder, work: seq<Emit>, sorted: bool): string {
    if work == [] then "" else EmitText(f, work[0], sorted) + Written(f, work[1..], sorted)
  }

  ghost predicate WorkWritable(f: Decoder, work: seq<Emit>) {
    forall e :: e in work && e.Node? ==> Writable(f, e.value)
  }

  lemma {:induction false} WrittenAppend(f: Decoder, a: seq<Emit>, b: seq<Emit>, sorted: bool)
    ensures Written(f, a + b, sorted) == Written(f, a, sorted) + Written(f, b, sorted)
    decreases |a|
  {
    if a == [] {
      assert a + b == b;
    } else {
      WrittenAppend(f, a[1..], b, sorted);
      hide Written, EmitText;
      RestOfConcat(a, b);
      WrittenFirst(f, a + b, sorted);
      WrittenFirst(f, a, sorted);
      Associative(EmitText(f, a[0], sorted), Written(f, a[1..], sorted), Written(f, b, sorted));
    }
  }

  lemma WrittenFirst(f: Decoder, work: seq<Emit>, sorted: bool)
    requires work != []
    ensures Written(f, work, sorted) == EmitText(f, work[0], sorted) + Written(f, work[1..], sorted)
  {
    hide EmitText;
  }

  lemma WrittenCons(f: Decoder, e: Emit, work: seq<Emit>, sorted: bool)
    ensures Written(f, [e] + work, sorted) == EmitText(f, e, sorted) + Written(f, work, sorted)
    ensures WorkWritable(f, [e] + work) <==> (e.Node? ==> Writable(f, e.value)) && WorkWritable(f, work)
  {
    assert ([e] + work)[1..] == work;
    assert ([e] + work)[0] in [e] + work;
    assert forall x :: x in work ==> x in [e] + work;
  }

  function ItemWork(items: seq<Json>): seq<Emit> {
    if items == [] then []
    else [Node(items[0])] + ((if |items| == 1 then [] else [Text(',')]) + ItemWork(items[1..]))
  }

  function MemberWork(members: seq<(string, Json)>): seq<Emit> {
    if members == [] then []
    else
      var separator := if |members| == 1 then [] else [Text(',')];
      [Name(members[0].0)] + ([Node(members[0].1)] + (separator + MemberWork(members[1..])))
  }

  lemma {:induction false} ItemWorkWrites(f: Decoder, items: seq<Json>, sorted: bool)
    ensures Written(f, ItemWork(items), sorted) == PrintItems(FormItems(f, items, sorted))
  {
    hide Written, Form, Print;
    WrittenNothing(f, sorted);
    if items != [] {
      ItemWorkWrites(f, items[1..], sorted);
      var rest := ItemWork(items[1..]);
      if |items| == 1 {
        assert [] + rest == [];
        WrittenCons(f, Node(items[0]), [], sorted);
        assert Print(Form(f, items[0], sorted)) + "" == Print(Form(f, items[0], sorted));
      } else {
        WrittenCons(f, Text(','), rest, sorted);
        WrittenCons(f, Node(items[0]), [Text(',')] + rest, sorted);
        assert FormItems(f, items, sorted)[1..] == FormItems(f, items[1..], sorted);
      }
    }
  }

  lemma WrittenNothing(f: Decoder, sorted: bool)
    ensures Written(f, [], sorted) == "" && WorkWritable(f, [])
  {
  }

  lemma {:induction false} ItemWorkWritable(f: Decoder, items: seq<Json>)
    ensures WorkWritable(f, ItemWork(items)) <==> forall i :: 0 <= i < |items| ==> Writable(f, items[i])
  {
    hide WorkWritable, Writable;
    WrittenNothing(f, false);
    if items != [] {
      ItemWorkWritable(f, items[1..]);
      var rest := ItemWork(items[1..]);
      var tail := (if |items| == 1 then [] else [Text(',')]) + rest;
      if |items| == 1 { assert tail == rest; } else { WrittenCons(f, Text(','), rest, false); }
      WrittenCons(f, Node(items[0]), tail, false);
      assert forall i :: 0 <= i < |items| - 1 ==> items[1..][i] == items[i + 1];
      assert forall i :: 1 <= i < |items| ==> items[1..][i - 1] == items[i];
    }
  }

  lemma MemberStep(f: Decoder, member: (string, Json), tail: seq<Emit>, sorted: bool)
    ensures Written(f, [Name(member.0)] + ([Node(member.1)] + tail), sorted)
         == PrintMember(FormMember(f, member, sorted)) + Written(f, tail, sorted)
  {
    hide Written, Form, Print, Quote;
    WrittenCons(f, Name(member.0), [Node(member.1)] + tail, sorted);
    WrittenCons(f, Node(member.1), tail, sorted);
  }

  lemma {:induction false} MemberWorkWrites(f: Decoder, members: seq<(string, Json)>, sorted: bool)
    ensures Written(f, MemberWork(members), sorted) == PrintMembers(FormMembers(f, members, sorted))
  {
    hide Written, FormMember, PrintMember;
    WrittenNothing(f, sorted);
    if members != [] {
      MemberWorkWrites(f, members[1..], sorted);
      var rest := MemberWork(members[1..]);
      var tail := (if |members| == 1 then [] else [Text(',')]) + rest;
      MemberStep(f, members[0], tail, sorted);
      if |members| == 1 {
        assert tail == [];
      } else {
        WrittenCons(f, Text(','), rest, sorted);
        assert FormMembers(f, members, sorted)[1..] == FormMembers(f, members[1..], sorted);
      }
    }
  }

  lemma {:induction false} MemberWorkWritable(f: Decoder, members: seq<(string, Json)>)
    ensures WorkWritable(f, MemberWork(members)) <==> forall i :: 0 <= i < |members| ==> WritableMember(f, members[i])
  {
    hide WorkWritable, Writable;
    WrittenNothing(f, false);
    if members != [] {
      MemberWorkWritable(f, members[1..]);
      var rest := MemberWork(members[1..]);
      var tail := (if |members| == 1 then [] else [Text(',')]) + rest;
      if |members| == 1 { assert tail == rest; } else { WrittenCons(f, Text(','), rest, false); }
      WrittenCons(f, Node(members[0].1), tail, false);
      WrittenCons(f, Name(members[0].0), [Node(members[0].1)] + tail, false);
      assert forall i :: 0 <= i < |members| - 1 ==> members[1..][i] == members[i + 1];
      assert forall i :: 1 <= i < |members| ==> members[1..][i - 1] == members[i];
    }
  }

  // ----- arranging members before or after their values are formed

  lemma {:induction false} FormFind(f: Decoder, ms: seq<(string, Json)>, name: string, sorted: bool)
    ensures Find(FormMembers(f, ms, sorted), name) == Find(ms, name)
  {
    if ms != [] {
      FormFind(f, ms[1..], name, sorted);
    }
  }

  lemma FormPut(f: Decoder, r: seq<(string, Json)>, m: (string, Json), sorted: bool)
    ensures FormMembers(f, Put(r, m), sorted) == Put(FormMembers(f, r, sorted), FormMember(f, m, sorted))
  {
    hide Find, FormMembers;
    FormFind(f, r, m.0, sorted);
  }

  lemma {:induction false} FormResolve(f: Decoder, ms: seq<(string, Json)>, sorted: bool)
    ensures FormMembers(f, Resolve(ms), sorted) == Resolve(FormMembers(f, ms, sorted))
  {
    hide FormMember;
    if ms != [] {
      var n := |ms| - 1;
      var fs := FormMembers(f, ms, sorted);
      FormResolve(f, ms[..n], sorted);
      assert fs[..n] == FormMembers(f, ms[..n], sorted) by { hide FormMembers; }
      FormPut(f, Resolve(ms[..n]), ms[n], sorted);
      assert fs[n] == FormMember(f, ms[n], sorted);
    } else {
      assert FormMembers(f, ms, sorted) == [];
    }
  }

  lemma {:induction false} FormInsert(f: Decoder, m: (string, Json), ms: seq<(string, Json)>, sorted: bool)
    ensures FormMembers(f, Insert(m, ms), sorted) == Insert(FormMember(f, m, sorted), FormMembers(f, ms, sorted))
  {
    var fs := FormMembers(f, ms, sorted);
    if ms != [] && NameLess(ms[0].0, m.0) {
      FormInsert(f, m, ms[1..], sorted);
      assert fs[1..] == FormMembers(f, ms[1..], sorted);
      assert Insert(m, ms)[1..] == Insert(m, ms[1..]);
    } else {
      assert ([m] + ms)[1..] == ms;
    }
  }

  lemma {:induction false} FormSort(f: Decoder, ms: seq<(string, Json)>, sorted: bool)
    ensures FormMembers(f, Sort(ms), sorted) == Sort(FormMembers(f, ms, sorted))
  {
    if ms != [] {
      FormSort(f, ms[1..], sorted);
      FormInsert(f, ms[0], Sort(ms[1..]), sorted);
      assert FormMembers(f, ms, sorted)[1..] == FormMembers(f, ms[1..], sorted);
    }
  }

  lemma FormArrange(f: Decoder, ms: seq<(string, Json)>, sorted: bool)
    ensures FormMembers(f, Arrange(ms, sorted), sorted) == Arrange(FormMembers(f, ms, sorted), sorted)
  {
    FormResolve(f, ms, sorted);
    if sorted { FormSort(f, Resolve(ms), sorted); }
  }

  /** The arranged members are the last of each name, in some order. */
  lemma ArrangeWins(ms: seq<(string, Json)>, sorted: bool, x: (string, Json))
    ensures x in Arrange(ms, sorted) <==> Wins(ms, x)
    ensures Distinct(Arrange(ms, sorted)) && (sorted ==> Ascending(Arrange(ms, sorted)))
  {
    ResolveWins(ms, x);
    if sorted {
      SortElements(Resolve(ms));
      InElements(Sort(Resolve(ms)), Resolve(ms), x);
      SortAscending(Resolve(ms));
      SortOfAscending(Sort(Resolve(ms)));
    }
  }

  lemma ArrangeWritable(f: Decoder, ms: seq<(string, Json)>, sorted: bool)
    ensures Writable(f, Object(ms)) <==>
        forall i :: 0 <= i < |Arrange(ms, sorted)| ==> WritableMember(f, Arrange(ms, sorted)[i])
  {
    var arranged := Arrange(ms, sorted);
    if Writable(f, Object(ms)) {
      forall i | 0 <= i < |arranged| ensures WritableMember(f, arranged[i]) {
        ArrangeWins(ms, sorted, arranged[i]);
        assert arranged[i] in arranged;
        var k: nat :| IsLast(ms, k) && ms[k] == arranged[i];
      }
    }
    if forall i :: 0 <= i < |arranged| ==> WritableMember(f, arranged[i]) {
      forall k: nat | IsLast(ms, k) ensures WritableMember(f, ms[k]) {
        ArrangeWins(ms, sorted, ms[k]);
        assert Wins(ms, ms[k]);
        var i :| 0 <= i < |arranged| && arranged[i] == ms[k];
      }
    }
  }

  // ----- the writer's loop

  function Comma(at: nat, count: nat): seq<Emit> { if 0 < at < count then [Text(',')] else [] }

  /** Stacks the items so that the first is written first; the top of the stack
      is its first entry. */
  method PushItems(base: seq<Emit>, items: seq<Json>) returns (stack: seq<Emit>)
    ensures stack == ItemWork(items) + base
  {
    stack := base;
    var position: nat := |items|;
    while position > 0
      invariant position <= |items|
      invariant stack == Comma(position, |items|) + (ItemWork(items[position..]) + base)
    {
      position := position - 1;
      assert items[position..][0] == items[position] && items[position..][1..] == items[position + 1..];
      stack := [Node(items[position])] + stack;
      assert stack == ItemWork(items[position..]) + base;
      if position > 0 {
        stack := [Text(',')] + stack;
      }
    }
    assert items[0..] == items;
  }

  method PushMembers(base: seq<Emit>, members: seq<(string, Json)>) returns (stack: seq<Emit>)
    ensures stack == MemberWork(members) + base
  {
    stack := base;
    var position: nat := |members|;
    while position > 0
      invariant position <= |members|
      invariant stack == Comma(position, |members|) + (MemberWork(members[position..]) + base)
    {
      position := position - 1;
      var (name, member) := members[position];
      assert members[position..][0] == members[position] && members[position..][1..] == members[position + 1..];
      stack := [Node(member)] + stack;
      stack := [Name(name)] + stack;
      assert stack == MemberWork(members[position..]) + base;
      if position > 0 {
        stack := [Text(',')] + stack;
      }
    }
    assert members[0..] == members;
  }

  lemma ArrayWork(f: Decoder, items: seq<Json>, rest: seq<Emit>, sorted: bool)
    ensures Print(Form(f, Array(items), sorted)) + Written(f, rest, sorted)
         == "[" + Written(f, ItemWork(items) + ([Text(']')] + rest), sorted)
    ensures WorkWritable(f, ItemWork(items) + ([Text(']')] + rest)) <==>
        Writable(f, Array(items)) && WorkWritable(f, rest)
  {
    hide Written, WorkWritable, ItemWork;
    ItemWorkWrites(f, items, sorted);
    ItemWorkWritable(f, items);
    WrittenAppend(f, ItemWork(items), [Text(']')] + rest, sorted);
    WrittenCons(f, Text(']'), rest, sorted);
    WritableAppend(f, ItemWork(items), [Text(']')] + rest);
    var text := PrintItems(FormItems(f, items, sorted));
    assert Print(Form(f, Array(items), sorted)) == "[" + (text + "]");
    Regroup("[", text, "]", Written(f, rest, sorted));
  }

  lemma Regroup(a: string, b: string, c: string, d: string)
    ensures a + (b + c) + d == a + (b + (c + d))
  {
  }

  lemma WritableAppend(f: Decoder, a: seq<Emit>, b: seq<Emit>)
    ensures WorkWritable(f, a + b) <==> WorkWritable(f, a) && WorkWritable(f, b)
  {
    assert forall e :: e in a + b <==> e in a || e in b;
  }

  lemma ObjectWork(f: Decoder, members: seq<(string, Json)>, rest: seq<Emit>, sorted: bool)
    ensures Print(Form(f, Object(members), sorted)) + Written(f, rest, sorted)
         == "{" + Written(f, MemberWork(Arrange(members, sorted)) + ([Text('}')] + rest), sorted)
    ensures WorkWritable(f, MemberWork(Arrange(members, sorted)) + ([Text('}')] + rest)) <==>
            Writable(f, Object(members)) && WorkWritable(f, rest)
  {
    hide Written, WorkWritable, MemberWork, Writable, Arrange;
    var arranged := Arrange(members, sorted);
    FormArrange(f, members, sorted);
    MemberWorkWrites(f, arranged, sorted);
    MemberWorkWritable(f, arranged);
    ArrangeWritable(f, members, sorted);
    WrittenAppend(f, MemberWork(arranged), [Text('}')] + rest, sorted);
    WrittenCons(f, Text('}'), rest, sorted);
    WritableAppend(f, MemberWork(arranged), [Text('}')] + rest);
    var text := PrintMembers(FormMembers(f, arranged, sorted));
    assert Print(Form(f, Object(members), sorted)) == "{" + (text + "}");
    Regroup("{", text, "}", Written(f, rest, sorted));
  }

  /** What the writer appends at once for a scalar. */
  ghost function ScalarText(f: Decoder, v: Json): string {
    match v
    case Bool(flag) => if flag then "true" else "false"
    case Number(lexeme) => EcmaNumberToString(f(lexeme))
    case Str(text) => Quote(text)
    case _ => "null"
  }

  lemma ScalarForm(f: Decoder, v: Json, sorted: bool)
    requires !v.Array? && !v.Object?
    ensures Print(Form(f, v, sorted)) == ScalarText(f, v) && |ScalarText(f, v)| > 0
    ensures Writable(f, v) <==> (v.Number? ==> f(v.lexeme).IsFinite())
  {
    if v.Number? { RenderingNonEmpty(f(v.lexeme)); }
  }

  method WriteScalar(f: Decoder, before: string, node: Json) returns (out: string, ok: bool)
    requires !node.Array? && !node.Object?
    ensures ok <==> (node.Number? ==> f(node.lexeme).IsFinite())
    ensures ok ==> out == before + ScalarText(f, node)
  {
    out, ok := before, true;
    match node
    case Null => out := out + "null";
    case Bool(flag) => out := out + (if flag then "true" else "false");
    case Number(lexeme) =>
      if !f(lexeme).IsFinite() { return out, false; }
      out := out + EcmaNumberToString(f(lexeme));
    case Str(text) => out := WriteString(out, text);
  }

  method StackChildren(stack: seq<Emit>, node: Json, sorted: bool) returns (open: char, more: seq<Emit>)
    requires node.Array? || node.Object?
    ensures open == if node.Array? then '[' else '{'
    ensures more == if node.Array? then ItemWork(node.items) + ([Text(']')] + stack)
                    else MemberWork(Arrange(node.members, sorted)) + ([Text('}')] + stack)
  {
    match node
    case Array(items) =>
      open := '[';
      more := PushItems([Text(']')] + stack, items);
    case Object(members) =>
      var resolved := ResolvedMembers(members);
      if sorted { resolved := Sort(resolved); }
      open := '{';
      more := PushMembers([Text('}')] + stack, resolved);
  }

  lemma ChildrenWork(f: Decoder, node: Json, rest: seq<Emit>, sorted: bool, more: seq<Emit>)
    requires node.Array? || node.Object?
    requires more == if node.Array? then ItemWork(node.items) + ([Text(']')] + rest)
                     else MemberWork(Arrange(node.members, sorted)) + ([Text('}')] + rest)
    ensures EmitText(f, Node(node), sorted) + Written(f, rest, sorted) ==
        [if node.Array? then '[' else '{'] + Written(f, more, sorted)
    ensures WorkWritable(f, more) <==> Writable(f, node) && WorkWritable(f, rest)
  {
    if node.Array? { ArrayWork(f, node.items, rest, sorted); } else { ObjectWork(f, node.members, rest, sorted); }
  }

  /** One piece of work: written at once, or replaced by the work of its children. */
  method WriteEmit(f: Decoder, before: string, emit: Emit, rest: seq<Emit>, sorted: bool)
    returns (out: string, stack: seq<Emit>, ok: bool)
    ensures !ok ==> !WorkWritable(f, [emit] + rest)
    ensures ok ==> out + Written(f, stack, sorted) == before + Written(f, [emit] + rest, sorted) && |out| > |before|
    ensures ok ==> (WorkWritable(f, stack) <==> WorkWritable(f, [emit] + rest))
  {
    hide Written, Form, Print, WorkWritable, Writable, ItemWork, MemberWork, Quote, Arrange, ScalarText;
    WrittenCons(f, emit, rest, sorted);
    out, stack, ok := before, rest, true;
    ghost var after := Written(f, rest, sorted);
    match emit {
      case Text(text) =>
        out := out + [text];
        Associative(before, [text], after);
      case Name(name) =>
        out := WriteString(out, name);
        out := out + ":";
        Associative(before, Quote(name), ":");
        Associative(before, Quote(name) + ":", after);
      case Node(node) =>
        if node.Array? || node.Object? {
          var open;
          open, stack := StackChildren(rest, node, sorted);
          ChildrenWork(f, node, rest, sorted, stack);
          out := out + [open];
          Associative(before, [open], Written(f, stack, sorted));
        } else {
          ScalarForm(f, node, sorted);
          out, ok := WriteScalar(f, out, node);
          Associative(before, ScalarText(f, node), after);
        }
    }
  }

  /** Writes `value` after `before` over an explicit stack; `ok` is false when a
      number to be written is not finite. */
  method WriteIteratively(f: Decoder, before: string, value: Json, sorted: bool) returns (out: string, ok: bool)
    ensures ok <==> Writable(f, value)
    ensures ok ==> out == before + Print(Form(f, value, sorted))
  {
    hide Written, Form, Print, WorkWritable, Writable;
    out := before;
    var stack := [Node(value)];
    ghost var goal := before + Print(Form(f, value, sorted));
    WrittenNothing(f, sorted);
    WrittenCons(f, Node(value), [], sorted);
    assert [Node(value)] + [] == stack;
    while stack != []
      invariant out + Written(f, stack, sorted) == goal
      invariant WorkWritable(f, stack) <==> Writable(f, value)
      decreases |goal| - |out|
    {
      assert stack == [stack[0]] + stack[1..];
      out, stack, ok := WriteEmit(f, out, stack[0], stack[1..], sorted);
      if !ok {
        return;
      }
    }
    ok := true;
  }

  /** The normalized form has no error channel: a value that cannot be written is the empty text. */
  method ToCanonicalString(f: Decoder, value: Json) returns (text: string)
    ensures text == CanonicalText(f, value)
  {
    var out, ok := WriteIteratively(f, "", value, true);
    text := if ok then out else "";
    assert ok ==> "" + Print(Form(f, value, true)) == Print(Form(f, value, true));
  }
}
