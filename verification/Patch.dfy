/** The patch engine: RFC 6902 operations on a document changed in place, with the
    `x-repeat` extension and its template substitution. */
module Patch {
  import opened Wrappers
  import opened Json
  import opened Pointers
  import Compat
  import Numbers

  // ----- walking a pointer

  /** The child a token names: the last member of that name, or the item at that index. */
  function Step(node: Json, part: string): Option<Json> {
    match node
    case Object(_) => node.Get(part)
    case Array(items) => (
      match Index(part)
      case Some(at) => if at < |items| then Some(items[at]) else None
      case None => None
    )
    case _ => None
  }

  function Resolve(node: Json, tokens: seq<string>): Option<Json> {
    if tokens == [] then Some(node)
    else
      match Resolve(node, tokens[..|tokens| - 1])
      case None => None
      case Some(parent) => Step(parent, tokens[|tokens| - 1])
  }

  /** The position of the last member of a name, or the number of members. */
  function LastNamed(members: seq<(string, Json)>, name: string): (at: nat)
    ensures at <= |members|
    ensures at < |members| ==> members[at].0 == name && Lookup(members, name) == Some(members[at].1)
    ensures at < |members| ==> forall k :: at < k < |members| ==> members[k].0 != name
    ensures at == |members| <==> Lookup(members, name) == None
  {
    if members == [] then 0
    else if members[|members| - 1].0 == name then |members| - 1
    else
      var at := LastNamed(members[..|members| - 1], name);
      if at == |members| - 1 then |members| else at
  }

  /** The node with one child replaced. */
  function SetStep(node: Json, part: string, child: Json): Json
    requires Step(node, part).Some?
  {
    match node
    case Object(members) => Object(members[LastNamed(members, part) := (members[LastNamed(members, part)].0, child)])
    case Array(items) => Array(items[Index(part).value := child])
    case _ => node
  }

  /** The document with the addressed node replaced. */
  function Replaced(node: Json, tokens: seq<string>, value: Json): Json
    requires Resolve(node, tokens).Some?
    decreases |tokens|
  {
    if tokens == [] then value
    else
      var (parents, last) := (tokens[..|tokens| - 1], tokens[|tokens| - 1]);
      Replaced(node, parents, SetStep(Resolve(node, parents).value, last, value))
  }

  // ----- the three edits, at the parent

  function InsertChild(parent: Json, last: string, value: Json): Option<Json> {
    match parent
    case Object(members) =>
      var at := LastNamed(members, last);
      Some(Object(if at < |members| then members[at := (members[at].0, value)] else members + [(last, value)]))
    case Array(items) =>
      if last == "-" then Some(Array(items + [value]))
      else if Index(last).Some? && Index(last).value <= |items| then
        Some(Array(items[..Index(last).value] + [value] + items[Index(last).value..]))
      else None
    case _ => None
  }

  function RemoveChild(parent: Json, last: string): Option<Json> {
    match parent
    case Object(members) =>
      var at := LastNamed(members, last);
      if at < |members| then Some(Object(members[..at] + members[at + 1..])) else None
    case Array(items) =>
      if Index(last).Some? && Index(last).value < |items| then
        Some(Array(items[..Index(last).value] + items[Index(last).value + 1..]))
      else None
    case _ => None
  }

  // ----- the same at a pointer

  function Inserted(node: Json, tokens: seq<string>, value: Json): Option<Json> {
    if tokens == [] then Some(value)
    else
      var (parents, last) := (tokens[..|tokens| - 1], tokens[|tokens| - 1]);
      match Resolve(node, parents)
      case None => None
      case Some(parent) =>
        match InsertChild(parent, last, value)
        case None => None
        case Some(edited) => Some(Replaced(node, parents, edited))
  }

  function Assigned(node: Json, tokens: seq<string>, value: Json): Option<Json> {
    if Resolve(node, tokens).None? then None else Some(Replaced(node, tokens, value))
  }

  function Removed(node: Json, tokens: seq<string>): Option<Json> {
    if tokens == [] then None
    else
      var (parents, last) := (tokens[..|tokens| - 1], tokens[|tokens| - 1]);
      match Resolve(node, parents)
      case None => None
      case Some(parent) =>
        match RemoveChild(parent, last)
        case None => None
        case Some(edited) => Some(Replaced(node, parents, edited))
  }

  // ----- template substitution

  /** `$i` as the copy index, then `$n` as its successor. */
  function SubstituteText(text: string, copy: nat): string {
    ReplacePair(ReplacePair(text, '$', 'i', Numbers.Decimal(copy)), '$', 'n', Numbers.Decimal(copy + 1))
  }

  /** The template with every string and member name substituted. */
  function Substitute(template: Json, copy: nat): Json {
    match template
    case Str(text) => Str(SubstituteText(text, copy))
    case Array(items) => Array(SubstituteItems(items, copy))
    case Object(members) => Object(SubstituteMembers(members, copy))
    case _ => template
  }

  function SubstituteItems(items: seq<Json>, copy: nat): (r: seq<Json>)
    ensures |r| == |items| && forall i :: 0 <= i < |r| ==> r[i] == Substitute(items[i], copy)
  {
    seq(|items|, i requires 0 <= i < |items| => Substitute(items[i], copy))
  }

  function SubstituteMember(member: (string, Json), copy: nat): (string, Json) {
    (SubstituteText(member.0, copy), Substitute(member.1, copy))
  }

  function SubstituteMembers(members: seq<(string, Json)>, copy: nat): (r: seq<(string, Json)>)
    ensures |r| == |members| && forall i :: 0 <= i < |r| ==> r[i] == SubstituteMember(members[i], copy)
  {
    seq(|members|, i requires 0 <= i < |members| => SubstituteMember(members[i], copy))
  }

  /** A container part-way through: the children from `next` on are still to do. */
  datatype Frame =
    | ArrayFrame(items: seq<Json>, next: nat, done: seq<Json>)
    | ObjectFrame(members: seq<(string, Json)>, next: nat, pairs: seq<(string, Json)>, name: string)
  {
    predicate Valid() { if ArrayFrame? then next <= |items| else next <= |members| }

    predicate More() { if ArrayFrame? then next < |items| else next < |members| }
  }

  /** The frame with its pending child finished. */
  function Accept(frame: Frame, value: Json): Frame {
    match frame
    case ArrayFrame(items, next, done) => ArrayFrame(items, next, done + [value])
    case ObjectFrame(members, next, pairs, name) => ObjectFrame(members, next, pairs + [(name, value)], "")
  }

  /** What the frame becomes once the rest of its children are substituted. */
  function Completed(frame: Frame, copy: nat): Json
    requires frame.Valid()
  {
    match frame
    case ArrayFrame(items, next, done) => Array(done + SubstituteItems(items[next..], copy))
    case ObjectFrame(members, next, pairs, name) => Object(pairs + SubstituteMembers(members[next..], copy))
  }

  ghost predicate AllValid(stack: seq<Frame>) { forall i :: 0 <= i < |stack| ==> stack[i].Valid() }

  /** The whole value once `value` is delivered to the frames that wait for it. */
  function Deliver(stack: seq<Frame>, value: Json, copy: nat): Json
    requires AllValid(stack)
    decreases |stack|
  {
    if stack == [] then value
    else Deliver(stack[..|stack| - 1], Completed(Accept(stack[|stack| - 1], value), copy), copy)
  }

  /** The whole value once the innermost frame is completed. */
  function Close(stack: seq<Frame>, copy: nat): Json
    requires AllValid(stack) && stack != []
  {
    Deliver(stack[..|stack| - 1], Completed(stack[|stack| - 1], copy), copy)
  }

  function Left(frame: Frame): nat
    requires frame.Valid()
  {
    1 + if frame.ArrayFrame? then SizeOf(frame.items[frame.next..]) else SizeOfMembers(frame.members[frame.next..])
  }

  ghost function Work(stack: seq<Frame>): nat
    requires AllValid(stack)
  {
    if stack == [] then 0 else Work(stack[..|stack| - 1]) + Left(stack[|stack| - 1])
  }

  /** A scalar is finished at once; a container opens a frame. */
  method Enter(node: Json, stack: seq<Frame>, copy: nat) returns (finished: Option<Json>, grown: seq<Frame>)
    requires AllValid(stack)
    ensures AllValid(grown)
    ensures match finished
            case Some(value) => grown == stack && value == Substitute(node, copy)
            case None =>
              && grown != [] && grown[..|grown| - 1] == stack
              && Completed(grown[|grown| - 1], copy) == Substitute(node, copy)
    ensures Work(grown) < Work(stack) + Size(node)
  {
    match node {
      case Str(text) => finished, grown := Some(Str(SubstituteText(text, copy))), stack;
      case Array(items) =>
        assert items[0..] == items;
        finished, grown := None, stack + [ArrayFrame(items, 0, [])];
        assert grown[..|grown| - 1] == stack;
      case Object(members) =>
        assert members[0..] == members;
        finished, grown := None, stack + [ObjectFrame(members, 0, [], "")];
        assert grown[..|grown| - 1] == stack;
      case _ => finished, grown := Some(node), stack;
    }
  }

  lemma ItemTaken(items: seq<Json>, next: nat, done: seq<Json>, copy: nat)
    requires next < |items|
    ensures SizeOf(items[next..]) == Size(items[next]) + SizeOf(items[next + 1..])
    ensures done + SubstituteItems(items[next..], copy) ==
        done + [Substitute(items[next], copy)] + SubstituteItems(items[next + 1..], copy)
  {
    hide Size, Substitute;
    assert items[next..][1..] == items[next + 1..];
  }

  lemma MemberTaken(members: seq<(string, Json)>, next: nat, pairs: seq<(string, Json)>, copy: nat)
    requires next < |members|
    ensures SizeOfMembers(members[next..]) == Size(members[next].1) + SizeOfMembers(members[next + 1..])
    ensures pairs + SubstituteMembers(members[next..], copy)
         == pairs + [(SubstituteText(members[next].0, copy), Substitute(members[next].1, copy))] +
           SubstituteMembers(members[next + 1..], copy)
  {
    hide Size, Substitute, SubstituteText;
    assert members[next..][1..] == members[next + 1..];
  }

  /** The next child of a frame, and the frame waiting for it. */
  method TakeChild(frame: Frame, copy: nat) returns (child: Json, waiting: Frame)
    requires frame.Valid() && frame.More()
    ensures waiting.Valid() && Completed(frame, copy) == Completed(Accept(waiting, Substitute(child, copy)), copy)
    ensures Left(waiting) + Size(child) == Left(frame)
  {
    hide Size, Substitute, SizeOf, SizeOfMembers, SubstituteItems, SubstituteMembers, SubstituteText;
    match frame {
      case ArrayFrame(items, next, done) =>
        child, waiting := items[next], ArrayFrame(items, next + 1, done);
        ItemTaken(items, next, done, copy);
      case ObjectFrame(members, next, pairs, _) =>
        child, waiting := members[next].1, ObjectFrame(members, next + 1, pairs, SubstituteText(members[next].0, copy));
        MemberTaken(members, next, pairs, copy);
    }
  }

  /** Substitution with an explicit stack of frames. */
  method SubstituteIteratively(template: Json, copy: nat) returns (result: Json)
    ensures result == Substitute(template, copy)
  {
    hide Substitute, Completed, Accept, Left, Size;
    var finished, stack := Enter(template, [], copy);
    DeliverNothing(Substitute(template, copy), copy);
    while true
      invariant AllValid(stack) && (finished.None? ==> stack != [])
      invariant Substitute(template, copy) == if finished.Some? then Deliver(stack, finished.value, copy)
          else Close(stack, copy)
      decreases Work(stack), finished.None?
    {
      if finished.Some? {
        if stack == [] {
          return finished.value;
        }
        AcceptStep(stack, finished.value, copy);
        stack := stack[..|stack| - 1] + [Accept(stack[|stack| - 1], finished.value)];
      }
      var below, top := stack[..|stack| - 1], stack[|stack| - 1];
      assert stack == below + [top];
      WorkPush(below, top);
      if top.More() {
        var child, waiting := TakeChild(top, copy);
        WorkPush(below, waiting);
        WaitStep(below, waiting, Substitute(child, copy), copy);
        finished, stack := Enter(child, below + [waiting], copy);
      } else {
        PopStep(top, copy);
        finished := Some(if top.ArrayFrame? then Array(top.done) else Object(top.pairs));
        stack := below;
      }
    }
  }

  lemma DeliverNothing(value: Json, copy: nat)
    ensures Deliver([], value, copy) == value
  {
  }

  /** Delivering to the innermost frame is completing it with the value accepted. */
  lemma AcceptStep(stack: seq<Frame>, value: Json, copy: nat)
    requires AllValid(stack) && stack != []
    ensures var (below, top) := (stack[..|stack| - 1], Accept(stack[|stack| - 1], value));
            && top.Valid() && AllValid(below + [top]) && Close(below + [top], copy) == Deliver(stack, value, copy)
            && Work(below + [top]) == Work(stack)
  {
    var (below, top) := (stack[..|stack| - 1], Accept(stack[|stack| - 1], value));
    assert (below + [top])[..|below + [top]| - 1] == below;
  }

  lemma WaitStep(below: seq<Frame>, waiting: Frame, value: Json, copy: nat)
    requires AllValid(below) && waiting.Valid()
    ensures AllValid(below + [waiting])
    ensures Deliver(below + [waiting], value, copy) == Deliver(below, Completed(Accept(waiting, value), copy), copy)
  {
    assert (below + [waiting])[..|below + [waiting]| - 1] == below;
  }

  lemma WorkPush(below: seq<Frame>, top: Frame)
    requires AllValid(below) && top.Valid()
    ensures AllValid(below + [top]) && Work(below + [top]) == Work(below) + Left(top) && Left(top) > 0
  {
    assert (below + [top])[..|below + [top]| - 1] == below;
  }

  lemma PopStep(top: Frame, copy: nat)
    requires top.Valid() && !top.More()
    ensures Completed(top, copy) == if top.ArrayFrame? then Array(top.done) else Object(top.pairs)
  {
  }

  // ----- operations

  function PathOf(op: Json, name: string): seq<string> {
    match Compat.Text(op, name)
    case None => []
    case Some(path) => Split(path)
  }

  function Member(op: Json, name: string): Json {
    match op.Get(name)
    case None => Null
    case Some(value) => value
  }

  /** `count` copies inserted one after another. */
  function Repeated(document: Json, tokens: seq<string>, template: Json, count: nat): Option<Json> {
    if count == 0 then Some(document)
    else
      match Repeated(document, tokens, template, count - 1)
      case None => None
      case Some(grown) => Inserted(grown, tokens, Substitute(template, count - 1))
  }

  /** One operation; nothing when it cannot be applied. */
  function Applied(n: Compat.Numerics, document: Json, op: Json): Option<Json> {
    var path := PathOf(op, "path");
    match Compat.Text(op, "op")
    case Some("test") => (
      match Resolve(document, path)
      case None => None
      case Some(found) => if Compat.Written(n, found) == Compat.Written(n, Member(op, "value")) then Some(document)
          else None
    )
    case Some("add") => Inserted(document, path, Member(op, "value"))
    case Some("replace") => Assigned(document, path, Member(op, "value"))
    case Some("remove") => Removed(document, path)
    case Some("copy") => (
      match Resolve(document, PathOf(op, "from"))
      case None => None
      case Some(value) => Inserted(document, path, value)
    )
    case Some("move") => (
      match Resolve(document, PathOf(op, "from"))
      case None => None
      case Some(value) =>
        match Removed(document, PathOf(op, "from"))
        case None => None
        case Some(rest) => Inserted(rest, path, value)
    )
    case Some("x-repeat") => (
      match Compat.AsI64(n, op.Get("count"))
      case Some(count) => if 1 <= count <= 512 then Repeated(document, path, Member(op, "template"), count) else None
      case None => None
    )
    case _ => None
  }

  /** The operations in order, until one fails. */
  function AppliedAll(n: Compat.Numerics, document: Json, ops: seq<Json>): Option<Json> {
    if ops == [] then Some(document)
    else
      match AppliedAll(n, document, ops[..|ops| - 1])
      case None => None
      case Some(current) => Applied(n, current, ops[|ops| - 1])
  }

  /** A document that operations change in place. */
  class Working {
    var document: Json

    constructor (document: Json)
      ensures this.document == document
    {
      this.document := document;
    }

    method Find(tokens: seq<string>) returns (found: Option<Json>)
      ensures found == Resolve(document, tokens)
    {
      found := Some(document);
      for i := 0 to |tokens|
        invariant found.Some? && found == Resolve(document, tokens[..i])
      {
        assert tokens[..i + 1][..i] == tokens[..i];
        found := Step(found.value, tokens[i]);
        if found.None? {
          Unresolved(document, tokens, i + 1);
          return;
        }
      }
      assert tokens[..|tokens|] == tokens;
    }

    method Insert(tokens: seq<string>, value: Json) returns (ok: bool)
      modifies this
      ensures match Inserted(old(document), tokens, value)
              case Some(edited) => ok && document == edited
              case None => !ok && document == old(document)
    {
      hide InsertChild, Replaced, Resolve;
      if tokens == [] {
        document := value;
        return true;
      }
      var parents, last := tokens[..|tokens| - 1], tokens[|tokens| - 1];
      var parent := Find(parents);
      if parent.None? || InsertChild(parent.value, last, value).None? {
        return false;
      }
      document := Replaced(document, parents, InsertChild(parent.value, last, value).value);
      ok := true;
    }

    method Assign(tokens: seq<string>, value: Json) returns (ok: bool)
      modifies this
      ensures match Assigned(old(document), tokens, value)
              case Some(edited) => ok && document == edited
              case None => !ok && document == old(document)
    {
      hide Replaced, Resolve;
      var found := Find(tokens);
      ok := found.Some?;
      if ok {
        document := Replaced(document, tokens, value);
      }
    }

    method Remove(tokens: seq<string>) returns (ok: bool)
      modifies this
      ensures match Removed(old(document), tokens)
              case Some(edited) => ok && document == edited
              case None => !ok && document == old(document)
    {
      hide RemoveChild, Replaced, Resolve;
      if tokens == [] {
        return false;
      }
      var parents, last := tokens[..|tokens| - 1], tokens[|tokens| - 1];
      var parent := Find(parents);
      if parent.None? || RemoveChild(parent.value, last).None? {
        return false;
      }
      document := Replaced(document, parents, RemoveChild(parent.value, last).value);
      ok := true;
    }

    /** Inserts the copies one by one. */
    method Repeat(tokens: seq<string>, template: Json, count: nat) returns (ok: bool)
      modifies this
      ensures match Repeated(old(document), tokens, template, count)
              case Some(edited) => ok && document == edited
              case None => !ok
    {
      hide Inserted, Substitute;
      for copy := 0 to count
        invariant Repeated(old(document), tokens, template, copy) == Some(document)
      {
        var value := SubstituteIteratively(template, copy);
        ok := Insert(tokens, value);
        if !ok {
          RepeatStops(old(document), tokens, template, copy + 1, count);
          return;
        }
      }
      ok := true;
    }

    method ApplyOne(n: Compat.Numerics, op: Json) returns (ok: bool)
      modifies this
      ensures match Applied(n, old(document), op)
              case Some(edited) => ok && document == edited
              case None => !ok
    {
      hide Inserted, Assigned, Removed, Resolve, Repeated, Substitute, PathOf, Member;
      ok := false;
      var path := PathOf(op, "path");
      match Compat.Text(op, "op") {
        case Some("test") =>
          var found := Find(path);
          ok := found.Some? && Compat.Written(n, found.value) == Compat.Written(n, Member(op, "value"));
        case Some("add") => ok := Insert(path, Member(op, "value"));
        case Some("replace") => ok := Assign(path, Member(op, "value"));
        case Some("remove") => ok := Remove(path);
        case Some("copy") =>
          var value := Find(PathOf(op, "from"));
          if value.Some? {
            ok := Insert(path, value.value);
          }
        case Some("move") =>
          var value := Find(PathOf(op, "from"));
          if value.Some? {
            ok := Remove(PathOf(op, "from"));
            if ok {
              ok := Insert(path, value.value);
            }
          }
        case Some("x-repeat") =>
          var count := Compat.AsI64(n, op.Get("count"));
          if count.Some? && 1 <= count.value <= 512 {
            ok := Repeat(path, Member(op, "template"), count.value);
          }
        case _ =>
      }
    }
  }

  lemma {:induction false} Unresolved(node: Json, tokens: seq<string>, k: nat)
    requires k <= |tokens| && Resolve(node, tokens[..k]).None?
    ensures Resolve(node, tokens).None?
    decreases |tokens|
  {
    if k == |tokens| {
      assert tokens[..k] == tokens;
    } else {
      var shorter := tokens[..|tokens| - 1];
      assert shorter[..k] == tokens[..k];
      Unresolved(node, shorter, k);
    }
  }

  lemma {:induction false} RepeatStops(document: Json, tokens: seq<string>, template: Json, k: nat, count: nat)
    requires k <= count && Repeated(document, tokens, template, k).None?
    ensures Repeated(document, tokens, template, count).None?
    decreases count
  {
    hide Inserted, Substitute;
    if k < count { RepeatStops(document, tokens, template, k, count - 1); }
  }

  lemma {:induction false} ApplyStops(n: Compat.Numerics, document: Json, ops: seq<Json>, k: nat)
    requires k <= |ops| && AppliedAll(n, document, ops[..k]).None?
    ensures AppliedAll(n, document, ops).None?
    decreases |ops|
  {
    hide Applied;
    if k == |ops| {
      assert ops[..k] == ops;
    } else {
      var shorter := ops[..|ops| - 1];
      assert shorter[..k] == ops[..k];
      ApplyStops(n, document, shorter, k);
    }
  }

  /** The patched document, or nothing when an operation cannot be applied; the given one stays as it is. */
  method Apply(n: Compat.Numerics, document: Json, ops: seq<Json>) returns (patched: Option<Json>)
    ensures patched == AppliedAll(n, document, ops)
  {
    hide Applied;
    var current := new Working(document);
    for i := 0 to |ops|
      invariant AppliedAll(n, document, ops[..i]) == Some(current.document)
    {
      assert ops[..i + 1][..i] == ops[..i];
      var ok := current.ApplyOne(n, ops[i]);
      if !ok {
        ApplyStops(n, document, ops, i + 1);
        return None;
      }
    }
    assert ops[..|ops|] == ops;
    patched := Some(current.document);
  }
}
