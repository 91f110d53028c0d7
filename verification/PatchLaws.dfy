/** What the patch operations do to the rest of the document: adding is found, undone by
    removing, and leaves members on other paths alone. */
module PatchLaws {
  import opened Wrappers
  import opened Json
  import opened Pointers
  import opened Patch
  import Compat
  import Numbers

  // ----- one step

  lemma LookupAt(members: seq<(string, Json)>, name: string, at: nat)
    requires at < |members| && members[at].0 == name && forall k :: at < k < |members| ==> members[k].0 != name
    ensures LastNamed(members, name) == at && Lookup(members, name) == Some(members[at].1)
  {
    var last := LastNamed(members, name);
    assert last == at;
  }

  lemma LookupNone(members: seq<(string, Json)>, name: string)
    requires forall k :: 0 <= k < |members| ==> members[k].0 != name
    ensures LastNamed(members, name) == |members| && Lookup(members, name) == None
  {
  }

  lemma SetOther(members: seq<(string, Json)>, at: nat, value: Json, name: string)
    requires at < |members| && members[at].0 != name
    ensures Lookup(members[at := (members[at].0, value)], name) == Lookup(members, name)
  {
    var changed := members[at := (members[at].0, value)];
    var last := LastNamed(members, name);
    assert forall k :: 0 <= k < |members| ==> changed[k].0 == members[k].0;
    if last < |members| {
      LookupAt(changed, name, last);
    } else {
      LookupNone(changed, name) by { NoneNamed(members, name); }
    }
  }

  lemma {:induction false} NoneNamed(members: seq<(string, Json)>, name: string)
    requires LastNamed(members, name) == |members|
    ensures forall k :: 0 <= k < |members| ==> members[k].0 != name
    decreases |members|
  {
    if members != [] { NoneNamed(members[..|members| - 1], name); }
  }

  lemma SetFound(node: Json, part: string, child: Json)
    requires Step(node, part).Some?
    ensures Step(SetStep(node, part, child), part) == Some(child)
  {
    if node.Object? {
      var at := LastNamed(node.members, part);
      LookupAt(node.members[at := (node.members[at].0, child)], part, at);
    }
  }

  lemma SetTwice(node: Json, part: string, child: Json, other: Json)
    requires Step(node, part).Some?
    ensures Step(SetStep(node, part, child), part).Some?
    ensures SetStep(SetStep(node, part, child), part, other) == SetStep(node, part, other)
    ensures SetStep(node, part, Step(node, part).value) == node
  {
    if node.Object? {
      var at := LastNamed(node.members, part);
      var changed := node.members[at := (node.members[at].0, child)];
      LookupAt(changed, part, at);
      assert changed[at := (changed[at].0, other)] == node.members[at := (node.members[at].0, other)];
      assert node.members[at := (node.members[at].0, node.members[at].1)] == node.members;
    }
  }

  lemma SetLeavesOthers(node: Json, part: string, child: Json, other: string)
    requires Step(node, part).Some? && TellsApart(node, part, other)
    ensures Step(SetStep(node, part, child), other) == Step(node, other)
  {
    if node.Object? { SetOther(node.members, LastNamed(node.members, part), child, other); }
  }

  /** The tokens name different members of an object or different places of an array. */
  ghost predicate TellsApart(node: Json, a: string, b: string) {
    (node.Object? && a != b) || (node.Array? && Index(a) != Index(b))
  }

  // ----- a pointer

  lemma {:induction false} ResolveSplit(node: Json, t: seq<string>, u: seq<string>)
    ensures Resolve(node, t + u) == match Resolve(node, t) case None => None case Some(mid) => Resolve(mid, u)
    decreases |u|
  {
    if u == [] {
      assert t + u == t;
    } else {
      var n := |u| - 1;
      assert (t + u)[..|t + u| - 1] == t + u[..n];
      ResolveSplit(node, t, u[..n]);
    }
  }

  /** What is put at a pointer is found there. */
  lemma {:induction false} ReplacedFound(node: Json, t: seq<string>, value: Json)
    requires Resolve(node, t).Some?
    ensures Resolve(Replaced(node, t, value), t) == Some(value)
    decreases |t|
  {
    hide SetStep, Step;
    if t != [] {
      var (parents, last) := (t[..|t| - 1], t[|t| - 1]);
      var parent := Resolve(node, parents).value;
      ReplacedFound(node, parents, SetStep(parent, last, value));
      SetFound(parent, last, value);
    }
  }

  lemma {:induction false} ReplacedTwice(node: Json, t: seq<string>, value: Json, other: Json)
    requires Resolve(node, t).Some?
    ensures Resolve(Replaced(node, t, value), t).Some?
    ensures Replaced(Replaced(node, t, value), t, other) == Replaced(node, t, other)
    decreases |t|
  {
    hide SetStep, Step;
    ReplacedFound(node, t, value);
    if t != [] {
      var (parents, last) := (t[..|t| - 1], t[|t| - 1]);
      var parent := Resolve(node, parents).value;
      var edited := SetStep(parent, last, value);
      ReplacedFound(node, parents, edited);
      SetTwice(parent, last, value, other);
      ReplacedTwice(node, parents, edited, SetStep(edited, last, other));
    }
  }

  lemma {:induction false} ReplacedSame(node: Json, t: seq<string>)
    requires Resolve(node, t).Some?
    ensures Replaced(node, t, Resolve(node, t).value) == node
    decreases |t|
  {
    hide SetStep, Step;
    if t != [] {
      var (parents, last) := (t[..|t| - 1], t[|t| - 1]);
      var parent := Resolve(node, parents).value;
      SetTwice(parent, last, parent, parent);
      ReplacedSame(node, parents);
    }
  }

  /** Replacing beneath a node is replacing the node. */
  lemma {:induction false} ReplacedSplit(node: Json, p: seq<string>, q: seq<string>, value: Json)
    requires Resolve(node, p + q).Some?
    ensures Resolve(node, p).Some? && Resolve(Resolve(node, p).value, q).Some?
    ensures Replaced(node, p + q, value) == Replaced(node, p, Replaced(Resolve(node, p).value, q, value))
    decreases |q|
  {
    hide SetStep, Step;
    ResolveSplit(node, p, q);
    if q == [] {
      assert p + q == p;
    } else {
      var (n, last) := (|q| - 1, q[|q| - 1]);
      assert (p + q)[..|p + q| - 1] == p + q[..n];
      ResolveSplit(node, p, q[..n]);
      ReplacedSplit(node, p, q[..n], SetStep(Resolve(node, p + q[..n]).value, last, value));
    }
  }

  // ----- paths that part

  /** The paths share their first `k` tokens and part there. */
  ghost predicate Part(node: Json, t: seq<string>, u: seq<string>, k: nat) {
    && k < |t| && k < |u| && t[..k] == u[..k]
    && Resolve(node, t[..k]).Some? && TellsApart(Resolve(node, t[..k]).value, t[k], u[k])
  }

  /** They part before the last token of the first, or at an object. */
  ghost predicate PartAbove(node: Json, t: seq<string>, u: seq<string>, k: nat) {
    Part(node, t, u, k) && (k + 1 == |t| ==> Resolve(node, t[..k]).value.Object?)
  }

  /** Editing an object for one name leaves what another name leads to. */
  lemma EditedApart(node: Json, p: seq<string>, edited: Json, u: seq<string>)
    requires Resolve(node, p).Some? && |p| < |u| && u[..|p|] == p
    requires Step(edited, u[|p|]) == Step(Resolve(node, p).value, u[|p|])
    ensures Resolve(Replaced(node, p, edited), u) == Resolve(node, u)
  {
    hide Step;
    var (rest, r) := (u[|p|..], Replaced(node, p, edited));
    assert u == p + rest;
    ReplacedFound(node, p, edited);
    ResolveSplit(node, p, rest);
    ResolveSplit(r, p, rest);
    var (first, tail) := ([rest[0]], rest[1..]);
    assert rest == first + tail;
    ResolveSplit(edited, first, tail);
    ResolveSplit(Resolve(node, p).value, first, tail);
    assert first[..0] == [];
  }

  lemma ReplacedApart(node: Json, t: seq<string>, value: Json, k: nat, u: seq<string>)
    requires Resolve(node, t).Some? && Part(node, t, u, k)
    ensures Resolve(Replaced(node, t, value), u) == Resolve(node, u)
  {
    hide Step, SetStep;
    var (p, a, rest) := (t[..k], t[k], t[k + 1..]);
    assert t == p + ([a] + rest);
    var meeting := Resolve(node, p).value;
    ReplacedSplit(node, p, [a] + rest, value);
    ReplacedSplit(meeting, [a], rest, value);
    var child := Replaced(Resolve(meeting, [a]).value, rest, value);
    assert [a][..0] == [];
    assert Replaced(meeting, [a], child) == SetStep(meeting, a, child);
    SetLeavesOthers(meeting, a, child, u[k]);
    EditedApart(node, p, SetStep(meeting, a, child), u);
  }

  lemma InsertLeavesOthers(parent: Json, last: string, value: Json, other: string)
    requires parent.Object? && other != last
    ensures InsertChild(parent, last, value).Some?
    ensures Step(InsertChild(parent, last, value).value, other) == Step(parent, other)
  {
    hide LastNamed, Lookup;
    var members := parent.members;
    var at := LastNamed(members, last);
    if at < |members| {
      SetOther(members, at, value, other);
    } else {
      AppendOther(members, last, value, other);
    }
  }

  lemma AppendOther(members: seq<(string, Json)>, last: string, value: Json, other: string)
    requires other != last
    ensures Lookup(members + [(last, value)], other) == Lookup(members, other)
  {
    var more := members + [(last, value)];
    assert more[..|more| - 1] == members;
  }

  lemma RemoveLeavesOthers(parent: Json, last: string, other: string)
    requires parent.Object? && other != last && RemoveChild(parent, last).Some?
    ensures Step(RemoveChild(parent, last).value, other) == Step(parent, other)
  {
    var members := parent.members;
    var at := LastNamed(members, last);
    hide LastNamed, Lookup;
    CutLookup(members, at, other);
  }

  /** Cutting a member of another name out does not change what a name stands for. */
  lemma CutLookup(members: seq<(string, Json)>, at: nat, other: string)
    requires at < |members| && members[at].0 != other
    ensures Lookup(members[..at] + members[at + 1..], other) == Lookup(members, other)
  {
    hide LastNamed, Lookup;
    var shorter := members[..at] + members[at + 1..];
    var found := LastNamed(members, other);
    assert forall k :: 0 <= k < |shorter| ==> shorter[k] == members[if k < at then k else k + 1];
    if found == |members| {
      NoneAfter(members, other);
      LookupNone(members, other);
      LookupNone(shorter, other);
    } else {
      LastIs(members, other);
      LookupAt(members, other, found);
      LookupAt(shorter, other, if found < at then found else found - 1);
    }
  }

  lemma LastIs(members: seq<(string, Json)>, name: string)
    ensures var at := LastNamed(members, name);
      at < |members| ==> members[at].0 == name && forall k :: at < k < |members| ==> members[k].0 != name
  {
  }

  lemma NoneAfter(members: seq<(string, Json)>, name: string)
    ensures LastNamed(members, name) == |members| ==> forall k :: 0 <= k < |members| ==> members[k].0 != name
  {
    if LastNamed(members, name) == |members| { NoneNamed(members, name); }
  }

  /** Adding leaves every path that parts from the pointer as it was, unless it parts at the
      array that is added to. */
  lemma InsertedApart(node: Json, t: seq<string>, value: Json, k: nat, u: seq<string>)
    requires Inserted(node, t, value).Some? && PartAbove(node, t, u, k)
    ensures Resolve(Inserted(node, t, value).value, u) == Resolve(node, u)
  {
    hide Step, Replaced, InsertChild;
    var (parents, last) := (t[..|t| - 1], t[|t| - 1]);
    var parent := Resolve(node, parents).value;
    var edited := InsertChild(parent, last, value).value;
    assert parents[..k] == t[..k];
    if k < |parents| {
      ReplacedApart(node, parents, edited, k, u);
    } else {
      InsertLeavesOthers(parent, last, value, u[k]);
      EditedApart(node, parents, edited, u);
    }
  }

  /** So does removing. */
  lemma RemovedApart(node: Json, t: seq<string>, k: nat, u: seq<string>)
    requires Removed(node, t).Some? && PartAbove(node, t, u, k)
    ensures Resolve(Removed(node, t).value, u) == Resolve(node, u)
  {
    hide Step, Replaced, RemoveChild;
    var (parents, last) := (t[..|t| - 1], t[|t| - 1]);
    var parent := Resolve(node, parents).value;
    var edited := RemoveChild(parent, last).value;
    assert parents[..k] == t[..k];
    if k < |parents| {
      ReplacedApart(node, parents, edited, k, u);
    } else {
      RemoveLeavesOthers(parent, last, u[k]);
      EditedApart(node, parents, edited, u);
    }
  }

  // ----- adding and removing

  /** The pointer appends to an array: its last token is the dash. */
  ghost predicate Appends(node: Json, t: seq<string>) {
    t != [] && t[|t| - 1] == "-" && Resolve(node, t[..|t| - 1]).Some? && Resolve(node, t[..|t| - 1]).value.Array?
  }

  lemma InsertChildFound(parent: Json, last: string, value: Json)
    requires InsertChild(parent, last, value).Some?
    ensures Step(InsertChild(parent, last, value).value, last) == if parent.Array? && last == "-" then None
        else Some(value)
  {
    if parent.Object? {
      var members := parent.members;
      var at := LastNamed(members, last);
      if at < |members| { LookupAt(members[at := (members[at].0, value)], last, at); }
    }
  }

  /** What is added is found at the pointer, unless the pointer appends. */
  lemma InsertedFound(node: Json, t: seq<string>, value: Json)
    requires Inserted(node, t, value).Some?
    ensures Resolve(Inserted(node, t, value).value, t) == if Appends(node, t) then None else Some(value)
  {
    hide Step, Replaced, InsertChild;
    if t != [] {
      var (parents, last) := (t[..|t| - 1], t[|t| - 1]);
      var parent := Resolve(node, parents).value;
      ReplacedFound(node, parents, InsertChild(parent, last, value).value);
      InsertChildFound(parent, last, value);
    }
  }

  /** Adding to an array moves only the items from the index on, by one. */
  lemma InsertedShifts(node: Json, t: seq<string>, value: Json, items: seq<Json>)
    requires Inserted(node, t, value).Some? && t != [] && Resolve(node, t[..|t| - 1]) == Some(Array(items))
    ensures var at := if t[|t| - 1] == "-" then |items| else Index(t[|t| - 1]).value;
            at <= |items|
              && Resolve(Inserted(node, t, value).value, t[..|t| - 1]) ==
                  Some(Array(items[..at] + [value] + items[at..]))
  {
    hide Step, Replaced, Index;
    var (parents, last) := (t[..|t| - 1], t[|t| - 1]);
    ReplacedFound(node, parents, InsertChild(Array(items), last, value).value);
    assert items[..|items|] + [value] + items[|items|..] == items + [value];
  }

  lemma RemoveChildUndoes(parent: Json, last: string, value: Json)
    requires InsertChild(parent, last, value).Some?
    ensures RemoveChild(InsertChild(parent, last, value).value, last) == Some(parent)
       <==> if parent.Array? then last != "-" else Step(parent, last).None?
  {
    var edited := InsertChild(parent, last, value).value;
    if parent.Object? {
      var members := parent.members;
      var at := LastNamed(members, last);
      if at < |members| {
        LookupAt(edited.members, last, at);
      } else {
        LookupAt(edited.members, last, |members|);
        assert edited.members[..|members|] + edited.members[|members| + 1..] == members;
      }
    } else {
      var items := parent.items;
      if last != "-" {
        var at := Index(last).value;
        assert edited.items[..at] + edited.items[at + 1..] == items;
      }
    }
  }

  /** Removing undoes adding exactly when the pointer named no member of an object,
      or an index of an array. */
  lemma RemoveUndoes(node: Json, t: seq<string>, value: Json)
    requires Inserted(node, t, value).Some? && t != []
    ensures Removed(Inserted(node, t, value).value, t) == Some(node)
       <==> if Resolve(node, t[..|t| - 1]).value.Array? then t[|t| - 1] != "-" else Resolve(node, t).None?
  {
    hide Step, Replaced, InsertChild, RemoveChild;
    var (parents, last) := (t[..|t| - 1], t[|t| - 1]);
    var parent := Resolve(node, parents).value;
    var edited := InsertChild(parent, last, value).value;
    var r := Replaced(node, parents, edited);
    ReplacedFound(node, parents, edited);
    RemoveChildUndoes(parent, last, value);
    var back := RemoveChild(edited, last);
    if back.Some? {
      ReplacedTwice(node, parents, edited, back.value);
      ReplacedFound(node, parents, back.value);
      ReplacedSame(node, parents);
    }
  }

  lemma MemberForgotten()
    ensures InsertChild(Object([("a", Null)]), "a", Bool(true)) == Some(Object([("a", Bool(true))]))
    ensures RemoveChild(Object([("a", Bool(true))]), "a") == Some(Object([]))
  {
    hide LastNamed;
    var (was, now) := ([("a", Null)], [("a", Bool(true))]);
    LookupAt(was, "a", 0);
    LookupAt(now, "a", 0);
    assert was[0 := ("a", Bool(true))] == now;
    assert now[..0] + now[1..] == [];
  }

  lemma DashStays()
    ensures InsertChild(Array([]), "-", Null) == Some(Array([Null])) && RemoveChild(Array([Null]), "-") == None
  {
    assert [] + [Null] == [Null];
    assert !Numbers.AllDigits("-") by { assert "-"[0] == '-'; }
    assert Index("-") == None;
  }

  lemma OneToken(node: Json, part: string, value: Json)
    ensures Inserted(node, [part], value) == InsertChild(node, part, value)
    ensures Removed(node, [part]) == RemoveChild(node, part)
  {
    hide InsertChild, RemoveChild;
    var none: seq<string> := [];
    assert [part][..0] == none;
    assert Resolve(node, none) == Some(node);
  }

  /** A member that was there is forgotten, and the dash of an array cannot be removed. */
  lemma RemoveForgets()
    ensures Inserted(Object([("a", Null)]), ["a"], Bool(true)) == Some(Object([("a", Bool(true))]))
    ensures Removed(Object([("a", Bool(true))]), ["a"]) == Some(Object([]))
    ensures Inserted(Array([]), ["-"], Null) == Some(Array([Null])) && Removed(Array([Null]), ["-"]) == None
  {
    hide InsertChild, RemoveChild, Inserted, Removed;
    MemberForgotten();
    DashStays();
    OneToken(Object([("a", Null)]), "a", Bool(true));
    OneToken(Object([("a", Bool(true))]), "a", Null);
    OneToken(Array([]), "-", Null);
    OneToken(Array([Null]), "-", Null);
  }

  // ----- whole patches

  /** The copies an `x-repeat` makes. */
  function Copies(template: Json, count: nat): (r: seq<Json>)
    ensures |r| == count && forall i :: 0 <= i < count ==> r[i] == Substitute(template, i)
  {
    seq(count, i requires 0 <= i < count => Substitute(template, i))
  }

  /** The text read once: the copy for each `$i`, its successor for each `$n`, and every
      other character for itself. */
  function Filled(text: string, copy: nat): string {
    if |text| < 2 then text
    else if text[0] == '$' && text[1] == 'i' then Numbers.Decimal(copy) + Filled(text[2..], copy)
    else if text[0] == '$' && text[1] == 'n' then Numbers.Decimal(copy + 1) + Filled(text[2..], copy)
    else [text[0]] + Filled(text[1..], copy)
  }

  /** Digits before a text are left alone. */
  lemma {:induction false} DigitsStay(digits: string, s: string, b: char, text: string)
    requires Numbers.AllDigits(digits)
    ensures ReplacePair(digits + s, '$', b, text) == digits + ReplacePair(s, '$', b, text)
  {
    if digits == [] {
      assert digits + s == s;
    } else {
      hide ReplacePair;
      assert Numbers.IsDigit(digits[0]);
      DigitsStay(digits[1..], s, b, text);
      NoTilde(digits[0], digits[1..] + s, '$', b, text);
      var tail := ReplacePair(s, '$', b, text);
      RestOfConcat(digits, s);
      assert digits + s == [digits[0]] + (digits[1..] + s);
      assert digits + tail == [digits[0]] + (digits[1..] + tail);
    }
  }

  /** What the first replacement leaves at the front begins with its character or a digit. */
  lemma FirstLeft(s: string, copy: nat)
    ensures var left := ReplacePair(s, '$', 'i', Numbers.Decimal(copy));
      left != [] ==> s != [] && (left[0] == s[0] || Numbers.IsDigit(left[0]))
  {
    var digits := Numbers.Decimal(copy);
    assert Numbers.IsDigit(digits[0]);
  }

  lemma KeptDollar(rest: string, copy: nat, text: string)
    requires rest != [] && rest[0] != 'n'
    ensures var left := ReplacePair(rest, '$', 'i', Numbers.Decimal(copy));
      ReplacePair("$" + left, '$', 'n', text) == "$" + ReplacePair(left, '$', 'n', text)
  {
    var left := ReplacePair(rest, '$', 'i', Numbers.Decimal(copy));
    FirstLeft(rest, copy);
    var all := "$" + left;
    assert all[1..] == left;
  }

  /** The two passes over the text give what one reading of it does. */
  lemma {:induction false} SubstituteFills(text: string, copy: nat)
    ensures SubstituteText(text, copy) == Filled(text, copy)
    decreases |text|
  {
    var (d, e) := (Numbers.Decimal(copy), Numbers.Decimal(copy + 1));
    if |text| >= 2 {
      var (rest, beyond) := (text[1..], text[2..]);
      SubstituteFills(rest, copy);
      SubstituteFills(beyond, copy);
      var (left, far) := (ReplacePair(rest, '$', 'i', d), ReplacePair(beyond, '$', 'i', d));
      hide Numbers.Decimal;
      if text[0] == '$' && text[1] == 'i' {
        DigitsStay(d, far, 'n', e);
      } else if text[0] == '$' && text[1] == 'n' {
        assert rest[1..] == beyond;
        assert ReplacePair(text, '$', 'i', d) == "$" + left;
        var pair := "$" + left;
        assert left == "n" + far;
        assert pair[0] == '$' && pair[1] == 'n' && pair[2..] == far;
      } else if text[0] == '$' {
        KeptDollar(rest, copy, e);
      } else {
        NoTilde(text[0], left, '$', 'n', e);
      }
    }
  }

  /** Repeating at the end of an array appends the copies in order. */
  lemma {:induction false} RepeatAppends(node: Json, t: seq<string>, template: Json, count: nat, items: seq<Json>)
    requires t != [] && t[|t| - 1] == "-" && Resolve(node, t[..|t| - 1]) == Some(Array(items))
    ensures Repeated(node, t, template, count).Some?
    ensures Resolve(Repeated(node, t, template, count).value, t[..|t| - 1]) ==
        Some(Array(items + Copies(template, count)))
    decreases count
  {
    hide Resolve, Replaced, Substitute, Copies;
    CopiesStep(template, count);
    if count == 0 {
      assert items + Copies(template, 0) == items;
    } else {
      RepeatAppends(node, t, template, count - 1, items);
      var (grown, value) := (Repeated(node, t, template, count - 1).value, Substitute(template, count - 1));
      var more := items + Copies(template, count - 1);
      ReplacedFound(grown, t[..|t| - 1], Array(more + [value]));
      assert more + [value] == items + Copies(template, count);
    }
  }

  lemma CopiesStep(template: Json, count: nat)
    ensures Copies(template, count) ==
      if count == 0 then [] else Copies(template, count - 1) + [Substitute(template, count - 1)]
  {
    hide Substitute;
  }

  // ----- when an operation applies, and what the composed ones come to

  /** An addition applies at the root, at any object, and up to the end of an array. */
  lemma InsertedApplies(node: Json, t: seq<string>, value: Json)
    ensures Inserted(node, t, value).Some? <==> t == [] || TakesChild(Resolve(node, t[..|t| - 1]), t[|t| - 1])
  {
    hide Resolve, Replaced, Index, LastNamed;
  }

  ghost predicate TakesChild(parent: Option<Json>, last: string) {
    && parent.Some?
    && (parent.value.Object?
        || (parent.value.Array?
            && (last == "-" || exists k: nat :: k <= |parent.value.items| && Index(last) == Some(k))))
  }

  /** A removal applies exactly beneath the root, where something is found. */
  lemma RemovedApplies(node: Json, t: seq<string>)
    ensures Removed(node, t).Some? <==> t != [] && Resolve(node, t).Some?
  {
    hide Replaced, Index;
    if t != [] && Resolve(node, t[..|t| - 1]).Some? && Resolve(node, t[..|t| - 1]).value.Object? {
      LastIs(Resolve(node, t[..|t| - 1]).value.members, t[|t| - 1]);
    }
  }

  ghost predicate Says(op: Json, name: string, text: string) { op.Get(name) == Some(Str(text)) }

  ghost predicate Adds(op: Json, path: string, value: Json) {
    Says(op, "op", "add") && Says(op, "path", path) && op.Get("value") == Some(value)
  }

  ghost predicate Removes(op: Json, path: string) { Says(op, "op", "remove") && Says(op, "path", path) }

  /** A test changes nothing and holds where the value found is written as the one expected. */
  lemma TestMeans(n: Compat.Numerics, document: Json, op: Json, path: string, value: Json)
    requires Says(op, "op", "test") && Says(op, "path", path) && op.Get("value") == Some(value)
    ensures Applied(n, document, op) == (if Applied(n, document, op).Some? then Some(document) else None)
    ensures Applied(n, document, op).Some? <==>
      Resolve(document, Split(path)).Some? && Compat.Written(n, Resolve(document, Split(path)).value) ==
          Compat.Written(n, value)
  {
    hide Resolve, Split, Compat.Written;
  }

  lemma PlainMeans(n: Compat.Numerics, document: Json, op: Json, path: string)
    requires Says(op, "path", path)
    ensures Says(op, "op", "remove") ==> Applied(n, document, op) == Removed(document, Split(path))
    ensures forall value :: Adds(op, path, value) ==> Applied(n, document, op) == Inserted(document, Split(path), value)
  {
    hide Resolve, Split, Inserted, Removed;
  }

  /** A replacement applies where something is found, and puts the value there. */
  lemma ReplaceMeans(n: Compat.Numerics, document: Json, op: Json, path: string, value: Json)
    requires Says(op, "op", "replace") && Says(op, "path", path) && op.Get("value") == Some(value)
    ensures Applied(n, document, op).Some? <==> Resolve(document, Split(path)).Some?
    ensures Applied(n, document, op).Some? ==> Applied(n, document, op).value == Replaced(document, Split(path), value)
  {
    hide Resolve, Split, Replaced;
  }

  lemma TwoApplied(n: Compat.Numerics, document: Json, first: Json, second: Json)
    ensures AppliedAll(n, document, [first, second]) ==
      match Applied(n, document, first) case None => None case Some(middle) => Applied(n, middle, second)
  {
    hide Applied;
    var (both, one) := ([first, second], [first]);
    assert both[..1] == one && one[..0] == [];
    assert AppliedAll(n, document, []) == Some(document);
    assert AppliedAll(n, document, one) == Applied(n, document, first);
  }

  /** A copy is the addition of what is found. */
  lemma CopyIsAdd(n: Compat.Numerics, document: Json, op: Json, from: string, path: string, add: Json)
    requires Says(op, "op", "copy") && Says(op, "path", path) && Says(op, "from", from)
    ensures Resolve(document, Split(from)).None? ==> Applied(n, document, op).None?
    ensures Resolve(document, Split(from)).Some? && Adds(add, path, Resolve(document, Split(from)).value) ==>
      Applied(n, document, op) == Applied(n, document, add)
  {
    hide Resolve, Split, Inserted;
  }

  /** A move is a removal and then the addition of what was found. */
  lemma MoveIsRemoveAdd(n: Compat.Numerics, document: Json, op: Json, from: string, path: string, remove: Json,
                        add: Json)
    requires Says(op, "op", "move") && Says(op, "path", path) && Says(op, "from", from)
    ensures Resolve(document, Split(from)).None? ==> Applied(n, document, op).None?
    ensures Resolve(document, Split(from)).Some? && Removes(remove, from)
            && Adds(add, path, Resolve(document, Split(from)).value) ==>
      Applied(n, document, op) == AppliedAll(n, document, [remove, add])
  {
    MoveMeans(n, document, op, from, path);
    hide Applied, Resolve, Split, Inserted, Removed, AppliedAll, Adds;
    var found := Resolve(document, Split(from));
    if found.Some? && Removes(remove, from) && Adds(add, path, found.value) {
      TwoApplied(n, document, remove, add);
      PlainMeans(n, document, remove, from);
      var rest := Applied(n, document, remove);
      if rest.Some? { AddMeans(n, rest.value, add, path, found.value); }
    }
  }

  lemma MoveMeans(n: Compat.Numerics, document: Json, op: Json, from: string, path: string)
    requires Says(op, "op", "move") && Says(op, "path", path) && Says(op, "from", from)
    ensures Applied(n, document, op) ==
      match (Resolve(document, Split(from)), Removed(document, Split(from)))
      case (Some(value), Some(rest)) => Inserted(rest, Split(path), value)
      case _ => None
  {
    hide Resolve, Split, Inserted, Removed;
  }

  /** Additions of the filled copies of a template, first to last. */
  ghost predicate AddsCopies(ops: seq<Json>, path: string, template: Json) {
    forall k :: 0 <= k < |ops| ==> Adds(ops[k], path, Substitute(template, k))
  }

  lemma {:induction false} RepeatedAdds(n: Compat.Numerics, document: Json, path: string, template: Json,
                                        adds: seq<Json>)
    requires AddsCopies(adds, path, template)
    ensures Repeated(document, Split(path), template, |adds|) == AppliedAll(n, document, adds)
    decreases |adds|
  {
    hide Applied, Substitute, Split, Inserted, Adds;
    if adds != [] {
      var k := |adds| - 1;
      RepeatedAdds(n, document, path, template, adds[..k]);
      var grown := AppliedAll(n, document, adds[..k]);
      assert Adds(adds[k], path, Substitute(template, k));
      if grown.Some? { AddMeans(n, grown.value, adds[k], path, Substitute(template, k)); }
    }
  }

  lemma AddMeans(n: Compat.Numerics, document: Json, op: Json, path: string, value: Json)
    requires Adds(op, path, value)
    ensures Applied(n, document, op) == Inserted(document, Split(path), value)
  {
    PlainMeans(n, document, op, path);
    hide Applied, Inserted, Split;
  }

  /** A repetition is its additions in order, one to 512 of them. */
  lemma RepeatIsAdds(n: Compat.Numerics, document: Json, op: Json, path: string, template: Json, lexeme: string,
                     count: int, adds: seq<Json>)
    requires Says(op, "op", "x-repeat") && Says(op, "path", path) && op.Get("template") == Some(template)
    requires op.Get("count") == Some(Number(lexeme)) && n.value(lexeme) == Some(count as real)
    ensures !(1 <= count <= 512) ==> Applied(n, document, op).None?
    ensures 1 <= count <= 512 && |adds| == count && AddsCopies(adds, path, template) ==>
      Applied(n, document, op) == AppliedAll(n, document, adds)
  {
    hide Split, Repeated, AddsCopies, AppliedAll;
    assert (count as real).Floor == count;
    if 1 <= count <= 512 && |adds| == count && AddsCopies(adds, path, template) {
      RepeatedAdds(n, document, path, template, adds);
    }
  }

  /** No other operation applies. */
  lemma OtherRefused(n: Compat.Numerics, document: Json, op: Json)
    requires forall name :: name in {"test", "add", "replace", "remove", "copy", "move", "x-repeat"} ==>
        !Says(op, "op", name)
    ensures Applied(n, document, op).None?
  {
    hide Resolve, Split, Inserted, Removed, Replaced, Repeated;
    if Compat.Text(op, "op").Some? { assert Says(op, "op", Compat.Text(op, "op").value); }
  }

  /** Applying one patch after another is applying both in a row. */
  lemma {:induction false} ApplyInTurn(n: Compat.Numerics, document: Json, first: seq<Json>, second: seq<Json>)
    ensures AppliedAll(n, document, first + second) ==
      match AppliedAll(n, document, first) case None => None case Some(middle) => AppliedAll(n, middle, second)
    decreases |second|
  {
    hide Applied;
    if second == [] {
      assert first + second == first;
    } else {
      var k := |second| - 1;
      assert (first + second)[..|first + second| - 1] == first + second[..k];
      ApplyInTurn(n, document, first, second[..k]);
    }
  }

  // ----- the nodes along a pointer

  /** The nodes a pointer walks through, as far as it resolves. */
  method Chain(root: Json, tokens: seq<string>) returns (nodes: seq<Json>)
    ensures 1 <= |nodes| <= |tokens| + 1
    ensures forall k :: 0 <= k < |nodes| ==> Resolve(root, tokens[..k]) == Some(nodes[k])
    ensures |nodes| <= |tokens| ==> Resolve(root, tokens[..|nodes|]).None?
  {
    hide Step;
    nodes := [root];
    for i := 0 to |tokens|
      invariant |nodes| == i + 1
      invariant forall k :: 0 <= k < |nodes| ==> Resolve(root, tokens[..k]) == Some(nodes[k])
    {
      assert tokens[..i + 1][..i] == tokens[..i];
      var next := Step(nodes[i], tokens[i]);
      if next.None? {
        return;
      }
      nodes := nodes + [next.value];
    }
  }
}
