/** Cloning and comparing values with an explicit stack instead of recursion. */
module JsonWalks {
  import opened Json

  // ----- cloning

  datatype Frame = Enter(node: Json) | MakeArray(length: nat) | MakeObject(members: seq<(string, Json)>)

  function Named(members: seq<(string, Json)>, values: seq<Json>): seq<(string, Json)>
    requires |members| == |values|
  {
    seq(|members|, i requires 0 <= i < |members| => (members[i].0, values[i]))
  }

  /** What the work still to do leaves, the last frame first. */
  function Finished(work: seq<Frame>, done: seq<Json>): seq<Json>
    decreases |work|
  {
    if work == [] then done
    else
      var (rest, kept) := (work[..|work| - 1], |done|);
      match work[|work| - 1]
      case Enter(node) => Finished(rest, done + [node])
      case MakeArray(length) =>
        if length <= kept then Finished(rest, done[..kept - length] + [Array(done[kept - length..])]) else []
      case MakeObject(members) =>
        var from := kept - |members|;
        if |members| <= kept then Finished(rest, done[..from] + [Object(Named(members, done[from..]))]) else []
  }

  function Weight(frame: Frame): nat { if frame.Enter? then Size(frame.node) else 1 }

  ghost function Load(work: seq<Frame>): nat {
    if work == [] then 0 else Load(work[..|work| - 1]) + Weight(work[|work| - 1])
  }

  lemma PushFrame(work: seq<Frame>, frame: Frame, done: seq<Json>)
    ensures (work + [frame])[..|work + [frame]| - 1] == work
    ensures Load(work + [frame]) == Load(work) + Weight(frame)
    ensures frame.Enter? ==> Finished(work + [frame], done) == Finished(work, done + [frame.node])
  {
    assert (work + [frame])[..|work + [frame]| - 1] == work;
  }

  function Entered(items: seq<Json>): seq<Frame> {
    if items == [] then [] else Entered(items[1..]) + [Enter(items[0])]
  }

  /** Entering nodes, the first of them last, finishes them in order. */
  lemma {:induction false} EnterAll(work: seq<Frame>, items: seq<Json>, done: seq<Json>)
    ensures Finished(work + Entered(items), done) == Finished(work, done + items)
    ensures Load(work + Entered(items)) == Load(work) + SizeOf(items)
    decreases |items|
  {
    hide Finished, Load, Size, Entered, SizeOf;
    EnteredStep(work, items);
    if items == [] {
      assert done + items == done;
    } else {
      var inner := work + Entered(items[1..]);
      PushFrame(inner, Enter(items[0]), done);
      EnterAll(work, items[1..], done + [items[0]]);
      assert done + [items[0]] + items[1..] == done + items;
    }
  }

  lemma EnteredStep(work: seq<Frame>, items: seq<Json>)
    ensures items == [] ==> work + Entered(items) == work && SizeOf(items) == 0
    ensures items != [] ==> work + Entered(items) == work + Entered(items[1..]) + [Enter(items[0])]
    ensures items != [] ==> SizeOf(items) == Size(items[0]) + SizeOf(items[1..])
  {
    hide Size;
    if items != [] { assert work + Entered(items) == work + Entered(items[1..]) + [Enter(items[0])]; }
  }

  function Values(members: seq<(string, Json)>): (r: seq<Json>)
    ensures |r| == |members| && forall i :: 0 <= i < |r| ==> r[i] == members[i].1
  {
    seq(|members|, i requires 0 <= i < |members| => members[i].1)
  }

  lemma {:induction false} ValuesSize(members: seq<(string, Json)>)
    ensures SizeOf(Values(members)) == SizeOfMembers(members)
    decreases |members|
  {
    hide Size;
    if members != [] {
      ValuesSize(members[1..]);
      assert Values(members)[1..] == Values(members[1..]);
    }
  }

  lemma ArrayMade(work: seq<Frame>, items: seq<Json>, done: seq<Json>)
    ensures Finished(work + [MakeArray(|items|)] + Entered(items), done) == Finished(work, done + [Array(items)])
    ensures Load(work + [MakeArray(|items|)] + Entered(items)) < Load(work) + Size(Array(items))
  {
    var pending := work + [MakeArray(|items|)];
    PushFrame(work, MakeArray(|items|), done);
    EnterAll(pending, items, done);
    assert (done + items)[..|done|] == done && (done + items)[|done|..] == items;
  }

  lemma ObjectMade(work: seq<Frame>, members: seq<(string, Json)>, done: seq<Json>)
    ensures Finished(work + [MakeObject(members)] + Entered(Values(members)), done) ==
        Finished(work, done + [Object(members)])
    ensures Load(work + [MakeObject(members)] + Entered(Values(members))) < Load(work) + Size(Object(members))
  {
    var (pending, values) := (work + [MakeObject(members)], Values(members));
    PushFrame(work, MakeObject(members), done);
    EnterAll(pending, values, done);
    ValuesSize(members);
    assert (done + values)[..|done|] == done && (done + values)[|done|..] == values;
    assert Named(members, values) == members;
  }

  /** The frames of a container: its maker, then its children, the first of them on top. */
  method PushChildren(work: seq<Frame>, maker: Frame, items: seq<Json>) returns (grown: seq<Frame>)
    ensures grown == work + [maker] + Entered(items)
  {
    grown := work + [maker];
    var i := |items|;
    assert items[i..] == [];
    while i > 0
      invariant 0 <= i <= |items| && grown == work + [maker] + Entered(items[i..])
    {
      i := i - 1;
      assert items[i..][1..] == items[i + 1..];
      grown := grown + [Enter(items[i])];
    }
    assert items[0..] == items;
  }

  /** A clone equals its value. */
  method Clone(value: Json) returns (clone: Json)
    ensures clone == value
  {
    hide Size, Entered;
    var work, done := [Enter(value)], [];
    PushFrame([], Enter(value), []);
    assert [] + [Enter(value)] == work && Finished([], [] + [value]) == [value];
    while work != []
      invariant Finished(work, done) == [value]
      decreases Load(work)
    {
      var frame, rest := work[|work| - 1], work[..|work| - 1];
      match frame {
        case Enter(node) =>
          match node {
            case Array(items) =>
              work := PushChildren(rest, MakeArray(|items|), items);
              ArrayMade(rest, items, done);
            case Object(members) =>
              work := PushChildren(rest, MakeObject(members), Values(members));
              ObjectMade(rest, members, done);
            case _ =>
              ScalarSize(node);
              work, done := rest, done + [node];
          }
        case MakeArray(length) =>
          assert length <= |done|;
          work, done := rest, done[..|done| - length] + [Array(done[|done| - length..])];
        case MakeObject(members) =>
          assert |members| <= |done|;
          work, done := rest, done[..|done| - |members|] + [Object(Named(members, done[|done| - |members|..]))];
      }
    }
    assert done == [value];
    clone := done[|done| - 1];
  }

  lemma ScalarSize(v: Json)
    ensures Size(v) > 0
  {
  }

  // ----- comparing

  type Pair = (Json, Json)

  ghost predicate AllSame(pairs: seq<Pair>) { forall p :: p in pairs ==> p.0 == p.1 }

  ghost function Heft(pairs: seq<Pair>): nat {
    if pairs == [] then 0 else Heft(pairs[..|pairs| - 1]) + Size(pairs[|pairs| - 1].0)
  }

  function Zipped(xs: seq<Json>, ys: seq<Json>): (r: seq<Pair>)
    requires |xs| == |ys|
    ensures |r| == |xs| && forall i :: 0 <= i < |r| ==> r[i] == (xs[i], ys[i])
  {
    seq(|xs|, i requires 0 <= i < |xs| => (xs[i], ys[i]))
  }

  lemma {:induction false} HeftZipped(pairs: seq<Pair>, xs: seq<Json>, ys: seq<Json>)
    requires |xs| == |ys|
    ensures Heft(pairs + Zipped(xs, ys)) == Heft(pairs) + SizeOf(xs)
    decreases |xs|
  {
    hide Size;
    if xs == [] {
      assert pairs + Zipped(xs, ys) == pairs;
    } else {
      var first := pairs + [(xs[0], ys[0])];
      assert first[..|first| - 1] == pairs;
      HeftZipped(first, xs[1..], ys[1..]);
      assert first + Zipped(xs[1..], ys[1..]) == pairs + Zipped(xs, ys);
    }
  }

  lemma SameZipped(pairs: seq<Pair>, xs: seq<Json>, ys: seq<Json>)
    requires |xs| == |ys|
    ensures AllSame(pairs + Zipped(xs, ys)) <==> AllSame(pairs) && xs == ys
  {
    if AllSame(pairs + Zipped(xs, ys)) {
      forall i | 0 <= i < |xs| ensures xs[i] == ys[i] {
        assert (pairs + Zipped(xs, ys))[|pairs| + i] == (xs[i], ys[i]);
      }
      forall p | p in pairs ensures p.0 == p.1 { assert p in pairs + Zipped(xs, ys); }
    }
  }

  /** The members pair up: the same names, and the values to compare. */
  method PairMembers(left: seq<(string, Json)>, right: seq<(string, Json)>) returns (named: bool)
    requires |left| == |right|
    ensures named ==> (left == right <==> Values(left) == Values(right))
    ensures !named ==> left != right
  {
    for i := 0 to |left|
      invariant forall k :: 0 <= k < i ==> left[k].0 == right[k].0
    {
      if left[i].0 != right[i].0 {
        return false;
      }
    }
    named := true;
    if Values(left) == Values(right) {
      forall i | 0 <= i < |left| ensures left[i] == right[i] { assert Values(left)[i] == Values(right)[i]; }
    }
  }

  /** The comparison decides structural equality: order and repeated members included. */
  method Equal(a: Json, b: Json) returns (same: bool)
    ensures same == (a == b)
  {
    hide Size;
    var pairs := [(a, b)];
    while pairs != []
      invariant a == b <==> AllSame(pairs)
      decreases Heft(pairs)
    {
      var top, rest := pairs[|pairs| - 1], pairs[..|pairs| - 1];
      var left, right := top.0, top.1;
      assert pairs == rest + [(left, right)];
      TopPair(rest, left, right);
      match (left, right) {
        case (Array(xs), Array(ys)) =>
          if |xs| != |ys| {
            return false;
          }
          HeftZipped(rest, xs, ys);
          SameZipped(rest, xs, ys);
          ContainerSize(left);
          pairs := rest + Zipped(xs, ys);
        case (Object(ms), Object(ns)) =>
          if |ms| != |ns| {
            return false;
          }
          var named := PairMembers(ms, ns);
          if !named {
            return false;
          }
          HeftZipped(rest, Values(ms), Values(ns));
          SameZipped(rest, Values(ms), Values(ns));
          ValuesSize(ms);
          ContainerSize(left);
          pairs := rest + Zipped(Values(ms), Values(ns));
        case _ =>
          if left != right {
            return false;
          }
          ScalarSize(left);
          pairs := rest;
      }
    }
    same := true;
  }

  lemma TopPair(rest: seq<Pair>, left: Json, right: Json)
    ensures AllSame(rest + [(left, right)]) <==> AllSame(rest) && left == right
    ensures Heft(rest + [(left, right)]) == Heft(rest) + Size(left)
  {
    var pairs := rest + [(left, right)];
    assert pairs[..|pairs| - 1] == rest && pairs[|pairs| - 1] == (left, right);
    if AllSame(pairs) {
      assert (left, right) in pairs;
      forall p | p in rest ensures p.0 == p.1 { assert p in pairs; }
    }
  }

  lemma ContainerSize(v: Json)
    ensures v.Array? ==> Size(v) == 2 + SizeOf(v.items)
    ensures v.Object? ==> Size(v) == 2 + SizeOfMembers(v.members)
  {
  }
}
