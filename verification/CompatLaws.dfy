/** What the classifier promises over releases: exactly when a chain of releases is
    classified at least as strictly as its ends, and a release against itself is a patch. */
module CompatLaws {
  import opened Wrappers
  import opened Json
  import opened Compat
  import Canonical
  import CanonicalLaws
  import Members
  import Numbers

  predicate AtMost(a: Classification, b: Classification) { a.Rank() <= b.Rank() }

  lemma JoinBound(a: Classification, b: Classification, limit: Classification)
    ensures AtMost(Join(a, b), limit) <==> AtMost(a, limit) && AtMost(b, limit)
  {
  }

  // ----- a list comparison is the worst of its members' verdicts

  lemma {:induction false} EarlierWorst(p: Policy, before: seq<Json>, after: seq<Json>, limit: Classification)
    ensures AtMost(Earlier(p, before, after), limit) <==>
      forall i :: 0 <= i < |before| ==> AtMost(Before(p, before[i], after), limit)
    decreases |before|
  {
    hide Join, Before;
    if before != [] {
      var n := |before| - 1;
      EarlierWorst(p, before[..n], after, limit);
      JoinBound(Earlier(p, before[..n], after), Before(p, before[n], after), limit);
      assert forall i :: 0 <= i < n ==> before[..n][i] == before[i];
    }
  }

  lemma {:induction false} LaterWorst(p: Policy, before: seq<Json>, after: seq<Json>, limit: Classification)
    ensures AtMost(Later(p, before, after), limit) <==>
      forall i :: 0 <= i < |after| ==> AtMost(After(p, after[i], before), limit)
    decreases |after|
  {
    hide Join, After;
    if after != [] {
      var n := |after| - 1;
      LaterWorst(p, before, after[..n], limit);
      JoinBound(Later(p, before, after[..n]), After(p, after[n], before), limit);
      assert forall i :: 0 <= i < n ==> after[..n][i] == after[i];
    }
  }

  ghost predicate EachAtMost(p: Policy, before: seq<Json>, after: seq<Json>, limit: Classification) {
    && (forall i :: 0 <= i < |before| ==> AtMost(Before(p, before[i], after), limit))
    && (forall i :: 0 <= i < |after| ==> AtMost(After(p, after[i], before), limit))
  }

  /** A list's verdict stays within a limit exactly when every removal, change and addition does. */
  lemma ListWorst(p: Policy, before: seq<Json>, after: seq<Json>, limit: Classification)
    ensures AtMost(CompareLists(p, before, after), limit) <==> EachAtMost(p, before, after, limit)
  {
    hide Join, Before, After, Earlier, Later, AtMost;
    EarlierWorst(p, before, after, limit);
    LaterWorst(p, before, after, limit);
    JoinBound(Earlier(p, before, after), Later(p, before, after), limit);
  }

  // ----- the triangle for lists

  ghost predicate Unique(nodes: seq<Json>) {
    forall i, j :: 0 <= i < j < |nodes| ==> IdentityOf(nodes[i]) != IdentityOf(nodes[j])
  }

  lemma FoundIsOnly(nodes: seq<Json>, i: nat)
    requires Unique(nodes) && i < |nodes|
    ensures FindNode(nodes, IdentityOf(nodes[i])) == Some(nodes[i])
  {
    hide IdentityOf;
    var found := FindNode(nodes, IdentityOf(nodes[i]));
    if found.Some? {
      var j :| 0 <= j < |nodes| && nodes[j] == found.value;
      assert i == j;
    }
  }

  predicate ChangeWithin(p: Policy, q: Policy, r: Policy, x: Json, y: Json, z: Json, limit: Classification) {
    AtMost(p.changed(x, y), limit) && AtMost(q.changed(y, z), limit) ==> AtMost(r.changed(x, z), limit)
  }

  predicate ReplaceWithin(p: Policy, q: Policy, r: Policy, x: Json, z: Json, limit: Classification) {
    AtMost(p.removed, limit) && AtMost(q.added(z), limit) ==> AtMost(r.changed(x, z), limit)
  }

  predicate AddWithin(q: Policy, r: Policy, z: Json, limit: Classification) {
    AtMost(q.added(z), limit) ==> AtMost(r.added(z), limit)
  }

  predicate KeepWithin(p: Policy, q: Policy, r: Policy, y: Json, z: Json, limit: Classification) {
    AtMost(p.added(y), limit) && AtMost(q.changed(y, z), limit) ==> AtMost(r.added(z), limit)
  }

  /** The node is new since the first list, and not since the second. */
  predicate Lately(a: seq<Json>, b: seq<Json>, z: Json) {
    FindNode(a, IdentityOf(z)).None? && FindNode(b, IdentityOf(z)).Some?
  }

  /** What the costs must satisfy over three releases for their lists to stay within a
      limit: changing twice, replacing, adding, and adding then changing. */
  ghost predicate Chains(p: Policy, q: Policy, r: Policy, a: seq<Json>, b: seq<Json>, c: seq<Json>,
                         limit: Classification)
  {
    && p.removed == q.removed == r.removed
    && (forall x, y, z | x in a && y in b && z in c && IdentityOf(x) == IdentityOf(y) == IdentityOf(z) ::
          ChangeWithin(p, q, r, x, y, z, limit))
    && (forall x, z | x in a && z in c && IdentityOf(x) == IdentityOf(z) :: ReplaceWithin(p, q, r, x, z, limit))
    && (forall z | z in c :: AddWithin(q, r, z, limit))
    && (forall y, z | y in b && z in c && IdentityOf(y) == IdentityOf(z) && Lately(a, b, z) ::
          KeepWithin(p, q, r, y, z, limit))
  }

  lemma BeforeChain(p: Policy, q: Policy, r: Policy, a: seq<Json>, b: seq<Json>, c: seq<Json>, i: nat,
                    limit: Classification)
    requires Chains(p, q, r, a, b, c, limit) && i < |a|
    requires EachAtMost(p, a, b, limit) && EachAtMost(q, b, c, limit)
    ensures AtMost(Before(r, a[i], c), limit)
  {
    var x, k := a[i], IdentityOf(a[i]);
    hide Join, IdentityOf, AtMost, Lately;
    assert AtMost(Before(p, x, b), limit);
    match (FindNode(b, k), FindNode(c, k))
    case (None, None) =>
    case (None, Some(z)) =>
      var h :| 0 <= h < |c| && c[h] == z;
      assert AtMost(After(q, c[h], b), limit);
      assert ReplaceWithin(p, q, r, x, z, limit);
    case (Some(y), None) =>
      var j :| 0 <= j < |b| && b[j] == y;
      assert AtMost(Before(q, b[j], c), limit);
    case (Some(y), Some(z)) =>
      var j :| 0 <= j < |b| && b[j] == y;
      assert AtMost(Before(q, b[j], c), limit);
      assert ChangeWithin(p, q, r, x, y, z, limit);
  }

  lemma AtMostTrans(a: Classification, b: Classification, c: Classification)
    requires AtMost(a, b) && AtMost(b, c)
    ensures AtMost(a, c)
  {
  }

  /** What two steps bound stays within any limit they stay within. */
  lemma Carried(a: Classification, b: Classification, c: Classification, limit: Classification)
    requires AtMost(a, Join(b, c)) && AtMost(b, limit) && AtMost(c, limit)
    ensures AtMost(a, limit)
  {
    hide Join, AtMost;
    JoinBound(b, c, limit);
    AtMostTrans(a, Join(b, c), limit);
  }

  lemma AfterChain(p: Policy, q: Policy, r: Policy, a: seq<Json>, b: seq<Json>, c: seq<Json>, i: nat,
                   limit: Classification)
    requires Chains(p, q, r, a, b, c, limit) && i < |c| && Unique(c)
    requires EachAtMost(p, a, b, limit) && EachAtMost(q, b, c, limit)
    ensures AtMost(After(r, c[i], a), limit)
  {
    var z, k := c[i], IdentityOf(c[i]);
    if FindNode(a, k).None? {
      assert AtMost(r.added(z), limit) by {
        hide Join, IdentityOf, AtMost;
        assert AtMost(After(q, z, b), limit);
        match FindNode(b, k)
        case None => assert AddWithin(q, r, z, limit);
        case Some(y) =>
          var j :| 0 <= j < |b| && b[j] == y;
          FoundIsOnly(c, i);
          assert AtMost(Before(q, b[j], c), limit);
          assert AtMost(After(p, b[j], a), limit);
          assert KeepWithin(p, q, r, y, z, limit);
      }
    }
  }

  /** The ends of a chain of lists cost no more than any limit its two steps stay within. */
  lemma ListTriangle(p: Policy, q: Policy, r: Policy, a: seq<Json>, b: seq<Json>, c: seq<Json>, limit: Classification)
    requires Chains(p, q, r, a, b, c, limit) && Unique(c)
    requires AtMost(CompareLists(p, a, b), limit) && AtMost(CompareLists(q, b, c), limit)
    ensures AtMost(CompareLists(r, a, c), limit)
  {
    hide Join, CompareLists, AtMost, Before, After, Chains;
    ListWorst(p, a, b, limit);
    ListWorst(q, b, c, limit);
    forall i | 0 <= i < |a| ensures AtMost(Before(r, a[i], c), limit) { BeforeChain(p, q, r, a, b, c, i, limit); }
    forall i | 0 <= i < |c| ensures AtMost(After(r, c[i], a), limit) { AfterChain(p, q, r, a, b, c, i, limit); }
    ListWorst(r, a, c, limit);
  }

  /** A list costs at least what one of its nodes does. */
  lemma NodeCosts(p: Policy, before: seq<Json>, after: seq<Json>)
    ensures forall x :: x in before ==> AtMost(Before(p, x, after), CompareLists(p, before, after))
    ensures forall y :: y in after ==> AtMost(After(p, y, before), CompareLists(p, before, after))
  {
    hide Join, CompareLists, AtMost, Before, After;
    var worst := CompareLists(p, before, after);
    AtMostSelf(worst);
    ListWorst(p, before, after, worst);
  }

  lemma AtMostSelf(a: Classification)
    ensures AtMost(a, a)
  {
  }

  /** A list of distinct identities against itself costs nothing when no member does. */
  lemma ListReflexive(p: Policy, a: seq<Json>)
    requires Unique(a) && forall x :: x in a ==> p.changed(x, x) == Patch
    ensures CompareLists(p, a, a) == Patch
  {
    hide Join, CompareLists, IdentityOf;
    forall i | 0 <= i < |a| ensures AtMost(Before(p, a[i], a), Patch) && AtMost(After(p, a[i], a), Patch) {
      FoundIsOnly(a, i);
    }
    ListWorst(p, a, a, Patch);
  }

  // ----- bounds

  /** What the classifier relies on of binary64: the writer's assumption, equal
      renderings of equal values, and rounding that keeps the order of integers. */
  ghost predicate Reads(n: Numerics) {
    && CanonicalLaws.Faithful(n.decoder)
    && (forall l, m :: Numbers.EcmaNumberToString(n.decoder(l)) == Numbers.EcmaNumberToString(n.decoder(m)) ==>
        n.value(l) == n.value(m))
    && Monotone(n)
  }

  ghost predicate Monotone(n: Numerics) {
    forall i, j :: i <= j ==> n.round(i) <= n.round(j)
  }

  /** Two different integers that round to the one float between them. */
  predicate Collide(n: Numerics, a: Bound, b: Bound, c: Bound) {
    && a.Integer? && b.Float? && c.Integer? && a.value != c.value
    && n.round(a.value) == b.approximate == n.round(c.value)
  }

  /** Along three bounds an increase shows in one of the two steps, except
      exactly when a float hides two integers that round to it. */
  lemma IncreaseShows(n: Numerics, a: Bound, b: Bound, c: Bound)
    requires Monotone(n)
    ensures (Exceeds(n, c, a) ==> Exceeds(n, b, a) || Exceeds(n, c, b)) <==> !(Collide(n, a, b, c) && c.value > a.value)
  {
    if a.Integer? && b.Integer? { assert n.round(a.value) <= n.round(b.value) || b.value <= a.value; }
    if b.Integer? && c.Integer? { assert n.round(b.value) <= n.round(c.value) || c.value <= b.value; }
    if a.Integer? && c.Integer? { assert n.round(a.value) <= n.round(c.value) || c.value <= a.value; }
  }

  /** Under a bound keyword the three constraints state, a bound that tightens from
      the first to the last is hidden by the float between them. */
  predicate HiddenTightening(n: Numerics, x: Json, y: Json, z: Json) {
    var (a, b, c) := (Operand(n, x), Operand(n, y), Operand(n, z));
    && Text(y, "keyword") == Text(z, "keyword") == Some(Keyword(x))
    && a.Some? && b.Some? && c.Some? && Collide(n, a.value, b.value, c.value)
    && ((Lower(Keyword(x)) && c.value.value > a.value.value) || (Upper(Keyword(x)) && a.value.value > c.value.value))
  }

  /** Operand moves obey the triangle exactly where no tightening is hidden. */
  lemma MoveChain(n: Numerics, x: Json, y: Json, z: Json)
    requires Monotone(n)
    ensures AtMost(OperandMove(n, x, z), Join(OperandMove(n, x, y), OperandMove(n, y, z))) <==>
        !HiddenTightening(n, x, y, z)
  {
    hide Operand, Exceeds, Monotone, Text, Keyword, OperandMove, Lower, Upper, Collide, AtMost, Join;
    var (a, b, c) := (Operand(n, x), Operand(n, y), Operand(n, z));
    MoveMeans(n, x, y);
    MoveMeans(n, y, z);
    MoveMeans(n, x, z);
    KeywordText(y);
    TwoValued(OperandMove(n, x, y), OperandMove(n, y, z), OperandMove(n, x, z));
    if Text(y, "keyword") == Text(z, "keyword") == Some(Keyword(x)) && a.Some? && b.Some? && c.Some? {
      NotBoth(Keyword(x));
      IncreaseShows(n, a.value, b.value, c.value);
      IncreaseShows(n, c.value, b.value, a.value);
      CollideBack(n, a.value, b.value, c.value);
    }
  }

  /** A move is additive or conditional, and two moves bound a third by being conditional. */
  lemma TwoValued(a: Classification, b: Classification, c: Classification)
    requires a in {Additive, Conditional} && b in {Additive, Conditional} && c in {Additive, Conditional}
    ensures AtMost(c, Join(a, b)) <==> (c == Conditional ==> a == Conditional || b == Conditional)
  {
  }

  lemma MoveMeans(n: Numerics, x: Json, y: Json)
    ensures OperandMove(n, x, y) ==
      if Text(y, "keyword") != Some(Keyword(x)) || Operand(n, x).None? || Operand(n, y).None? then Conditional
      else if Lower(Keyword(x)) then
        if Exceeds(n, Operand(n, y).value, Operand(n, x).value) then Conditional else Additive
      else if Upper(Keyword(x)) then
        if Exceeds(n, Operand(n, x).value, Operand(n, y).value) then Conditional else Additive
      else Conditional
  {
    hide Operand, Exceeds, Text, Keyword, Lower, Upper;
  }

  lemma KeywordText(y: Json)
    ensures Text(y, "keyword").Some? ==> Text(y, "keyword") == Some(Keyword(y))
  {
    hide Text;
  }

  lemma NotBoth(keyword: string)
    ensures !(Lower(keyword) && Upper(keyword))
  {
  }

  lemma CollideBack(n: Numerics, a: Bound, b: Bound, c: Bound)
    ensures Collide(n, a, b, c) <==> Collide(n, c, b, a)
    ensures Collide(n, a, b, c) ==> a.Integer? && c.Integer? && a.value != c.value
  {
  }

  // ----- equal texts, equal members

  lemma {:induction false} LookupLast(ms: seq<(string, Json)>, key: string) returns (i: nat)
    requires Lookup(ms, key).Some?
    ensures Members.IsLast(ms, i) && ms[i] == (key, Lookup(ms, key).value)
    decreases |ms|
  {
    var n := |ms| - 1;
    if ms[n].0 == key {
      i := n;
    } else {
      i := LookupLast(ms[..n], key);
    }
  }

  /** Values that agree have agreeing members. */
  lemma SameGet(f: Canonical.Decoder, a: Json, b: Json, key: string)
    requires CanonicalLaws.Same(f, a, b)
    ensures a.Get(key).Some? <==> b.Get(key).Some?
    ensures a.Get(key).Some? ==> CanonicalLaws.Same(f, a.Get(key).value, b.Get(key).value)
  {
    if a.Object? && b.Object? {
      hide CanonicalLaws.Same;
      if Lookup(a.members, key).Some? {
        var i := LookupLast(a.members, key);
        var j := CanonicalLaws.SameMemberOf(f, a.members, b.members, i);
        if Lookup(b.members, key).Some? {
          var k := LookupLast(b.members, key);
          CanonicalLaws.LastUnique(b.members, j, k);
        }
      }
      if Lookup(b.members, key).Some? {
        var k := LookupLast(b.members, key);
        var i := CanonicalLaws.SameNameOf(f, a.members, b.members, k);
      }
    }
  }

  lemma SameBound(n: Numerics, v: Json, w: Json)
    requires Reads(n) && CanonicalLaws.Same(n.decoder, v, w)
    ensures BoundOf(n, v) == BoundOf(n, w)
  {
    hide CanonicalLaws.Faithful, Numbers.EcmaNumberToString, CanonicalDecimal, DecimalValue;
  }

  lemma SameOperand(n: Numerics, x: Json, y: Json)
    requires Reads(n) && CanonicalLaws.Same(n.decoder, x, y)
    ensures Operand(n, x) == Operand(n, y)
  {
    hide CanonicalLaws.Same, Reads, BoundOf, Lookup;
    SameGet(n.decoder, x, y, "operands");
    if x.Get("operands").Some? {
      SameGet(n.decoder, x.Get("operands").value, y.Get("operands").value, "value");
      if x.Get("operands").value.Get("value").Some? {
        SameBound(n, x.Get("operands").value.Get("value").value, y.Get("operands").value.Get("value").value);
      }
    }
  }

  lemma SameWord(f: Canonical.Decoder, x: Json, y: Json, name: string)
    requires CanonicalLaws.Same(f, x, y)
    ensures Text(x, name) == Text(y, name)
  {
    hide Lookup, Numbers.EcmaNumberToString;
    SameGet(f, x, y, name);
  }

  /** Constraints of one text state one keyword and one operand. */
  lemma SameConstraint(n: Numerics, x: Json, y: Json)
    requires Reads(n) && Canonical.Writable(n.decoder, x) && Canonical.Writable(n.decoder, y)
    requires Written(n, x) == Written(n, y)
    ensures Text(x, "keyword") == Text(y, "keyword") && Operand(n, x) == Operand(n, y)
  {
    hide CanonicalLaws.Faithful, Canonical.Writable, CanonicalLaws.Same, Text, Operand, Canonical.Form, Canonical.Print;
    CanonicalLaws.CanonicalEquality(n.decoder, x, y);
    SameWord(n.decoder, x, y, "keyword");
    SameOperand(n, x, y);
  }

  /** Constraint changes obey the triangle exactly where no tightening is hidden. */
  lemma ConstraintChain(n: Numerics, x: Json, y: Json, z: Json)
    requires Reads(n)
    requires Canonical.Writable(n.decoder, x) && Canonical.Writable(n.decoder, y) && Canonical.Writable(n.decoder, z)
    ensures AtMost(ChangedConstraint(n, x, z), Join(ChangedConstraint(n, x, y), ChangedConstraint(n, y, z)))
       <==> !HiddenTightening(n, x, y, z)
  {
    MoveChain(n, x, y, z);
    hide Written, Operand, Canonical.Writable;
    if Written(n, x) == Written(n, y) { SameConstraint(n, x, y); }
    if Written(n, y) == Written(n, z) { SameConstraint(n, y, z); }
    if Written(n, x) == Written(n, z) { SameConstraint(n, x, z); }
  }

  // ----- the triangle member by member

  lemma DifferChain<T>(u: T, v: T, w: T, verdict: Classification)
    ensures AtMost(Differ(u, w, verdict), Join(Differ(u, v, verdict), Differ(v, w, verdict)))
  {
  }

  lemma JoinTriangle(a: Classification, b: Classification, c: Classification, d: Classification, e: Classification,
                     f: Classification)
    requires AtMost(a, Join(b, c)) && AtMost(d, Join(e, f))
    ensures AtMost(Join(a, d), Join(Join(b, e), Join(c, f)))
  {
    hide Join, Classification.Rank;
    JoinRank(a, d);
    JoinRank(b, c);
    JoinRank(e, f);
    JoinRank(b, e);
    JoinRank(c, f);
    JoinRank(Join(b, e), Join(c, f));
  }

  lemma JoinRank(a: Classification, b: Classification)
    ensures Join(a, b).Rank() == if b.Rank() > a.Rank() then b.Rank() else a.Rank()
  {
    hide Classification.Rank;
  }

  lemma IntervalChain(a: Multiplicity, b: Multiplicity, c: Multiplicity)
    ensures AtMost(Interval(a, c), Join(Interval(a, b), Interval(b, c)))
  {
  }

  lemma FieldChain(n: Numerics, d: Document, x: Json, e: Document, y: Json, f: Document, z: Json)
    ensures AtMost(CompareField(n, d, x, f, z), Join(CompareField(n, d, x, e, y), CompareField(n, e, y, f, z)))
  {
    hide Differ, Interval, Join, AtMost, EffectiveMultiplicity, ResolvedKey, Nullable, Text;
    var (a, b, c) := (EffectiveMultiplicity(n, x), EffectiveMultiplicity(n, y), EffectiveMultiplicity(n, z));
    var (k, l, m) := ((x.Get("name"), ResolvedKey(d, Text(x, "typeRef")), Nullable(x), Text(x, "unit"), a.ordered,
                       a.unique),
                      (y.Get("name"), ResolvedKey(e, Text(y, "typeRef")), Nullable(y), Text(y, "unit"), b.ordered,
                       b.unique),
                      (z.Get("name"), ResolvedKey(f, Text(z, "typeRef")), Nullable(z), Text(z, "unit"), c.ordered,
                       c.unique));
    var (u, v, w) := ((x.Get("defaultKind"), x.Get("defaultValue")), (y.Get("defaultKind"), y.Get("defaultValue")),
                      (z.Get("defaultKind"), z.Get("defaultValue")));
    DifferChain(k, l, m, Breaking);
    DifferChain(u, v, w, Conditional);
    IntervalChain(a, b, c);
    JoinTriangle(Interval(a, c), Interval(a, b), Interval(b, c),
                 Differ(u, w, Conditional), Differ(u, v, Conditional), Differ(v, w, Conditional));
    JoinTriangle(Differ(k, m, Breaking), Differ(k, l, Breaking), Differ(l, m, Breaking),
                 Join(Interval(a, c), Differ(u, w, Conditional)), Join(Interval(a, b), Differ(u, v, Conditional)),
                 Join(Interval(b, c), Differ(v, w, Conditional)));
  }

  /** A field whose lower bound rises past zero was narrowed on the way. */
  lemma RequiredFieldShows(n: Numerics, e: Document, y: Json, f: Document, z: Json)
    requires EffectiveMultiplicity(n, y).lower < EffectiveMultiplicity(n, z).lower
    ensures CompareField(n, e, y, f, z) == Breaking
  {
    hide EffectiveMultiplicity, ResolvedKey, Nullable, Text;
  }

  lemma FieldAtMostBreaking(n: Numerics, e: Document, y: Json, f: Document, z: Json)
    ensures AtMost(CompareField(n, e, y, f, z), Breaking)
  {
    hide EffectiveMultiplicity, ResolvedKey, Nullable, Text;
  }

  /** A field that was added under a policy that tolerates it is kept, still optional,
      under one that does not. */
  ghost predicate Withdrawn(n: Numerics, e: Document, f: Document, a: seq<Json>, b: seq<Json>, c: seq<Json>) {
    && OptionalAddition(e.bundle) == Additive && OptionalAddition(f.bundle) == Conditional
    && exists z :: z in c && Lately(a, b, z) && EffectiveMultiplicity(n, z).lower < 1
  }

  lemma FieldKept(n: Numerics, d: Document, e: Document, f: Document, y: Json, z: Json, limit: Classification)
    requires OptionalAddition(e.bundle) == Additive && OptionalAddition(f.bundle) == Conditional
      ==> AtMost(Conditional, limit) || EffectiveMultiplicity(n, z).lower >= 1
    ensures KeepWithin(Fields(n, d, e), Fields(n, e, f), Fields(n, d, f), y, z, limit)
  {
    if EffectiveMultiplicity(n, y).lower < EffectiveMultiplicity(n, z).lower { RequiredFieldShows(n, e, y, f, z); }
    hide CompareField, EffectiveMultiplicity;
    var (p, q, r) := (Fields(n, d, e), Fields(n, e, f), Fields(n, d, f));
    assert p.added(y) == AddedField(n, e.bundle, y) && r.added(z) == AddedField(n, f.bundle, z);
    assert q.changed(y, z) == CompareField(n, e, y, f, z);
  }

  /** Fields stay within a limit, unless it is below conditional and one is withdrawn. */
  lemma FieldsChain(n: Numerics, d: Document, e: Document, f: Document, a: seq<Json>, b: seq<Json>, c: seq<Json>,
                    limit: Classification)
    requires AtMost(Conditional, limit) || !Withdrawn(n, e, f, a, b, c)
    ensures Chains(Fields(n, d, e), Fields(n, e, f), Fields(n, d, f), a, b, c, limit)
  {
    hide CompareField, EffectiveMultiplicity, IdentityOf, AtMost, OptionalAddition, Lately;
    var (p, q, r) := (Fields(n, d, e), Fields(n, e, f), Fields(n, d, f));
    forall x, y, z ensures ChangeWithin(p, q, r, x, y, z, limit) {
      FieldChain(n, d, x, e, y, f, z);
      assert r.changed(x, z) == CompareField(n, d, x, f, z);
      if AtMost(p.changed(x, y), limit) && AtMost(q.changed(y, z), limit) {
        Carried(r.changed(x, z), p.changed(x, y), q.changed(y, z), limit);
      }
    }
    forall x, z ensures ReplaceWithin(p, q, r, x, z, limit) {
      FieldAtMostBreaking(n, d, x, f, z);
      if AtMost(Breaking, limit) { AtMostTrans(CompareField(n, d, x, f, z), Breaking, limit); }
    }
    forall y, z | z in c && Lately(a, b, z) ensures KeepWithin(p, q, r, y, z, limit) {
      FieldKept(n, d, e, f, y, z, limit);
    }
  }

  /** No constraint of the three lists hides a tightening bound behind a float. */
  ghost predicate NothingHidden(n: Numerics, a: seq<Json>, b: seq<Json>, c: seq<Json>) {
    forall u, v, w | u in a && v in b && w in c && IdentityOf(u) == IdentityOf(v) == IdentityOf(w) ::
      !HiddenTightening(n, u, v, w)
  }

  /** Constraints stay within a limit, unless it is below conditional and a float hides
      a tightening bound. */
  lemma ConstraintsChain(n: Numerics, a: seq<Json>, b: seq<Json>, c: seq<Json>, limit: Classification)
    requires Reads(n)
    requires forall x :: x in a || x in b || x in c ==> Canonical.Writable(n.decoder, x)
    requires AtMost(Conditional, limit) || NothingHidden(n, a, b, c)
    ensures Chains(Constraints(n), Constraints(n), Constraints(n), a, b, c, limit)
  {
    hide ChangedConstraint, HiddenTightening, Canonical.Writable, Reads, IdentityOf, Lately;
    var p := Constraints(n);
    forall x, z ensures AtMost(Conditional, limit) ==> AtMost(p.changed(x, z), limit) {
      ConstraintAtMostConditional(n, x, z);
    }
    forall x, y, z | x in a && y in b && z in c && IdentityOf(x) == IdentityOf(y) == IdentityOf(z)
      ensures ChangeWithin(p, p, p, x, y, z, limit)
    {
      assert p.changed(x, y) == ChangedConstraint(n, x, y) && p.changed(y, z) == ChangedConstraint(n, y, z);
      if AtMost(p.changed(x, y), limit) && AtMost(p.changed(y, z), limit) { ConstraintWithin(n, x, y, z, limit); }
    }
    hide AtMost;
    forall x, z ensures ReplaceWithin(p, p, p, x, z, limit) { }
  }

  lemma ConstraintWithin(n: Numerics, x: Json, y: Json, z: Json, limit: Classification)
    requires Reads(n)
    requires Canonical.Writable(n.decoder, x) && Canonical.Writable(n.decoder, y) && Canonical.Writable(n.decoder, z)
    requires AtMost(Conditional, limit) || !HiddenTightening(n, x, y, z)
    requires AtMost(ChangedConstraint(n, x, y), limit) && AtMost(ChangedConstraint(n, y, z), limit)
    ensures AtMost(ChangedConstraint(n, x, z), limit)
  {
    hide ChangedConstraint, HiddenTightening, Canonical.Writable, Reads, AtMost;
    if AtMost(Conditional, limit) {
      ConstraintAtMostConditional(n, x, z);
      AtMostTrans(ChangedConstraint(n, x, z), Conditional, limit);
    } else {
      ConstraintChain(n, x, y, z);
      Carried(ChangedConstraint(n, x, z), ChangedConstraint(n, x, y), ChangedConstraint(n, y, z), limit);
    }
  }

  lemma ConstraintAtMostConditional(n: Numerics, x: Json, y: Json)
    ensures AtMost(ChangedConstraint(n, x, y), Conditional)
  {
    hide Operand, Exceeds, Written;
  }

  lemma VariantsChain(d: Document, e: Document, f: Document, a: seq<Json>, b: seq<Json>, c: seq<Json>,
                      limit: Classification)
    ensures Chains(Variants(d, e), Variants(e, f), Variants(d, f), a, b, c, limit)
  {
    hide IdentityOf, ResolvedKey, Text, Lately;
    var (p, q, r) := (Variants(d, e), Variants(e, f), Variants(d, f));
    forall x, y, z ensures ChangeWithin(p, q, r, x, y, z, limit) && ReplaceWithin(p, q, r, x, z, limit) {
      assert r.changed(x, z) == ChangedVariant(d, x, f, z);
      assert p.changed(x, y) == ChangedVariant(d, x, e, y);
      assert q.changed(y, z) == ChangedVariant(e, y, f, z);
    }
  }

  lemma RelationshipsChain(n: Numerics, a: seq<Json>, b: seq<Json>, c: seq<Json>, limit: Classification)
    ensures Chains(Relationships(n), Relationships(n), Relationships(n), a, b, c, limit)
  {
    hide IdentityOf, StripOrigin, Written, Lately;
  }

  lemma ClausesChain(n: Numerics, a: seq<Json>, b: seq<Json>, c: seq<Json>, limit: Classification)
    ensures Chains(Clauses(n), Clauses(n), Clauses(n), a, b, c, limit)
  {
    hide IdentityOf, StripOrigin, Written, Lately;
  }

  lemma ExtensionsChain(n: Numerics, a: seq<Json>, b: seq<Json>, c: seq<Json>, limit: Classification)
    ensures Chains(Extensions(n), Extensions(n), Extensions(n), a, b, c, limit)
  {
    hide IdentityOf, IsRequired, Written, Lately;
    var p := Extensions(n);
    forall x, y, z
      ensures ChangeWithin(p, p, p, x, y, z, limit) && ReplaceWithin(p, p, p, x, z, limit)
      ensures KeepWithin(p, p, p, y, z, limit)
    {
      assert p.changed(x, z) == ChangedExtension(n, x, z);
      assert p.changed(x, y) == ChangedExtension(n, x, y);
      assert p.changed(y, z) == ChangedExtension(n, y, z);
    }
  }

  lemma PositionsChain(d: Document, x: Json, e: Document, y: Json, f: Document, z: Json)
    ensures AtMost(ComparePositions(d, x, f, z), Join(ComparePositions(d, x, e, y), ComparePositions(e, y, f, z)))
  {
    hide Position, Listed;
  }

  lemma ParamsChain(n: Numerics, d: Document, xs: seq<Json>, e: Document, ys: seq<Json>, f: Document, zs: seq<Json>)
    requires SameParams(n, d, xs, e, ys) && SameParams(n, e, ys, f, zs)
    ensures SameParams(n, d, xs, f, zs)
  {
    hide CompareField, IdentityOf;
    forall i | 0 <= i < |xs|
      ensures IdentityOf(xs[i]) == IdentityOf(zs[i]) && CompareField(n, d, xs[i], f, zs[i]) == Patch
    {
      assert CompareField(n, d, xs[i], e, ys[i]) == CompareField(n, e, ys[i], f, zs[i]) == Patch;
      FieldChain(n, d, xs[i], e, ys[i], f, zs[i]);
    }
  }

  lemma OperationChain(n: Numerics, d: Document, x: Json, e: Document, y: Json, f: Document, z: Json)
    ensures AtMost(ChangedOperation(n, d, x, f, z),
                   Join(ChangedOperation(n, d, x, e, y), ChangedOperation(n, e, y, f, z)))
  {
    var (i, j, k) := (Listed(x, "params"), Listed(y, "params"), Listed(z, "params"));
    hide SameParams, Listed, Returns;
    if SameParams(n, d, i, e, j) && SameParams(n, e, j, f, k) { ParamsChain(n, d, i, e, j, f, k); }
  }

  lemma OperationAtMostBreaking(n: Numerics, d: Document, x: Json, f: Document, z: Json)
    ensures AtMost(ChangedOperation(n, d, x, f, z), Breaking)
  {
    hide SameParams, Listed, Returns;
  }

  lemma OperationsChain(n: Numerics, d: Document, e: Document, f: Document, a: seq<Json>, b: seq<Json>, c: seq<Json>,
                        limit: Classification)
    ensures Chains(Operations(n, d, e), Operations(n, e, f), Operations(n, d, f), a, b, c, limit)
  {
    hide ChangedOperation, IdentityOf, Lately, AtMost;
    var (p, q, r) := (Operations(n, d, e), Operations(n, e, f), Operations(n, d, f));
    forall x, y, z ensures ChangeWithin(p, q, r, x, y, z, limit) {
      OperationChain(n, d, x, e, y, f, z);
      assert r.changed(x, z) == ChangedOperation(n, d, x, f, z);
      if AtMost(p.changed(x, y), limit) && AtMost(q.changed(y, z), limit) {
        Carried(r.changed(x, z), p.changed(x, y), q.changed(y, z), limit);
      }
    }
    forall x, z ensures ReplaceWithin(p, q, r, x, z, limit) {
      OperationAtMostBreaking(n, d, x, f, z);
      if AtMost(Breaking, limit) { AtMostTrans(ChangedOperation(n, d, x, f, z), Breaking, limit); }
    }
  }

  lemma ReferenceChain(d: Document, x: Json, e: Document, y: Json, f: Document, z: Json, member: string)
    ensures AtMost(Reference(d, x, f, z, member), Join(Reference(d, x, e, y, member), Reference(e, y, f, z, member)))
  {
    hide Text;
  }

  lemma UnknownPolicyChain(x: Json, y: Json, z: Json)
    ensures AtMost(UnknownPolicy(x, z), Join(UnknownPolicy(x, y), UnknownPolicy(y, z)))
  {
    hide PolicyRank;
  }

  lemma HeadChain(d: Document, x: Json, e: Document, y: Json, f: Document, z: Json)
    ensures AtMost(TypeHead(d, x, f, z), Join(TypeHead(d, x, e, y), TypeHead(e, y, f, z)))
  {
    hide Differ, Reference, UnknownPolicy, Join, AtMost;
    var (k, l, m) := ((x.Get("kind"), x.Get("scalar")), (y.Get("kind"), y.Get("scalar")),
                      (z.Get("kind"), z.Get("scalar")));
    DifferChain(k, l, m, Breaking);
    ReferenceChain(d, x, e, y, f, z, "target");
    ReferenceChain(d, x, e, y, f, z, "items");
    ReferenceChain(d, x, e, y, f, z, "values");
    UnknownPolicyChain(x, y, z);
    JoinTriangle(Reference(d, x, f, z, "values"), Reference(d, x, e, y, "values"), Reference(e, y, f, z, "values"),
                 UnknownPolicy(x, z), UnknownPolicy(x, y), UnknownPolicy(y, z));
    var (u, v, w) := (Join(Reference(d, x, f, z, "values"), UnknownPolicy(x, z)),
                      Join(Reference(d, x, e, y, "values"), UnknownPolicy(x, y)),
                      Join(Reference(e, y, f, z, "values"), UnknownPolicy(y, z)));
    JoinTriangle(Reference(d, x, f, z, "items"), Reference(d, x, e, y, "items"), Reference(e, y, f, z, "items"), u, v,
                 w);
    var (g, h, i) := (Join(Reference(d, x, f, z, "items"), u), Join(Reference(d, x, e, y, "items"), v),
                      Join(Reference(e, y, f, z, "items"), w));
    JoinTriangle(Reference(d, x, f, z, "target"), Reference(d, x, e, y, "target"), Reference(e, y, f, z, "target"), g,
                 h, i);
    JoinTriangle(Differ(k, m, Breaking), Differ(k, l, Breaking), Differ(l, m, Breaking),
                 Join(Reference(d, x, f, z, "target"), g), Join(Reference(d, x, e, y, "target"), h),
                   Join(Reference(e, y, f, z, "target"), i));
  }

  // ----- the triangle for types and documents

  /** Every list a type carries names each of its members once. */
  ghost predicate UniqueMembers(t: Json) {
    && Unique(Listed(t, "constraints")) && Unique(Listed(t, "fields")) && Unique(Listed(t, "variants"))
    && Unique(Listed(t, "relationships")) && Unique(Listed(t, "operations")) && Unique(Listed(t, "clauses"))
  }

  ghost predicate WritableConstraints(n: Numerics, t: Json) {
    forall x :: x in Listed(t, "constraints") ==> Canonical.Writable(n.decoder, x)
  }

  /** What the steps from `x` to `y` to `z` do not show: a bound that tightens behind a
      float, or a tolerated field that is tolerated no more. */
  ghost predicate TypeLoses(n: Numerics, e: Document, f: Document, x: Json, y: Json, z: Json) {
    || !NothingHidden(n, Listed(x, "constraints"), Listed(y, "constraints"), Listed(z, "constraints"))
    || Withdrawn(n, e, f, Listed(x, "fields"), Listed(y, "fields"), Listed(z, "fields"))
  }

  /** The parts a type's lists are compared by, each within the limit. */
  lemma TypeListsBound(n: Numerics, d: Document, x: Json, e: Document, y: Json, limit: Classification)
    ensures AtMost(TypeLists(n, d, x, e, y), limit) <==>
      && AtMost(CompareLists(Constraints(n), Listed(x, "constraints"), Listed(y, "constraints")), limit)
      && AtMost(CompareLists(Fields(n, d, e), Listed(x, "fields"), Listed(y, "fields")), limit)
      && AtMost(CompareLists(Variants(d, e), Listed(x, "variants"), Listed(y, "variants")), limit)
      && AtMost(ComparePositions(d, x, e, y), limit)
      && AtMost(CompareLists(Relationships(n), Listed(x, "relationships"), Listed(y, "relationships")), limit)
      && AtMost(CompareLists(Operations(n, d, e), Listed(x, "operations"), Listed(y, "operations")), limit)
      && AtMost(CompareLists(Clauses(n), Listed(x, "clauses"), Listed(y, "clauses")), limit)
  {
    hide Join, AtMost, CompareLists, ComparePositions, Constraints, Fields, Variants, Relationships, Operations,
      Clauses, Listed;
    forall a, b ensures AtMost(Join(a, b), limit) <==> AtMost(a, limit) && AtMost(b, limit) { JoinBound(a, b, limit); }
  }

  lemma TypeListsChain(n: Numerics, d: Document, x: Json, e: Document, y: Json, f: Document, z: Json,
                       limit: Classification)
    requires Reads(n) && UniqueMembers(z)
    requires WritableConstraints(n, x) && WritableConstraints(n, y) && WritableConstraints(n, z)
    requires AtMost(Conditional, limit) || !TypeLoses(n, e, f, x, y, z)
    requires AtMost(TypeLists(n, d, x, e, y), limit) && AtMost(TypeLists(n, e, y, f, z), limit)
    ensures AtMost(TypeLists(n, d, x, f, z), limit)
  {
    hide Reads, Chains, CompareLists, ComparePositions, Constraints, Fields, Variants, Relationships, Operations,
      Clauses, Unique, Join, AtMost, Canonical.Writable, NothingHidden, Withdrawn, Listed, TypeLists;
    TypeListsBound(n, d, x, e, y, limit);
    TypeListsBound(n, e, y, f, z, limit);
    TypeListsBound(n, d, x, f, z, limit);
    var (a1, b1, c1) := (Listed(x, "constraints"), Listed(y, "constraints"), Listed(z, "constraints"));
    var (a2, b2, c2) := (Listed(x, "fields"), Listed(y, "fields"), Listed(z, "fields"));
    var (a3, b3, c3) := (Listed(x, "variants"), Listed(y, "variants"), Listed(z, "variants"));
    var (a4, b4, c4) := (Listed(x, "relationships"), Listed(y, "relationships"), Listed(z, "relationships"));
    var (a5, b5, c5) := (Listed(x, "operations"), Listed(y, "operations"), Listed(z, "operations"));
    var (a6, b6, c6) := (Listed(x, "clauses"), Listed(y, "clauses"), Listed(z, "clauses"));
    ConstraintsChain(n, a1, b1, c1, limit);
    ListTriangle(Constraints(n), Constraints(n), Constraints(n), a1, b1, c1, limit);
    FieldsChain(n, d, e, f, a2, b2, c2, limit);
    ListTriangle(Fields(n, d, e), Fields(n, e, f), Fields(n, d, f), a2, b2, c2, limit);
    VariantsChain(d, e, f, a3, b3, c3, limit);
    ListTriangle(Variants(d, e), Variants(e, f), Variants(d, f), a3, b3, c3, limit);
    PositionsChain(d, x, e, y, f, z);
    Carried(ComparePositions(d, x, f, z), ComparePositions(d, x, e, y), ComparePositions(e, y, f, z), limit);
    RelationshipsChain(n, a4, b4, c4, limit);
    ListTriangle(Relationships(n), Relationships(n), Relationships(n), a4, b4, c4, limit);
    OperationsChain(n, d, e, f, a5, b5, c5, limit);
    ListTriangle(Operations(n, d, e), Operations(n, e, f), Operations(n, d, f), a5, b5, c5, limit);
    ClausesChain(n, a6, b6, c6, limit);
    ListTriangle(Clauses(n), Clauses(n), Clauses(n), a6, b6, c6, limit);
  }

  /** Two definitions compared through a third stay within any limit the steps stay
      within, unless it is below conditional and the steps lose something. */
  lemma TypeWithin(n: Numerics, d: Document, x: Json, e: Document, y: Json, f: Document, z: Json,
                   limit: Classification)
    requires Reads(n) && UniqueMembers(z)
    requires WritableConstraints(n, x) && WritableConstraints(n, y) && WritableConstraints(n, z)
    requires AtMost(Conditional, limit) || !TypeLoses(n, e, f, x, y, z)
    requires AtMost(CompareType(n, d, x, e, y), limit) && AtMost(CompareType(n, e, y, f, z), limit)
    ensures AtMost(CompareType(n, d, x, f, z), limit)
  {
    hide TypeHead, TypeLists, Join, AtMost, Reads, UniqueMembers, WritableConstraints, TypeLoses;
    JoinBound(TypeHead(d, x, e, y), TypeLists(n, d, x, e, y), limit);
    JoinBound(TypeHead(e, y, f, z), TypeLists(n, e, y, f, z), limit);
    JoinBound(TypeHead(d, x, f, z), TypeLists(n, d, x, f, z), limit);
    HeadChain(d, x, e, y, f, z);
    Carried(TypeHead(d, x, f, z), TypeHead(d, x, e, y), TypeHead(e, y, f, z), limit);
    TypeListsChain(n, d, x, e, y, f, z, limit);
  }

  // ----- what the steps lose, the ends show

  lemma TighteningShows(n: Numerics, u: Json, v: Json, w: Json)
    requires Reads(n) && Canonical.Writable(n.decoder, u) && Canonical.Writable(n.decoder, w)
    requires HiddenTightening(n, u, v, w)
    ensures ChangedConstraint(n, u, w) == Conditional
  {
    hide Reads, Canonical.Writable, Written, Operand, Text, OperandMove, Lower, Upper, Keyword;
    MoveMeans(n, u, w);
    if Written(n, u) == Written(n, w) { SameConstraint(n, u, w); }
    NotBoth(Keyword(u));
  }

  lemma HiddenCosts(n: Numerics, a: seq<Json>, b: seq<Json>, c: seq<Json>)
    requires Reads(n) && Unique(c) && !NothingHidden(n, a, b, c)
    requires forall x :: x in a || x in c ==> Canonical.Writable(n.decoder, x)
    ensures AtMost(Conditional, CompareLists(Constraints(n), a, c))
  {
    hide Reads, Canonical.Writable, CompareLists, HiddenTightening, IdentityOf, ChangedConstraint, AtMost;
    var u, v, w :| u in a && v in b && w in c && IdentityOf(u) == IdentityOf(v) == IdentityOf(w)
                   && HiddenTightening(n, u, v, w);
    TighteningShows(n, u, v, w);
    var i :| 0 <= i < |c| && c[i] == w;
    FoundIsOnly(c, i);
    NodeCosts(Constraints(n), a, c);
    assert Before(Constraints(n), u, c) == Conditional;
  }

  lemma WithdrawnCosts(n: Numerics, d: Document, e: Document, f: Document, a: seq<Json>, b: seq<Json>, c: seq<Json>)
    requires Withdrawn(n, e, f, a, b, c)
    ensures AtMost(Conditional, CompareLists(Fields(n, d, f), a, c))
  {
    hide CompareLists, IdentityOf, EffectiveMultiplicity, AtMost, OptionalAddition;
    var z :| z in c && Lately(a, b, z) && EffectiveMultiplicity(n, z).lower < 1;
    NodeCosts(Fields(n, d, f), a, c);
    assert Fields(n, d, f).added(z) == AddedField(n, f.bundle, z) == Conditional;
    assert After(Fields(n, d, f), z, a) == Conditional;
  }

  lemma TypeCosts(n: Numerics, d: Document, x: Json, e: Document, y: Json, f: Document, z: Json)
    requires Reads(n) && UniqueMembers(z) && WritableConstraints(n, x) && WritableConstraints(n, z)
    requires TypeLoses(n, e, f, x, y, z)
    ensures AtMost(Conditional, CompareType(n, d, x, f, z))
  {
    hide Reads, CompareLists, Constraints, Fields, Unique, Join, AtMost, Canonical.Writable, NothingHidden, Withdrawn,
      Listed, TypeLists, TypeHead;
    var worst := CompareType(n, d, x, f, z);
    AtMostSelf(worst);
    JoinBound(TypeHead(d, x, f, z), TypeLists(n, d, x, f, z), worst);
    TypeListsBound(n, d, x, f, z, worst);
    var (a, b, c) := (Listed(x, "constraints"), Listed(y, "constraints"), Listed(z, "constraints"));
    if NothingHidden(n, a, b, c) {
      WithdrawnCosts(n, d, e, f, Listed(x, "fields"), Listed(y, "fields"), Listed(z, "fields"));
      AtMostTrans(Conditional, CompareLists(Fields(n, d, f), Listed(x, "fields"), Listed(z, "fields")), worst);
    } else {
      HiddenCosts(n, a, b, c);
      AtMostTrans(Conditional, CompareLists(Constraints(n), a, c), worst);
    }
  }

  /** Two definitions compared through a third obey the triangle exactly when the steps
      lose nothing, or are conditional already. */
  lemma TypeChain(n: Numerics, d: Document, x: Json, e: Document, y: Json, f: Document, z: Json)
    requires Reads(n) && UniqueMembers(z)
    requires WritableConstraints(n, x) && WritableConstraints(n, y) && WritableConstraints(n, z)
    ensures var steps := Join(CompareType(n, d, x, e, y), CompareType(n, e, y, f, z));
      AtMost(CompareType(n, d, x, f, z), steps) <==> !TypeLoses(n, e, f, x, y, z) || AtMost(Conditional, steps)
  {
    hide Reads, CompareType, UniqueMembers, WritableConstraints, TypeLoses, Join, AtMost;
    var steps := Join(CompareType(n, d, x, e, y), CompareType(n, e, y, f, z));
    AtMostSelf(steps);
    JoinBound(CompareType(n, d, x, e, y), CompareType(n, e, y, f, z), steps);
    if !TypeLoses(n, e, f, x, y, z) || AtMost(Conditional, steps) {
      TypeWithin(n, d, x, e, y, f, z, steps);
    } else {
      TypeCosts(n, d, x, e, y, f, z);
      if AtMost(CompareType(n, d, x, f, z), steps) { AtMostTrans(Conditional, CompareType(n, d, x, f, z), steps); }
    }
  }

  // ----- no comparison of two documents finds them invalid

  ghost predicate Mild(p: Policy) {
    && AtMost(p.removed, Breaking)
    && (forall y {:trigger p.added(y)} :: AtMost(p.added(y), Breaking))
    && (forall x, y {:trigger p.changed(x, y)} :: AtMost(p.changed(x, y), Breaking))
  }

  lemma MildList(p: Policy, before: seq<Json>, after: seq<Json>)
    requires Mild(p)
    ensures AtMost(CompareLists(p, before, after), Breaking)
  {
    ListWorst(p, before, after, Breaking) by { hide CompareLists; }
    hide IdentityOf, CompareLists;
    assert forall i :: 0 <= i < |before| ==> AtMost(Before(p, before[i], after), Breaking);
    assert forall i :: 0 <= i < |after| ==> AtMost(After(p, after[i], before), Breaking);
  }

  lemma MildPolicies(n: Numerics, d: Document, e: Document)
    ensures Mild(Constraints(n)) && Mild(Relationships(n)) && Mild(Clauses(n)) && Mild(Extensions(n))
    ensures Mild(Fields(n, d, e)) && Mild(Variants(d, e)) && Mild(Operations(n, d, e))
  {
    hide Written, ChangedConstraint, CompareField, ChangedVariant, ChangedOperation, IsRequired, StripOrigin,
        EffectiveMultiplicity;
    forall x, y ensures AtMost(ChangedConstraint(n, x, y), Breaking) { ConstraintAtMostConditional(n, x, y); }
    forall x, y ensures AtMost(CompareField(n, d, x, e, y), Breaking) { FieldAtMostBreaking(n, d, x, e, y); }
    forall x, y ensures AtMost(ChangedOperation(n, d, x, e, y), Breaking) { OperationAtMostBreaking(n, d, x, e, y); }
    forall x, y ensures AtMost(ChangedVariant(d, x, e, y), Breaking) { DifferAtMostBreaking(d, x, e, y); }
  }

  lemma DifferAtMostBreaking(d: Document, x: Json, e: Document, y: Json)
    ensures AtMost(ChangedVariant(d, x, e, y), Breaking)
  {
  }

  lemma TypeAtMostBreaking(n: Numerics, d: Document, x: Json, e: Document, y: Json)
    ensures AtMost(CompareType(n, d, x, e, y), Breaking)
  {
    hide Mild, Join, AtMost, CompareLists, TypeHead, ComparePositions, Constraints, Fields, Variants, Relationships,
        Operations, Clauses, Listed;
    MildPolicies(n, d, e);
    MildList(Constraints(n), Listed(x, "constraints"), Listed(y, "constraints"));
    MildList(Fields(n, d, e), Listed(x, "fields"), Listed(y, "fields"));
    MildList(Variants(d, e), Listed(x, "variants"), Listed(y, "variants"));
    MildList(Relationships(n), Listed(x, "relationships"), Listed(y, "relationships"));
    MildList(Operations(n, d, e), Listed(x, "operations"), Listed(y, "operations"));
    MildList(Clauses(n), Listed(x, "clauses"), Listed(y, "clauses"));
    HeadAtMostBreaking(d, x, e, y);
    forall a, b, c ensures AtMost(Join(a, b), c) <==> AtMost(a, c) && AtMost(b, c) { JoinBound(a, b, c); }
  }

  lemma HeadAtMostBreaking(d: Document, x: Json, e: Document, y: Json)
    ensures AtMost(TypeHead(d, x, e, y), Breaking) && AtMost(ComparePositions(d, x, e, y), Breaking)
  {
    hide PolicyRank, ResolvedKey, Text, SamePositions;
  }

  // ----- documents

  function TypesOf(d: Document): seq<Json> { Named(Listed(d.ir, "types")) }

  /** Types, extensions and the members of each type are named once. */
  ghost predicate UniqueIdentities(d: Document) {
    && Unique(TypesOf(d)) && Unique(Listed(d.ir, "extensions"))
    && forall t :: t in TypesOf(d) ==> UniqueMembers(t)
  }

  ghost predicate WritableBounds(n: Numerics, d: Document) {
    forall t :: t in TypesOf(d) ==> WritableConstraints(n, t)
  }

  /** Three releases whose bounds can be written, the last of which names everything once. */
  ghost predicate Chained(n: Numerics, d: Document, e: Document, f: Document) {
    UniqueIdentities(f) && WritableBounds(n, d) && WritableBounds(n, e) && WritableBounds(n, f)
  }

  /** The steps between the releases lose something of some type. */
  ghost predicate Loses(n: Numerics, d: Document, e: Document, f: Document) {
    exists x, y, z ::
      && x in TypesOf(d) && y in TypesOf(e) && z in TypesOf(f)
      && IdentityOf(x) == IdentityOf(y) == IdentityOf(z) && TypeLoses(n, e, f, x, y, z)
  }

  lemma TypesChain(n: Numerics, d: Document, e: Document, f: Document, limit: Classification)
    requires Reads(n) && Chained(n, d, e, f) && (AtMost(Conditional, limit) || !Loses(n, d, e, f))
    ensures Chains(Types(n, d, e), Types(n, e, f), Types(n, d, f), TypesOf(d), TypesOf(e), TypesOf(f), limit)
  {
    hide Reads, CompareType, IdentityOf, TypesOf, UniqueMembers, WritableConstraints, TypeLoses, Unique, Lately, AtMost;
    var (p, q, r) := (Types(n, d, e), Types(n, e, f), Types(n, d, f));
    forall x, y, z | x in TypesOf(d) && y in TypesOf(e) && z in TypesOf(f)
                     && IdentityOf(x) == IdentityOf(y) == IdentityOf(z)
      ensures ChangeWithin(p, q, r, x, y, z, limit)
    {
      assert r.changed(x, z) == CompareType(n, d, x, f, z);
      if AtMost(p.changed(x, y), limit) && AtMost(q.changed(y, z), limit) { TypeWithin(n, d, x, e, y, f, z, limit); }
    }
    forall x, z ensures ReplaceWithin(p, q, r, x, z, limit) {
      TypeAtMostBreaking(n, d, x, f, z);
      if AtMost(Breaking, limit) { AtMostTrans(CompareType(n, d, x, f, z), Breaking, limit); }
    }
    forall y, z ensures KeepWithin(p, q, r, y, z, limit) && AddWithin(q, r, z, limit) {
      assert p.added(y) == q.added(z) == r.added(z) == Patch;
    }
  }

  lemma DocumentBound(n: Numerics, d: Document, e: Document, limit: Classification)
    ensures AtMost(CompareDocuments(n, d, e), limit) <==>
      && AtMost(Differ(d.ir.Get("contractVersion"), e.ir.Get("contractVersion"), Conditional), limit)
      && AtMost(CompareLists(Extensions(n), Listed(d.ir, "extensions"), Listed(e.ir, "extensions")), limit)
      && AtMost(CompareLists(Types(n, d, e), TypesOf(d), TypesOf(e)), limit)
  {
    hide CompareLists, Types, Extensions, Join, AtMost, Differ, Listed, Named;
    forall a, b ensures AtMost(Join(a, b), limit) <==> AtMost(a, limit) && AtMost(b, limit) { JoinBound(a, b, limit); }
  }

  /** The ends of a chain of releases stay within any limit the steps stay within, unless
      it is below conditional and the steps lose something. */
  lemma DocumentWithin(n: Numerics, d: Document, e: Document, f: Document, limit: Classification)
    requires Reads(n) && Chained(n, d, e, f) && (AtMost(Conditional, limit) || !Loses(n, d, e, f))
    requires AtMost(CompareDocuments(n, d, e), limit) && AtMost(CompareDocuments(n, e, f), limit)
    ensures AtMost(CompareDocuments(n, d, f), limit)
  {
    hide Reads, Chains, CompareLists, Types, Extensions, Join, AtMost, Differ, Listed, WritableBounds, Loses,
      CompareDocuments, TypesOf;
    DocumentBound(n, d, e, limit);
    DocumentBound(n, e, f, limit);
    DocumentBound(n, d, f, limit);
    var (a, b, c) := (Listed(d.ir, "extensions"), Listed(e.ir, "extensions"), Listed(f.ir, "extensions"));
    var (u, v, w) := (d.ir.Get("contractVersion"), e.ir.Get("contractVersion"), f.ir.Get("contractVersion"));
    DifferChain(u, v, w, Conditional);
    Carried(Differ(u, w, Conditional), Differ(u, v, Conditional), Differ(v, w, Conditional), limit);
    ExtensionsChain(n, a, b, c, limit);
    ListTriangle(Extensions(n), Extensions(n), Extensions(n), a, b, c, limit);
    TypesChain(n, d, e, f, limit);
    ListTriangle(Types(n, d, e), Types(n, e, f), Types(n, d, f), TypesOf(d), TypesOf(e), TypesOf(f), limit);
  }

  /** What the steps lose, the ends are conditional for. */
  lemma DocumentCosts(n: Numerics, d: Document, e: Document, f: Document)
    requires Reads(n) && Chained(n, d, e, f) && Loses(n, d, e, f)
    ensures AtMost(Conditional, CompareDocuments(n, d, f))
  {
    hide Reads, CompareLists, CompareType, Join, AtMost, Listed, Unique, CompareDocuments, TypesOf, TypeLoses,
      IdentityOf, WritableConstraints, UniqueMembers;
    var x, y, z :| x in TypesOf(d) && y in TypesOf(e) && z in TypesOf(f)
                   && IdentityOf(x) == IdentityOf(y) == IdentityOf(z) && TypeLoses(n, e, f, x, y, z);
    var worst := CompareDocuments(n, d, f);
    AtMostSelf(worst);
    DocumentBound(n, d, f, worst);
    TypeCosts(n, d, x, e, y, f, z);
    var i :| 0 <= i < |TypesOf(f)| && TypesOf(f)[i] == z;
    FoundIsOnly(TypesOf(f), i);
    var p := Types(n, d, f);
    NodeCosts(p, TypesOf(d), TypesOf(f));
    assert Before(p, x, TypesOf(f)) == CompareType(n, d, x, f, z);
    var listed := CompareLists(p, TypesOf(d), TypesOf(f));
    AtMostTrans(Conditional, CompareType(n, d, x, f, z), listed);
    AtMostTrans(Conditional, listed, worst);
  }

  lemma DocumentTriangle(n: Numerics, d: Document, e: Document, f: Document)
    requires Reads(n) && Chained(n, d, e, f)
    ensures var steps := Join(CompareDocuments(n, d, e), CompareDocuments(n, e, f));
      AtMost(CompareDocuments(n, d, f), steps) <==> !Loses(n, d, e, f) || AtMost(Conditional, steps)
  {
    hide Reads, Chained, CompareDocuments, Loses, Join, AtMost;
    var steps := Join(CompareDocuments(n, d, e), CompareDocuments(n, e, f));
    AtMostSelf(steps);
    JoinBound(CompareDocuments(n, d, e), CompareDocuments(n, e, f), steps);
    if !Loses(n, d, e, f) || AtMost(Conditional, steps) {
      DocumentWithin(n, d, e, f, steps);
    } else {
      DocumentCosts(n, d, e, f);
      if AtMost(CompareDocuments(n, d, f), steps) { AtMostTrans(Conditional, CompareDocuments(n, d, f), steps); }
    }
  }

  /** The ends of a chain of releases are classified at most as strictly as the stricter
      of its two steps, exactly when a document is invalid, the steps lose nothing, or a
      step is conditional already. */
  lemma Triangle(n: Numerics, a: Option<Document>, b: Option<Document>, c: Option<Document>)
    requires Reads(n)
    requires a.Some? && b.Some? && c.Some? ==> Chained(n, a.value, b.value, c.value)
    ensures var steps := Join(Classify(n, a, b), Classify(n, b, c));
      AtMost(Classify(n, a, c), steps) <==>
        a.None? || b.None? || c.None? || !Loses(n, a.value, b.value, c.value) || AtMost(Conditional, steps)
  {
    hide CompareDocuments, Chained, Reads, Loses;
    if a.Some? && b.Some? && c.Some? {
      DocumentTriangle(n, a.value, b.value, c.value);
    } else {
      InvalidWorst(Classify(n, a, c));
    }
  }

  lemma InvalidWorst(a: Classification)
    ensures AtMost(a, Invalid)
  {
  }

  // ----- a release against itself

  lemma FieldReflexive(n: Numerics, d: Document, x: Json)
    ensures CompareField(n, d, x, d, x) == Patch
  {
    hide EffectiveMultiplicity, ResolvedKey, Text, Nullable;
  }

  lemma OperationReflexive(n: Numerics, d: Document, x: Json)
    ensures ChangedOperation(n, d, x, d, x) == Patch
  {
    hide CompareField, Listed, Returns, IdentityOf;
    forall p ensures CompareField(n, d, p, d, p) == Patch { FieldReflexive(n, d, p); }
  }

  lemma HeadReflexive(d: Document, x: Json)
    ensures TypeHead(d, x, d, x) == Patch && ComparePositions(d, x, d, x) == Patch
  {
    hide PolicyRank, ResolvedKey, Text, Listed, Position;
  }

  lemma TypeReflexive(n: Numerics, d: Document, x: Json)
    requires UniqueMembers(x)
    ensures CompareType(n, d, x, d, x) == Patch
  {
    hide CompareLists, TypeHead, ComparePositions, Listed, Unique, CompareField, ChangedOperation, Written, ResolvedKey,
        Text, IsRequired;
    forall y ensures CompareField(n, d, y, d, y) == Patch { FieldReflexive(n, d, y); }
    forall y ensures ChangedOperation(n, d, y, d, y) == Patch { OperationReflexive(n, d, y); }
    HeadReflexive(d, x);
    ListReflexive(Constraints(n), Listed(x, "constraints"));
    ListReflexive(Fields(n, d, d), Listed(x, "fields"));
    ListReflexive(Variants(d, d), Listed(x, "variants"));
    ListReflexive(Relationships(n), Listed(x, "relationships"));
    ListReflexive(Operations(n, d, d), Listed(x, "operations"));
    ListReflexive(Clauses(n), Listed(x, "clauses"));
  }

  /** A valid document with unique identities is a patch of itself. */
  lemma Reflexive(n: Numerics, d: Document)
    requires UniqueIdentities(d)
    ensures Classify(n, Some(d), Some(d)) == Patch
  {
    hide CompareLists, CompareType, Listed, Named, Unique, Written, IsRequired;
    forall t | t in TypesOf(d) ensures CompareType(n, d, t, d, t) == Patch {
      TypeReflexive(n, d, t) by { hide UniqueMembers; }
    }
    ListReflexive(Types(n, d, d), TypesOf(d));
    ListReflexive(Extensions(n), Listed(d.ir, "extensions"));
  }

  // ----- the two ways the triangle fails

  /** With no float among the middle release's bounds nothing is hidden. */
  lemma IntegersHideNothing(n: Numerics, a: seq<Json>, b: seq<Json>, c: seq<Json>)
    requires forall v :: v in b && Operand(n, v).Some? ==> Operand(n, v).value.Integer?
    ensures NothingHidden(n, a, b, c)
  {
    hide Operand, IdentityOf;
  }

  function Minimum(bound: Json): Json {
    Object([("keyword", Str("min")), ("operands", Object([("value", bound)]))])
  }

  lemma MinimumReads(n: Numerics, bound: Json)
    ensures Text(Minimum(bound), "keyword") == Some("min") && Operand(n, Minimum(bound)) == BoundOf(n, bound)
  {
    var operands := [("value", bound)];
    var members := [("keyword", Str("min")), ("operands", Object(operands))];
    assert members[..1][..0] == [] && members[..1] == [("keyword", Str("min"))];
    assert Lookup(operands, "value") == Some(bound);
    assert Lookup(members, "operands") == Some(Object(operands));
    assert Lookup(members, "keyword") == Lookup(members[..1], "keyword") == Some(Str("min"));
  }

  lemma FourDigits(a: char, b: char, c: char, d: char)
    requires Numbers.IsDigit(a) && Numbers.IsDigit(b) && Numbers.IsDigit(c) && Numbers.IsDigit(d)
    ensures Numbers.NatOf([a, b, c, d]) ==
        1000 * Numbers.DigitOf(a) + 100 * Numbers.DigitOf(b) + 10 * Numbers.DigitOf(c) + Numbers.DigitOf(d)
  {
    assert [a, b, c, d][..3] == [a, b, c];
    assert [a, b, c][..2] == [a, b];
    assert [a, b][..1] == [a];
    assert Numbers.NatOf([a]) == 10 * Numbers.NatOf([]) + Numbers.DigitOf(a);
    assert Numbers.NatOf([a, b]) == 10 * Numbers.NatOf([a]) + Numbers.DigitOf(b);
    assert Numbers.NatOf([a, b, c]) == 10 * Numbers.NatOf([a, b]) + Numbers.DigitOf(c);
  }

  lemma SixteenDigits(last: char)
    requires last == '2' || last == '3'
    ensures var s := "900719925474099" + [last];
            Numbers.AllDigits(s) && Numbers.NatOf(s) == 9007199254740990 + Numbers.DigitOf(last)
  {
    hide Numbers.NatOf, Numbers.Pow10;
    FourDigits('9', '0', '0', '7');
    FourDigits('1', '9', '9', '2');
    FourDigits('5', '4', '7', '4');
    FourDigits('0', '9', '9', last);
    var t := ['0', '9', '9', last];
    TenThousand();
    Numbers.NatOfAppend("9007", "1992");
    Numbers.NatOfAppend("9007" + "1992", "5474");
    Numbers.NatOfAppend("9007" + "1992" + "5474", t);
    assert "900719925474099" + [last] == "9007" + "1992" + "5474" + t;
  }

  lemma TenThousand()
    ensures Numbers.Pow10(4) == 10000
  {
    assert Numbers.Pow10(2) == 100;
    assert Numbers.Pow10(3) == 1000;
  }

  /** Two minimum bounds past 2^53, one more apart, with the float they share
      between them: each step widens, the whole tightens. */
  lemma FloatHidesMove(n: Numerics)
    requires Reads(n) && n.value("9007199254740992") == Some(EXACT_BOUND)
    requires n.round(9007199254740992) == n.round(9007199254740993) == EXACT_BOUND
    ensures var (x, y, z) := (Minimum(Str("9007199254740992")), Minimum(Number("9007199254740992")),
                              Minimum(Str("9007199254740993")));
            && AtMost(ChangedConstraint(n, x, y), Additive) && AtMost(ChangedConstraint(n, y, z), Additive)
            && ChangedConstraint(n, x, z) == Conditional && HiddenTightening(n, x, y, z)
  {
    hide Reads, Monotone, Minimum, ChangedConstraint, HiddenTightening, BoundOf, Canonical.Writable, Numbers.NatOf,
        Text, Operand;
    var (lower, upper) := ("9007199254740992", "9007199254740993");
    SixteenDigits('2');
    SixteenDigits('3');
    assert lower == "900719925474099" + ['2'] && upper == "900719925474099" + ['3'];
    BoundsRead(n, lower, upper);
    MinimumReads(n, Str(lower));
    MinimumReads(n, Number(lower));
    MinimumReads(n, Str(upper));
    MinimumWritable(n, lower);
    MinimumWritable(n, upper);
    StepsHideMove(n, Minimum(Str(lower)), Minimum(Number(lower)), Minimum(Str(upper)));
  }

  lemma MinimumWritable(n: Numerics, text: string)
    ensures Canonical.Writable(n.decoder, Minimum(Str(text)))
  {
    assert Canonical.Writable(n.decoder, Object([("value", Str(text))]));
  }

  lemma MinimumMove(n: Numerics, x: Json, y: Json)
    requires Text(x, "keyword") == Text(y, "keyword") == Some("min") && Operand(n, x).Some? && Operand(n, y).Some?
    ensures OperandMove(n, x, y) == if Exceeds(n, Operand(n, y).value, Operand(n, x).value) then Conditional
        else Additive
  {
    hide Text, Operand, Exceeds;
  }

  lemma StepsHideMove(n: Numerics, x: Json, y: Json, z: Json)
    requires Reads(n) && Canonical.Writable(n.decoder, x) && Canonical.Writable(n.decoder, z)
    requires n.round(9007199254740992) == n.round(9007199254740993) == EXACT_BOUND
    requires Text(x, "keyword") == Text(y, "keyword") == Text(z, "keyword") == Some("min")
    requires Operand(n, x) == Some(Integer(9007199254740992)) && Operand(n, y) == Some(Float(EXACT_BOUND))
    requires Operand(n, z) == Some(Integer(9007199254740993))
    ensures AtMost(ChangedConstraint(n, x, y), Additive) && AtMost(ChangedConstraint(n, y, z), Additive)
    ensures ChangedConstraint(n, x, z) == Conditional && HiddenTightening(n, x, y, z)
  {
    hide Reads, Canonical.Writable, Written, Operand, Text, OperandMove;
    MinimumMove(n, x, y);
    MinimumMove(n, y, z);
    MinimumMove(n, x, z);
    if Written(n, x) == Written(n, z) { SameConstraint(n, x, z); }
  }

  lemma BoundsRead(n: Numerics, lower: string, upper: string)
    requires |lower| > 0 && |upper| > 0 && lower[0] == upper[0] == '9' && Numbers.AllDigits(lower)
    requires Numbers.AllDigits(upper)
    requires Numbers.NatOf(lower) == 9007199254740992 && Numbers.NatOf(upper) == 9007199254740993
    requires n.value(lower) == Some(EXACT_BOUND)
    ensures BoundOf(n, Str(lower)) == Some(Integer(9007199254740992))
    ensures BoundOf(n, Str(upper)) == Some(Integer(9007199254740993))
    ensures BoundOf(n, Number(lower)) == Some(Float(EXACT_BOUND))
  {
    hide Numbers.NatOf;
  }

  // ----- releases of one type

  function Itself(name: string): string { name }

  function Bundle(policy: Option<Json>, ir: Json): Json {
    match policy
    case None => Object([("ir", ir)])
    case Some(stated) => Object([("consumerPolicy", stated), ("ir", ir)])
  }

  function OneType(definition: Json): Json { Object([("types", Array([definition]))]) }

  /** A release of one type, under a consumer policy or none. */
  function Release(policy: Option<Json>, definition: Json): Document {
    Document(Bundle(policy, OneType(definition)), OneType(definition), Itself)
  }

  /** It is what the classifier reads of its bundle. */
  lemma ReleaseRead(policy: Option<Json>, definition: Json)
    ensures var d := Release(policy, definition);
      Read(d.bundle, Itself) == Some(d) && d.bundle.Get("consumerPolicy") == policy
  {
    var ir := OneType(definition);
    hide OneType;
    match policy
    case None =>
      LookupOne("ir", ir, "ir");
      LookupOne("ir", ir, "consumerPolicy");
    case Some(stated) =>
      LookupTwo("consumerPolicy", stated, "ir", ir, "ir");
      LookupTwo("consumerPolicy", stated, "ir", ir, "consumerPolicy");
  }

  /** A type of the one name with one list of members. */
  function Holding(name: string, node: Json): Json {
    Object([("identity", Str("T")), (name, Array([node]))])
  }

  const BARE := Object([("identity", Str("T"))])

  lemma LookupOne(key: string, v: Json, name: string)
    ensures Lookup([(key, v)], name) == if name == key then Some(v) else None
  {
    var none: seq<(string, Json)> := [];
    assert [(key, v)][..0] == none;
  }

  lemma LookupTwo(key: string, v: Json, other: string, w: Json, name: string)
    ensures Lookup([(key, v), (other, w)], name) == if name == other then Some(w) else if name == key then Some(v)
        else None
  {
    assert [(key, v), (other, w)][..1] == [(key, v)];
    LookupOne(key, v, name);
  }

  lemma HoldingReads(name: string, node: Json, other: string)
    requires name != "identity" && other != "identity"
    ensures Holding(name, node).Get(other) == if other == name then Some(Array([node])) else None
    ensures Text(Holding(name, node), "identity") == Some("T")
  {
    LookupTwo("identity", Str("T"), name, Array([node]), other);
    LookupTwo("identity", Str("T"), name, Array([node]), "identity");
  }

  lemma BareReads(other: string)
    requires other != "identity"
    ensures BARE.Get(other) == None && Text(BARE, "identity") == Some("T")
  {
    LookupOne("identity", Str("T"), other);
    LookupOne("identity", Str("T"), "identity");
  }

  lemma SoleList(p: Policy, x: Json, y: Json)
    requires IdentityOf(x) == IdentityOf(y)
    ensures CompareLists(p, [x], [y]) == p.changed(x, y)
  {
    var none: seq<Json> := [];
    assert [x][..0] == none && [y][..0] == none;
    assert FindNode([y], IdentityOf(x)) == Some(y) && FindNode([x], IdentityOf(y)) == Some(x);
    hide FindNode, IdentityOf;
    assert Earlier(p, none, [y]) == Patch && Later(p, [x], none) == Patch;
    assert Earlier(p, [x], [y]) == Join(Patch, p.changed(x, y));
    assert Later(p, [x], [y]) == Join(Patch, Patch);
  }

  lemma NewList(p: Policy, y: Json)
    ensures CompareLists(p, [], [y]) == p.added(y)
  {
    var none: seq<Json> := [];
    assert [y][..0] == none;
    assert FindNode(none, IdentityOf(y)) == None;
    hide IdentityOf;
    assert Earlier(p, none, [y]) == Patch && Later(p, none, none) == Patch;
    assert Later(p, none, [y]) == Join(Patch, p.added(y));
  }

  lemma NoList(p: Policy)
    ensures CompareLists(p, [], []) == Patch
  {
  }

  lemma SoleType(policy: Option<Json>, t: Json)
    requires Text(t, "identity").Some?
    ensures var d := Release(policy, t);
      TypesOf(d) == [t] && Listed(d.ir, "extensions") == [] && d.ir.Get("contractVersion") == None
  {
    hide Text;
    LookupOne("types", Array([t]), "types");
    LookupOne("types", Array([t]), "extensions");
    LookupOne("types", Array([t]), "contractVersion");
    var none: seq<Json> := [];
    assert [t][1..] == none;
    assert Named(none) == none;
  }

  /** Releases of one type are compared by it. */
  lemma SoleRelease(n: Numerics, b: Option<Json>, t: Json, c: Option<Json>, u: Json)
    requires Text(t, "identity") == Text(u, "identity") && Text(t, "identity").Some?
    ensures CompareDocuments(n, Release(b, t), Release(c, u)) == CompareType(n, Release(b, t), t, Release(c, u), u)
  {
    var (d, e) := (Release(b, t), Release(c, u));
    assert IdentityOf(t) == IdentityOf(u) by { hide Text; }
    hide Text, TypesOf, Release, CompareType, Types, Extensions, CompareLists, Listed, Named, Join, IdentityOf;
    SoleType(b, t);
    SoleType(c, u);
    NoList(Extensions(n));
    SoleList(Types(n, d, e), t, u);
    TypesAre(d);
    TypesAre(e);
    TypesChanged(n, d, t, e, u);
    JoinIdentity(Patch);
    JoinIdentity(CompareType(n, d, t, e, u));
  }

  lemma TypesChanged(n: Numerics, d: Document, t: Json, e: Document, u: Json)
    ensures Types(n, d, e).changed(t, u) == CompareType(n, d, t, e, u)
  {
    hide CompareType;
  }

  lemma TypesAre(d: Document)
    ensures TypesOf(d) == Named(Listed(d.ir, "types"))
  {
  }

  /** A type of which only lists are compared, and those without positions. */
  predicate Plain(t: Json) {
    && t.Get("kind") == None && t.Get("scalar") == None && t.Get("target") == None && t.Get("items") == None
    && t.Get("values") == None && t.Get("unknownPolicy") == None && t.Get("positions") == None
  }

  lemma PlainHead(d: Document, x: Json, e: Document, y: Json)
    requires Plain(x) && Plain(y)
    ensures TypeHead(d, x, e, y) == Patch && ComparePositions(d, x, e, y) == Patch
  {
    hide Lookup;
  }

  lemma HoldingPlain(name: string, node: Json)
    requires name == "constraints" || name == "fields"
    ensures Plain(Holding(name, node))
  {
    hide Holding, Json.Get;
    HoldingReads(name, node, "kind");
    HoldingReads(name, node, "scalar");
    HoldingReads(name, node, "target");
    HoldingReads(name, node, "items");
    HoldingReads(name, node, "values");
    HoldingReads(name, node, "unknownPolicy");
    HoldingReads(name, node, "positions");
  }

  lemma BarePlain()
    ensures Plain(BARE)
  {
    hide Json.Get;
    BareReads("kind");
    BareReads("scalar");
    BareReads("target");
    BareReads("items");
    BareReads("values");
    BareReads("unknownPolicy");
    BareReads("positions");
  }

  /** A plain type carries no list but the named one. */
  predicate Only(t: Json, name: string) {
    && (name != "constraints" ==> Listed(t, "constraints") == []) && (name != "fields" ==> Listed(t, "fields") == [])
    && Listed(t, "variants") == [] && Listed(t, "relationships") == [] && Listed(t, "operations") == []
    && Listed(t, "clauses") == []
  }

  lemma HoldingOnly(name: string, node: Json)
    requires name == "constraints" || name == "fields"
    ensures Only(Holding(name, node), name) && Listed(Holding(name, node), name) == [node]
  {
    hide Holding, Json.Get;
    HoldingReads(name, node, name);
    HoldingReads(name, node, "constraints");
    HoldingReads(name, node, "fields");
    HoldingReads(name, node, "variants");
    HoldingReads(name, node, "relationships");
    HoldingReads(name, node, "operations");
    HoldingReads(name, node, "clauses");
  }

  lemma BareOnly()
    ensures Only(BARE, "fields") && Listed(BARE, "fields") == []
  {
    hide Json.Get;
    BareReads("constraints");
    BareReads("fields");
    BareReads("variants");
    BareReads("relationships");
    BareReads("operations");
    BareReads("clauses");
  }

  lemma OnlyConstraints(n: Numerics, d: Document, x: Json, e: Document, y: Json)
    requires Plain(x) && Plain(y) && Only(x, "constraints") && Only(y, "constraints")
    ensures CompareType(n, d, x, e, y) ==
      CompareLists(Constraints(n), Listed(x, "constraints"), Listed(y, "constraints"))
  {
    hide TypeHead, ComparePositions, Plain, CompareLists, Constraints, Fields, Variants, Relationships, Operations,
      Clauses, Listed, Join;
    PlainHead(d, x, e, y);
    forall p ensures CompareLists(p, [], []) == Patch { NoList(p); }
    forall a ensures Join(a, Patch) == a && Join(Patch, a) == a { JoinIdentity(a); }
  }

  lemma OnlyFields(n: Numerics, d: Document, x: Json, e: Document, y: Json)
    requires Plain(x) && Plain(y) && Only(x, "fields") && Only(y, "fields")
    ensures CompareType(n, d, x, e, y) == CompareLists(Fields(n, d, e), Listed(x, "fields"), Listed(y, "fields"))
  {
    hide TypeHead, ComparePositions, Plain, CompareLists, Constraints, Fields, Variants, Relationships, Operations,
      Clauses, Listed, Join;
    PlainHead(d, x, e, y);
    forall p ensures CompareLists(p, [], []) == Patch { NoList(p); }
    forall a ensures Join(a, Patch) == a && Join(Patch, a) == a { JoinIdentity(a); }
  }

  /** A type whose one constraint is a minimum. */
  function Limited(bound: Json): Json { Holding("constraints", Minimum(bound)) }

  lemma MinimumNameless(bound: Json)
    ensures IdentityOf(Minimum(bound)) == ""
  {
    LookupTwo("keyword", Str("min"), "operands", Object([("value", bound)]), "identity");
  }

  lemma LimitedReleases(n: Numerics, v: Json, w: Json)
    ensures CompareDocuments(n, Release(None, Limited(v)), Release(None, Limited(w))) ==
      ChangedConstraint(n, Minimum(v), Minimum(w))
  {
    hide Holding, Minimum, Release, CompareDocuments, CompareType, Plain, Only, ChangedConstraint, CompareLists, Listed,
      Text, IdentityOf;
    var (x, y) := (Minimum(v), Minimum(w));
    var (t, u) := (Holding("constraints", x), Holding("constraints", y));
    HoldingReads("constraints", x, "constraints");
    HoldingReads("constraints", y, "constraints");
    HoldingPlain("constraints", x);
    HoldingPlain("constraints", y);
    HoldingOnly("constraints", x);
    HoldingOnly("constraints", y);
    SoleRelease(n, None, t, None, u);
    OnlyConstraints(n, Release(None, t), t, Release(None, u), u);
    MinimumNameless(v);
    MinimumNameless(w);
    SoleList(Constraints(n), x, y);
  }

  /** Three releases whose minimum tightens behind a float: each step widens, the ends
      are conditional. */
  lemma ReleasesHideMove(n: Numerics)
    requires Reads(n) && n.value("9007199254740992") == Some(EXACT_BOUND)
    requires n.round(9007199254740992) == n.round(9007199254740993) == EXACT_BOUND
    ensures var d := Release(None, Limited(Str("9007199254740992")));
            var e := Release(None, Limited(Number("9007199254740992")));
            var f := Release(None, Limited(Str("9007199254740993")));
            && AtMost(CompareDocuments(n, d, e), Additive) && AtMost(CompareDocuments(n, e, f), Additive)
            && CompareDocuments(n, d, f) == Conditional
  {
    hide Reads, ChangedConstraint, HiddenTightening, CompareDocuments, Minimum, Limited, Release, AtMost;
    var (lower, between, upper) := (Str("9007199254740992"), Number("9007199254740992"), Str("9007199254740993"));
    FloatHidesMove(n);
    LimitedReleases(n, lower, between);
    LimitedReleases(n, between, upper);
    LimitedReleases(n, lower, upper);
  }

  /** An optional field, and a policy that keeps what it does not know. */
  const FIELD := Object([("identity", Str("g"))])
  const TOLERANT := Object([("unknownExtensions", Str("preserve"))])

  lemma FieldReads(name: string)
    ensures FIELD.Get(name) == if name == "identity" then Some(Str("g")) else None
  {
    LookupOne("identity", Str("g"), name);
  }

  lemma FieldOptional(n: Numerics)
    ensures EffectiveMultiplicity(n, FIELD) == Multiplicity(0, Some(1), false, false)
  {
    hide Json.Get;
    FieldReads("multiplicity");
    FieldReads("presence");
  }

  lemma FieldSame(n: Numerics, d: Document, e: Document)
    ensures CompareField(n, d, FIELD, e, FIELD) == Patch
  {
    hide Json.Get, EffectiveMultiplicity;
    FieldReads("typeRef");
  }

  lemma PoliciesTolerate(t: Json)
    ensures OptionalAddition(Release(Some(TOLERANT), t).bundle) == Additive
    ensures OptionalAddition(Release(None, t).bundle) == Conditional
  {
    hide Release, Lookup;
    ReleaseRead(Some(TOLERANT), t);
    ReleaseRead(None, t);
    LookupOne("unknownExtensions", Str("preserve"), "unknownExtensions");
  }

  lemma GrownReleases(n: Numerics, b: Option<Json>, c: Option<Json>)
    ensures CompareDocuments(n, Release(b, BARE), Release(c, Holding("fields", FIELD))) ==
      OptionalAddition(Release(c, Holding("fields", FIELD)).bundle)
    ensures CompareDocuments(n, Release(b, Holding("fields", FIELD)), Release(c, Holding("fields", FIELD))) == Patch
  {
    hide Holding, CompareDocuments, CompareType, Plain, Only, CompareLists, Listed, Text, IdentityOf, CompareField,
      EffectiveMultiplicity, OptionalAddition;
    var t := Holding("fields", FIELD);
    HoldingReads("fields", FIELD, "fields");
    BareReads("fields");
    HoldingPlain("fields", FIELD);
    BarePlain();
    HoldingOnly("fields", FIELD);
    BareOnly();
    var (d, e, g) := (Release(b, BARE), Release(b, t), Release(c, t));
    SoleRelease(n, b, BARE, c, t);
    SoleRelease(n, b, t, c, t);
    OnlyFields(n, d, BARE, g, t);
    OnlyFields(n, e, t, g, t);
    NewList(Fields(n, d, g), FIELD);
    SoleList(Fields(n, e, g), FIELD, FIELD);
    FieldOptional(n);
    FieldSame(n, e, g);
    assert Fields(n, d, g).added(FIELD) == AddedField(n, g.bundle, FIELD) == OptionalAddition(g.bundle);
    assert Fields(n, e, g).changed(FIELD, FIELD) == CompareField(n, e, FIELD, g, FIELD);
  }

  /** A release that adds an optional field under a policy that tolerates it, then the
      same IR under none: additive, a patch, and conditional from end to end. */
  lemma PolicyWithdrawn(n: Numerics)
    ensures var t := Holding("fields", FIELD);
            var (d, e, f) := (Release(Some(TOLERANT), BARE), Release(Some(TOLERANT), t), Release(None, t));
            && CompareDocuments(n, d, e) == Additive && CompareDocuments(n, e, f) == Patch
            && CompareDocuments(n, d, f) == Conditional
  {
    hide CompareDocuments, OptionalAddition, Holding, Release;
    PoliciesTolerate(Holding("fields", FIELD));
    GrownReleases(n, Some(TOLERANT), Some(TOLERANT));
    GrownReleases(n, Some(TOLERANT), None);
  }
}
