/** Object members: repeated names resolved to their last occurrence, and the
    order of names by UTF-16 code unit (section 3.2.3 of RFC 8785). */
module Members {
  import opened Wrappers

  // ----- UTF-16 order

  function Units(c: char): seq<nat> {
    var n := c as int;
    if n < 0x1_0000 then [n] else [0xD800 + (n - 0x1_0000) / 0x400, 0xDC00 + (n - 0x1_0000) % 0x400]
  }

  /** The UTF-16 code units of a text. */
  function Utf16(s: string): seq<nat> {
    if s == "" then [] else Units(s[0]) + Utf16(s[1..])
  }

  predicate Precedes(a: seq<nat>, b: seq<nat>) {
    if a == [] then b != []
    else b != [] && (a[0] < b[0] || (a[0] == b[0] && Precedes(a[1..], b[1..])))
  }

  predicate NameLess(a: string, b: string) { Precedes(Utf16(a), Utf16(b)) }

  lemma UnitsPrefixFree(c: char, d: char, u: seq<nat>, w: seq<nat>)
    requires Units(c) + u == Units(d) + w
    ensures c == d && u == w
  {
    var n, m := c as int, d as int;
    assert (Units(c) + u)[0] == (Units(d) + w)[0];
    if n >= 0x1_0000 {
      assert (Units(c) + u)[1] == (Units(d) + w)[1];
    }
    assert u == (Units(c) + u)[|Units(c)|..];
    assert w == (Units(d) + w)[|Units(d)|..];
  }

  lemma {:induction false} Utf16Injective(a: string, b: string)
    requires Utf16(a) == Utf16(b)
    ensures a == b
  {
    if a != "" && b != "" {
      UnitsPrefixFree(a[0], b[0], Utf16(a[1..]), Utf16(b[1..]));
      Utf16Injective(a[1..], b[1..]);
      assert a == [a[0]] + a[1..];
      assert b == [b[0]] + b[1..];
    }
  }

  lemma {:induction false} PrecedesTotal(a: seq<nat>, b: seq<nat>)
    ensures a == b || Precedes(a, b) || Precedes(b, a)
    ensures !(Precedes(a, b) && Precedes(b, a)) && !Precedes(a, a)
  {
    if a != [] && b != [] {
      PrecedesTotal(a[1..], b[1..]);
      if a[0] == b[0] && a[1..] == b[1..] {
        assert a == [a[0]] + a[1..] == b;
      }
    }
    if a != [] { PrecedesTotal(a[1..], a[1..]); }
  }

  lemma {:induction false} PrecedesTrans(a: seq<nat>, b: seq<nat>, c: seq<nat>)
    requires Precedes(a, b) && Precedes(b, c)
    ensures Precedes(a, c)
  {
    if a != [] && a[0] == b[0] == c[0] {
      PrecedesTrans(a[1..], b[1..], c[1..]);
    }
  }

  /** Names are strictly and totally ordered. */
  lemma NameOrder(a: string, b: string)
    ensures a == b || NameLess(a, b) || NameLess(b, a)
    ensures !(NameLess(a, b) && NameLess(b, a)) && !NameLess(a, a)
  {
    PrecedesTotal(Utf16(a), Utf16(b));
    if Utf16(a) == Utf16(b) { Utf16Injective(a, b); }
  }

  lemma NameLessTrans(a: string, b: string, c: string)
    requires NameLess(a, b) && NameLess(b, c)
    ensures NameLess(a, c)
  {
    PrecedesTrans(Utf16(a), Utf16(b), Utf16(c));
  }

  /** The first text is the lesser at the first difference, or a proper prefix. */
  ghost predicate DiffersBelow(less: (char, char) -> bool, a: string, b: string) {
    exists k :: 0 <= k <= |a| && k < |b| && a[..k] == b[..k] && (k < |a| ==> less(a[k], b[k]))
  }

  lemma PrefixRest(a: string, b: string, k: nat)
    requires 0 < k <= |a| && k <= |b|
    ensures a[..k] == b[..k] <==> a[0] == b[0] && a[1..][..k - 1] == b[1..][..k - 1]
  {
    assert a[..k] == [a[0]] + a[1..][..k - 1];
    assert b[..k] == [b[0]] + b[1..][..k - 1];
    RestOfConcat([a[0]], a[1..][..k - 1]);
    RestOfConcat([b[0]], b[1..][..k - 1]);
  }

  lemma DiffersRest(less: (char, char) -> bool, a: string, b: string)
    requires a != "" && b != "" && !less(a[0], a[0])
    ensures DiffersBelow(less, a, b) <==> if a[0] == b[0] then DiffersBelow(less, a[1..], b[1..]) else less(a[0], b[0])
  {
    if k :| 0 <= k <= |a| && k < |b| && a[..k] == b[..k] && (k < |a| ==> less(a[k], b[k])) {
      if k > 0 {
        PrefixRest(a, b, k);
        var fewer := k - 1;
        assert a[1..][..fewer] == b[1..][..fewer];
      }
    }
    if a[0] == b[0] && DiffersBelow(less, a[1..], b[1..]) {
      var k :| 0 <= k <= |a[1..]| && k < |b[1..]| && a[1..][..k] == b[1..][..k]
        && (k < |a[1..]| ==> less(a[1..][k], b[1..][k]));
      var more := k + 1;
      PrefixRest(a, b, more);
      assert a[..more] == b[..more];
    }
    if less(a[0], b[0]) { assert a[..0] == b[..0]; }
  }

  lemma DiffersEmpty(less: (char, char) -> bool, a: string, b: string)
    requires a == "" || b == ""
    ensures DiffersBelow(less, a, b) <==> a == "" && b != ""
  {
    if a == "" && b != "" { assert a[..0] == b[..0]; }
  }

  /** Characters of two units stand between those below the surrogates and those above them. */
  function Plane(c: char): nat { if c < '\U{E000}' then 0 else if c >= '\U{10000}' then 1 else 2 }

  predicate UnitBefore(c: char, d: char) { Plane(c) < Plane(d) || (Plane(c) == Plane(d) && c < d) }

  lemma UnitsBefore(c: char, d: char, u: seq<nat>, w: seq<nat>)
    ensures Precedes(Units(c) + u, Units(d) + w) <==> if c == d then Precedes(u, w) else UnitBefore(c, d)
  {
    var (a, b) := (Units(c) + u, Units(d) + w);
    assert a[1..] == Units(c)[1..] + u && b[1..] == Units(d)[1..] + w;
    if |Units(c)| == 2 { assert a[1..][1..] == u; }
    if |Units(d)| == 2 { assert b[1..][1..] == w; }
  }

  /** Names are ordered by the first character in which they differ, a name after its prefixes. */
  lemma {:induction false} NameLessMeans(a: string, b: string)
    ensures NameLess(a, b) <==> DiffersBelow(UnitBefore, a, b)
    decreases |a|
  {
    if a != "" && b != "" {
      NameLessMeans(a[1..], b[1..]);
      UnitsBefore(a[0], b[0], Utf16(a[1..]), Utf16(b[1..]));
      DiffersRest(UnitBefore, a, b);
    } else {
      DiffersEmpty(UnitBefore, a, b);
      if b != "" { assert Units(b[0]) != []; }
    }
  }

  // ----- repeated names

  ghost predicate Distinct<T>(ms: seq<(string, T)>) {
    forall i, j :: 0 <= i < j < |ms| ==> ms[i].0 != ms[j].0
  }

  /** No later member repeats the name of member `i`. */
  predicate IsLast<T>(ms: seq<(string, T)>, i: nat) {
    i < |ms| && forall j :: i < j < |ms| ==> ms[j].0 != ms[i].0
  }

  /** `m` is the last member of its name. */
  ghost predicate Wins<T(!new)>(ms: seq<(string, T)>, m: (string, T)) {
    exists i: nat :: IsLast(ms, i) && ms[i] == m
  }

  function Find<T>(ms: seq<(string, T)>, name: string): (at: nat)
    ensures at <= |ms|
    ensures at < |ms| ==> ms[at].0 == name
    ensures forall i :: 0 <= i < at ==> ms[i].0 != name
  {
    if ms == [] || ms[0].0 == name then 0 else 1 + Find(ms[1..], name)
  }

  /** Each name once, at its first position, with its last value. */
  function Resolve<T>(ms: seq<(string, T)>): seq<(string, T)> {
    if ms == [] then []
    else Put(Resolve(ms[..|ms| - 1]), ms[|ms| - 1])
  }

  function Put<T>(r: seq<(string, T)>, m: (string, T)): seq<(string, T)> {
    var at := Find(r, m.0);
    if at < |r| then r[at := m] else r + [m]
  }

  method ResolvedMembers<T>(members: seq<(string, T)>) returns (resolved: seq<(string, T)>)
    ensures resolved == Resolve(members)
  {
    resolved := [];
    for i := 0 to |members|
      invariant resolved == Resolve(members[..i])
    {
      assert members[..i + 1][..i] == members[..i];
      var at := Find(resolved, members[i].0);
      if at < |resolved| {
        resolved := resolved[at := members[i]];
      } else {
        resolved := resolved + [members[i]];
      }
    }
    assert members[..|members|] == members;
  }

  lemma PutMembers<T(!new)>(r: seq<(string, T)>, m: (string, T), x: (string, T))
    requires Distinct(r)
    ensures Distinct(Put(r, m))
    ensures x in Put(r, m) <==> x == m || (x in r && x.0 != m.0)
  {
    var at := Find(r, m.0);
    var p := Put(r, m);
    if x in r && x.0 != m.0 {
      var i :| 0 <= i < |r| && r[i] == x;
      assert p[i] == x;
    }
    if x == m {
      assert p[at] == m;
    }
  }

  lemma LastInPrefix<T>(ms: seq<(string, T)>, i: nat)
    requires i + 1 < |ms|
    ensures IsLast(ms, i) <==> IsLast(ms[..|ms| - 1], i) && ms[|ms| - 1].0 != ms[i].0
  {
    var b := ms[..|ms| - 1];
    if IsLast(b, i) && ms[|ms| - 1].0 != ms[i].0 {
      forall j | i < j < |ms| ensures ms[j].0 != ms[i].0 {
        if j < |b| { assert b[j].0 != b[i].0; }
      }
    }
  }

  lemma WinsStep<T(!new)>(ms: seq<(string, T)>, x: (string, T))
    requires ms != []
    ensures Wins(ms, x) <==> x == ms[|ms| - 1] || (x.0 != ms[|ms| - 1].0 && Wins(ms[..|ms| - 1], x))
  {
    hide IsLast;
    var n := |ms| - 1;
    LastIsLast(ms);
    if Wins(ms, x) {
      var i := WinsAt(ms, x);
      if i < n { LastInPrefix(ms, i); }
    }
    if x.0 != ms[n].0 && Wins(ms[..n], x) {
      var i := WinsAt(ms[..n], x);
      LastInPrefix(ms, i);
    }
  }

  lemma WinsAt<T(!new)>(ms: seq<(string, T)>, x: (string, T)) returns (i: nat)
    requires Wins(ms, x)
    ensures i < |ms| && IsLast(ms, i) && ms[i] == x
  {
    i :| IsLast(ms, i) && ms[i] == x;
  }

  lemma LastIsLast<T>(ms: seq<(string, T)>)
    requires ms != []
    ensures IsLast(ms, |ms| - 1)
  {
  }

  /** Resolving keeps exactly the last member of each name, each name once. */
  lemma {:induction false} ResolveWins<T(!new)>(ms: seq<(string, T)>, x: (string, T))
    ensures Distinct(Resolve(ms))
    ensures x in Resolve(ms) <==> Wins(ms, x)
  {
    if ms != [] {
      ResolveWins(ms[..|ms| - 1], x);
      PutMembers(Resolve(ms[..|ms| - 1]), ms[|ms| - 1], x);
      WinsStep(ms, x);
    }
  }

  /** Every name has a winning member. */
  lemma {:induction false} NameWins<T(!new)>(ms: seq<(string, T)>, i: nat) returns (j: nat)
    requires i < |ms|
    ensures i <= j && IsLast(ms, j) && ms[j].0 == ms[i].0
    decreases |ms| - i
  {
    j := i;
    if !IsLast(ms, i) {
      var k :| i < k < |ms| && ms[k].0 == ms[i].0;
      j := NameWins(ms, k);
    }
  }

  lemma {:induction false} ResolveOfDistinct<T>(ms: seq<(string, T)>)
    requires Distinct(ms)
    ensures Resolve(ms) == ms
  {
    if ms != [] {
      var n := |ms| - 1;
      ResolveOfDistinct(ms[..n]);
      assert ms == ms[..n] + [ms[n]];
    }
  }

  // ----- members in name order

  ghost predicate Ascending<T>(ms: seq<(string, T)>) {
    forall i, j :: 0 <= i < j < |ms| ==> NameLess(ms[i].0, ms[j].0)
  }

  function Insert<T>(m: (string, T), ms: seq<(string, T)>): seq<(string, T)> {
    if ms == [] || !NameLess(ms[0].0, m.0) then [m] + ms else [ms[0]] + Insert(m, ms[1..])
  }

  /** A stable sort by name, in UTF-16 code unit order. */
  function Sort<T>(ms: seq<(string, T)>): seq<(string, T)> {
    if ms == [] then [] else Insert(ms[0], Sort(ms[1..]))
  }

  lemma {:induction false} InsertElements<T>(m: (string, T), ms: seq<(string, T)>)
    ensures multiset(Insert(m, ms)) == multiset{m} + multiset(ms)
  {
    if ms != [] && NameLess(ms[0].0, m.0) {
      InsertElements(m, ms[1..]);
      assert ms == [ms[0]] + ms[1..];
    }
  }

  lemma {:induction false} SortElements<T>(ms: seq<(string, T)>)
    ensures multiset(Sort(ms)) == multiset(ms)
  {
    if ms != [] {
      SortElements(ms[1..]);
      InsertElements(ms[0], Sort(ms[1..]));
      assert ms == [ms[0]] + ms[1..];
    }
  }

  lemma InElements<T>(a: seq<T>, b: seq<T>, x: T)
    requires multiset(a) == multiset(b)
    ensures x in a <==> x in b
  {
    assert x in a <==> x in multiset(a);
    assert x in b <==> x in multiset(b);
  }

  lemma {:induction false} InsertAscending<T>(m: (string, T), ms: seq<(string, T)>)
    requires Ascending(ms) && forall x :: x in ms ==> x.0 != m.0
    ensures Ascending(Insert(m, ms))
  {
    if ms != [] {
      NameOrder(ms[0].0, m.0);
      if NameLess(ms[0].0, m.0) {
        InsertAscending(m, ms[1..]);
        InsertElements(m, ms[1..]);
        var rest := Insert(m, ms[1..]);
        forall j | 0 <= j < |rest| ensures NameLess(ms[0].0, rest[j].0) {
          assert rest[j] in multiset(rest);
          assert rest[j] == m || rest[j] in ms[1..];
        }
      } else {
        assert NameLess(m.0, ms[0].0);
        forall j | 0 <= j < |ms| ensures NameLess(m.0, ms[j].0) {
          if j > 0 { NameLessTrans(m.0, ms[0].0, ms[j].0); }
        }
      }
    }
  }

  /** Sorting distinct names puts them in strictly ascending order. */
  lemma {:induction false} SortAscending<T>(ms: seq<(string, T)>)
    requires Distinct(ms)
    ensures Ascending(Sort(ms))
  {
    if ms != [] {
      SortAscending(ms[1..]);
      SortElements(ms[1..]);
      forall x | x in Sort(ms[1..]) ensures x.0 != ms[0].0 {
        InElements(Sort(ms[1..]), ms[1..], x);
      }
      InsertAscending(ms[0], Sort(ms[1..]));
    }
  }

  lemma HeadIn<T>(s: seq<T>)
    ensures s != [] ==> s[0] in s
  {
  }

  /** Ascending members are determined by which members they are. */
  lemma {:induction false} AscendingUnique<T(!new)>(a: seq<(string, T)>, b: seq<(string, T)>)
    requires Ascending(a) && Ascending(b) && forall x :: x in a <==> x in b
    ensures a == b
  {
    HeadIn(a);
    HeadIn(b);
    if a != [] && b != [] {
      assert a[0] in b && b[0] in a;
      NameOrder(a[0].0, b[0].0);
      var i :| 0 <= i < |b| && b[i] == a[0];
      var j :| 0 <= j < |a| && a[j] == b[0];
      assert i == 0 && a[0] == b[0];
      NameOrder(a[0].0, a[0].0);
      forall x ensures x in a[1..] <==> x in b[1..] {
        assert a == [a[0]] + a[1..] && b == [b[0]] + b[1..];
        if x in a[1..] { assert x in b && x != a[0]; }
        if x in b[1..] { assert x in a && x != b[0]; }
      }
      AscendingUnique(a[1..], b[1..]);
      assert a == [a[0]] + a[1..];
      assert b == [b[0]] + b[1..];
    }
  }

  lemma {:induction false} SortOfAscending<T>(ms: seq<(string, T)>)
    requires Ascending(ms)
    ensures Sort(ms) == ms && Distinct(ms)
  {
    if ms != [] {
      SortOfAscending(ms[1..]);
      if |ms| > 1 { NameOrder(ms[0].0, ms[1].0); }
    }
    forall i, j | 0 <= i < j < |ms| ensures ms[i].0 != ms[j].0 {
      NameOrder(ms[i].0, ms[i].0);
    }
  }
}
