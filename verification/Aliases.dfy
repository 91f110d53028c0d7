/** Walking an alias chain: it resolves, ends nowhere, runs too deep, or closes on itself. */
module Aliases {
  import opened Wrappers

  /** A declared type: an alias, with its target when that is a name, or anything else. */
  datatype Definition = Alias(target: Option<string>) | Plain

  datatype Outcome = Cycle | Unresolved | Deep | Resolved

  const DEPTH_LIMIT := 256

  type Types = map<string, Definition>

  /** The next name of the chain, when there is one. */
  function Follow(types: Types, native: string -> bool, name: string): Option<string> {
    if native(name) || name !in types || !types[name].Alias? then None else types[name].target
  }

  /** The name `n` links along the chain. */
  function Link(types: Types, native: string -> bool, start: string, n: nat): Option<string> {
    if n == 0 then Some(start)
    else
      match Link(types, native, start, n - 1)
      case None => None
      case Some(name) => Follow(types, native, name)
  }

  /** The chain ends at a native scalar or at a declared type that is no alias. */
  predicate Terminal(types: Types, native: string -> bool, name: string) {
    native(name) || (name in types && !types[name].Alias?)
  }

  /** Every link leads to another. */
  ghost predicate Endless(types: Types, native: string -> bool, start: string) {
    forall n: nat :: Link(types, native, start, n).Some?
  }

  /** Once two links name the same type the chain never ends. */
  lemma {:induction false} ClosedChain(types: Types, native: string -> bool, start: string, j: nat, k: nat, n: nat)
    requires j < k && Link(types, native, start, k).Some?
    requires Link(types, native, start, j) == Link(types, native, start, k)
    ensures Link(types, native, start, n).Some?
    decreases n
  {
    if n <= k {
      Earlier(types, native, start, n, k);
    } else {
      ClosedChain(types, native, start, j, k, n - (k - j));
      Shift(types, native, start, j, k, n - k);
    }
  }

  lemma {:induction false} Earlier(types: Types, native: string -> bool, start: string, n: nat, k: nat)
    requires n <= k && Link(types, native, start, k).Some?
    ensures Link(types, native, start, n).Some?
    decreases k
  {
    if n < k { Earlier(types, native, start, n, k - 1); }
  }

  /** From equal links on, the chain repeats. */
  lemma {:induction false} Shift(types: Types, native: string -> bool, start: string, j: nat, k: nat, m: nat)
    requires Link(types, native, start, j) == Link(types, native, start, k)
    ensures Link(types, native, start, j + m) == Link(types, native, start, k + m)
  {
    if m > 0 { Shift(types, native, start, j, k, m - 1); }
  }

  /** The walk ends after finitely many links, reports a cycle exactly when the chain
      never ends, and otherwise stops at its last name: a terminal one resolves, too
      deep or not, and any other does not. */
  method AliasChain(types: Types, native: string -> bool, start: string)
      returns (outcome: Outcome, hops: nat, terminal: Option<string>)
    ensures outcome == Cycle <==> Endless(types, native, start)
    ensures outcome != Cycle ==> Link(types, native, start, hops).Some? && Link(types, native, start, hops + 1).None?
    ensures outcome != Cycle ==>
              (outcome != Unresolved <==> Terminal(types, native, Link(types, native, start, hops).value))
    ensures outcome == Deep ==> hops > 256
    ensures outcome == Resolved ==> hops <= 256
    ensures terminal == if outcome == Deep || outcome == Resolved then Link(types, native, start, hops) else None
  {
    var seen, current := {start}, start;
    hops := 0;
    ghost var followed := {};
    while true
      invariant Link(types, native, start, hops) == Some(current)
      invariant seen == followed + {current} && current !in followed && followed <= types.Keys
      invariant forall name :: name in seen ==> Named(types, native, start, hops, name)
      decreases types.Keys - followed
    {
      if Follow(types, native, current).None? {
        assert Link(types, native, start, hops + 1).None?;
        assert !Endless(types, native, start);
      }
      if native(current) {
        return if hops > DEPTH_LIMIT then Deep else Resolved, hops, Some(current);
      }
      if current !in types {
        return Unresolved, hops, None;
      }
      if !types[current].Alias? {
        return if hops > DEPTH_LIMIT then Deep else Resolved, hops, Some(current);
      }
      if types[current].target.None? {
        return Unresolved, hops, None;
      }
      var target := types[current].target.value;
      hops := hops + 1;
      assert Link(types, native, start, hops) == Some(target);
      if target in seen {
        assert Named(types, native, start, hops - 1, target);
        var j: nat :| j < hops && Link(types, native, start, j) == Some(target);
        assert Endless(types, native, start) by {
          forall n: nat ensures Link(types, native, start, n).Some? { ClosedChain(types, native, start, j, hops, n); }
        }
        return Cycle, hops, None;
      }
      forall name | name in seen + {target} ensures Named(types, native, start, hops, name) {
        if name in seen { assert Named(types, native, start, hops - 1, name); }
        if name == target { assert Link(types, native, start, hops) == Some(name); }
      }
      followed := followed + {current};
      seen := seen + {target};
      current := target;
    }
  }

  /** The name is one of the links up to `k`. */
  ghost predicate Named(types: Types, native: string -> bool, start: string, k: nat, name: string) {
    exists j: nat :: j <= k && Link(types, native, start, j) == Some(name)
  }
}
