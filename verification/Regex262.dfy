/** A recogniser for the syntax of an ECMA-262 pattern. */
module Regex262 {
  import opened Wrappers

  predicate At(s: string, i: nat, c: char) { i < |s| && s[i] == c }

  predicate Digit(s: string, i: nat) { i < |s| && '0' <= s[i] <= '9' }

  predicate Mark(s: string, i: nat) { At(s, i, '*') || At(s, i, '+') || At(s, i, '?') }

  /** An alternative ends here. */
  predicate Stops(s: string, i: nat) { i >= |s| || s[i] == '|' || s[i] == ')' }

  // ----- the recogniser as functions of the position: where a phrase ends, if it parses

  function DigitsEnd(s: string, i: nat): (j: nat)
    requires i <= |s|
    ensures i <= j <= |s| && !Digit(s, j)
    decreases |s| - i
  {
    if Digit(s, i) then DigitsEnd(s, i + 1) else i
  }

  /** The end of the braces of a bound `{n}`, `{n,}` or `{n,m}`. */
  function BracesEnd(s: string, i: nat): (r: Option<nat>)
    requires i < |s|
    ensures r.Some? ==> i < r.value <= |s|
  {
    var j := DigitsEnd(s, i + 1);
    if j == i + 1 then None
    else
      var k := if At(s, j, ',') then DigitsEnd(s, j + 1) else j;
      if At(s, k, '}') then Some(k + 1) else None
  }

  function LazyEnd(s: string, i: nat): nat { if At(s, i, '?') then i + 1 else i }

  /** Past an optional quantifier. */
  function QuantifierEnd(s: string, i: nat): (j: nat)
    requires i <= |s|
    ensures i <= j <= |s|
  {
    if Mark(s, i) then LazyEnd(s, i + 1)
    else if At(s, i, '{') && BracesEnd(s, i).Some? then LazyEnd(s, BracesEnd(s, i).value)
    else i
  }

  /** Past the `>` that closes a group name. */
  function NameEnd(s: string, i: nat): (r: Option<nat>)
    requires i <= |s|
    ensures r.Some? ==> i < r.value <= |s|
    decreases |s| - i
  {
    if i == |s| then None else if s[i] == '>' then Some(i + 1) else NameEnd(s, i + 1)
  }

  /** Past the group specifier that follows an opening parenthesis. */
  function SpecifierEnd(s: string, i: nat): (r: Option<nat>)
    requires i <= |s|
    ensures r.Some? ==> i <= r.value <= |s|
  {
    if !At(s, i, '?') then Some(i)
    else if At(s, i + 1, ':') || At(s, i + 1, '=') || At(s, i + 1, '!') then Some(i + 2)
    else if !At(s, i + 1, '<') then None
    else if At(s, i + 2, '=') || At(s, i + 2, '!') then Some(i + 3)
    else NameEnd(s, i + 2)
  }

  /** Past the bracket that closes a class. */
  function ClassEnd(s: string, i: nat): (r: Option<nat>)
    requires i <= |s|
    ensures r.Some? ==> i < r.value <= |s|
    decreases |s| - i
  {
    if i == |s| then None
    else if s[i] == ']' then Some(i + 1)
    else if s[i] == '\\' then (if i + 1 == |s| then None else ClassEnd(s, i + 2))
    else ClassEnd(s, i + 1)
  }

  function Disjunction(s: string, i: nat): (r: Option<nat>)
    requires i <= |s|
    ensures r.Some? ==> i <= r.value <= |s| && !At(s, r.value, '|') && Stops(s, r.value)
    decreases |s| - i, 3
  {
    match Alternative(s, i)
    case None => None
    case Some(j) => if At(s, j, '|') then Disjunction(s, j + 1) else Some(j)
  }

  function Alternative(s: string, i: nat): (r: Option<nat>)
    requires i <= |s|
    ensures r.Some? ==> i <= r.value <= |s| && Stops(s, r.value)
    decreases |s| - i, 2
  {
    if Stops(s, i) then Some(i)
    else
      match Term(s, i)
      case None => None
      case Some(j) => Alternative(s, j)
  }

  /** A term consumes input. */
  function Term(s: string, i: nat): (r: Option<nat>)
    requires i <= |s|
    ensures r.Some? ==> i < r.value <= |s|
    decreases |s| - i, 1
  {
    match Atom(s, i)
    case None => None
    case Some((j, quantifiable)) =>
      if quantifiable then Some(QuantifierEnd(s, j)) else if Mark(s, j) then None else Some(j)
  }

  /** The end of an atom or assertion, and whether a quantifier may follow. */
  function Atom(s: string, i: nat): (r: Option<(nat, bool)>)
    requires i <= |s|
    ensures r.Some? ==> i < r.value.0 <= |s|
    decreases |s| - i, 0
  {
    if i == |s| then None
    else if s[i] == '^' || s[i] == '$' then Some((i + 1, false))
    else if s[i] == '(' then
      match SpecifierEnd(s, i + 1)
      case None => None
      case Some(j) =>
        match Disjunction(s, j)
        case None => None
        case Some(k) => if At(s, k, ')') then Some((k + 1, true)) else None
    else if s[i] == ')' || Mark(s, i) then None
    else if s[i] == '[' then
      match ClassEnd(s, if At(s, i + 1, '^') then i + 2 else i + 1)
      case None => None
      case Some(j) => Some((j, true))
    else if s[i] == '\\' then (if i + 1 == |s| then None else Some((i + 2, true)))
    else Some((i + 1, true))
  }

  predicate Compiles(pattern: string) { Disjunction(pattern, 0) == Some(|pattern|) }

  // ----- the parser

  class Parser {
    const chars: string
    var pos: nat

    constructor (pattern: string)
      ensures chars == pattern && pos == 0
    {
      chars := pattern;
      pos := 0;
    }

    ghost predicate Valid()
      reads this
    {
      pos <= |chars|
    }

    function Peek(c: char): bool
      reads this
    {
      At(chars, pos, c)
    }

    method ReadDisjunction() returns (ok: bool)
      requires Valid()
      modifies this
      ensures Valid() && old(pos) <= pos
      ensures match Disjunction(chars, old(pos))
              case None => !ok
              case Some(end) => ok && pos == end
      decreases |chars| - pos, 3
    {
      hide Term, Alternative;
      ok := true;
      ghost var from := pos;
      while true
        invariant Valid() && old(pos) <= from && from == pos
        invariant Disjunction(chars, old(pos)) == Disjunction(chars, from)
        decreases |chars| - pos
      {
        ok := ReadAlternative();
        if !ok {
          return;
        }
        if Peek('|') {
          pos := pos + 1;
          from := pos;
        } else {
          return;
        }
      }
    }

    method ReadAlternative() returns (ok: bool)
      requires Valid()
      modifies this
      ensures Valid() && old(pos) <= pos
      ensures match Alternative(chars, old(pos))
              case None => !ok
              case Some(end) => ok && pos == end
      decreases |chars| - pos, 2
    {
      hide Term;
      ok := true;
      while !Stops(chars, pos)
        invariant Valid() && old(pos) <= pos && ok
        invariant Alternative(chars, old(pos)) == Alternative(chars, pos)
        decreases |chars| - pos
      {
        ok := ReadTerm();
        if !ok {
          return;
        }
      }
    }

    method ReadTerm() returns (ok: bool)
      requires Valid()
      modifies this
      ensures Valid() && old(pos) <= pos
      ensures match Term(chars, old(pos))
              case None => !ok
              case Some(end) => ok && pos == end
      decreases |chars| - pos, 1
    {
      hide Atom, QuantifierEnd;
      var quantifiable;
      ok, quantifiable := ReadAtom();
      if !ok {
        return;
      }
      if quantifiable {
        ReadQuantifier();
      } else if Mark(chars, pos) {
        ok := false;
      }
    }

    method ReadAtom() returns (ok: bool, quantifiable: bool)
      requires Valid()
      modifies this
      ensures Valid() && old(pos) <= pos
      ensures match Atom(chars, old(pos))
              case None => !ok
              case Some((end, q)) => ok && pos == end && quantifiable == q
      decreases |chars| - pos, 0
    {
      hide Disjunction, SpecifierEnd, ClassEnd;
      ok, quantifiable := true, true;
      if pos == |chars| {
        ok := false;
      } else if Peek('^') || Peek('$') {
        pos, quantifiable := pos + 1, false;
      } else if Peek('(') {
        pos := pos + 1;
        ok := ReadSpecifier();
        if ok {
          ok := ReadDisjunction();
          if ok {
            if Peek(')') {
              pos := pos + 1;
            } else {
              ok := false;
            }
          }
        }
      } else if Peek(')') || Mark(chars, pos) {
        ok := false;
      } else if Peek('[') {
        pos := pos + 1;
        ok := ReadClass();
      } else if Peek('\\') {
        pos := pos + 1;
        if pos == |chars| {
          ok := false;
        } else {
          pos := pos + 1;
        }
      } else {
        pos := pos + 1;
      }
    }

    method ReadSpecifier() returns (ok: bool)
      requires Valid()
      modifies this
      ensures Valid() && old(pos) <= pos
      ensures match SpecifierEnd(chars, old(pos))
              case None => !ok
              case Some(end) => ok && pos == end
    {
      hide NameEnd;
      ok := true;
      if Peek('?') {
        pos := pos + 1;
        if Peek(':') || Peek('=') || Peek('!') {
          pos := pos + 1;
        } else if Peek('<') {
          pos := pos + 1;
          if Peek('=') || Peek('!') {
            pos := pos + 1;
          } else {
            ok := ReadName();
          }
        } else {
          ok := false;
        }
      }
    }

    method ReadName() returns (named: bool)
      requires Valid()
      modifies this
      ensures Valid() && old(pos) <= pos
      ensures match NameEnd(chars, old(pos))
              case None => !named
              case Some(end) => named && pos == end
    {
      named := false;
      while pos < |chars|
        invariant Valid() && old(pos) <= pos && !named
        invariant NameEnd(chars, old(pos)) == NameEnd(chars, pos)
      {
        pos := pos + 1;
        if chars[pos - 1] == '>' {
          return true;
        }
      }
    }

    /** The rest of a class, from after its opening bracket. */
    method ReadClass() returns (ok: bool)
      requires Valid()
      modifies this
      ensures Valid() && old(pos) <= pos
      ensures match ClassEnd(chars, if At(chars, old(pos), '^') then old(pos) + 1 else old(pos))
              case None => !ok
              case Some(end) => ok && pos == end
    {
      if Peek('^') {
        pos := pos + 1;
      }
      ghost var start := pos;
      while pos < |chars|
        invariant Valid() && start <= pos
        invariant ClassEnd(chars, start) == ClassEnd(chars, pos)
        decreases |chars| - pos
      {
        if Peek(']') {
          pos := pos + 1;
          return true;
        }
        if Peek('\\') {
          pos := pos + 1;
          if pos == |chars| {
            return false;
          }
        }
        pos := pos + 1;
      }
      ok := false;
    }

    method ReadDigits() returns (digits: nat)
      requires Valid()
      modifies this
      ensures Valid() && pos == DigitsEnd(chars, old(pos)) == old(pos) + digits
    {
      digits := 0;
      while Digit(chars, pos)
        invariant Valid() && pos == old(pos) + digits
        invariant DigitsEnd(chars, old(pos)) == DigitsEnd(chars, pos)
        decreases |chars| - pos
      {
        pos, digits := pos + 1, digits + 1;
      }
    }

    /** An optional quantifier; braces that are no bound are left for the next term. */
    method ReadQuantifier()
      requires Valid()
      modifies this
      ensures Valid() && pos == QuantifierEnd(chars, old(pos))
    {
      hide DigitsEnd;
      if Mark(chars, pos) {
        pos := pos + 1;
      } else if Peek('{') {
        var start := pos;
        pos := pos + 1;
        var digits := ReadDigits();
        if digits == 0 {
          pos := start;
          return;
        }
        if Peek(',') {
          pos := pos + 1;
          var more := ReadDigits();
        }
        if Peek('}') {
          pos := pos + 1;
        } else {
          pos := start;
          return;
        }
      } else {
        return;
      }
      if Peek('?') {
        pos := pos + 1;
      }
    }
  }

  method CompilesPattern(pattern: string) returns (ok: bool)
    ensures ok == Compiles(pattern)
  {
    hide Disjunction;
    var parser := new Parser(pattern);
    ok := parser.ReadDisjunction();
    ok := ok && parser.pos == |pattern|;
  }

  // ----- a stretch of one text inside another

  /** The two texts have the same stretch of `e` characters, at `o` and at `p`. */
  ghost predicate Same(s: string, o: nat, t: string, p: nat, e: nat) {
    o + e <= |s| && p + e <= |t| && s[o..o + e] == t[p..p + e]
  }

  /** In both texts the stretch ends at the end, a bar or a closing parenthesis. */
  ghost predicate Agree(s: string, o: nat, t: string, p: nat, e: nat) {
    Same(s, o, t, p, e) && Stops(s, o + e) && Stops(t, p + e)
  }

  lemma CharSame(s: string, o: nat, t: string, p: nat, e: nat, i: nat)
    requires Same(s, o, t, p, e) && i < e
    ensures o + i < |s| && p + i < |t| && s[o + i] == t[p + i]
  {
    assert s[o..o + e][i] == t[p..p + e][i];
  }

  lemma CharAgree(s: string, o: nat, t: string, p: nat, e: nat, i: nat, c: char)
    requires Agree(s, o, t, p, e) && i <= e && c != '|' && c != ')'
    ensures At(s, o + i, c) <==> At(t, p + i, c)
    ensures At(t, p + i, c) ==> i < e
  {
    if i < e { CharSame(s, o, t, p, e, i); }
  }

  lemma StopsAgree(s: string, o: nat, t: string, p: nat, e: nat, i: nat)
    requires Agree(s, o, t, p, e) && i <= e
    ensures Stops(s, o + i) <==> Stops(t, p + i)
    ensures i < e ==> s[o + i] == t[p + i]
  {
    if i < e { CharSame(s, o, t, p, e, i); }
  }

  lemma {:induction false} DigitsAgree(s: string, o: nat, t: string, p: nat, e: nat, i: nat)
    requires Agree(s, o, t, p, e) && i <= e
    ensures DigitsEnd(t, p + i) - p == DigitsEnd(s, o + i) - o <= e
    decreases e - i
  {
    hide Stops, Same;
    DigitAgrees(s, o, t, p, e, i);
    if i < e && Digit(t, p + i) { DigitsAgree(s, o, t, p, e, i + 1); }
  }

  lemma DigitAgrees(s: string, o: nat, t: string, p: nat, e: nat, i: nat)
    requires Agree(s, o, t, p, e) && i <= e
    ensures o + e <= |s| && p + e <= |t|
    ensures Digit(s, o + i) <==> Digit(t, p + i)
    ensures Digit(t, p + i) ==> i < e
  {
    if i < e { CharSame(s, o, t, p, e, i); }
  }

  lemma Fits(s: string, o: nat, t: string, p: nat, e: nat)
    requires Agree(s, o, t, p, e)
    ensures o + e <= |s| && p + e <= |t|
  {
  }

  lemma BracesAgree(s: string, o: nat, t: string, p: nat, e: nat, i: nat)
    requires Agree(s, o, t, p, e) && i < e
    ensures o + e <= |s| && p + e <= |t|
    ensures BracesEnd(s, o + i).Some? <==> BracesEnd(t, p + i).Some?
    ensures BracesEnd(t, p + i).Some? ==> BracesEnd(s, o + i).value - o == BracesEnd(t, p + i).value - p <= e
  {
    hide DigitsEnd, At, Agree;
    Fits(s, o, t, p, e);
    DigitsAgree(s, o, t, p, e, i + 1);
    var j: nat := DigitsEnd(t, p + i + 1) - p;
    CharAgree(s, o, t, p, e, j, ',');
    if At(t, p + j, ',') {
      DigitsAgree(s, o, t, p, e, j + 1);
      CharAgree(s, o, t, p, e, DigitsEnd(t, p + j + 1) - p, '}');
    } else {
      CharAgree(s, o, t, p, e, j, '}');
    }
  }

  lemma QuantifierAgree(s: string, o: nat, t: string, p: nat, e: nat, i: nat)
    requires Agree(s, o, t, p, e) && i <= e
    ensures o + e <= |s| && p + e <= |t|
    ensures QuantifierEnd(s, o + i) - o == QuantifierEnd(t, p + i) - p <= e
    ensures Mark(s, o + i) <==> Mark(t, p + i)
  {
    hide BracesEnd, Agree, At;
    Fits(s, o, t, p, e);
    CharAgree(s, o, t, p, e, i, '*');
    CharAgree(s, o, t, p, e, i, '+');
    CharAgree(s, o, t, p, e, i, '?');
    CharAgree(s, o, t, p, e, i, '{');
    if Mark(t, p + i) {
      CharAgree(s, o, t, p, e, i + 1, '?');
    } else if At(t, p + i, '{') {
      BracesAgree(s, o, t, p, e, i);
      if BracesEnd(t, p + i).Some? { CharAgree(s, o, t, p, e, BracesEnd(t, p + i).value - p, '?'); }
    }
  }

  lemma {:induction false} NameSame(s: string, o: nat, t: string, p: nat, e: nat, i: nat, j: nat)
    requires Same(s, o, t, p, e) && i <= e && j <= e && NameEnd(t, p + i) == Some(p + j)
    ensures NameEnd(s, o + i) == Some(o + j)
    decreases e - i
  {
    hide Same;
    CharSame(s, o, t, p, e, i);
    if t[p + i] != '>' { NameSame(s, o, t, p, e, i + 1, j); }
  }

  lemma {:induction false} ClassSame(s: string, o: nat, t: string, p: nat, e: nat, i: nat, j: nat)
    requires Same(s, o, t, p, e) && i <= e && j <= e && ClassEnd(t, p + i) == Some(p + j)
    ensures o + i <= |s| && ClassEnd(s, o + i) == Some(o + j)
    decreases e - i
  {
    hide Same;
    CharSame(s, o, t, p, e, i);
    if t[p + i] == '\\' {
      CharSame(s, o, t, p, e, i + 1);
      ClassSame(s, o, t, p, e, i + 2, j);
    } else if t[p + i] != ']' {
      ClassSame(s, o, t, p, e, i + 1, j);
    }
  }

  lemma SpecifierAgree(s: string, o: nat, t: string, p: nat, e: nat, i: nat, j: nat)
    requires Agree(s, o, t, p, e) && i <= e && j <= e && SpecifierEnd(t, p + i) == Some(p + j)
    ensures o + i <= |s| && SpecifierEnd(s, o + i) == Some(o + j)
  {
    hide NameEnd, Stops, Same;
    Fits(s, o, t, p, e);
    CharAgree(s, o, t, p, e, i, '?');
    if At(t, p + i, '?') {
      CharAgree(s, o, t, p, e, i + 1, ':');
      CharAgree(s, o, t, p, e, i + 1, '=');
      CharAgree(s, o, t, p, e, i + 1, '!');
      CharAgree(s, o, t, p, e, i + 1, '<');
      if At(t, p + i + 1, '<') {
        CharAgree(s, o, t, p, e, i + 2, '=');
        CharAgree(s, o, t, p, e, i + 2, '!');
        if !At(t, p + i + 2, '=') && !At(t, p + i + 2, '!') { NameSame(s, o, t, p, e, i + 2, j); }
      }
    }
  }

  /** A group reads the same whatever follows it. */
  lemma {:induction false} GroupSame(s: string, o: nat, t: string, p: nat, e: nat, i: nat, j: nat)
    requires Same(s, o, t, p, e) && i < e && j <= e && t[p + i] == '(' && Atom(t, p + i) == Some((p + j, true))
    ensures o + i < |s| && Atom(s, o + i) == Some((o + j, true))
    decreases e - i, 0
  {
    hide SpecifierEnd, Disjunction, ClassEnd, Mark;
    var from: nat := SpecifierEnd(t, p + i + 1).value - p;
    var k: nat := Disjunction(t, p + from).value - p;
    assert k + 1 == j;
    CharSame(s, o, t, p, e, i);
    CharSame(s, o, t, p, e, k);
    SameShorter(s, o, t, p, e, k);
    SpecifierAgree(s, o, t, p, k, i + 1, from);
    DisjunctionAgree(s, o, t, p, k, from, k);
  }

  lemma SameShorter(s: string, o: nat, t: string, p: nat, e: nat, k: nat)
    requires Same(s, o, t, p, e) && k < e && t[p + k] == ')'
    ensures Agree(s, o, t, p, k)
  {
    assert s[o..o + k] == s[o..o + e][..k] && t[p..p + k] == t[p..p + e][..k];
    CharSame(s, o, t, p, e, k);
  }

  lemma ClassStarts(t: string, i: nat)
    ensures i <= |t| && ClassEnd(t, i).Some? ==> i < ClassEnd(t, i).value
  {
  }

  /** An atom within the stretch reads the same whatever follows it. */
  lemma {:induction false} AtomSame(s: string, o: nat, t: string, p: nat, e: nat, i: nat, j: nat, q: bool)
    requires Same(s, o, t, p, e) && i <= e && j <= e && Atom(t, p + i) == Some((p + j, q))
    ensures o + i < |s| && Atom(s, o + i) == Some((o + j, q))
    decreases e - i, 1
  {
    hide Disjunction, SpecifierEnd, ClassEnd, Same;
    CharSame(s, o, t, p, e, i);
    if t[p + i] == '(' {
      GroupSame(s, o, t, p, e, i, j);
    } else if t[p + i] == '[' {
      var from := if At(t, p + i + 1, '^') then i + 2 else i + 1;
      ClassStarts(t, p + from);
      CharSame(s, o, t, p, e, i + 1);
      ClassSame(s, o, t, p, e, from, j);
    } else if t[p + i] == '\\' {
      CharSame(s, o, t, p, e, i + 1);
    }
  }

  lemma {:induction false} TermAgree(s: string, o: nat, t: string, p: nat, e: nat, i: nat, j: nat)
    requires Agree(s, o, t, p, e) && i <= e && j <= e && Term(t, p + i) == Some(p + j)
    ensures o + i < |s| && Term(s, o + i) == Some(o + j)
    decreases e - i, 2
  {
    hide Atom, QuantifierEnd, Stops, Same, Mark;
    Fits(s, o, t, p, e);
    var k: nat := Atom(t, p + i).value.0 - p;
    AtomSame(s, o, t, p, e, i, k, Atom(t, p + i).value.1);
    QuantifierAgree(s, o, t, p, e, k);
  }

  lemma {:induction false} AlternativeAgree(s: string, o: nat, t: string, p: nat, e: nat, i: nat, j: nat)
    requires Agree(s, o, t, p, e) && i <= e && j <= e && Alternative(t, p + i) == Some(p + j)
    ensures o + i <= |s| && Alternative(s, o + i) == Some(o + j)
    decreases e - i, 3
  {
    hide Term, Stops, Same;
    Fits(s, o, t, p, e);
    StopsAgree(s, o, t, p, e, i);
    if !Stops(t, p + i) {
      var k: nat := Term(t, p + i).value - p;
      TermAgree(s, o, t, p, e, i, k);
      AlternativeAgree(s, o, t, p, e, k, j);
    }
  }

  /** What parses within the stretch in one text parses so in the other; where it
      reaches the end of the stretch before a bar, the alternatives after the bar follow. */
  lemma {:induction false} DisjunctionAgree(s: string, o: nat, t: string, p: nat, e: nat, i: nat, j: nat)
    requires Agree(s, o, t, p, e) && i <= e && j <= e && Disjunction(t, p + i) == Some(p + j)
    ensures o + i <= |s|
    ensures Disjunction(s, o + i) == if j == e && At(s, o + e, '|') then Disjunction(s, o + e + 1) else Some(o + j)
    decreases e - i, 4
  {
    hide Alternative, Stops, Same;
    Fits(s, o, t, p, e);
    var k: nat := Alternative(t, p + i).value - p;
    AlternativeAgree(s, o, t, p, e, i, k);
    if k < e { StopsAgree(s, o, t, p, e, k); }
    if At(t, p + k, '|') { DisjunctionAgree(s, o, t, p, e, k + 1, j); }
  }

  /** `a` stands at `o` in `s`, before the end, a bar or a closing parenthesis. */
  ghost predicate Within(s: string, o: nat, a: string) {
    o + |a| <= |s| && s[o..o + |a|] == a && Stops(s, o + |a|)
  }

  /** A pattern parses inside a text as it does alone; where it ends before a bar, the
      alternatives after the bar follow. */
  lemma DisjunctionWithin(s: string, o: nat, a: string, i: nat)
    requires Within(s, o, a) && i <= |a| && Disjunction(a, i).Some?
    ensures var j := Disjunction(a, i).value;
            Disjunction(s, o + i) == if j == |a| && At(s, o + j, '|') then Disjunction(s, o + j + 1) else Some(o + j)
  {
    hide Disjunction;
    assert a[0..|a|] == a;
    DisjunctionAgree(s, o, a, 0, |a|, i, Disjunction(a, i).value);
  }

  // ----- what the recogniser is closed under

  /** An alternation of accepted patterns is accepted. */
  lemma AlternationCompiles(a: string, b: string)
    requires Compiles(a) && Compiles(b)
    ensures Compiles(a + "|" + b)
  {
    var s := a + "|" + b;
    hide Disjunction;
    assert Within(s, 0, a) && Within(s, |a| + 1, b);
    assert At(s, |a|, '|');
    DisjunctionWithin(s, 0, a, 0);
    DisjunctionWithin(s, |a| + 1, b, 0);
  }

  /** No accepted pattern starts with a quantifier mark. */
  lemma StartsUnmarked(b: string)
    ensures Mark(b, 0) ==> !Compiles(b)
  {
    if Mark(b, 0) {
      assert Atom(b, 0) == None;
      assert Term(b, 0) == None;
      assert Alternative(b, 0) == None;
    }
  }

  /** What may open a group. */
  predicate Opening(p: string) {
    p == "(" || p == "(?:" || p == "(?=" || p == "(?!" || p == "(?<=" || p == "(?<!" || OpensNamed(p)
  }

  /** `(?<name>`, where the name may be empty and is not read as a lookbehind. */
  predicate OpensNamed(p: string) {
    && |p| >= 4 && p[..3] == "(?<" && p[|p| - 1] == '>' && p[3] != '=' && p[3] != '!'
    && forall k :: 3 <= k < |p| - 1 ==> p[k] != '>'
  }

  lemma {:induction false} NameCloses(s: string, i: nat, j: nat)
    requires i <= j < |s| && s[j] == '>' && forall k :: i <= k < j ==> s[k] != '>'
    ensures NameEnd(s, i) == Some(j + 1)
    decreases j - i
  {
    if i < j { NameCloses(s, i + 1, j); }
  }

  lemma OpeningSpecifier(p: string, a: string, s: string)
    requires Opening(p) && s == p + a + ")" && !At(a, 0, '?')
    ensures SpecifierEnd(s, 1) == Some(|p|)
  {
    assert forall i :: 0 <= i < |p| ==> s[i] == p[i];
    if p == "(" {
      assert s[1] == (a + ")")[0];
    } else if OpensNamed(p) {
      assert p[..3][1] == '?' && p[..3][2] == '<';
      NameCloses(s, 3, |p| - 1);
    }
  }

  /** A group or a lookaround of an accepted pattern is accepted. */
  lemma GroupCompiles(p: string, a: string)
    requires Opening(p) && Compiles(a)
    ensures Compiles(p + a + ")")
  {
    var s := p + a + ")";
    StartsUnmarked(a);
    OpeningSpecifier(p, a, s);
    hide Disjunction, SpecifierEnd;
    assert Within(s, |p|, a);
    DisjunctionWithin(s, |p|, a, 0);
    assert s[0] == '(' by { assert p[0] == '('; }
    assert Disjunction(s, |p|) == Some(|p| + |a|) && s[|p| + |a|] == ')';
    GroupAlone(s, |p|);
  }

  /** A text that is one parenthesised group is a pattern. */
  lemma GroupAlone(s: string, from: nat)
    requires |s| > 1 && s[0] == '(' && SpecifierEnd(s, 1) == Some(from) && Disjunction(s, from) == Some(|s| - 1)
    requires s[|s| - 1] == ')'
    ensures Compiles(s)
  {
    assert Atom(s, 0) == Some((|s|, true)) by { hide SpecifierEnd, Disjunction; }
    hide SpecifierEnd, Atom;
    assert Term(s, 0) == Some(|s|);
    assert Alternative(s, |s|) == Some(|s|);
    assert Alternative(s, 0) == Some(|s|);
  }

  // ----- concatenation

  /** How much of `b` the quantifier of a term of `a` swallows, when one does: the
      braces that `a` leaves open, or the ones `b` begins with, are a bound together. */
  function Spill(a: string, b: string, i: nat): (r: Option<nat>)
    requires i <= |a|
    ensures r.Some? ==> 0 < r.value <= |b|
    decreases |a| - i
  {
    if i == |a| then None
    else if a[i] == '|' then Spill(a, b, i + 1)
    else
      match Atom(a, i)
      case None => None
      case Some((j, quantifiable)) =>
        if quantifiable && QuantifierEnd(a + b, j) > |a| then Some(QuantifierEnd(a + b, j) - |a|)
        else match Term(a, i)
             case None => None
             case Some(k) => Spill(a, b, k)
  }

  lemma HeadSame(a: string, b: string)
    ensures Same(a + b, 0, a, 0, |a|)
  {
    assert (a + b)[0..0 + |a|] == a == a[0..0 + |a|];
  }

  lemma {:induction false} DigitsHead(a: string, b: string, i: nat)
    requires i <= |a|
    ensures DigitsEnd(a, i) < |a| ==> DigitsEnd(a + b, i) == DigitsEnd(a, i)
    ensures DigitsEnd(a, i) == |a| ==> DigitsEnd(a + b, i) >= |a|
    decreases |a| - i
  {
    if i < |a| { DigitsHead(a, b, i + 1); }
  }

  /** Braces that close in the first text are the same bound in both; ones that do
      not may close in the second. */
  lemma BracesHead(a: string, b: string, i: nat)
    requires i < |a|
    ensures BracesEnd(a, i).Some? ==> BracesEnd(a + b, i) == BracesEnd(a, i)
    ensures BracesEnd(a, i).None? ==> BracesEnd(a + b, i).None? || BracesEnd(a + b, i).value > |a|
  {
    hide DigitsEnd;
    DigitsHead(a, b, i + 1);
    var j := DigitsEnd(a, i + 1);
    if j < |a| && a[j] == ',' { DigitsHead(a, b, j + 1); }
  }

  lemma QuantifierHead(a: string, b: string, i: nat)
    requires i <= |a| && !Mark(b, 0)
    ensures QuantifierEnd(a + b, i) > |a| || QuantifierEnd(a + b, i) == QuantifierEnd(a, i)
    ensures Mark(a + b, i) <==> Mark(a, i)
  {
    hide BracesEnd;
    var s := a + b;
    assert forall k :: 0 <= k < |a| ==> s[k] == a[k];
    assert |b| > 0 ==> s[|a|] == b[0];
    if i < |a| { BracesHead(a, b, i); }
  }

  lemma TermHead(a: string, b: string, i: nat)
    requires i <= |a| && !Mark(b, 0) && Term(a, i).Some?
    ensures var (j, quantifiable) := Atom(a, i).value;
      Term(a + b, i) == if quantifiable && QuantifierEnd(a + b, j) > |a| then Some(QuantifierEnd(a + b, j))
        else Term(a, i)
  {
    hide Atom, QuantifierEnd, Mark;
    var (j, quantifiable) := Atom(a, i).value;
    HeadSame(a, b);
    AtomSame(a + b, 0, a, 0, |a|, i, j, quantifiable);
    QuantifierHead(a, b, j);
  }

  lemma TailAgree(a: string, b: string, k: nat)
    requires k <= |b|
    ensures Agree(a + b, |a| + k, b[k..], 0, |b| - k)
  {
    var e := |b| - k;
    assert (a + b)[|a| + k..|a| + k + e] == b[k..] == b[k..][0..0 + e];
  }

  /** From a position in the second text on, the two parse as the rest of it does alone. */
  lemma TailCompiles(a: string, b: string, k: nat)
    requires k <= |b|
    ensures Disjunction(a + b, |a| + k) == Some(|a + b|) <==> Compiles(b[k..])
  {
    hide Disjunction, Agree;
    var (s, t, o, e) := (a + b, b[k..], |a| + k, |b| - k);
    TailAgree(a, b, k);
    AgreeBack(s, o, t, 0, e);
    if Disjunction(t, 0) == Some(e) { DisjunctionAgree(s, o, t, 0, e, 0, e); }
    if Disjunction(s, o) == Some(|s|) { DisjunctionAgree(t, 0, s, o, e, 0, e); }
  }

  lemma AgreeBack(s: string, o: nat, t: string, p: nat, e: nat)
    requires Agree(s, o, t, p, e)
    ensures Agree(t, p, s, o, e)
  {
  }

  lemma PassTerm(s: string, i: nat)
    requires i <= |s| && !Stops(s, i) && Term(s, i).Some?
    ensures Disjunction(s, i) == Disjunction(s, Term(s, i).value)
  {
    hide Term;
  }

  lemma PassBar(s: string, i: nat)
    requires i < |s| && s[i] == '|'
    ensures Disjunction(s, i) == Disjunction(s, i + 1)
  {
    hide Term;
    assert Alternative(s, i) == Some(i);
  }

  lemma ClosingStops(s: string, i: nat)
    requires i < |s| && s[i] == ')'
    ensures Disjunction(s, i) == Some(i)
  {
    hide Term;
    assert Alternative(s, i) == Some(i);
  }

  lemma StopsEarly(s: string, i: nat)
    requires i < |s| && Disjunction(s, i) == Some(|s|)
    ensures s[i] != ')' && (s[i] != '|' ==> Term(s, i).Some?)
  {
    hide Term;
    if s[i] == ')' { ClosingStops(s, i); }
  }

  lemma {:induction false} ConcatenatesFrom(a: string, b: string, i: nat)
    requires i <= |a| && Disjunction(a, i) == Some(|a|) && Compiles(b) && !Mark(b, 0)
    ensures Disjunction(a + b, i) == Some(|a + b|) <==> (Spill(a, b, i).Some? ==> Compiles(b[Spill(a, b, i).value..]))
    decreases |a| - i
  {
    hide Disjunction, Term, Atom, QuantifierEnd, Mark;
    var s := a + b;
    if i == |a| {
      assert b[0..] == b;
      TailCompiles(a, b, 0);
    } else {
      assert s[i] == a[i];
      StopsEarly(a, i);
      if a[i] == '|' {
        PassBar(a, i);
        PassBar(s, i);
        ConcatenatesFrom(a, b, i + 1);
      } else {
        TermAtom(a, i);
        TermHead(a, b, i);
        PassTerm(a, i);
        PassTerm(s, i);
        var (j, quantifiable) := Atom(a, i).value;
        if quantifiable && QuantifierEnd(s, j) > |a| {
          TailCompiles(a, b, QuantifierEnd(s, j) - |a|);
        } else {
          ConcatenatesFrom(a, b, Term(a, i).value);
        }
      }
    }
  }

  lemma TermAtom(a: string, i: nat)
    requires i <= |a| && Term(a, i).Some?
    ensures Atom(a, i).Some?
  {
    hide Atom;
  }

  /** Two accepted patterns concatenate to an accepted one exactly when no quantifier
      of the first swallows a part of the second, or what it leaves is accepted too. */
  lemma Concatenation(a: string, b: string)
    requires Compiles(a) && Compiles(b)
    ensures Compiles(a + b) <==> (Spill(a, b, 0).Some? ==> Compiles(b[Spill(a, b, 0).value..]))
  {
    hide Spill, Mark, Disjunction;
    StartsUnmarked(b);
    ConcatenatesFrom(a, b, 0);
  }

  lemma OnlyBraces(a: string, b: string, j: nat)
    requires j <= |a| && !Mark(b, 0) && '{' !in a && !At(b, 0, '{')
    ensures QuantifierEnd(a + b, j) <= |a|
  {
    var s := a + b;
    assert forall k :: 0 <= k < |a| ==> s[k] == a[k];
    assert |b| > 0 ==> s[|a|] == b[0];
    assert !At(s, j, '{') by { if j < |a| { assert a[j] in a; } }
    hide BracesEnd;
  }

  lemma {:induction false} NoSpill(a: string, b: string, i: nat)
    requires i <= |a| && !Mark(b, 0) && '{' !in a && !At(b, 0, '{')
    ensures Spill(a, b, i).None?
    decreases |a| - i
  {
    hide Atom, Term, QuantifierEnd, Mark;
    if i < |a| {
      if a[i] == '|' {
        NoSpill(a, b, i + 1);
      } else if Atom(a, i).Some? {
        OnlyBraces(a, b, Atom(a, i).value.0);
        if Term(a, i).Some? { NoSpill(a, b, Term(a, i).value); }
      }
    }
  }

  /** So they concatenate where the first holds no opening brace and the second does
      not begin with one. */
  lemma BracelessConcatenation(a: string, b: string)
    requires Compiles(a) && Compiles(b) && '{' !in a && !At(b, 0, '{')
    ensures Compiles(a + b)
  {
    hide Spill, Mark, Disjunction;
    StartsUnmarked(b);
    NoSpill(a, b, 0);
    Concatenation(a, b);
  }

  /** Concatenation is not among them: the two halves of a bound are literals apart and
      a quantifier together, and the mark after it then quantifies nothing. */
  lemma ConcatenationFails()
    ensures Compiles("x{1") && Compiles("}*") && !Compiles("x{1" + "}*")
  {
    hide Disjunction;
    LiteralHalves();
    BoundThenMark();
  }

  lemma LiteralHalves()
    ensures Compiles("x{1") && Compiles("}*")
  {
    var a := "x{1";
    assert DigitsEnd(a, 2) == 3;
    assert Term(a, 0) == Some(1);
    assert Term(a, 1) == Some(2);
    assert Term(a, 2) == Some(3);
    assert Alternative(a, 3) == Some(3);
    assert Alternative(a, 2) == Some(3);
    assert Alternative(a, 1) == Some(3);
    assert Term("}*", 0) == Some(2);
    assert Alternative("}*", 2) == Some(2);
  }

  lemma BoundThenMark()
    ensures !Compiles("x{1" + "}*")
  {
    var s := "x{1}*";
    assert "x{1" + "}*" == s;
    assert DigitsEnd(s, 3) == 3;
    assert DigitsEnd(s, 2) == 3;
    assert BracesEnd(s, 1) == Some(4);
    assert Term(s, 0) == Some(4);
    assert Term(s, 4) == None;
    assert Alternative(s, 4) == None;
    assert Alternative(s, 0) == None;
    assert Disjunction(s, 0) == None;
  }
}
