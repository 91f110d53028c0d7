/** The grammar of ECMA-262 patterns as the recogniser reads them: which stretches of a
    text are which phrases, and the proof that it accepts exactly the patterns. */
module PatternGrammar {
  import opened Wrappers
  import opened Regex262

  // ----- the grammar, as a relation between phrases and stretches of a text

  /** What stands for itself outside a class: not a bracket that opens, a bar, an
      assertion, a mark or a backslash. Annex B admits `]`, `}` and `{`. */
  predicate Plain(c: char) { c !in "^$\\*+?()[|" }

  predicate IsMark(c: char) { c == '*' || c == '+' || c == '?' }

  /** A decimal bound `{n}`, `{n,}` or `{n,m}`. */
  ghost predicate BoundAt(s: string, i: nat, j: nat) {
    && i + 2 < j <= |s| && s[i] == '{' && s[j - 1] == '}'
    && (|| DigitsAt(s, i + 1, j - 1)
        || exists k: nat :: i + 1 < k < j - 1 && DigitsAt(s, i + 1, k) && s[k] == ',' && DigitsAt(s, k + 1, j - 1))
  }

  predicate DigitsAt(s: string, i: nat, j: nat) {
    i <= j <= |s| && forall k :: i <= k < j ==> '0' <= s[k] <= '9'
  }

  /** How often the atom before it repeats. */
  ghost predicate RepeatAt(s: string, i: nat, j: nat) {
    (j == i + 1 <= |s| && IsMark(s[i])) || BoundAt(s, i, j)
  }

  /** A quantifier: a repetition, and the `?` after it that makes it lazy. */
  ghost predicate QuantifierAt(s: string, i: nat, j: nat) {
    exists k: nat :: RepeatAt(s, i, k) && (if k < |s| && s[k] == '?' then j == k + 1 else j == k)
  }

  /** One character of a class, or an escape. */
  ghost predicate ClassCharAt(s: string, i: nat, j: nat) {
    || (j == i + 1 <= |s| && s[i] != ']' && s[i] != '\\')
    || (j == i + 2 <= |s| && s[i] == '\\')
  }

  ghost predicate ClassCharsAt(s: string, i: nat, j: nat)
    decreases if i <= j then j - i else 0
  {
    i == j <= |s| || exists k: nat :: i < k <= j && ClassCharAt(s, i, k) && ClassCharsAt(s, k, j)
  }

  /** What says which kind of group opens: nothing, a lookaround, or a name. */
  ghost predicate SpecifierAt(s: string, i: nat, j: nat) {
    || (i == j <= |s| && !(i < |s| && s[i] == '?'))
    || (i + 2 == j <= |s| && s[i] == '?' && (s[i + 1] == ':' || s[i + 1] == '=' || s[i + 1] == '!'))
    || (i + 3 == j <= |s| && s[i] == '?' && s[i + 1] == '<' && (s[i + 2] == '=' || s[i + 2] == '!'))
    || (i + 3 <= j <= |s| && s[i] == '?' && s[i + 1] == '<' && s[i + 2] != '=' && s[i + 2] != '!'
        && s[j - 1] == '>' && forall k :: i + 2 <= k < j - 1 ==> s[k] != '>')
  }

  /** What a quantifier may follow: a group or lookaround, a class, an escape, or a plain character. */
  ghost predicate AtomAt(s: string, i: nat, j: nat)
    decreases if i <= j then j - i else 0, 0
  {
    && i < j <= |s|
    && (|| (s[i] == '(' && s[j - 1] == ')' && i + 1 < j && InsideAt(s, i + 1, j - 1))
        || (s[i] == '[' && s[j - 1] == ']' && i + 1 < j && ClassCharsAt(s, i + 1, j - 1))
        || (s[i] == '\\' && j == i + 2)
        || (Plain(s[i]) && j == i + 1))
  }

  /** A group between its parentheses. */
  ghost predicate InsideAt(s: string, i: nat, j: nat)
    requires i <= j
    decreases j - i, 5
  {
    exists k: nat :: i <= k <= j && SpecifierAt(s, i, k) && DisjunctionAt(s, k, j)
  }

  /** An assertion no mark follows, or an atom with the quantifier that follows it, if one does. */
  ghost predicate TermAt(s: string, i: nat, j: nat)
    decreases if i <= j then j - i else 0, 1
  {
    || (j == i + 1 <= |s| && (s[i] == '^' || s[i] == '$') && !(j < |s| && IsMark(s[j])))
    || (exists k: nat :: i < k <= j && AtomAt(s, i, k) &&
          (QuantifierAt(s, k, j) || (k == j && forall m: nat :: !QuantifierAt(s, k, m))))
  }

  ghost predicate AlternativeAt(s: string, i: nat, j: nat)
    decreases if i <= j then j - i else 0, 2
  {
    i == j <= |s| || exists k: nat :: i < k <= j && TermAt(s, i, k) && AlternativeAt(s, k, j)
  }

  ghost predicate DisjunctionAt(s: string, i: nat, j: nat)
    decreases if i <= j then j - i else 0, 3
  {
    || AlternativeAt(s, i, j)
    || exists k: nat :: i <= k < j <= |s| && AlternativeAt(s, i, k) && s[k] == '|' && DisjunctionAt(s, k + 1, j)
  }

  // ----- quantifiers

  lemma {:induction false} DigitsRun(s: string, i: nat, j: nat)
    requires i <= j <= |s|
    ensures DigitsEnd(s, i) == j <==> DigitsAt(s, i, j) && !Digit(s, j)
    decreases j - i
  {
    if i < j { DigitsRun(s, i + 1, j); }
  }

  lemma DigitsReach(s: string, i: nat)
    requires i <= |s|
    ensures DigitsAt(s, i, DigitsEnd(s, i))
  {
    DigitsRun(s, i, DigitsEnd(s, i));
  }

  lemma BoundSound(s: string, i: nat)
    requires At(s, i, '{') && BracesEnd(s, i).Some?
    ensures BoundAt(s, i, BracesEnd(s, i).value)
  {
    hide DigitsEnd, DigitsAt;
    var j := DigitsEnd(s, i + 1);
    DigitsReach(s, i + 1);
    if At(s, j, ',') {
      DigitsReach(s, j + 1);
      assert i + 1 < j < DigitsEnd(s, j + 1) + 1 && DigitsAt(s, i + 1, j) && s[j] == ',';
    }
  }

  lemma BoundComplete(s: string, i: nat, j: nat)
    requires BoundAt(s, i, j)
    ensures At(s, i, '{') && BracesEnd(s, i) == Some(j)
  {
    hide DigitsEnd, DigitsAt;
    if DigitsAt(s, i + 1, j - 1) {
      DigitsRun(s, i + 1, j - 1);
    } else {
      var k: nat :| i + 1 < k < j - 1 && DigitsAt(s, i + 1, k) && s[k] == ',' && DigitsAt(s, k + 1, j - 1);
      DigitsRun(s, i + 1, k);
      DigitsRun(s, k + 1, j - 1);
    }
  }

  /** The recogniser takes exactly the quantifier that stands there, if one does. */
  lemma QuantifierIs(s: string, i: nat, j: nat)
    requires i <= |s|
    ensures QuantifierAt(s, i, j) <==> j == QuantifierEnd(s, i) && i < j
  {
    hide BracesEnd, BoundAt;
    forall k | RepeatAt(s, i, k) ensures QuantifierEnd(s, i) == LazyEnd(s, k) && i < k {
      if BoundAt(s, i, k) {
        BoundComplete(s, i, k);
        BoundForward(s, i, k);
      }
    }
    if i < QuantifierEnd(s, i) {
      var k := if Mark(s, i) then i + 1 else BracesEnd(s, i).value;
      if !Mark(s, i) { BoundSound(s, i); }
      assert RepeatAt(s, i, k);
    }
  }

  lemma BoundForward(s: string, i: nat, j: nat)
    requires BoundAt(s, i, j)
    ensures i < j <= |s|
  {
  }

  // ----- classes and specifiers

  lemma {:induction false} ClassSound(s: string, i: nat)
    requires i <= |s| && ClassEnd(s, i).Some?
    ensures var j := ClassEnd(s, i).value; s[j - 1] == ']' && ClassCharsAt(s, i, j - 1)
    decreases |s| - i
  {
    if s[i] == '\\' {
      ClassSound(s, i + 2);
      assert ClassCharAt(s, i, i + 2);
    } else if s[i] != ']' {
      ClassSound(s, i + 1);
      assert ClassCharAt(s, i, i + 1);
    }
  }

  lemma {:induction false} ClassComplete(s: string, i: nat, j: nat)
    requires ClassCharsAt(s, i, j) && i <= j < |s| && s[j] == ']'
    ensures ClassEnd(s, i) == Some(j + 1)
    decreases j - i
  {
    if i < j {
      var k: nat :| i < k <= j && ClassCharAt(s, i, k) && ClassCharsAt(s, k, j);
      ClassComplete(s, k, j);
    }
  }

  lemma ClassCharsFirst(s: string, i: nat, j: nat)
    requires i < j <= |s| && s[i] != '\\' && s[i] != ']'
    ensures ClassCharsAt(s, i, j) <==> ClassCharsAt(s, i + 1, j)
  {
    if ClassCharsAt(s, i + 1, j) { assert ClassCharAt(s, i, i + 1); }
  }

  /** Past the caret of a negated class nothing changes: a caret is a character of the class too. */
  lemma ClassIs(s: string, i: nat, j: nat)
    requires i < |s| && i + 1 < j <= |s|
    ensures ClassEnd(s, if At(s, i + 1, '^') then i + 2 else i + 1) == Some(j) <==>
      s[j - 1] == ']' && ClassCharsAt(s, i + 1, j - 1)
  {
    hide ClassEnd, ClassCharsAt;
    var from := if At(s, i + 1, '^') then i + 2 else i + 1;
    if At(s, i + 1, '^') && i + 1 < j - 1 { ClassCharsFirst(s, i + 1, j - 1); }
    if ClassEnd(s, from).Some? { ClassSound(s, from); }
    if s[j - 1] == ']' && ClassCharsAt(s, i + 1, j - 1) { ClassComplete(s, from, j - 1); }
  }

  lemma {:induction false} NameIs(s: string, i: nat)
    requires i <= |s| && NameEnd(s, i).Some?
    ensures var j := NameEnd(s, i).value; s[j - 1] == '>' && forall k :: i <= k < j - 1 ==> s[k] != '>'
    decreases |s| - i
  {
    if s[i] != '>' { NameIs(s, i + 1); }
  }

  /** A specifier ends at one place. */
  lemma SpecifierIs(s: string, i: nat, j: nat)
    requires i <= |s|
    ensures SpecifierAt(s, i, j) <==> SpecifierEnd(s, i) == Some(j)
  {
    hide NameEnd;
    if i + 2 <= |s| && s[i] == '?' && s[i + 1] == '<' {
      if NameEnd(s, i + 2).Some? { NameIs(s, i + 2); }
      if i + 3 <= j <= |s| && s[j - 1] == '>' && forall k :: i + 2 <= k < j - 1 ==> s[k] != '>' {
        NameCloses(s, i + 2, j - 1);
      }
    }
  }

  // ----- what is read is a phrase

  lemma {:induction false} AtomSound(s: string, i: nat)
    requires i < |s| && s[i] != '|' && Atom(s, i).Some?
    ensures var (j, quantifiable) := Atom(s, i).value;
      if quantifiable then AtomAt(s, i, j) else j == i + 1 && (s[i] == '^' || s[i] == '$')
    decreases |s| - i, 0
  {
    hide Disjunction, SpecifierEnd, ClassEnd, ClassCharsAt, SpecifierAt, DisjunctionAt;
    if s[i] == '(' {
      var k := SpecifierEnd(s, i + 1).value;
      var j := Disjunction(s, k).value;
      SpecifierIs(s, i + 1, k);
      DisjunctionSound(s, k);
      assert InsideAt(s, i + 1, j);
    } else if s[i] == '[' {
      ClassForward(s, i);
      ClassIs(s, i, Atom(s, i).value.0);
    }
  }

  lemma ClassForward(s: string, i: nat)
    requires i < |s| && ClassEnd(s, if At(s, i + 1, '^') then i + 2 else i + 1).Some?
    ensures i + 1 < ClassEnd(s, if At(s, i + 1, '^') then i + 2 else i + 1).value
  {
  }

  lemma {:induction false} TermSound(s: string, i: nat)
    requires i < |s| && s[i] != '|' && Term(s, i).Some?
    ensures TermAt(s, i, Term(s, i).value)
    decreases |s| - i, 1
  {
    hide Atom, QuantifierEnd, AtomAt, QuantifierAt;
    AtomSound(s, i);
    var (j, quantifiable) := Atom(s, i).value;
    forall m ensures QuantifierAt(s, j, m) <==> m == QuantifierEnd(s, j) && j < m { QuantifierIs(s, j, m); }
  }

  lemma {:induction false} AlternativeSound(s: string, i: nat)
    requires i <= |s| && Alternative(s, i).Some?
    ensures AlternativeAt(s, i, Alternative(s, i).value)
    decreases |s| - i, 2
  {
    hide Term, TermAt;
    if !Stops(s, i) {
      var k := Term(s, i).value;
      TermSound(s, i);
      AlternativeSound(s, k);
    }
  }

  lemma {:induction false} DisjunctionSound(s: string, i: nat)
    requires i <= |s| && Disjunction(s, i).Some?
    ensures DisjunctionAt(s, i, Disjunction(s, i).value)
    decreases |s| - i, 3
  {
    hide Alternative, AlternativeAt;
    AlternativeSound(s, i);
    var k := Alternative(s, i).value;
    if At(s, k, '|') { DisjunctionSound(s, k + 1); }
  }

  // ----- every phrase is read

  lemma {:induction false} AtomComplete(s: string, i: nat, j: nat)
    requires AtomAt(s, i, j)
    ensures i < |s| && Atom(s, i) == Some((j, true)) && !Stops(s, i)
    decreases j - i, 0
  {
    hide Disjunction, SpecifierEnd, ClassEnd, ClassCharsAt, SpecifierAt, DisjunctionAt;
    if s[i] == '(' {
      var k: nat :| i + 1 <= k <= j - 1 && SpecifierAt(s, i + 1, k) && DisjunctionAt(s, k, j - 1);
      SpecifierIs(s, i + 1, k);
      DisjunctionComplete(s, k, j - 1);
    } else if s[i] == '[' {
      ClassIs(s, i, j);
    }
  }

  lemma {:induction false} TermComplete(s: string, i: nat, j: nat)
    requires TermAt(s, i, j)
    ensures i < |s| && Term(s, i) == Some(j) && !Stops(s, i)
    decreases if i <= j then j - i else 0, 1
  {
    hide QuantifierEnd, AtomAt, QuantifierAt;
    if k: nat :| i < k <= j && AtomAt(s, i, k)
                 && (QuantifierAt(s, k, j) || (k == j && forall m: nat :: !QuantifierAt(s, k, m))) {
      AtomComplete(s, i, k);
      hide Atom;
      QuantifierIs(s, k, QuantifierEnd(s, k));
      QuantifierIs(s, k, j);
    } else {
      AssertionReads(s, i);
    }
  }

  lemma AssertionReads(s: string, i: nat)
    requires i < |s| && (s[i] == '^' || s[i] == '$')
    ensures Atom(s, i) == Some((i + 1, false))
  {
  }

  lemma {:induction false} AlternativeComplete(s: string, i: nat, j: nat)
    requires AlternativeAt(s, i, j) && i <= j && Stops(s, j)
    ensures i <= |s| && Alternative(s, i) == Some(j)
    decreases j - i, 2
  {
    hide Term, TermAt;
    if i < j {
      var k: nat :| i < k <= j && TermAt(s, i, k) && AlternativeAt(s, k, j);
      TermComplete(s, i, k);
      AlternativeComplete(s, k, j);
    }
  }

  lemma AlternativeForward(s: string, i: nat, j: nat)
    requires AlternativeAt(s, i, j)
    ensures i <= j
  {
  }

  lemma {:induction false} DisjunctionComplete(s: string, i: nat, j: nat)
    requires DisjunctionAt(s, i, j) && Stops(s, j) && !At(s, j, '|')
    ensures i <= |s| && Disjunction(s, i) == Some(j)
    decreases if i <= j then j - i else 0, 3
  {
    hide Alternative, AlternativeAt;
    if AlternativeAt(s, i, j) {
      AlternativeForward(s, i, j);
      AlternativeComplete(s, i, j);
    } else {
      var k: nat :| i <= k < j <= |s| && AlternativeAt(s, i, k) && s[k] == '|' && DisjunctionAt(s, k + 1, j);
      AlternativeComplete(s, i, k);
      DisjunctionComplete(s, k + 1, j);
    }
  }

  /** The recogniser accepts exactly the texts the grammar derives as a disjunction. */
  lemma AcceptsTheGrammar(pattern: string)
    ensures Compiles(pattern) <==> DisjunctionAt(pattern, 0, |pattern|)
  {
    hide Disjunction, DisjunctionAt;
    if Compiles(pattern) { DisjunctionSound(pattern, 0); }
    if DisjunctionAt(pattern, 0, |pattern|) { DisjunctionComplete(pattern, 0, |pattern|); }
  }
}
