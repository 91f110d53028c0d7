/** Which of its JSON texts a value is written as: the shortest one, and among those the
    one whose hexadecimal digits are lower case. */
module ShortestText {
  import opened Wrappers
  import opened Json
  import opened Grammar
  import opened Canonical
  import opened CanonicalLaws
  import Numbers

  // ----- the case of hexadecimal digits, read off a text character by character

  /** Where a text stands: outside strings, inside one, after a backslash, with digits
      of an escape still to come, or past an upper-case one. */
  datatype Mode = Outside | Inside | Escaping | Digits(left: nat) | Upper

  function Step(m: Mode, c: char): Mode {
    match m
    case Outside => if c == '"' then Inside else Outside
    case Inside => if c == '"' then Outside else if c == '\\' then Escaping else Inside
    case Escaping => if c == 'u' then Digits(4) else Inside
    case Digits(left) => if 'A' <= c <= 'F' then Upper else if left <= 1 then Inside else Digits(left - 1)
    case Upper => Upper
  }

  function Run(t: string, m: Mode): Mode {
    if t == "" then m else Run(t[1..], Step(m, t[0]))
  }

  /** No escape of the text holds an upper-case digit. */
  predicate LowerCase(t: string) { Run(t, Outside) != Upper }

  lemma {:induction false} RunConcat(a: string, b: string, m: Mode)
    ensures Run(a + b, m) == Run(b, Run(a, m))
    decreases |a|
  {
    if a == "" {
      assert a + b == b;
    } else {
      assert (a + b)[1..] == a[1..] + b;
      RunConcat(a[1..], b, Step(m, a[0]));
    }
  }

  lemma {:induction false} RunUpper(t: string)
    ensures Run(t, Upper) == Upper
  {
    if t != "" { RunUpper(t[1..]); }
  }

  lemma {:induction false} RunQuiet(t: string)
    requires '"' !in t
    ensures Run(t, Outside) == Outside
  {
    if t != "" {
      assert t[0] in t && forall c :: c in t[1..] ==> c in t;
      RunQuiet(t[1..]);
    }
  }

  // ----- one stretch of a text

  /** The stretch is at least as long as `t`, ends in the mode it should or past an upper-case
      digit, and is `t` where it is no longer and holds none. */
  ghost predicate Bounded(s: string, i: nat, j: nat, t: string, from: Mode, to: Mode) {
    && i + |t| <= j <= |s|
    && (Run(s[i..j], from) == to || Run(s[i..j], from) == Upper)
    && (j == i + |t| && Run(s[i..j], from) == to ==> s[i..j] == t)
  }

  lemma Joined(s: string, i: nat, k: nat, j: nat, a: string, b: string, from: Mode, middle: Mode, to: Mode)
    requires Bounded(s, i, k, a, from, middle) && Bounded(s, k, j, b, middle, to) && middle != Upper && to != Upper
    ensures Bounded(s, i, j, a + b, from, to)
  {
    assert s[i..j] == s[i..k] + s[k..j];
    RunConcat(s[i..k], s[k..j], from);
    RunUpper(s[k..j]);
    if j == i + |a + b| && Run(s[i..j], from) == to {
      assert k == i + |a|;
    }
  }

  lemma Exactly(s: string, i: nat, j: nat, t: string)
    requires i <= j <= |s| && s[i..j] == t && '"' !in t
    ensures Bounded(s, i, j, t, Outside, Outside)
  {
    RunQuiet(t);
  }

  lemma Spaces(s: string, i: nat, j: nat)
    requires Blank(s, i, j)
    ensures Bounded(s, i, j, "", Outside, Outside)
  {
    forall c | c in s[i..j] ensures c != '"' {
      var k :| i <= k < j && s[k] == c;
    }
    RunQuiet(s[i..j]);
  }

  lemma OneChar(s: string, i: nat, c: char, from: Mode)
    requires i < |s| && s[i] == c && Step(from, c) != Upper
    ensures Bounded(s, i, i + 1, [c], from, Step(from, c))
  {
    assert s[i..i + 1] == [c];
    assert [c][1..] == "";
    assert Run([c], from) == Run("", Step(from, c));
  }

  // ----- characters and strings

  lemma RunFirst(t: string, m: Mode)
    requires t != ""
    ensures Run(t, m) == Run(t[1..], Step(m, t[0]))
  {
  }

  lemma RunTwo(t: string, m: Mode)
    requires |t| == 2
    ensures Run(t, m) == Step(Step(m, t[0]), t[1])
  {
    RunFirst(t, m);
    RunFirst(t[1..], Step(m, t[0]));
    assert t[1..][1..] == "";
  }

  lemma RunFour(t: string)
    requires |t| == 4
    ensures Run(t, Digits(4)) == if exists k :: 0 <= k < 4 && 'A' <= t[k] <= 'F' then Upper else Inside
  {
    var (a, b) := (t[..2], t[2..]);
    assert t == a + b;
    RunConcat(a, b, Digits(4));
    RunTwo(a, Digits(4));
    RunTwo(b, Run(a, Digits(4)));
    assert a[0] == t[0] && a[1] == t[1] && b[0] == t[2] && b[1] == t[3];
  }

  /** An escape of four digits ends inside the string, unless a digit is upper case. */
  lemma RunEscape(s: string, i: nat)
    requires i + 6 <= |s| && EscapeAt(s, i)
    ensures Run(s[i..i + 6], Inside) ==
      if exists k :: i + 2 <= k < i + 6 && 'A' <= s[k] <= 'F' then Upper else Inside
  {
    var (a, b) := (s[i..i + 2], s[i + 2..i + 6]);
    assert s[i..i + 6] == a + b;
    RunConcat(a, b, Inside);
    RunTwo(a, Inside);
    assert a[0] == '\\' && a[1] == 'u';
    RunFour(b);
    assert forall k :: 0 <= k < 4 ==> b[k] == s[i + 2 + k];
    if exists k :: i + 2 <= k < i + 6 && 'A' <= s[k] <= 'F' {
      var k :| i + 2 <= k < i + 6 && 'A' <= s[k] <= 'F';
      assert b[k - i - 2] == s[k];
    }
  }

  lemma EscapeLength(c: char)
    ensures 1 <= |Escape(c)| <= 6
    ensures ' ' <= c && c != '"' && c != '\\' ==> Escape(c) == [c]
  {
  }

  lemma ShortEscape(e: char, c: char)
    requires Unescape(e) == Some(c)
    ensures e != 'u' && |Escape(c)| <= 2 && (|Escape(c)| == 2 ==> Escape(c) == ['\\', e])
  {
  }

  /** No spelling of a character is shorter than the one that is written, and of the
      short ones with lower-case digits it is the only one. */
  lemma CharShortest(s: string, i: nat, j: nat, c: char)
    requires Spells(s, i, j, c)
    ensures Bounded(s, i, j, Escape(c), Inside, Inside)
  {
    EscapeLength(c);
    hide Escape, Unescape, HexDigit, Hex4;
    if j == i + 1 {
      OneChar(s, i, c, Inside);
    } else if j == i + 2 {
      ShortEscape(s[i + 1], c);
      RunTwo(s[i..j], Inside);
      assert s[i..j] == [s[i], s[i + 1]];
    } else if j == i + 6 {
      RunEscape(s, i);
      if |Escape(c)| == 6 && Run(s[i..j], Inside) == Inside { OneEscape(s, i, c); }
    } else {
      assert s[i..j] == s[i..i + 6] + s[i + 6..i + 6 + 6];
      RunConcat(s[i..i + 6], s[i + 6..i + 6 + 6], Inside);
      RunEscape(s, i);
      RunEscape(s, i + 6);
      RunUpper(s[i + 6..i + 6 + 6]);
    }
  }

  /** Four lower-case digits spell a control character in one way. */
  lemma OneEscape(s: string, i: nat, c: char)
    requires i + 6 <= |s| && EscapeAt(s, i) && Hex4(s, i + 2) == Some(c as int) && |Escape(c)| == 6
    requires forall k :: i + 2 <= k < i + 6 ==> !('A' <= s[k] <= 'F')
    ensures s[i..i + 6] == Escape(c)
  {
    LongForm(c);
    hide Escape;
    var (x, y) := (s[i + 4], s[i + 5]);
    ZeroDigits(s, i + 2, c as int);
    LowerDigit(s[i + 2]);
    LowerDigit(s[i + 3]);
    LowerDigit(x);
    LowerDigit(y);
    assert HexChar(0) == '0';
    hide HexChar, HexDigit;
    assert s[i..i + 6] == [s[i], s[i + 1], s[i + 2], s[i + 3], x, y];
    assert Escape(c) == [Escape(c)[0], Escape(c)[1], Escape(c)[2], Escape(c)[3], Escape(c)[4], Escape(c)[5]];
  }

  lemma ZeroDigits(s: string, i: nat, code: int)
    requires Hex4(s, i) == Some(code) && code < 32
    ensures i + 4 <= |s| && HexDigit(s[i]) == Some(0) && HexDigit(s[i + 1]) == Some(0)
    ensures HexDigit(s[i + 2]) == Some(code / 16) && HexDigit(s[i + 3]) == Some(code % 16)
  {
    DigitBelow(s[i]);
    DigitBelow(s[i + 1]);
    DigitBelow(s[i + 2]);
    DigitBelow(s[i + 3]);
    hide HexDigit;
  }

  lemma DigitBelow(c: char)
    ensures HexDigit(c).Some? ==> HexDigit(c).value < 16
  {
  }

  lemma LowerDigit(c: char)
    requires HexDigit(c).Some? && !('A' <= c <= 'F')
    ensures c == HexChar(HexDigit(c).value)
  {
  }

  lemma {:induction false} CharsShortest(s: string, i: nat, j: nat, text: string)
    requires CharsAt(s, i, j, text)
    ensures Bounded(s, i, j, Escapes(text), Inside, Inside)
    decreases |text|
  {
    hide Escape, Spells, Run;
    if text == "" {
      EmptyRun(s, i);
    } else {
      var k: nat :| Spells(s, i, k, text[0]) && CharsAt(s, k, j, text[1..]);
      CharShortest(s, i, k, text[0]);
      CharsShortest(s, k, j, text[1..]);
      hide Bounded;
      Joined(s, i, k, j, Escape(text[0]), Escapes(text[1..]), Inside, Inside, Inside);
    }
  }

  lemma EmptyRun(s: string, i: nat)
    requires i <= |s|
    ensures Bounded(s, i, i, "", Inside, Inside)
  {
    assert s[i..i] == "";
  }

  lemma StringShortest(s: string, i: nat, j: nat, text: string)
    requires StringAt(s, i, j, text)
    ensures Bounded(s, i, j, Quote(text), Outside, Outside)
  {
    hide Bounded, Escapes, Run, CharsAt;
    CharsShortest(s, i + 1, j - 1, text);
    OneChar(s, i, '"', Outside);
    OneChar(s, j - 1, '"', Inside);
    Joined(s, i + 1, j - 1, j, Escapes(text), ['"'], Inside, Inside, Outside);
    Joined(s, i, i + 1, j, ['"'], Escapes(text) + ['"'], Outside, Inside, Outside);
    assert Quote(text) == ['"'] + (Escapes(text) + ['"']);
  }

  // ----- values

  lemma LexemeQuiet(lexeme: string)
    requires IsFiniteNumber(lexeme)
    ensures '"' !in lexeme
  {
    var x: Numbers.Lexeme :| x.Valid() && x.Text() == lexeme && Numbers.Finite(x);
    TextQuiet(x);
  }

  lemma TextQuiet(x: Numbers.Lexeme)
    requires x.Valid()
    ensures '"' !in x.Text()
  {
    var (f, e) := (Numbers.FractionText(x.fraction), Numbers.ExponentText(x.exponent));
    DigitsQuiet(x.whole);
    if x.fraction.Some? {
      DigitsQuiet(x.fraction.value);
      NotInBoth(".", x.fraction.value);
    }
    if x.exponent.Some? {
      var v := x.exponent.value;
      DigitsQuiet(v.digits);
      NotInBoth(v.sign, v.digits);
      NotInBoth([v.mark], v.sign + v.digits);
    }
    NotInBoth(f, e);
    NotInBoth(x.whole, f + e);
    NotInBoth(Numbers.Minus(x.negative), x.whole + (f + e));
  }

  lemma NotInBoth(a: string, b: string)
    requires '"' !in a && '"' !in b
    ensures '"' !in a + b
  {
  }

  lemma DigitsQuiet(t: string)
    requires Numbers.AllDigits(t)
    ensures '"' !in t
  {
  }

  lemma Padded(s: string, i: nat, a: nat, b: nat, j: nat, t: string)
    requires Blank(s, i, a) && Bounded(s, a, b, t, Outside, Outside) && Blank(s, b, j)
    ensures Bounded(s, i, j, t, Outside, Outside)
  {
    Spaces(s, i, a);
    Spaces(s, b, j);
    hide Bounded, Run;
    Joined(s, a, b, j, t, "", Outside, Outside, Outside);
    Joined(s, i, a, j, "", t + "", Outside, Outside, Outside);
    assert "" + (t + "") == t;
  }

  lemma Bracketed(s: string, i: nat, j: nat, open: char, t: string, close: char)
    requires i + 1 < j <= |s| && s[i] == open && s[j - 1] == close && open != '"' && close != '"'
    requires Bounded(s, i + 1, j - 1, t, Outside, Outside)
    ensures Bounded(s, i, j, [open] + (t + [close]), Outside, Outside)
  {
    OneChar(s, i, open, Outside);
    OneChar(s, j - 1, close, Outside);
    hide Bounded, Run;
    Joined(s, i + 1, j - 1, j, t, [close], Outside, Outside, Outside);
    Joined(s, i, i + 1, j, [open], t + [close], Outside, Outside, Outside);
  }

  lemma Separated(s: string, i: nat, k: nat, j: nat, a: string, c: char, b: string)
    requires k < |s| && s[k] == c && c != '"'
    requires Bounded(s, i, k, a, Outside, Outside) && Bounded(s, k + 1, j, b, Outside, Outside)
    ensures Bounded(s, i, j, a + ([c] + b), Outside, Outside)
  {
    OneChar(s, k, c, Outside);
    hide Bounded, Run;
    Joined(s, k, k + 1, j, [c], b, Outside, Outside, Outside);
    Joined(s, i, k, j, a, [c] + b, Outside, Outside, Outside);
  }

  lemma {:induction false} ValueShortest(s: string, i: nat, j: nat, v: Json)
    requires ValueAt(s, i, j, v)
    ensures Bounded(s, i, j, Print(v), Outside, Outside)
    decreases v, 0
  {
    hide ItemsAt, MembersAt, StringAt, IsFiniteNumber, Quote, Bounded, Blank;
    match v
    case Null => Exactly(s, i, j, "null");
    case Bool(flag) => Exactly(s, i, j, if flag then "true" else "false");
    case Number(lexeme) =>
      LexemeQuiet(lexeme);
      Exactly(s, i, j, lexeme);
    case Str(text) => StringShortest(s, i, j, text);
    case Array(items) =>
      if items == [] { Spaces(s, i + 1, j - 1); } else { ItemsShortest(s, i + 1, j - 1, items); }
      Bracketed(s, i, j, '[', PrintItems(items), ']');
    case Object(members) =>
      if members == [] { Spaces(s, i + 1, j - 1); } else { MembersShortest(s, i + 1, j - 1, members); }
      Bracketed(s, i, j, '{', PrintMembers(members), '}');
  }

  lemma {:induction false} ElementShortest(s: string, i: nat, j: nat, v: Json)
    requires ElementAt(s, i, j, v)
    ensures Bounded(s, i, j, Print(v), Outside, Outside)
    decreases v, 1
  {
    hide ValueAt, Bounded, Blank, Print;
    var a: nat, b: nat :| Blank(s, i, a) && ValueAt(s, a, b, v) && Blank(s, b, j);
    ValueShortest(s, a, b, v);
    Padded(s, i, a, b, j, Print(v));
  }

  lemma {:induction false} ItemsShortest(s: string, i: nat, j: nat, items: seq<Json>)
    requires items != [] && ItemsAt(s, i, j, items)
    ensures Bounded(s, i, j, PrintItems(items), Outside, Outside)
    decreases items, 2
  {
    hide ElementAt, Bounded, Print;
    if |items| == 1 {
      ElementShortest(s, i, j, items[0]);
    } else {
      var k: nat :| k < |s| && s[k] == ',' && ElementAt(s, i, k, items[0]) && ItemsAt(s, k + 1, j, items[1..]);
      ElementShortest(s, i, k, items[0]);
      ItemsShortest(s, k + 1, j, items[1..]);
      Separated(s, i, k, j, Print(items[0]), ',', PrintItems(items[1..]));
    }
  }

  lemma NameShortest(s: string, i: nat, j: nat, name: string)
    requires NameAt(s, i, j, name)
    ensures Bounded(s, i, j, Quote(name), Outside, Outside)
  {
    hide StringAt, Bounded, Blank, Quote;
    var a: nat, b: nat :| Blank(s, i, a) && StringAt(s, a, b, name) && Blank(s, b, j);
    StringShortest(s, a, b, name);
    Padded(s, i, a, b, j, Quote(name));
  }

  lemma {:induction false} MemberShortest(s: string, i: nat, j: nat, member: (string, Json))
    requires MemberAt(s, i, j, member)
    ensures Bounded(s, i, j, PrintMember(member), Outside, Outside)
    decreases member, 2
  {
    hide ElementAt, NameAt, Bounded, Print, Quote;
    var k: nat :| k < |s| && s[k] == ':' && NameAt(s, i, k, member.0) && ElementAt(s, k + 1, j, member.1);
    NameShortest(s, i, k, member.0);
    ElementShortest(s, k + 1, j, member.1);
    Separated(s, i, k, j, Quote(member.0), ':', Print(member.1));
  }

  lemma {:induction false} MembersShortest(s: string, i: nat, j: nat, members: seq<(string, Json)>)
    requires members != [] && MembersAt(s, i, j, members)
    ensures Bounded(s, i, j, PrintMembers(members), Outside, Outside)
    decreases members, 3
  {
    hide MemberAt, Bounded, PrintMember;
    if |members| == 1 {
      MemberShortest(s, i, j, members[0]);
    } else {
      var k: nat :| k < |s| && s[k] == ',' && MemberAt(s, i, k, members[0]) && MembersAt(s, k + 1, j, members[1..]);
      MemberShortest(s, i, k, members[0]);
      MembersShortest(s, k + 1, j, members[1..]);
      Separated(s, i, k, j, PrintMember(members[0]), ',', PrintMembers(members[1..]));
    }
  }

  // ----- what is written holds no upper-case digit

  lemma EscapeRuns(c: char)
    ensures Run(Escape(c), Inside) == Inside
  {
    EscapeLength(c);
    hide Run, HexChar;
    var t := Escape(c);
    if |t| == 1 {
      PlainForm(c);
      hide Escape;
      RunFirst(t, Inside);
      RunNothing(t[1..], Inside);
    } else if |t| == 2 {
      ShortForm(c);
      hide Escape;
      RunTwo(t, Inside);
    } else {
      LongForm(c);
      hide Escape;
      assert t[0..6] == t;
      RunEscape(t, 0);
      LowerChar(c as int / 16);
      LowerChar(c as int % 16);
    }
  }

  lemma LowerChar(d: nat)
    requires d < 16
    ensures !('A' <= HexChar(d) <= 'F')
  {
  }

  lemma RunNothing(t: string, m: Mode)
    requires t == ""
    ensures Run(t, m) == m
  {
  }

  lemma {:induction false} EscapesRun(text: string)
    ensures Run(Escapes(text), Inside) == Inside
  {
    hide Escape, Run;
    if text == "" {
      RunNothing(Escapes(text), Inside);
    } else {
      EscapeRuns(text[0]);
      EscapesRun(text[1..]);
      RunConcat(Escape(text[0]), Escapes(text[1..]), Inside);
    }
  }

  lemma QuoteRuns(text: string)
    ensures Run(Quote(text), Outside) == Outside
  {
    hide Escapes, Run;
    EscapesRun(text);
    var (open, rest) := (['"'], Escapes(text) + ['"']);
    assert Quote(text) == open + rest;
    RunConcat(open, rest, Outside);
    RunConcat(Escapes(text), ['"'], Inside);
    RunOne('"', Outside);
    RunOne('"', Inside);
  }

  lemma RunOne(c: char, m: Mode)
    ensures Run([c], m) == Step(m, c)
  {
    assert [c][1..] == "";
    RunFirst([c], m);
    RunNothing("", Step(m, c));
  }

  lemma Quiet(c: char, t: string)
    requires c != '"' && Run(t, Outside) == Outside
    ensures Run([c] + t, Outside) == Outside && Run(t + [c], Outside) == Outside
  {
    hide Run;
    RunOne(c, Outside);
    RunConcat([c], t, Outside);
    RunConcat(t, [c], Outside);
  }

  lemma {:induction false} PrintRuns(v: Json)
    requires NumbersOk(v)
    ensures Run(Print(v), Outside) == Outside
    decreases v, 0
  {
    hide Run, Quote, IsFiniteNumber, NumbersOk, PrintItems, PrintMembers;
    match v
    case Null => RunQuiet("null");
    case Bool(flag) => RunQuiet(if flag then "true" else "false");
    case Number(lexeme) =>
      NumberOk(lexeme);
      LexemeQuiet(lexeme);
      RunQuiet(lexeme);
    case Str(text) => QuoteRuns(text);
    case Array(items) =>
      ItemsOk(items);
      ItemsRun(items);
      Quiet(']', PrintItems(items));
      Quiet('[', PrintItems(items) + [']']);
    case Object(members) =>
      MembersOk(members);
      MembersRun(members);
      Quiet('}', PrintMembers(members));
      Quiet('{', PrintMembers(members) + ['}']);
  }

  lemma NumberOk(lexeme: string)
    requires NumbersOk(Number(lexeme))
    ensures IsFiniteNumber(lexeme)
  {
  }

  lemma ItemsOk(items: seq<Json>)
    requires NumbersOk(Array(items))
    ensures forall i :: 0 <= i < |items| ==> NumbersOk(items[i])
  {
  }

  lemma MembersOk(members: seq<(string, Json)>)
    requires NumbersOk(Object(members))
    ensures forall i :: 0 <= i < |members| ==> NumbersOk(members[i].1)
  {
    assert forall i :: 0 <= i < |members| ==> MemberNumbersOk(members[i]);
  }

  lemma {:induction false} ItemsRun(items: seq<Json>)
    requires forall i :: 0 <= i < |items| ==> NumbersOk(items[i])
    ensures Run(PrintItems(items), Outside) == Outside
    decreases items, 1
  {
    hide Run, Print, NumbersOk;
    if items == [] {
      RunNothing(PrintItems(items), Outside);
    } else {
      PrintRuns(items[0]);
      ItemsRun(items[1..]);
      Quiet(',', PrintItems(items[1..]));
      RunConcat(Print(items[0]), [','] + PrintItems(items[1..]), Outside);
    }
  }

  lemma {:induction false} MemberRuns(member: (string, Json))
    requires NumbersOk(member.1)
    ensures Run(PrintMember(member), Outside) == Outside
    decreases member, 1
  {
    hide Run, Print, NumbersOk, Quote;
    QuoteRuns(member.0);
    PrintRuns(member.1);
    Quiet(':', Print(member.1));
    RunConcat(Quote(member.0), [':'] + Print(member.1), Outside);
  }

  lemma {:induction false} MembersRun(members: seq<(string, Json)>)
    requires forall i :: 0 <= i < |members| ==> NumbersOk(members[i].1)
    ensures Run(PrintMembers(members), Outside) == Outside
    decreases members, 2
  {
    hide Run, PrintMember, NumbersOk;
    if members == [] {
      RunNothing(PrintMembers(members), Outside);
    } else {
      MemberRuns(members[0]);
      MembersRun(members[1..]);
      Quiet(',', PrintMembers(members[1..]));
      RunConcat(PrintMember(members[0]), [','] + PrintMembers(members[1..]), Outside);
    }
  }

  // ----- the text that is written

  /** A string is written as the shortest of its spellings; of the shortest ones it is
      the one in lower case. */
  lemma QuoteDetermined(s: string, text: string)
    requires StringAt(s, 0, |s|, text)
    ensures |Quote(text)| <= |s| && LowerCase(Quote(text))
    ensures |s| == |Quote(text)| && LowerCase(s) ==> s == Quote(text)
  {
    hide Quote, Run, StringAt;
    StringShortest(s, 0, |s|, text);
    QuoteRuns(text);
    assert s[0..|s|] == s;
  }

  /** The canonical text is the shortest text of the canonical form, and the only one of
      its length whose escapes are in lower case. */
  lemma TextDetermined(f: Decoder, v: Json, s: string)
    requires Faithful(f) && Writable(f, v) && IsText(s, Form(f, v, true))
    ensures var t := CanonicalText(f, v);
      |t| <= |s| && LowerCase(t) && (|s| == |t| && LowerCase(s) ==> s == t)
  {
    hide Form, Print, Run, Writable, Faithful, NumbersOk, ElementAt;
    var w := Form(f, v, true);
    FormNumbersOk(f, v, true);
    PrintRuns(w);
    ElementShortest(s, 0, |s|, w);
    assert s[0..|s|] == s;
  }
}
