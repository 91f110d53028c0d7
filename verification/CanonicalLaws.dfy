/** What the canonical form means: its text is read back as the resolved, sorted
    and re-rendered value, and two values share it exactly when they agree member
    by member. */
module CanonicalLaws {
  import opened Wrappers
  import opened Json
  import opened Members
  import opened Numbers
  import opened Grammar
  import opened Canonical
  import Reader
  import ReaderGrammar

  /** What the writers rely on of binary64: shortest digits are well formed, a
      rendered number stays in the finite domain, and re-reading it and rendering
      it again gives the same text. */
  ghost predicate Faithful(f: Decoder) {
    && (forall l :: IsFiniteNumber(l) ==> f(l).IsFinite())
    && (forall l :: f(l).IsFinite() ==> f(l).Valid() && (Rendered(f(l)).Valid() ==> Finite(Rendered(f(l)))))
    && (forall l :: f(l).IsFinite() ==> EcmaNumberToString(f(EcmaNumberToString(f(l)))) == EcmaNumberToString(f(l)))
  }

  // ----- written text is JSON text

  ghost predicate NumbersOk(v: Json) {
    match v
    case Number(lexeme) => IsFiniteNumber(lexeme)
    case Array(items) => forall i :: 0 <= i < |items| ==> NumbersOk(items[i])
    case Object(members) => forall i :: 0 <= i < |members| ==> MemberNumbersOk(members[i])
    case _ => true
  }

  ghost predicate MemberNumbersOk(member: (string, Json)) { NumbersOk(member.1) }

  lemma HexCharValue(d: nat)
    requires d < 16
    ensures HexDigit(HexChar(d)) == Some(d)
  {
  }

  lemma CharsHere(s: string, i: nat, t: string)
    requires Here(s, i, t)
    ensures i + |t| <= |s| && forall k :: 0 <= k < |t| ==> s[i + k] == t[k]
  {
    assert forall k :: 0 <= k < |t| ==> s[i..i + |t|][k] == t[k];
  }

  lemma PlainForm(c: char)
    requires |Escape(c)| == 1
    ensures Escape(c)[0] == c && ' ' <= c && c != '"' && c != '\\'
  {
  }

  lemma ShortForm(c: char)
    requires |Escape(c)| == 2
    ensures Escape(c)[0] == '\\' && Unescape(Escape(c)[1]) == Some(c)
  {
  }

  lemma LongForm(c: char)
    requires |Escape(c)| != 1 && |Escape(c)| != 2
    ensures var t := Escape(c);
      && c < ' ' && |t| == 6 && t[0] == '\\' && t[1] == 'u' && t[2] == '0' && t[3] == '0'
      && t[4] == HexChar(c as int / 16) && t[5] == HexChar(c as int % 16)
  {
    hide HexChar;
  }

  lemma EscapeSpells(s: string, i: nat, c: char)
    requires Here(s, i, Escape(c))
    ensures Spells(s, i, i + |Escape(c)|, c)
  {
    hide Here, Escape, HexChar, Hex4, EscapeAt, Unescape;
    CharsHere(s, i, Escape(c));
    if |Escape(c)| == 1 {
      PlainForm(c);
    } else if |Escape(c)| == 2 {
      ShortForm(c);
    } else {
      LongForm(c);
      HexSpells(s, i, c);
    }
  }

  lemma HexSpells(s: string, i: nat, c: char)
    requires c < ' ' && i + 6 <= |s| && s[i] == '\\' && s[i + 1] == 'u' && s[i + 2] == '0' && s[i + 3] == '0'
    requires s[i + 4] == HexChar(c as int / 16) && s[i + 5] == HexChar(c as int % 16)
    ensures Spells(s, i, i + 6, c)
  {
    HexCharValue(c as int / 16);
    HexCharValue(c as int % 16);
    assert HexDigit('0') == Some(0);
    hide HexChar, HexDigit;
    assert Hex4(s, i + 2) == Some(c as int);
  }

  lemma {:induction false} EscapesSpell(s: string, i: nat, text: string)
    requires Here(s, i, Escapes(text))
    ensures CharsAt(s, i, i + |Escapes(text)|, text)
    decreases |text|
  {
    hide Escape, Escapes, Here, Spells, CharsAt;
    if text == "" {
      NothingSpelt(s, i);
    } else {
      var (first, rest) := (Escape(text[0]), Escapes(text[1..]));
      EscapesFirst(text);
      HereSplit(s, i, first, rest);
      EscapeSpells(s, i, text[0]);
      EscapesSpell(s, i + |first|, text[1..]);
      CharsFirst(s, i, i + |first|, i + |first| + |rest|, text);
    }
  }

  lemma NothingSpelt(s: string, i: nat)
    requires Here(s, i, Escapes(""))
    ensures Escapes("") == "" && CharsAt(s, i, i, "")
  {
  }

  lemma EscapesFirst(text: string)
    requires text != ""
    ensures Escapes(text) == Escape(text[0]) + Escapes(text[1..])
  {
    hide Escape;
  }

  lemma CharsFirst(s: string, i: nat, k: nat, j: nat, text: string)
    requires text != "" && Spells(s, i, k, text[0]) && CharsAt(s, k, j, text[1..])
    ensures CharsAt(s, i, j, text)
  {
    hide Spells;
  }

  lemma QuoteSpells(s: string, i: nat, text: string)
    requires Here(s, i, Quote(text))
    ensures StringAt(s, i, i + |Quote(text)|, text)
  {
    hide Escapes, Here, CharsAt;
    assert Quote(text) == "\"" + (Escapes(text) + "\"");
    HereSplit(s, i, "\"", Escapes(text) + "\"");
    HereSplit(s, i + 1, Escapes(text), "\"");
    EscapesSpell(s, i + 1, text);
    OneCharHere(s, i, '"');
    OneCharHere(s, i + |Quote(text)| - 1, '"');
  }

  lemma ElementAlone(s: string, i: nat, j: nat, v: Json)
    requires ValueAt(s, i, j, v)
    ensures ElementAt(s, i, j, v)
  {
    assert Blank(s, i, i) && Blank(s, j, j);
  }

  lemma NameAlone(s: string, i: nat, j: nat, name: string)
    requires StringAt(s, i, j, name)
    ensures NameAt(s, i, j, name)
  {
    assert Blank(s, i, i) && Blank(s, j, j);
  }

  lemma OneCharHere(s: string, i: nat, c: char)
    requires Here(s, i, [c])
    ensures i < |s| && s[i] == c
  {
    assert s[i..i + 1][0] == c;
  }

  lemma {:induction false} PrintIsText(s: string, i: nat, v: Json)
    requires NumbersOk(v) && Here(s, i, Print(v))
    ensures ValueAt(s, i, i + |Print(v)|, v)
    decreases v, 0
  {
    hide ItemsAt, MembersAt, StringAt, IsFiniteNumber, Quote;
    match v
    case Null =>
    case Bool(_) =>
    case Number(lexeme) =>
      LexemeNonEmpty(lexeme);
    case Str(text) =>
      QuoteSpells(s, i, text);
      ReaderGrammar.StringValue(s, i, i + |Print(v)|, text);
    case Array(items) =>
      BracketsHere(s, i, '[', PrintItems(items), ']');
      if items != [] { PrintItemsIsText(s, i + 1, items); }
      ReaderGrammar.ArrayValue(s, i, i + |Print(v)|, items);
    case Object(members) =>
      BracketsHere(s, i, '{', PrintMembers(members), '}');
      if members != [] { PrintMembersIsText(s, i + 1, members); }
      ReaderGrammar.ObjectValue(s, i, i + |Print(v)|, members);
  }

  lemma LexemeNonEmpty(lexeme: string)
    requires IsFiniteNumber(lexeme)
    ensures |lexeme| > 0
  {
    var x: Lexeme :| x.Valid() && x.Text() == lexeme && Finite(x);
    assert |x.Text()| >= |x.whole|;
  }

  lemma BracketsHere(s: string, i: nat, open: char, text: string, close: char)
    requires Here(s, i, [open] + (text + [close]))
    ensures var j := i + |text| + 2;
      j <= |s| && s[i] == open && s[j - 1] == close && Here(s, i + 1, text)
  {
    HereSplit(s, i, [open], text + [close]);
    HereSplit(s, i + 1, text, [close]);
    OneCharHere(s, i, open);
    OneCharHere(s, i + 1 + |text|, close);
  }

  lemma {:induction false} PrintItemsIsText(s: string, i: nat, items: seq<Json>)
    requires items != [] && (forall k :: 0 <= k < |items| ==> NumbersOk(items[k])) && Here(s, i, PrintItems(items))
    ensures ItemsAt(s, i, i + |PrintItems(items)|, items)
    decreases items, 1
  {
    hide ValueAt, ElementAt, ItemsAt, Print, NumbersOk, Here;
    var first := Print(items[0]);
    if |items| == 1 {
      PrintIsText(s, i, items[0]);
      ElementAlone(s, i, i + |first|, items[0]);
      ReaderGrammar.ItemsOne(s, i, i + |first|, items[0]);
      assert [items[0]] == items;
    } else {
      ItemsHere(s, i, items);
      PrintIsText(s, i, items[0]);
      ElementAlone(s, i, i + |first|, items[0]);
      PrintItemsIsText(s, i + |first| + 1, items[1..]);
      ReaderGrammar.ItemsMore(s, i, i + |first|, i + |PrintItems(items)|, items[0], items[1..]);
      assert [items[0]] + items[1..] == items;
    }
  }

  lemma ItemsHere(s: string, i: nat, items: seq<Json>)
    requires |items| > 1 && Here(s, i, PrintItems(items))
    ensures var k := i + |Print(items[0])|;
      && Here(s, i, Print(items[0])) && k < |s| && s[k] == ',' && Here(s, k + 1, PrintItems(items[1..]))
      && |PrintItems(items)| == |Print(items[0])| + 1 + |PrintItems(items[1..])|
  {
    hide Print, Here;
    var (first, rest) := (Print(items[0]), PrintItems(items[1..]));
    HereSplit(s, i, first, "," + rest);
    HereSplit(s, i + |first|, ",", rest);
    OneCharHere(s, i + |first|, ',');
  }

  lemma {:induction false} PrintMemberIsText(s: string, i: nat, member: (string, Json))
    requires MemberNumbersOk(member) && Here(s, i, PrintMember(member))
    ensures MemberAt(s, i, i + |PrintMember(member)|, member)
    decreases member, 1
  {
    hide ValueAt, ElementAt, NameAt, StringAt, Print, NumbersOk, Here, Quote, MemberAt;
    var name, value := Quote(member.0), Print(member.1);
    HereSplit(s, i, name, ":" + value);
    HereSplit(s, i + |name|, ":", value);
    QuoteSpells(s, i, member.0);
    NameAlone(s, i, i + |name|, member.0);
    OneCharHere(s, i + |name|, ':');
    PrintIsText(s, i + |name| + 1, member.1);
    ElementAlone(s, i + |name| + 1, i + |PrintMember(member)|, member.1);
    ReaderGrammar.MemberFrom(s, i, i + |name|, i + |PrintMember(member)|, member.0, member.1);
  }

  lemma {:induction false} PrintMembersIsText(s: string, i: nat, members: seq<(string, Json)>)
    requires members != [] && (forall k :: 0 <= k < |members| ==> MemberNumbersOk(members[k]))
    requires Here(s, i, PrintMembers(members))
    ensures MembersAt(s, i, i + |PrintMembers(members)|, members)
    decreases members, 2
  {
    hide MemberAt, PrintMember, MemberNumbersOk, Here;
    var first := PrintMember(members[0]);
    if |members| == 1 {
      PrintMemberIsText(s, i, members[0]);
      ReaderGrammar.MembersOne(s, i, i + |first|, members[0]);
      assert [members[0]] == members;
    } else {
      var rest := PrintMembers(members[1..]);
      HereSplit(s, i, first, "," + rest);
      HereSplit(s, i + |first|, ",", rest);
      PrintMemberIsText(s, i, members[0]);
      OneCharHere(s, i + |first|, ',');
      PrintMembersIsText(s, i + |first| + 1, members[1..]);
      ReaderGrammar.MembersMore(s, i, i + |first|, i + |PrintMembers(members)|, members[0], members[1..]);
      assert [members[0]] + members[1..] == members;
    }
  }

  lemma RenderedIsFinite(f: Decoder, lexeme: string)
    requires Faithful(f) && f(lexeme).IsFinite()
    ensures IsFiniteNumber(EcmaNumberToString(f(lexeme)))
  {
    hide EcmaNumberToString, Rendered, Finite, Lexeme.Valid, Lexeme.Text;
    RenderedText(f(lexeme));
    assert Finite(Rendered(f(lexeme)));
  }

  /** A member of the arranged list comes from the last member of its name. */
  lemma ArrangedFrom(ms: seq<(string, Json)>, sorted: bool, i: nat) returns (k: nat)
    requires i < |Arrange(ms, sorted)|
    ensures IsLast(ms, k) && ms[k] == Arrange(ms, sorted)[i]
  {
    var x := Arrange(ms, sorted)[i];
    assert x in Arrange(ms, sorted);
    ArrangeWins(ms, sorted, x);
    k :| IsLast(ms, k) && ms[k] == x;
  }

  lemma {:induction false} FormNumbersOk(f: Decoder, v: Json, sorted: bool)
    requires Faithful(f) && Writable(f, v)
    ensures NumbersOk(Form(f, v, sorted))
    decreases v
  {
    hide Faithful, Arrange, IsFiniteNumber, FormMembers, EcmaNumberToString;
    match v
    case Number(lexeme) => RenderedIsFinite(f, lexeme);
    case Array(items) =>
      forall i | 0 <= i < |items| ensures NumbersOk(Form(f, items[i], sorted)) {
        FormNumbersOk(f, items[i], sorted);
      }
    case Object(members) =>
      FormArrange(f, members, sorted);
      var arranged := Arrange(members, sorted);
      forall i | 0 <= i < |arranged| ensures MemberNumbersOk(FormMember(f, arranged[i], sorted)) {
        var k := ArrangedFrom(members, sorted, i);
        assert WritableMember(f, members[k]);
        FormNumbersOk(f, members[k].1, sorted);
      }
    case _ =>
  }

  /** Reading back what the writer wrote gives the written form of the value: its
      duplicates resolved, its numbers re-rendered and, when sorted, its members
      in order. */
  lemma ReadBack(f: Decoder, v: Json, sorted: bool)
    requires Faithful(f) && Writable(f, v)
    ensures var text := Print(Form(f, v, sorted)); Reader.ReadText(text, None) == Reader.Ok(Form(f, v, sorted), |text|)
  {
    hide ElementAt, Reader.ReadText, Form, Print, ValueAt, NumbersOk, Faithful, Writable;
    var w := Form(f, v, sorted);
    FormNumbersOk(f, v, sorted);
    PrintRead(w);
  }

  /** What is printed is read back as the value printed. */
  lemma PrintRead(w: Json)
    requires NumbersOk(w)
    ensures Reader.ReadText(Print(w), None) == Reader.Ok(w, |Print(w)|)
  {
    hide ElementAt, Reader.ReadText, Print, ValueAt, NumbersOk;
    var s := Print(w);
    assert s[0..|s|] == s;
    PrintIsText(s, 0, w);
    ElementAlone(s, 0, |s|, w);
    ReaderGrammar.ReadsTheGrammar(s, w);
  }

  /** Values of different forms have different texts. */
  lemma SameTextSameForm(f: Decoder, a: Json, b: Json, sorted: bool)
    requires Faithful(f) && Writable(f, a) && Writable(f, b)
    requires Print(Form(f, a, sorted)) == Print(Form(f, b, sorted))
    ensures Form(f, a, sorted) == Form(f, b, sorted)
  {
    ReadBack(f, a, sorted);
    ReadBack(f, b, sorted);
  }

  // ----- writing is a projection

  lemma {:induction false} FormTwice(f: Decoder, v: Json, sorted: bool)
    requires Faithful(f) && Writable(f, v)
    ensures Form(f, Form(f, v, sorted), sorted) == Form(f, v, sorted)
    decreases v
  {
    hide Arrange, IsFiniteNumber, EcmaNumberToString, Rendered;
    match v
    case Number(lexeme) =>
    case Array(items) =>
      forall i | 0 <= i < |items| ensures Form(f, Form(f, items[i], sorted), sorted) == Form(f, items[i], sorted) {
        FormTwice(f, items[i], sorted);
      }
      var once := FormItems(f, items, sorted);
      assert FormItems(f, once, sorted) == once;
    case Object(members) =>
      FormArrange(f, members, sorted);
      var arranged := Arrange(members, sorted);
      var once := FormMembers(f, arranged, sorted);
      forall i | 0 <= i < |arranged| ensures FormMember(f, once[i], sorted) == once[i] {
        var k := ArrangedFrom(members, sorted, i);
        assert WritableMember(f, members[k]);
        FormTwice(f, members[k].1, sorted);
      }
      assert FormMembers(f, once, sorted) == once;
      ArrangeTwice(FormMembers(f, members, sorted), sorted);
    case _ =>
  }

  lemma ArrangeTwice(ms: seq<(string, Json)>, sorted: bool)
    ensures Arrange(Arrange(ms, sorted), sorted) == Arrange(ms, sorted)
  {
    var arranged := Arrange(ms, sorted);
    ArrangeWins(ms, sorted, ("", Null));
    ResolveOfDistinct(arranged);
    if sorted { SortOfAscending(arranged); }
  }

  // ----- what the canonical form distinguishes

  /** Two values agree: numbers by their rendering, arrays item by item, objects
      by the last member of each name, whatever the order of members. */
  ghost predicate Same(f: Decoder, a: Json, b: Json)
    decreases a, 1
  {
    match (a, b)
    case (Number(l), Number(m)) => EcmaNumberToString(f(l)) == EcmaNumberToString(f(m))
    case (Array(xs), Array(ys)) => |xs| == |ys| && forall i :: 0 <= i < |xs| ==> Same(f, xs[i], ys[i])
    case (Object(ms), Object(ns)) =>
      && (forall i: nat :: IsLast(ms, i) ==> exists j: nat :: IsLast(ns, j) && SameMember(f, ms[i], ns[j]))
      && (forall j :: 0 <= j < |ns| ==> Named(ms, ns[j].0))
    case _ => a == b && !a.Number? && !a.Array? && !a.Object?
  }

  ghost predicate Named(ms: seq<(string, Json)>, name: string) {
    exists i :: 0 <= i < |ms| && ms[i].0 == name
  }

  ghost predicate SameMember(f: Decoder, m: (string, Json), n: (string, Json))
    decreases m, 0
  {
    m.0 == n.0 && Same(f, m.1, n.1)
  }

  lemma FormLast(f: Decoder, ms: seq<(string, Json)>, sorted: bool, i: nat)
    ensures IsLast(FormMembers(f, ms, sorted), i) <==> IsLast(ms, i)
  {
    var fs := FormMembers(f, ms, sorted);
    assert forall j :: 0 <= j < |ms| ==> fs[j].0 == ms[j].0;
  }

  lemma FormedWins(f: Decoder, ms: seq<(string, Json)>, sorted: bool, x: (string, Json))
    ensures Wins(FormMembers(f, ms, sorted), x) <==>
      exists i: nat :: i < |ms| && IsLast(ms, i) && FormMember(f, ms[i], sorted) == x
  {
    hide FormMember;
    var fs := FormMembers(f, ms, sorted);
    if Wins(fs, x) {
      var i: nat :| IsLast(fs, i) && fs[i] == x;
      FormLast(f, ms, sorted, i);
    }
    if i: nat :| i < |ms| && IsLast(ms, i) && FormMember(f, ms[i], sorted) == x {
      FormLast(f, ms, sorted, i);
      assert IsLast(fs, i) && fs[i] == x;
    }
  }

  lemma LastUnique(ms: seq<(string, Json)>, i: nat, j: nat)
    requires IsLast(ms, i) && IsLast(ms, j) && ms[i].0 == ms[j].0
    ensures i == j
  {
  }

  lemma SameMemberOf(f: Decoder, ms: seq<(string, Json)>, ns: seq<(string, Json)>, i: nat) returns (j: nat)
    requires Same(f, Object(ms), Object(ns)) && IsLast(ms, i)
    ensures IsLast(ns, j) && ms[i].0 == ns[j].0 && Same(f, ms[i].1, ns[j].1)
  {
    j :| IsLast(ns, j) && SameMember(f, ms[i], ns[j]);
  }

  lemma SameNameOf(f: Decoder, ms: seq<(string, Json)>, ns: seq<(string, Json)>, j: nat) returns (i: nat)
    requires Same(f, Object(ms), Object(ns)) && IsLast(ns, j)
    ensures IsLast(ms, i) && ms[i].0 == ns[j].0
  {
    assert Named(ms, ns[j].0);
    var k :| 0 <= k < |ms| && ms[k].0 == ns[j].0;
    i := NameWins(ms, k);
  }

  /** A member of the first object is written as a member of the second. */
  lemma {:induction false} SameMembersInto(f: Decoder, ms: seq<(string, Json)>, ns: seq<(string, Json)>, i: nat)
      returns (j: nat)
    requires Same(f, Object(ms), Object(ns)) && IsLast(ms, i)
    ensures IsLast(ns, j) && FormMember(f, ms[i], true) == FormMember(f, ns[j], true)
    decreases ms, 0
  {
    j := SameMemberOf(f, ms, ns, i);
    hide Form, Same;
    SameIsSameForm(f, ms[i].1, ns[j].1);
  }

  /** Values that agree have one canonical form. */
  lemma {:induction false} SameIsSameForm(f: Decoder, a: Json, b: Json)
    requires Same(f, a, b)
    ensures Form(f, a, true) == Form(f, b, true)
    decreases a, 1
  {
    hide Arrange, EcmaNumberToString, IsLast;
    match (a, b)
    case (Array(xs), Array(ys)) =>
      forall i | 0 <= i < |xs| ensures Form(f, xs[i], true) == Form(f, ys[i], true) {
        SameIsSameForm(f, xs[i], ys[i]);
      }
      assert FormItems(f, xs, true) == FormItems(f, ys, true);
    case (Object(ms), Object(ns)) =>
      SameObjects(f, ms, ns);
    case _ =>
  }

  lemma {:induction false} SameObjects(f: Decoder, ms: seq<(string, Json)>, ns: seq<(string, Json)>)
    requires Same(f, Object(ms), Object(ns))
    ensures Arrange(FormMembers(f, ms, true), true) == Arrange(FormMembers(f, ns, true), true)
    decreases ms, 2
  {
    hide Arrange, FormMember, Same, FormMembers, Wins;
    var fm, fn := FormMembers(f, ms, true), FormMembers(f, ns, true);
    forall x ensures x in Arrange(fm, true) <==> x in Arrange(fn, true) {
      ArrangeWins(fm, true, x);
      ArrangeWins(fn, true, x);
      FormedWins(f, ms, true, x);
      FormedWins(f, ns, true, x);
      if Wins(fm, x) {
        var i: nat :| i < |ms| && IsLast(ms, i) && FormMember(f, ms[i], true) == x;
        var j := SameMembersInto(f, ms, ns, i);
      }
      if Wins(fn, x) {
        var j: nat :| j < |ns| && IsLast(ns, j) && FormMember(f, ns[j], true) == x;
        var i := SameNameOf(f, ms, ns, j);
        var k := SameMembersInto(f, ms, ns, i);
        NameKept(f, ms[i], ns[k]);
        LastUnique(ns, j, k);
      }
    }
    ArrangeWins(fm, true, ("", Null));
    ArrangeWins(fn, true, ("", Null));
    AscendingUnique(Arrange(fm, true), Arrange(fn, true));
  }

  lemma NameKept(f: Decoder, m: (string, Json), n: (string, Json))
    requires FormMember(f, m, true) == FormMember(f, n, true)
    ensures m.0 == n.0 && Form(f, m.1, true) == Form(f, n.1, true)
  {
  }

  /** Values of one canonical form agree. */
  lemma {:induction false} SameFormIsSame(f: Decoder, a: Json, b: Json)
    requires Form(f, a, true) == Form(f, b, true)
    ensures Same(f, a, b)
    decreases a, 1
  {
    hide Arrange, EcmaNumberToString, IsLast;
    match (a, b)
    case (Array(xs), Array(ys)) =>
      forall i | 0 <= i < |xs| ensures Same(f, xs[i], ys[i]) {
        assert FormItems(f, xs, true)[i] == FormItems(f, ys, true)[i];
        SameFormIsSame(f, xs[i], ys[i]);
      }
    case (Object(ms), Object(ns)) =>
      SameFormObjects(f, ms, ns);
    case _ =>
  }

  lemma FormedInto(f: Decoder, ms: seq<(string, Json)>, ns: seq<(string, Json)>, i: nat) returns (j: nat)
    requires Arrange(FormMembers(f, ms, true), true) == Arrange(FormMembers(f, ns, true), true)
    requires IsLast(ms, i)
    ensures IsLast(ns, j) && FormMember(f, ms[i], true) == FormMember(f, ns[j], true)
  {
    hide Arrange, FormMember;
    var fm, fn, x := FormMembers(f, ms, true), FormMembers(f, ns, true), FormMember(f, ms[i], true);
    ArrangeWins(fm, true, x);
    ArrangeWins(fn, true, x);
    FormedWins(f, ms, true, x);
    FormedWins(f, ns, true, x);
    j :| j < |ns| && IsLast(ns, j) && FormMember(f, ns[j], true) == x;
  }

  lemma {:induction false} SameFormObjects(f: Decoder, ms: seq<(string, Json)>, ns: seq<(string, Json)>)
    requires Arrange(FormMembers(f, ms, true), true) == Arrange(FormMembers(f, ns, true), true)
    ensures Same(f, Object(ms), Object(ns))
    decreases ms, 2
  {
    hide Arrange;
    forall i: nat | IsLast(ms, i) ensures exists j: nat :: IsLast(ns, j) && SameMember(f, ms[i], ns[j]) {
      var j := FormedInto(f, ms, ns, i);
      NameKept(f, ms[i], ns[j]);
      SameFormIsSame(f, ms[i].1, ns[j].1);
    }
    forall j | 0 <= j < |ns| ensures Named(ms, ns[j].0) {
      var k := NameWins(ns, j);
      var i := FormedInto(f, ns, ms, k);
      NameKept(f, ns[k], ms[i]);
      assert ms[i].0 == ns[j].0;
    }
  }

  /** Two finite values have one canonical text exactly when they agree. */
  lemma CanonicalEquality(f: Decoder, a: Json, b: Json)
    requires Faithful(f) && Writable(f, a) && Writable(f, b)
    ensures Print(Form(f, a, true)) == Print(Form(f, b, true)) <==> Same(f, a, b)
  {
    hide Same, Form, Print;
    if Same(f, a, b) { SameIsSameForm(f, a, b); }
    if Print(Form(f, a, true)) == Print(Form(f, b, true)) {
      SameTextSameForm(f, a, b, true);
      SameFormIsSame(f, a, b);
    }
  }

  // ----- values that agree are written alike, or neither is

  lemma LexemeStart(x: Lexeme)
    requires x.Valid()
    ensures |x.Text()| > 0 && (x.Text()[0] == '-' || IsDigit(x.Text()[0]))
    ensures |x.Text()| > 1 && x.Text()[0] == '-' ==> IsDigit(x.Text()[1])
  {
    hide FractionText, ExponentText;
  }

  lemma NamesNoNumber(value: Double)
    requires !value.IsFinite()
    ensures !IsFiniteNumber(EcmaNumberToString(value))
  {
    var text := EcmaNumberToString(value);
    assert text == "NaN" || text == "Infinity" || text == "-" + "Infinity";
    assert ("-" + "Infinity")[1] == 'I';
    hide EcmaNumberToString, Finite, Lexeme.Valid, Lexeme.Text;
    forall x: Lexeme | x.Valid() ensures x.Text() != text { LexemeStart(x); }
  }

  lemma {:induction false} SameWritable(f: Decoder, a: Json, b: Json)
    requires Faithful(f) && Same(f, a, b) && Writable(f, a)
    ensures Writable(f, b)
    decreases a, 1
  {
    hide EcmaNumberToString, IsLast, Faithful, IsFiniteNumber;
    match (a, b)
    case (Number(l), Number(m)) =>
      RenderedIsFinite(f, l);
      if !f(m).IsFinite() { NamesNoNumber(f(m)); }
    case (Array(xs), Array(ys)) =>
      forall i | 0 <= i < |ys| ensures Writable(f, ys[i]) { SameWritable(f, xs[i], ys[i]); }
    case (Object(ms), Object(ns)) =>
      forall j: nat | j < |ns| && IsLast(ns, j) ensures WritableMember(f, ns[j]) { MemberWritable(f, ms, ns, j); }
    case _ =>
  }

  lemma {:induction false} MemberWritable(f: Decoder, ms: seq<(string, Json)>, ns: seq<(string, Json)>, j: nat)
    requires Faithful(f) && Same(f, Object(ms), Object(ns)) && Writable(f, Object(ms)) && j < |ns| && IsLast(ns, j)
    ensures WritableMember(f, ns[j])
    decreases ms, 0
  {
    var i := SameNameOf(f, ms, ns, j);
    var k := SameMemberOf(f, ms, ns, i);
    LastUnique(ns, j, k);
    assert WritableMember(f, ms[i]);
    hide Same, IsLast, Faithful;
    SameWritable(f, ms[i].1, ns[j].1);
  }

  /** Values that agree have one canonical text. */
  lemma SameCanonicalText(f: Decoder, a: Json, b: Json)
    requires Faithful(f) && Same(f, a, b)
    ensures CanonicalText(f, a) == CanonicalText(f, b)
  {
    hide Same, Form, Print, Writable, Faithful;
    SameIsSameForm(f, a, b);
    SameFormIsSame(f, b, a);
    if Writable(f, a) { SameWritable(f, a, b); }
    if Writable(f, b) { SameWritable(f, b, a); }
  }

  /** Every object of a canonical form has its names strictly ascending by UTF-16 code unit. */
  ghost predicate Ordered(v: Json)
    decreases v
  {
    match v
    case Array(items) => forall i :: 0 <= i < |items| ==> Ordered(items[i])
    case Object(members) => Ascending(members) && forall i :: 0 <= i < |members| ==> MemberOrdered(members[i])
    case _ => true
  }

  ghost predicate MemberOrdered(m: (string, Json)) { Ordered(m.1) }

  lemma {:induction false} FormOrdered(f: Decoder, v: Json)
    ensures Ordered(Form(f, v, true))
    decreases v
  {
    hide Arrange, EcmaNumberToString, Ascending;
    match v
    case Array(items) =>
      forall i | 0 <= i < |items| ensures Ordered(Form(f, items[i], true)) { FormOrdered(f, items[i]); }
    case Object(members) =>
      FormArrange(f, members, true);
      ArrangeWins(FormMembers(f, members, true), true, ("", Null));
      var arranged := Arrange(members, true);
      forall i | 0 <= i < |arranged| ensures MemberOrdered(FormMember(f, arranged[i], true)) {
        var k := ArrangedFrom(members, true, i);
        FormOrdered(f, members[k].1);
      }
    case _ =>
  }
}
