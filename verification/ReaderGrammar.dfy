/** The reader accepts exactly the texts of the JSON grammar, with the value the
    grammar gives them, and a depth limit only ever takes texts away. */
module ReaderGrammar {
  import opened Wrappers
  import opened Json
  import opened Grammar
  import opened Reader
  import Numbers

  // ----- white space

  lemma {:induction false} SkipWsBlank(s: string, pos: nat)
    requires pos <= |s|
    ensures Blank(s, pos, SkipWs(s, pos))
    decreases |s| - pos
  {
    if pos < |s| && IsWs(s[pos]) { SkipWsBlank(s, pos + 1); }
  }

  lemma {:induction false} SkipWsTo(s: string, i: nat, a: nat)
    requires Blank(s, i, a) && !(a < |s| && IsWs(s[a]))
    ensures SkipWs(s, i) == a
    decreases |s| - i
  {
    if i < a { SkipWsTo(s, i + 1, a); }
  }

  // ----- strings

  lemma {:induction false} CharsSound(s: string, pos: nat, out: string) returns (text: string)
    requires pos <= |s| && ReadChars(s, pos, out).Ok?
    ensures var r := ReadChars(s, pos, out);
            r.value == out + text && s[r.end - 1] == '"' && CharsAt(s, pos, r.end - 1, text)
    decreases |s| - pos
  {
    var r := ReadChars(s, pos, out);
    if s[pos] == '"' {
      text := "";
      assert out + text == out;
    } else {
      var c, next := FirstChar(s, pos, out);
      var rest := CharsSound(s, next, out + [c]);
      text := [c] + rest;
      assert out + text == out + [c] + rest;
      assert text[1..] == rest;
      assert Spells(s, pos, next, text[0]);
    }
  }

  /** One step of the string reader consumes the spelling of one character. */
  lemma FirstChar(s: string, pos: nat, out: string) returns (c: char, next: nat)
    requires pos < |s| && s[pos] != '"' && ReadChars(s, pos, out).Ok?
    ensures Spells(s, pos, next, c) && ReadChars(s, pos, out) == ReadChars(s, next, out + [c])
  {
    if s[pos] != '\\' {
      c, next := s[pos], pos + 1;
    } else if s[pos + 1] != 'u' {
      c, next := Unescape(s[pos + 1]).value, pos + 2;
    } else {
      var unit := ReadUnit(s, pos + 2);
      c, next := unit.value, unit.end;
    }
  }

  lemma SpellsStep(s: string, i: nat, k: nat, c: char, out: string)
    requires Spells(s, i, k, c)
    ensures s[i] != '"' && ReadChars(s, i, out) == ReadChars(s, k, out + [c])
  {
    if s[i] == '\\' && k != i + 2 {
      assert ReadUnit(s, i + 2) == Ok(c, k);
    }
  }

  lemma {:induction false} CharsComplete(s: string, i: nat, j: nat, text: string, out: string)
    requires CharsAt(s, i, j, text) && At(s, j, '"')
    ensures i <= j && ReadChars(s, i, out) == Ok(out + text, j + 1)
    decreases |text|
  {
    if text == [] {
      assert out + text == out;
    } else {
      var k: nat :| Spells(s, i, k, text[0]) && CharsAt(s, k, j, text[1..]);
      SpellsStep(s, i, k, text[0], out);
      CharsComplete(s, k, j, text[1..], out + [text[0]]);
      assert out + [text[0]] + text[1..] == out + text;
    }
  }

  lemma StringSound(s: string, pos: nat)
    requires At(s, pos, '"') && ReadChars(s, pos + 1, "").Ok?
    ensures var r := ReadChars(s, pos + 1, ""); StringAt(s, pos, r.end, r.value)
  {
    var text := CharsSound(s, pos + 1, "");
    assert "" + text == text;
  }

  lemma StringComplete(s: string, i: nat, j: nat, text: string)
    requires StringAt(s, i, j, text)
    ensures At(s, i, '"') && ReadChars(s, i + 1, "") == Ok(text, j)
  {
    CharsComplete(s, i + 1, j - 1, text, "");
    assert "" + text == text;
  }

  // ----- numbers

  lemma NumberSound(s: string, pos: nat)
    requires pos <= |s| && ReadNumber(s, pos).Ok?
    ensures var r := ReadNumber(s, pos); r.value == Number(s[pos..r.end]) && IsFiniteNumber(s[pos..r.end])
  {
    Numbers.ScanSound(s, pos);
  }

  lemma NumberComplete(s: string, i: nat, j: nat, lexeme: string)
    requires i < j <= |s| && s[i..j] == lexeme && IsFiniteNumber(lexeme) && Numbers.NumberEnds(s, j)
    ensures ReadNumber(s, i) == Ok(Number(lexeme), j)
    ensures s[i] == '-' || Numbers.IsDigit(s[i])
  {
    var x: Numbers.Lexeme :| x.Valid() && x.Text() == lexeme && Numbers.Finite(x);
    Numbers.ScanComplete(s, i, x);
  }

  // ----- soundness: what is read is in the grammar

  lemma ElementFrom(s: string, pos: nat, a: nat, b: nat, j: nat, v: Json)
    requires Blank(s, pos, a) && ValueAt(s, a, b, v) && Blank(s, b, j)
    ensures ElementAt(s, pos, j, v)
  {
  }

  lemma NameSound(s: string, pos: nat)
    requires pos <= |s| && ReadName(s, pos).Ok?
    ensures var r := ReadName(s, pos); s[r.end - 1] == ':' && NameAt(s, pos, r.end - 1, r.value)
  {
    var p := SkipWs(s, pos);
    SkipWsBlank(s, pos);
    StringSound(s, p);
    var end := ReadChars(s, p + 1, "").end;
    SkipWsBlank(s, end);
    assert StringAt(s, p, end, ReadChars(s, p + 1, "").value);
  }

  lemma LiteralValue(s: string, p: nat, word: string, v: Json)
    requires ReadLiteral(s, p, word, v).Ok?
    requires (word == "null" && v == Null) || (word == "true" && v == Bool(true))
        || (word == "false" && v == Bool(false))
    ensures ReadLiteral(s, p, word, v).value == v && ValueAt(s, p, ReadLiteral(s, p, word, v).end, v)
  {
  }

  lemma StringValue(s: string, i: nat, j: nat, text: string)
    requires StringAt(s, i, j, text)
    ensures ValueAt(s, i, j, Str(text))
  {
  }

  lemma NumberValue(s: string, i: nat, j: nat)
    requires i < j <= |s| && IsFiniteNumber(s[i..j])
    ensures ValueAt(s, i, j, Number(s[i..j]))
  {
  }

  lemma ArrayValue(s: string, i: nat, j: nat, items: seq<Json>)
    requires i + 1 < j <= |s| && s[i] == '[' && s[j - 1] == ']'
    requires if items == [] then Blank(s, i + 1, j - 1) else ItemsAt(s, i + 1, j - 1, items)
    ensures ValueAt(s, i, j, Array(items))
  {
  }

  lemma ObjectValue(s: string, i: nat, j: nat, members: seq<(string, Json)>)
    requires i + 1 < j <= |s| && s[i] == '{' && s[j - 1] == '}'
    requires if members == [] then Blank(s, i + 1, j - 1) else MembersAt(s, i + 1, j - 1, members)
    ensures ValueAt(s, i, j, Object(members))
  {
  }

  /** A value read at `pos` is the value the grammar gives the text it covers. */
  lemma {:induction false} ValueSound(s: string, pos: nat, depth: nat, limit: Limit)
    requires pos <= |s| && ReadValue(s, pos, depth, limit).Ok?
    ensures var r := ReadValue(s, pos, depth, limit); ValueAt(s, SkipWs(s, pos), r.end, r.value)
    decreases |s| - pos, 1
  {
    hide ReadItems, ReadMembers, ValueAt, ItemsAt, MembersAt, ReadChars, ReadNumber, ReadName, ReadLiteral, StringAt,
        NameAt, IsFiniteNumber;
    var p := SkipWs(s, pos);
    var end := ReadValue(s, pos, depth, limit).end;
    if s[p] == 'n' {
      LiteralValue(s, p, "null", Null);
    } else if s[p] == 't' {
      LiteralValue(s, p, "true", Bool(true));
    } else if s[p] == 'f' {
      LiteralValue(s, p, "false", Bool(false));
    } else if s[p] == '"' {
      StringSound(s, p);
      StringValue(s, p, end, ReadChars(s, p + 1, "").value);
    } else if s[p] == '[' {
      SkipFirst(s, pos, depth, limit);
      ArraySound(s, p, depth, limit, end);
    } else if s[p] == '{' {
      SkipFirst(s, pos, depth, limit);
      ObjectSound(s, p, depth, limit, end);
    } else {
      NumberSound(s, p);
      NumberValue(s, p, end);
    }
  }

  lemma {:induction false} ArraySound(s: string, p: nat, depth: nat, limit: Limit, end: nat)
    requires At(s, p, '[') && SkipWs(s, p) == p && ReadValue(s, p, depth, limit).Ok?
    requires end == ReadValue(s, p, depth, limit).end
    ensures ValueAt(s, p, end, ReadValue(s, p, depth, limit).value)
    decreases |s| - p, 0
  {
    hide ReadItems, ValueAt, ItemsAt;
    var q := SkipWs(s, p + 1);
    SkipWsBlank(s, p + 1);
    if At(s, q, ']') {
      ArrayValue(s, p, end, []);
    } else {
      var items := ItemsSound(s, q, depth + 1, limit, []);
      assert [] + items == items;
      ItemsPrefix(s, p + 1, q, end - 1, items);
      ArrayValue(s, p, end, items);
    }
  }

  lemma {:induction false} ObjectSound(s: string, p: nat, depth: nat, limit: Limit, end: nat)
    requires At(s, p, '{') && SkipWs(s, p) == p && ReadValue(s, p, depth, limit).Ok?
    requires end == ReadValue(s, p, depth, limit).end
    ensures ValueAt(s, p, end, ReadValue(s, p, depth, limit).value)
    decreases |s| - p, 0
  {
    hide ReadMembers, ReadName, ValueAt, MembersAt, NameAt;
    var q := SkipWs(s, p + 1);
    SkipWsBlank(s, p + 1);
    if At(s, q, '}') {
      ObjectValue(s, p, end, []);
    } else {
      var name := ReadName(s, q);
      NameSound(s, q);
      var members := MembersSound(s, q, name.end, depth + 1, limit, [], name.value);
      assert [] + members == members;
      MembersPrefix(s, p + 1, q, end - 1, members);
      ObjectValue(s, p, end, members);
    }
  }

  /** Reading from the first character of a value is reading from the blanks before it. */
  lemma SkipFirst(s: string, pos: nat, depth: nat, limit: Limit)
    requires pos <= |s|
    ensures SkipWs(s, SkipWs(s, pos)) == SkipWs(s, pos)
    ensures ReadValue(s, pos, depth, limit) == ReadValue(s, SkipWs(s, pos), depth, limit)
  {
  }

  lemma ItemsOne(s: string, i: nat, j: nat, v: Json)
    requires ElementAt(s, i, j, v)
    ensures ItemsAt(s, i, j, [v])
  {
  }

  lemma ItemsMore(s: string, i: nat, k: nat, j: nat, v: Json, rest: seq<Json>)
    requires ElementAt(s, i, k, v) && At(s, k, ',') && rest != [] && ItemsAt(s, k + 1, j, rest)
    ensures ItemsAt(s, i, j, [v] + rest)
  {
    assert ([v] + rest)[1..] == rest;
  }

  lemma {:induction false} ItemsSound(s: string, pos: nat, depth: nat, limit: Limit, items: seq<Json>)
    returns (rest: seq<Json>)
    requires pos <= |s| && ReadItems(s, pos, depth, limit, items).Ok?
    ensures rest != [] && ReadItems(s, pos, depth, limit, items).value == Array(items + rest)
    ensures var end := ReadItems(s, pos, depth, limit, items).end;
            end > 0 && At(s, end - 1, ']') && ItemsAt(s, pos, end - 1, rest)
    decreases |s| - pos, 2
  {
    hide ReadValue, ItemsAt, ValueAt, ElementAt;
    var x := ReadValue(s, pos, depth, limit);
    var p := SkipWs(s, x.end);
    assert ElementAt(s, pos, p, x.value) by {
      ValueSound(s, pos, depth, limit);
      SkipWsBlank(s, pos);
      SkipWsBlank(s, x.end);
      ElementFrom(s, pos, SkipWs(s, pos), x.end, p, x.value);
    }
    assert ReadItems(s, pos, depth, limit, items) == ReadItemsTail(s, x.end, depth, limit, items + [x.value]);
    if At(s, p, ',') {
      var more := ItemsSound(s, p + 1, depth, limit, items + [x.value]);
      rest := [x.value] + more;
      ItemsMore(s, pos, p, ReadItems(s, pos, depth, limit, items).end - 1, x.value, more);
      assert items + rest == items + [x.value] + more;
    } else {
      rest := [x.value];
      ItemsOne(s, pos, p, x.value);
    }
  }

  lemma MemberFrom(s: string, i: nat, k: nat, j: nat, name: string, v: Json)
    requires k < |s| && s[k] == ':' && NameAt(s, i, k, name) && ElementAt(s, k + 1, j, v)
    ensures MemberAt(s, i, j, (name, v))
  {
    var member := (name, v);
    assert k < |s| && s[k] == ':' && NameAt(s, i, k, member.0) && ElementAt(s, k + 1, j, member.1);
  }

  lemma MembersOne(s: string, i: nat, j: nat, member: (string, Json))
    requires MemberAt(s, i, j, member)
    ensures MembersAt(s, i, j, [member])
  {
  }

  lemma MembersMore(s: string, i: nat, k: nat, j: nat, member: (string, Json), rest: seq<(string, Json)>)
    requires MemberAt(s, i, k, member) && At(s, k, ',') && rest != [] && MembersAt(s, k + 1, j, rest)
    ensures MembersAt(s, i, j, [member] + rest)
  {
    assert ([member] + rest)[1..] == rest;
  }

  lemma {:induction false} MembersSound(s: string, start: nat, pos: nat, depth: nat, limit: Limit,
                                        members: seq<(string, Json)>, name: string)
    returns (rest: seq<(string, Json)>)
    requires start < pos <= |s| && s[pos - 1] == ':' && NameAt(s, start, pos - 1, name)
    requires ReadMembers(s, pos, depth, limit, members, name).Ok?
    ensures rest != [] && ReadMembers(s, pos, depth, limit, members, name).value == Object(members + rest)
    ensures var end := ReadMembers(s, pos, depth, limit, members, name).end;
      end > 0 && At(s, end - 1, '}') && MembersAt(s, start, end - 1, rest)
    decreases |s| - pos, 2
  {
    hide ReadValue, MembersAt, MemberAt, NameAt, ValueAt, ElementAt, ReadName;
    var x := ReadValue(s, pos, depth, limit);
    var p := SkipWs(s, x.end);
    var member := (name, x.value);
    assert MemberAt(s, start, p, member) by {
      ValueSound(s, pos, depth, limit);
      SkipWsBlank(s, pos);
      SkipWsBlank(s, x.end);
      ElementFrom(s, pos, SkipWs(s, pos), x.end, p, x.value);
      MemberFrom(s, start, pos - 1, p, name, x.value);
    }
    assert ReadMembers(s, pos, depth, limit, members, name) ==
        ReadMembersTail(s, x.end, depth, limit, members + [member]);
    if At(s, p, ',') {
      var next := ReadName(s, p + 1);
      NameSound(s, p + 1);
      var more := MembersSound(s, p + 1, next.end, depth, limit, members + [member], next.value);
      rest := [member] + more;
      MembersMore(s, start, p, ReadMembers(s, pos, depth, limit, members, name).end - 1, member, more);
      assert members + rest == members + [member] + more;
    } else {
      rest := [member];
      MembersOne(s, start, p, member);
    }
  }

  lemma BlankJoin(s: string, i: nat, j: nat, k: nat)
    requires Blank(s, i, j) && Blank(s, j, k)
    ensures Blank(s, i, k)
  {
  }

  lemma ItemsPrefix(s: string, i: nat, q: nat, j: nat, items: seq<Json>)
    requires Blank(s, i, q) && items != [] && ItemsAt(s, q, j, items)
    ensures ItemsAt(s, i, j, items)
  {
    if |items| == 1 {
      ElementPrefix(s, i, q, j, items[0]);
    } else {
      var k: nat :| k < |s| && s[k] == ',' && ElementAt(s, q, k, items[0]) && ItemsAt(s, k + 1, j, items[1..]);
      ElementPrefix(s, i, q, k, items[0]);
    }
  }

  lemma ElementPrefix(s: string, i: nat, q: nat, j: nat, v: Json)
    requires Blank(s, i, q) && ElementAt(s, q, j, v)
    ensures ElementAt(s, i, j, v)
  {
    var a: nat, b: nat :| Blank(s, q, a) && ValueAt(s, a, b, v) && Blank(s, b, j);
    BlankJoin(s, i, q, a);
  }

  lemma MembersPrefix(s: string, i: nat, q: nat, j: nat, members: seq<(string, Json)>)
    requires Blank(s, i, q) && members != [] && MembersAt(s, q, j, members)
    ensures MembersAt(s, i, j, members)
  {
    if |members| == 1 {
      MemberPrefix(s, i, q, j, members[0]);
    } else {
      var k: nat :| k < |s| && s[k] == ',' && MemberAt(s, q, k, members[0]) && MembersAt(s, k + 1, j, members[1..]);
      MemberPrefix(s, i, q, k, members[0]);
    }
  }

  lemma MemberPrefix(s: string, i: nat, q: nat, j: nat, member: (string, Json))
    requires Blank(s, i, q) && MemberAt(s, q, j, member)
    ensures MemberAt(s, i, j, member)
  {
    var k: nat :| k < |s| && s[k] == ':' && NameAt(s, q, k, member.0) && ElementAt(s, k + 1, j, member.1);
    var a: nat, b: nat :| Blank(s, q, a) && StringAt(s, a, b, member.0) && Blank(s, b, k);
    BlankJoin(s, i, q, a);
    assert NameAt(s, i, k, member.0);
  }

  // ----- completeness: what is in the grammar is read

  /** A value ends here: at the end of the text, at white space or at a delimiter. */
  predicate Ends(s: string, j: nat) {
    j < |s| ==> IsWs(s[j]) || s[j] == ',' || s[j] == ']' || s[j] == '}'
  }

  /** The first character of a value: neither white space nor a closing bracket. */
  lemma ValueStart(s: string, i: nat, j: nat, v: Json)
    requires ValueAt(s, i, j, v)
    ensures i < j <= |s| && !IsWs(s[i]) && s[i] != ']' && s[i] != '}'
  {
    match v
    case Null => assert s[i] == s[i..j][0];
    case Bool(flag) => assert s[i] == s[i..j][0];
    case Number(lexeme) => LexemeStart(lexeme); assert s[i] == s[i..j][0];
    case Str(_) =>
    case Array(_) =>
    case Object(_) =>
  }

  lemma LexemeStart(lexeme: string)
    requires IsFiniteNumber(lexeme) && |lexeme| > 0
    ensures lexeme[0] == '-' || Numbers.IsDigit(lexeme[0])
  {
    var x: Numbers.Lexeme :| x.Valid() && x.Text() == lexeme && Numbers.Finite(x);
  }

  lemma NameComplete(s: string, i: nat, k: nat, name: string)
    requires NameAt(s, i, k, name) && At(s, k, ':')
    ensures ReadName(s, i) == Ok(name, k + 1)
  {
    var a: nat, b: nat :| Blank(s, i, a) && StringAt(s, a, b, name) && Blank(s, b, k);
    SkipWsTo(s, i, a);
    StringComplete(s, a, b, name);
    SkipWsTo(s, b, k);
  }

  /** The text of a value is read as that value, wherever a value may end. */
  lemma {:induction false} ValueComplete(s: string, i: nat, j: nat, v: Json, depth: nat)
    requires ValueAt(s, i, j, v) && Ends(s, j)
    ensures ReadValue(s, i, depth, None) == Ok(v, j)
    decreases v, 0
  {
    hide ReadItems, ReadMembers, ItemsAt, MembersAt, ReadChars, ReadNumber, ReadName, StringAt, NameAt, IsFiniteNumber;
    ValueStart(s, i, j, v);
    match v
    case Null =>
      assert s[i] == s[i..j][0];
    case Bool(flag) =>
      assert s[i] == s[i..j][0];
    case Number(lexeme) =>
      NumberComplete(s, i, j, lexeme);
    case Str(text) =>
      StringComplete(s, i, j, text);
    case Array(items) =>
      ArrayComplete(s, i, j, items, depth);
    case Object(members) =>
      ObjectComplete(s, i, j, members, depth);
  }

  lemma ItemsFromBlank(s: string, pos: nat, depth: nat, limit: Limit, items: seq<Json>)
    requires pos <= |s|
    ensures ReadItems(s, pos, depth, limit, items) == ReadItems(s, SkipWs(s, pos), depth, limit, items)
  {
    hide ReadValue, ReadItemsTail;
    SkipFirst(s, pos, depth, limit);
  }

  lemma ElementStart(s: string, i: nat, j: nat, v: Json)
    requires ElementAt(s, i, j, v)
    ensures i <= |s| && SkipWs(s, i) < |s| && !At(s, SkipWs(s, i), ']')
  {
    var a: nat, b: nat :| Blank(s, i, a) && ValueAt(s, a, b, v) && Blank(s, b, j);
    ValueStart(s, a, b, v);
    SkipWsTo(s, i, a);
  }

  lemma ItemsStart(s: string, i: nat, j: nat, items: seq<Json>)
    requires items != [] && ItemsAt(s, i, j, items)
    ensures i <= |s| && !At(s, SkipWs(s, i), ']')
  {
    if |items| == 1 {
      ElementStart(s, i, j, items[0]);
    } else {
      var k: nat :| k < |s| && s[k] == ',' && ElementAt(s, i, k, items[0]) && ItemsAt(s, k + 1, j, items[1..]);
      ElementStart(s, i, k, items[0]);
    }
  }

  lemma {:induction false} ElementComplete(s: string, i: nat, j: nat, v: Json, depth: nat)
    requires ElementAt(s, i, j, v) && Ends(s, j) && !(j < |s| && IsWs(s[j]))
    ensures i <= |s| && ReadValue(s, i, depth, None).Ok? && ReadValue(s, i, depth, None).value == v
    ensures SkipWs(s, ReadValue(s, i, depth, None).end) == j
    decreases v, 1
  {
    hide ReadValue;
    var a: nat, b: nat :| Blank(s, i, a) && ValueAt(s, a, b, v) && Blank(s, b, j);
    ValueStart(s, a, b, v);
    ValueComplete(s, a, b, v, depth);
    SkipWsTo(s, i, a);
    SkipFirst(s, i, depth, None);
    SkipWsTo(s, b, j);
  }

  lemma {:induction false} ItemsComplete(s: string, i: nat, j: nat, items: seq<Json>, depth: nat, acc: seq<Json>)
    requires items != [] && ItemsAt(s, i, j, items) && At(s, j, ']')
    ensures i <= |s| && ReadItems(s, i, depth, None, acc) == Ok(Array(acc + items), j + 1)
    decreases items, 3
  {
    hide ReadValue, ElementAt;
    if |items| == 1 {
      ElementComplete(s, i, j, items[0], depth);
      assert acc + items == acc + [items[0]];
    } else {
      var k: nat :| k < |s| && s[k] == ',' && ElementAt(s, i, k, items[0]) && ItemsAt(s, k + 1, j, items[1..]);
      ElementComplete(s, i, k, items[0], depth);
      ItemsComplete(s, k + 1, j, items[1..], depth, acc + [items[0]]);
      assert acc + [items[0]] + items[1..] == acc + items;
    }
  }

  lemma {:induction false} ArrayComplete(s: string, i: nat, j: nat, items: seq<Json>, depth: nat)
    requires ValueAt(s, i, j, Array(items))
    ensures ReadValue(s, i, depth, None) == Ok(Array(items), j)
    decreases items, 4
  {
    hide ReadItems, ItemsAt;
    assert SkipWs(s, i) == i;
    if items == [] {
      SkipWsTo(s, i + 1, j - 1);
    } else {
      ItemsStart(s, i + 1, j - 1, items);
      ItemsComplete(s, i + 1, j - 1, items, depth + 1, []);
      ItemsFromBlank(s, i + 1, depth + 1, None, []);
      assert [] + items == items;
    }
  }

  lemma NameFromBlank(s: string, pos: nat)
    requires pos <= |s|
    ensures ReadName(s, SkipWs(s, pos)) == ReadName(s, pos)
  {
    SkipFirst(s, pos, 0, None);
  }

  lemma NameStart(s: string, i: nat, k: nat, name: string)
    requires NameAt(s, i, k, name)
    ensures i <= |s| && At(s, SkipWs(s, i), '"')
  {
    var a: nat, b: nat :| Blank(s, i, a) && StringAt(s, a, b, name) && Blank(s, b, k);
    SkipWsTo(s, i, a);
  }

  /** The first member of a member list and where its value starts. */
  lemma MembersFirst(s: string, i: nat, j: nat, members: seq<(string, Json)>) returns (colon: nat, end: nat)
    requires members != [] && MembersAt(s, i, j, members)
    ensures At(s, colon, ':') && NameAt(s, i, colon, members[0].0) && ElementAt(s, colon + 1, end, members[0].1)
    ensures if |members| == 1 then end == j else At(s, end, ',') && MembersAt(s, end + 1, j, members[1..])
  {
    hide NameAt, ElementAt;
    end := j;
    if |members| > 1 {
      end :| end < |s| && s[end] == ',' && MemberAt(s, i, end, members[0]) && MembersAt(s, end + 1, j, members[1..]);
    }
    var member := members[0];
    assert MemberAt(s, i, end, member);
    colon :| colon < |s| && s[colon] == ':' && NameAt(s, i, colon, member.0) && ElementAt(s, colon + 1, end, member.1);
  }

  /** A member list is read name first: `ReadName` finds its first name, and the
      value and the members after it are read from there. */
  lemma {:induction false} MembersComplete(s: string, i: nat, j: nat, members: seq<(string, Json)>, depth: nat,
                                           acc: seq<(string, Json)>)
    requires members != [] && MembersAt(s, i, j, members) && At(s, j, '}')
    ensures i <= |s| && ReadName(s, i).Ok? && At(s, SkipWs(s, i), '"')
    ensures ReadMembers(s, ReadName(s, i).end, depth, None, acc, ReadName(s, i).value) ==
        Ok(Object(acc + members), j + 1)
    decreases members, 3
  {
    hide ReadValue, ElementAt, MembersAt, ReadName, NameAt;
    var colon, end := MembersFirst(s, i, j, members);
    NameStart(s, i, colon, members[0].0);
    NameComplete(s, i, colon, members[0].0);
    assert members[0].1 < members[0];
    ElementComplete(s, colon + 1, end, members[0].1, depth);
    var member := (members[0].0, members[0].1);
    if |members| == 1 {
      assert acc + members == acc + [member];
    } else {
      MembersComplete(s, end + 1, j, members[1..], depth, acc + [member]);
      assert acc + [member] + members[1..] == acc + members;
    }
  }

  lemma {:induction false} ObjectComplete(s: string, i: nat, j: nat, members: seq<(string, Json)>, depth: nat)
    requires ValueAt(s, i, j, Object(members))
    ensures ReadValue(s, i, depth, None) == Ok(Object(members), j)
    decreases members, 4
  {
    hide ReadMembers, MembersAt, ReadName;
    assert SkipWs(s, i) == i;
    if members == [] {
      SkipWsTo(s, i + 1, j - 1);
    } else {
      MembersComplete(s, i + 1, j - 1, members, depth + 1, []);
      NameFromBlank(s, i + 1);
      assert [] + members == members;
    }
  }

  /** The reader accepts exactly the texts of the grammar, with their value. */
  lemma ReadsTheGrammar(s: string, v: Json)
    ensures ReadText(s, None) == Ok(v, |s|) <==> IsText(s, v)
  {
    hide ReadValue, ValueAt;
    if ReadText(s, None) == Ok(v, |s|) {
      ValueSound(s, 0, 0, None);
      SkipWsBlank(s, 0);
      SkipWsBlank(s, ReadValue(s, 0, 0, None).end);
      ElementFrom(s, 0, SkipWs(s, 0), ReadValue(s, 0, 0, None).end, |s|, v);
    }
    if IsText(s, v) {
      ElementComplete(s, 0, |s|, v, 0);
    }
  }

  /** A text has one value. */
  lemma OneValue(s: string, v: Json, w: Json)
    requires IsText(s, v) && IsText(s, w)
    ensures v == w
  {
    ReadsTheGrammar(s, v);
    ReadsTheGrammar(s, w);
  }

  // ----- the depth limit

  /** Every value in `v` is enclosed by at most `d` arrays and objects of `v`. */
  predicate Within(v: Json, d: nat)
    decreases v, 0
  {
    match v
    case Array(items) => items == [] || (d > 0 && ItemsWithin(items, d - 1))
    case Object(members) => members == [] || (d > 0 && MembersWithin(members, d - 1))
    case _ => true
  }

  predicate ItemsWithin(items: seq<Json>, d: nat)
    decreases items, 1
  {
    forall i :: 0 <= i < |items| ==> Within(items[i], d)
  }

  predicate MembersWithin(members: seq<(string, Json)>, d: nat)
    decreases members, 1
  {
    forall i :: 0 <= i < |members| ==> MemberWithin(members[i], d)
  }

  predicate MemberWithin(member: (string, Json), d: nat)
    decreases member, 0
  {
    Within(member.1, d)
  }

  /** A read under a limit either agrees with the read without one or stops with
      the typed depth error. */
  predicate Limited(free: Read<Json>, held: Read<Json>, within: bool, d: nat) {
    if within then held == free else held.Err? && held.error.kind == Depth(d)
  }

  lemma {:induction false} DepthValue(s: string, pos: nat, depth: nat, d: nat)
    requires pos <= |s| && ReadValue(s, pos, depth, None).Ok?
    ensures var free := ReadValue(s, pos, depth, None);
      Limited(free, ReadValue(s, pos, depth, Some(d)), depth <= d && Within(free.value, d - depth), d)
    decreases |s| - pos, 1
  {
    hide ReadItems, ReadMembers, ReadChars, ReadNumber, ReadName, ReadLiteral;
    var p := SkipWs(s, pos);
    if depth <= d {
      if s[p] == '[' {
        var q := SkipWs(s, p + 1);
        if !At(s, q, ']') {
          var items := DepthItems(s, q, depth + 1, d, []);
          assert [] + items == items;
        }
      } else if s[p] == '{' {
        var q := SkipWs(s, p + 1);
        if !At(s, q, '}') {
          var members := DepthMembers(s, ReadName(s, q).end, depth + 1, d, [], ReadName(s, q).value);
          assert [] + members == members;
        }
      } else {
        ScalarRead(s, p, depth, None);
      }
    }
  }

  /** What does not start with a bracket is read as a scalar. */
  lemma ScalarRead(s: string, p: nat, depth: nat, limit: Limit)
    requires p < |s| && SkipWs(s, p) == p && s[p] != '[' && s[p] != '{' && ReadValue(s, p, depth, limit).Ok?
    ensures var v := ReadValue(s, p, depth, limit).value; !v.Array? && !v.Object?
  {
    hide ReadChars;
  }

  lemma {:induction false} DepthItems(s: string, pos: nat, depth: nat, d: nat, items: seq<Json>)
      returns (rest: seq<Json>)
    requires pos <= |s| && ReadItems(s, pos, depth, None, items).Ok?
    ensures rest != [] && ReadItems(s, pos, depth, None, items).value == Array(items + rest)
    ensures Limited(ReadItems(s, pos, depth, None, items), ReadItems(s, pos, depth, Some(d), items),
                    depth <= d && ItemsWithin(rest, d - depth), d)
    decreases |s| - pos, 2
  {
    hide ReadValue, Within;
    var x := ReadValue(s, pos, depth, None);
    DepthValue(s, pos, depth, d);
    var p := SkipWs(s, x.end);
    rest := [x.value];
    assert ReadItems(s, pos, depth, None, items) == ReadItemsTail(s, x.end, depth, None, items + rest);
    if At(s, p, ',') {
      var more := DepthItems(s, p + 1, depth, d, items + rest);
      assert items + rest + more == items + (rest + more);
      rest := rest + more;
      assert rest[1..] == more && rest[0] == x.value;
    }
    assert rest[0] == x.value;
  }

  lemma {:induction false} DepthMembers(s: string, pos: nat, depth: nat, d: nat, members: seq<(string, Json)>,
                                        name: string)
    returns (rest: seq<(string, Json)>)
    requires pos <= |s| && ReadMembers(s, pos, depth, None, members, name).Ok?
    ensures rest != [] && ReadMembers(s, pos, depth, None, members, name).value == Object(members + rest)
    ensures Limited(ReadMembers(s, pos, depth, None, members, name), ReadMembers(s, pos, depth, Some(d), members, name),
                    depth <= d && MembersWithin(rest, d - depth), d)
    decreases |s| - pos, 2
  {
    hide ReadValue, Within, ReadName;
    var x := ReadValue(s, pos, depth, None);
    DepthValue(s, pos, depth, d);
    var p := SkipWs(s, x.end);
    rest := [(name, x.value)];
    assert ReadMembers(s, pos, depth, None, members, name) == ReadMembersTail(s, x.end, depth, None, members + rest);
    if At(s, p, ',') {
      var next := ReadName(s, p + 1);
      var more := DepthMembers(s, next.end, depth, d, members + rest, next.value);
      assert members + rest + more == members + (rest + more);
      rest := rest + more;
      assert rest[1..] == more && rest[0] == (name, x.value);
    }
    assert rest[0] == (name, x.value);
  }

  /** On a text the unlimited reader accepts, a depth limit returns the same value
      exactly when no value is enclosed more deeply, and the depth error otherwise. */
  lemma DepthLimit(s: string, d: nat)
    requires ReadText(s, None).Ok?
    ensures Limited(ReadText(s, None), ReadText(s, Some(d)), Within(ReadText(s, None).value, d), d)
  {
    DepthValue(s, 0, 0, d);
  }
}
