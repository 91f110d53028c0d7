/** The JSON reader: one pass over the text that keeps its open arrays and objects
    on an explicit stack, against the recursive descent it stands for. */
module Reader {
  import opened Wrappers
  import opened Json
  import opened Grammar
  import Numbers

  datatype ErrorKind = Malformed | InputBytes(limit: nat) | Depth(limit: nat)

  datatype JsonError = JsonError(kind: ErrorKind, offset: nat)

  datatype Read<+T> = Ok(value: T, end: nat) | Err(error: JsonError) {
    /** What a successful read leaves behind lies ahead of `pos` in `s`. */
    predicate Ahead(s: string, pos: nat) { Ok? ==> pos < end <= |s| }
  }

  type Limit = Option<nat>

  datatype ReadLimits = ReadLimits(maxBytes: nat, maxDepth: Limit)

  function Fail<T>(at: nat): Read<T> { Err(JsonError(Malformed, at)) }

  // ----- recursive descent

  function SkipWs(s: string, pos: nat): (end: nat)
    requires pos <= |s|
    ensures pos <= end <= |s| && !(end < |s| && IsWs(s[end]))
    decreases |s| - pos
  {
    if pos < |s| && IsWs(s[pos]) then SkipWs(s, pos + 1) else pos
  }

  predicate At(s: string, pos: nat, c: char) { pos < |s| && s[pos] == c }

  function ReadLiteral(s: string, pos: nat, word: string, value: Json): Read<Json> {
    if pos + |word| <= |s| && s[pos..pos + |word|] == word then Ok(value, pos + |word|) else Fail(pos)
  }

  function ReadNumber(s: string, pos: nat): (r: Read<Json>)
    requires pos <= |s|
    ensures r.Ahead(s, pos)
  {
    match Numbers.ScanLexeme(s, pos)
    case Stuck(at) => Fail(at)
    case Scanned(x, end) =>
      Numbers.ScanSound(s, pos);
      if Numbers.Finite(x) then Ok(Number(s[pos..end]), end) else Fail(end)
  }

  /** Reads the rest of a string whose characters so far are `out`. */
  function ReadChars(s: string, pos: nat, out: string): (r: Read<string>)
    requires pos <= |s|
    ensures r.Ahead(s, pos)
    decreases |s| - pos
  {
    if pos == |s| then Fail(pos)
    else if s[pos] == '"' then Ok(out, pos + 1)
    else if s[pos] == '\\' then ReadEscape(s, pos, out)
    else if s[pos] < ' ' then Fail(pos)
    else ReadChars(s, pos + 1, out + [s[pos]])
  }

  function ReadEscape(s: string, pos: nat, out: string): (r: Read<string>)
    requires pos < |s|
    ensures r.Ahead(s, pos)
    decreases |s| - pos, 0
  {
    if pos + 1 == |s| then Fail(pos + 1)
    else if s[pos + 1] != 'u' then
      if Unescape(s[pos + 1]).None? then Fail(pos + 2)
      else ReadChars(s, pos + 2, out + [Unescape(s[pos + 1]).value])
    else
      match ReadUnit(s, pos + 2)
      case Err(error) => Err(error)
      case Ok(scalar, end) => ReadChars(s, end, out + [scalar])
  }

  /** Reads the digits of a `\u` escape, and those of the low surrogate that must
      follow a high one. */
  function ReadUnit(s: string, pos: nat): (r: Read<char>)
    ensures r.Ahead(s, pos)
  {
    match Hex4(s, pos)
    case None => Fail(pos)
    case Some(first) =>
      if IsHigh(first) then
        if !EscapeAt(s, pos + 4) then Fail(pos + 4)
        else
          match Hex4(s, pos + 6)
          case None => Fail(pos + 6)
          case Some(second) => if IsLow(second) then Ok(Combine(first, second) as char, pos + 10) else Fail(pos + 10)
      else if IsLow(first) then Fail(pos + 4)
      else Ok(first as char, pos + 4)
  }

  function ReadName(s: string, pos: nat): (r: Read<string>)
    requires pos <= |s|
    ensures r.Ahead(s, pos)
  {
    var p := SkipWs(s, pos);
    if !At(s, p, '"') then Fail(p)
    else
      match ReadChars(s, p + 1, "")
      case Err(error) => Err(error)
      case Ok(name, end) =>
        var q := SkipWs(s, end);
        if At(s, q, ':') then Ok(name, q + 1) else Fail(q)
  }

  function ReadValue(s: string, pos: nat, depth: nat, limit: Limit): (r: Read<Json>)
    requires pos <= |s|
    ensures r.Ahead(s, pos)
    decreases |s| - pos, 1
  {
    var p := SkipWs(s, pos);
    if limit.Some? && depth > limit.value then Err(JsonError(Depth(limit.value), p))
    else if p == |s| then Fail(p)
    else if s[p] == 'n' then ReadLiteral(s, p, "null", Null)
    else if s[p] == 't' then ReadLiteral(s, p, "true", Bool(true))
    else if s[p] == 'f' then ReadLiteral(s, p, "false", Bool(false))
    else if s[p] == '"' then
      match ReadChars(s, p + 1, "")
      case Err(error) => Err(error)
      case Ok(text, end) => Ok(Str(text), end)
    else if s[p] == '[' then
      var q := SkipWs(s, p + 1);
      if At(s, q, ']') then Ok(Array([]), q + 1) else ReadItems(s, q, depth + 1, limit, [])
    else if s[p] == '{' then
      var q := SkipWs(s, p + 1);
      if At(s, q, '}') then Ok(Object([]), q + 1)
      else
        match ReadName(s, q)
        case Err(error) => Err(error)
        case Ok(name, end) => ReadMembers(s, end, depth + 1, limit, [], name)
    else if s[p] == '-' || Numbers.IsDigit(s[p]) then ReadNumber(s, p)
    else Fail(p)
  }

  /** Reads the rest of an array whose next item starts at `pos`. */
  function ReadItems(s: string, pos: nat, depth: nat, limit: Limit, items: seq<Json>): (r: Read<Json>)
    requires pos <= |s|
    ensures r.Ahead(s, pos)
    decreases |s| - pos, 2
  {
    match ReadValue(s, pos, depth, limit)
    case Err(error) => Err(error)
    case Ok(value, end) => ReadItemsTail(s, end, depth, limit, items + [value])
  }

  function ReadItemsTail(s: string, pos: nat, depth: nat, limit: Limit, items: seq<Json>): (r: Read<Json>)
    requires pos <= |s|
    ensures r.Ahead(s, pos)
    decreases |s| - pos, 0
  {
    var p := SkipWs(s, pos);
    if At(s, p, ',') then ReadItems(s, p + 1, depth, limit, items)
    else if At(s, p, ']') then Ok(Array(items), p + 1)
    else Fail(p)
  }

  /** Reads the rest of an object whose member `name` has its value at `pos`. */
  function ReadMembers(s: string, pos: nat, depth: nat, limit: Limit, members: seq<(string, Json)>,
                       name: string): (r: Read<Json>)
    requires pos <= |s|
    ensures r.Ahead(s, pos)
    decreases |s| - pos, 2
  {
    match ReadValue(s, pos, depth, limit)
    case Err(error) => Err(error)
    case Ok(value, end) => ReadMembersTail(s, end, depth, limit, members + [(name, value)])
  }

  function ReadMembersTail(s: string, pos: nat, depth: nat, limit: Limit, members: seq<(string, Json)>): (r: Read<Json>)
    requires pos <= |s|
    ensures r.Ahead(s, pos)
    decreases |s| - pos, 0
  {
    var p := SkipWs(s, pos);
    if At(s, p, ',') then
      match ReadName(s, p + 1)
      case Err(error) => Err(error)
      case Ok(name, end) => ReadMembers(s, end, depth, limit, members, name)
    else if At(s, p, '}') then Ok(Object(members), p + 1)
    else Fail(p)
  }

  /** The value of a whole text: one value and nothing but white space after it. */
  function ReadText(s: string, limit: Limit): Read<Json> {
    match ReadValue(s, 0, 0, limit)
    case Err(error) => Err(error)
    case Ok(value, end) =>
      var p := SkipWs(s, end);
      if p == |s| then Ok(value, p) else Fail(p)
  }

  function CharBytes(c: char): nat {
    if c < '\U{80}' then 1 else if c < '\U{800}' then 2 else if c < '\U{10000}' then 3 else 4
  }

  /** The length of the text in UTF-8. */
  function ByteLength(s: string): nat { if s == "" then 0 else CharBytes(s[0]) + ByteLength(s[1..]) }

  function Parse(s: string, maxBytes: nat, maxDepth: Limit): Read<Json> {
    if ByteLength(s) > maxBytes then Err(JsonError(InputBytes(maxBytes), 0)) else ReadText(s, maxDepth)
  }

  // ----- the reader

  datatype Open = OpenArray(items: seq<Json>) | OpenObject(members: seq<(string, Json)>, name: string)

  /** The result of a document once the value being read in the innermost of
      `open` has been read as `r`. */
  ghost function Resume(s: string, limit: Limit, open: seq<Open>, r: Read<Json>): Read<Json>
    requires r.Ok? ==> r.end <= |s|
    decreases |open|
  {
    if open == [] || r.Err? then r
    else
      var depth := |open|;
      match open[depth - 1]
      case OpenArray(items) =>
        Resume(s, limit, open[..depth - 1], ReadItemsTail(s, r.end, depth, limit, items + [r.value]))
      case OpenObject(members, name) =>
        Resume(s, limit, open[..depth - 1], ReadMembersTail(s, r.end, depth, limit, members + [(name, r.value)]))
  }

  /** Reads the rest of the container `open` from its next value on. */
  ghost function ReadInside(s: string, pos: nat, depth: nat, limit: Limit, open: Open): Read<Json>
    requires pos <= |s|
  {
    match open
    case OpenArray(items) => ReadItems(s, pos, depth, limit, items)
    case OpenObject(members, name) => ReadMembers(s, pos, depth, limit, members, name)
  }

  /** A comma keeps the array open for the next value. */
  lemma AnotherItem(s: string, limit: Limit, open: seq<Open>, value: Json, pos: nat)
    requires pos <= |s| && open != [] && open[|open| - 1].OpenArray? && At(s, SkipWs(s, pos), ',')
    ensures var last := |open| - 1;
      Resume(s, limit, open, Ok(value, pos)) ==
      Resume(s, limit, open[last := OpenArray(open[last].items + [value])],
             ReadValue(s, SkipWs(s, pos) + 1, |open|, limit))
  {
    var last := |open| - 1;
    var items := open[last].items + [value];
    assert open[last := OpenArray(items)][..last] == open[..last];
    assert ReadItemsTail(s, pos, |open|, limit, items) == ReadItems(s, SkipWs(s, pos) + 1, |open|, limit, items);
  }

  /** A comma and a name keep the object open for the next value. */
  lemma AnotherMember(s: string, limit: Limit, open: seq<Open>, value: Json, pos: nat)
    requires pos <= |s| && open != [] && open[|open| - 1].OpenObject? && At(s, SkipWs(s, pos), ',')
    requires ReadName(s, SkipWs(s, pos) + 1).Ok?
    ensures var last := |open| - 1;
      var next := ReadName(s, SkipWs(s, pos) + 1);
      Resume(s, limit, open, Ok(value, pos)) ==
      Resume(s, limit, open[last := OpenObject(open[last].members + [(open[last].name, value)], next.value)],
             ReadValue(s, next.end, |open|, limit))
  {
    var last := |open| - 1;
    var next := ReadName(s, SkipWs(s, pos) + 1);
    var members := open[last].members + [(open[last].name, value)];
    assert open[last := OpenObject(members, next.value)][..last] == open[..last];
    assert ReadMembersTail(s, pos, |open|, limit, members) ==
        ReadMembers(s, next.end, |open|, limit, members, next.value);
  }

  /** The number the first `k` hex digits at `i` spell. */
  ghost function HexPrefix(s: string, i: nat, k: nat): Option<nat>
    requires i + k <= |s|
  {
    if k == 0 then Some(0)
    else
      match (HexPrefix(s, i, k - 1), HexDigit(s[i + k - 1]))
      case (Some(value), Some(digit)) => Some(value * 16 + digit)
      case _ => None
  }

  lemma HexPrefixWhole(s: string, i: nat)
    requires i + 4 <= |s|
    ensures HexPrefix(s, i, 4) == Hex4(s, i)
  {
    assert HexPrefix(s, i, 1) == HexDigit(s[i]);
    assert HexPrefix(s, i, 2).Some? == (HexPrefix(s, i, 1).Some? && HexDigit(s[i + 1]).Some?);
    assert HexPrefix(s, i, 3).Some? == (HexPrefix(s, i, 2).Some? && HexDigit(s[i + 2]).Some?);
  }

  lemma HexPrefixFails(s: string, i: nat, k: nat)
    requires i + 4 <= |s| && k < 4 && HexDigit(s[i + k]).None?
    ensures Hex4(s, i).None?
  {
  }

  class Reader {
    const text: string
    var pos: nat

    constructor (input: string)
      ensures text == input && pos == 0
    {
      text, pos := input, 0;
    }

    method SkipWhitespace()
      requires pos <= |text|
      modifies this
      ensures pos == SkipWs(text, old(pos))
    {
      while pos < |text| && IsWs(text[pos])
        invariant pos <= |text| && SkipWs(text, pos) == SkipWs(text, old(pos))
        decreases |text| - pos
      {
        pos := pos + 1;
      }
    }

    method Literal(word: string, value: Json) returns (r: Read<Json>)
      requires pos <= |text|
      modifies this
      ensures r == ReadLiteral(text, old(pos), word, value)
      ensures r.Ok? ==> pos == r.end
    {
      var end := pos + |word|;
      if |text| >= end && text[pos..end] == word {
        pos := end;
        return Ok(value, pos);
      }
      return Fail(pos);
    }

    method Digits()
      requires pos <= |text|
      modifies this
      ensures pos == Numbers.DigitRun(text, old(pos))
    {
      while Numbers.DigitAt(text, pos)
        invariant pos <= |text| && Numbers.DigitRun(text, pos) == Numbers.DigitRun(text, old(pos))
        decreases |text| - pos
      {
        pos := pos + 1;
      }
    }

    method FractionPart(ghost x: Numbers.Lexeme) returns (ok: bool, ghost y: Numbers.Lexeme)
      requires pos <= |text|
      modifies this
      ensures pos <= |text|
      ensures Numbers.ScanFraction(text, old(pos), x) == if ok then Numbers.ScanExponent(text, pos, y)
          else Numbers.Stuck(pos)
    {
      y := x;
      if At(text, pos, '.') {
        pos := pos + 1;
        if !Numbers.DigitAt(text, pos) { return false, y; }
        Digits();
        y := x.(fraction := Some(text[old(pos) + 1..pos]));
      }
      ok := true;
    }

    method ExponentPart(ghost x: Numbers.Lexeme) returns (ok: bool, ghost y: Numbers.Lexeme)
      requires pos <= |text|
      modifies this
      ensures pos <= |text|
      ensures Numbers.ScanExponent(text, old(pos), x) == if ok then Numbers.Scanned(y, pos) else Numbers.Stuck(pos)
    {
      y := x;
      if At(text, pos, 'e') || At(text, pos, 'E') {
        pos := pos + 1;
        if At(text, pos, '+') || At(text, pos, '-') { pos := pos + 1; }
        ghost var digits := pos;
        if !Numbers.DigitAt(text, pos) { return false, y; }
        Digits();
        var sign := Numbers.SignAt(text, old(pos) + 1);
        y := x.(exponent := Some(Numbers.Exponent(text[old(pos)], sign, text[digits..pos])));
      }
      ok := true;
    }

    method NumberToken() returns (r: Read<Json>)
      requires pos <= |text|
      modifies this
      ensures r == ReadNumber(text, old(pos))
      ensures r.Ok? ==> pos == r.end
    {
      hide Numbers.DigitRun, Numbers.SignAt, Numbers.Finite, Numbers.ScanFraction, Numbers.ScanExponent;
      var start := pos;
      if At(text, pos, '-') { pos := pos + 1; }
      ghost var first := pos;
      if At(text, pos, '0') {
        pos := pos + 1;
      } else if Numbers.DigitAt(text, pos) {
        Digits();
      } else {
        return Fail(pos);
      }
      ghost var x := Numbers.Lexeme(At(text, start, '-'), text[first..pos], None, None);
      assert Numbers.ScanLexeme(text, start) == Numbers.ScanFraction(text, pos, x);
      var ok;
      ghost var y;
      ok, y := FractionPart(x);
      if !ok { return Fail(pos); }
      ok, y := ExponentPart(y);
      if !ok { return Fail(pos); }
      Numbers.ScanSound(text, start);
      if Numbers.Finite(Numbers.ScanLexeme(text, start).lexeme) { return Ok(Number(text[start..pos]), pos); }
      return Fail(pos);
    }

    method HexFour() returns (unit: Option<nat>)
      requires pos <= |text|
      modifies this
      ensures unit == Hex4(text, old(pos))
      ensures pos == if unit.Some? then old(pos) + 4 else old(pos)
    {
      var end := pos + 4;
      if end > |text| { return None; }
      var value: nat := 0;
      for index := pos to end
        invariant pos == old(pos) && HexPrefix(text, pos, index - pos) == Some(value)
      {
        var digit := HexDigit(text[index]);
        if digit.None? {
          HexPrefixFails(text, pos, index - pos);
          return None;
        }
        value := value * 16 + digit.value;
      }
      HexPrefixWhole(text, pos);
      unit := Some(value);
      pos := end;
    }

    /** Reads what follows `\u`. */
    method UnicodeEscape() returns (r: Read<char>)
      requires pos <= |text|
      modifies this
      ensures r == ReadUnit(text, old(pos))
      ensures r.Ok? ==> pos == r.end
    {
      var first := HexFour();
      if first.None? { return Fail(pos); }
      if IsHigh(first.value) {
        if !EscapeAt(text, pos) { return Fail(pos); }
        pos := pos + 2;
        var second := HexFour();
        if second.None? || !IsLow(second.value) { return Fail(pos); }
        return Ok(Combine(first.value, second.value) as char, pos);
      }
      if IsLow(first.value) { return Fail(pos); }
      return Ok(first.value as char, pos);
    }

    predicate Plain()
      reads this
    {
      pos < |text| && text[pos] != '"' && text[pos] != '\\' && ' ' <= text[pos]
    }

    /** Reads a run of characters that stand for themselves. */
    method Run(ghost out: string) returns (chunk: string)
      requires Plain()
      modifies this
      ensures old(pos) < pos <= |text|
      ensures ReadChars(text, old(pos), out) == ReadChars(text, pos, out + chunk)
    {
      var start := pos;
      pos := pos + 1;
      assert out + text[start..pos] == out + [text[start]];
      while Plain()
        invariant start < pos <= |text|
        invariant ReadChars(text, start, out) == ReadChars(text, pos, out + text[start..pos])
        decreases |text| - pos
      {
        assert out + text[start..pos + 1] == out + text[start..pos] + [text[pos]];
        pos := pos + 1;
      }
      chunk := text[start..pos];
    }

    method StringToken() returns (r: Read<string>)
      requires At(text, pos, '"')
      modifies this
      ensures r == ReadChars(text, old(pos) + 1, "")
      ensures r.Ok? ==> pos == r.end
    {
      hide ReadUnit;
      pos := pos + 1;
      var out := "";
      while true
        invariant pos <= |text| && ReadChars(text, old(pos) + 1, "") == ReadChars(text, pos, out)
        decreases |text| - pos
      {
        if pos == |text| { return Fail(pos); }
        if text[pos] == '"' {
          pos := pos + 1;
          return Ok(out, pos);
        } else if text[pos] == '\\' {
          pos := pos + 1;
          if pos == |text| { return Fail(pos); }
          var escape := text[pos];
          pos := pos + 1;
          if escape == 'u' {
            var scalar := UnicodeEscape();
            if scalar.Err? { return Err(scalar.error); }
            out := out + [scalar.value];
          } else if Unescape(escape).Some? {
            out := out + [Unescape(escape).value];
          } else {
            return Fail(pos);
          }
        } else if text[pos] < ' ' {
          return Fail(pos);
        } else {
          var chunk := Run(out);
          out := out + chunk;
        }
      }
    }

    method MemberName() returns (r: Read<string>)
      requires pos <= |text|
      modifies this
      ensures r == ReadName(text, old(pos))
      ensures r.Ok? ==> pos == r.end
    {
      SkipWhitespace();
      if !At(text, pos, '"') { return Fail(pos); }
      r := StringToken();
      if r.Err? { return; }
      SkipWhitespace();
      if !At(text, pos, ':') { return Fail(pos); }
      pos := pos + 1;
      return Ok(r.value, pos);
    }

    /** Reads a value up to its end, or up to the first value inside it when it is
        an array or object with something in it. */
    method Start(depth: nat, limit: Limit) returns (r: Read<Json>, begun: Option<Open>)
      requires pos <= |text|
      modifies this
      ensures begun.None? ==> r == ReadValue(text, old(pos), depth, limit) && (r.Ok? ==> pos == r.end)
      ensures begun.Some? ==> old(pos) < pos <= |text|
      ensures begun.Some? ==>
          ReadValue(text, old(pos), depth, limit) == ReadInside(text, pos, depth + 1, limit, begun.value)
    {
      hide ReadItems, ReadMembers, ReadNumber, ReadChars, SkipWs;
      begun := None;
      SkipWhitespace();
      if limit.Some? && depth > limit.value {
        r := Err(JsonError(Depth(limit.value), pos));
      } else if pos == |text| {
        r := Fail(pos);
      } else if text[pos] == 'n' {
        r := Literal("null", Null);
      } else if text[pos] == 't' {
        r := Literal("true", Bool(true));
      } else if text[pos] == 'f' {
        r := Literal("false", Bool(false));
      } else if text[pos] == '"' {
        var content := StringToken();
        r := if content.Err? then Err(content.error) else Ok(Str(content.value), pos);
      } else if text[pos] == '[' {
        pos := pos + 1;
        SkipWhitespace();
        r := Fail(pos);
        if At(text, pos, ']') {
          pos := pos + 1;
          r := Ok(Array([]), pos);
        } else {
          begun := Some(OpenArray([]));
        }
      } else if text[pos] == '{' {
        pos := pos + 1;
        SkipWhitespace();
        r := Fail(pos);
        if At(text, pos, '}') {
          pos := pos + 1;
          r := Ok(Object([]), pos);
        } else {
          var name := MemberName();
          if name.Err? {
            r := Err(name.error);
          } else {
            begun := Some(OpenObject([], name.value));
          }
        }
      } else if text[pos] == '-' || Numbers.IsDigit(text[pos]) {
        r := NumberToken();
      } else {
        r := Fail(pos);
      }
    }

    /** Attaches a complete value to the innermost open container, closing every
        container it finishes; `r` is none when another value must be read first. */
    method Attach(before: seq<Open>, complete: Json, limit: Limit) returns (open: seq<Open>, r: Option<Read<Json>>)
      requires pos <= |text|
      modifies this
      ensures r.Some? ==>
          r.value == Resume(text, limit, before, Ok(complete, old(pos))) && (r.value.Ok? ==> pos == r.value.end)
      ensures r.None? ==> old(pos) < pos <= |text|
      ensures r.None? ==>
          Resume(text, limit, before, Ok(complete, old(pos))) ==
            Resume(text, limit, open, ReadValue(text, pos, |open|, limit))
    {
      hide ReadValue, SkipWs, ReadName;
      open := before;
      var value := complete;
      ghost var whole := Resume(text, limit, before, Ok(complete, old(pos)));
      while open != []
        invariant old(pos) <= pos <= |text| && whole == Resume(text, limit, open, Ok(value, pos))
        decreases |open|
      {
        var last := |open| - 1;
        ghost var start := pos;
        match open[last]
        case OpenArray(items) =>
          var items' := items + [value];
          SkipWhitespace();
          if At(text, pos, ',') {
            pos := pos + 1;
            AnotherItem(text, limit, open, value, start);
            open := open[last := OpenArray(items')];
            return open, None;
          } else if At(text, pos, ']') {
            pos := pos + 1;
            open, value := open[..last], Array(items');
          } else {
            return open, Some(Fail(pos));
          }
        case OpenObject(members, name) =>
          var members' := members + [(name, value)];
          SkipWhitespace();
          if At(text, pos, ',') {
            pos := pos + 1;
            var next := MemberName();
            if next.Err? { return open, Some(Err(next.error)); }
            AnotherMember(text, limit, open, value, start);
            open := open[last := OpenObject(members', next.value)];
            return open, None;
          } else if At(text, pos, '}') {
            pos := pos + 1;
            open, value := open[..last], Object(members');
          } else {
            return open, Some(Fail(pos));
          }
      }
      r := Some(Ok(value, pos));
    }

    /** Reads one document, keeping each array and object it opens on `open`. */
    method Document(limit: Limit) returns (r: Read<Json>)
      requires pos == 0
      modifies this
      ensures r == ReadValue(text, 0, 0, limit)
      ensures r.Ok? ==> pos == r.end
    {
      hide ReadValue;
      var open: seq<Open> := [];
      while true
        invariant pos <= |text|
            && ReadValue(text, 0, 0, limit) == Resume(text, limit, open, ReadValue(text, pos, |open|, limit))
        decreases |text| - pos
      {
        var begun;
        r, begun := Start(|open|, limit);
        if begun.Some? {
          open := open + [begun.value];
        } else {
          if r.Err? { return; }
          var result;
          open, result := Attach(open, r.value, limit);
          if result.Some? { return result.value; }
        }
      }
    }
  }

  /** Reads one JSON document, rejecting trailing content. */
  method ParseWith(input: string, limits: ReadLimits) returns (r: Read<Json>)
    ensures r == Parse(input, limits.maxBytes, limits.maxDepth)
  {
    if ByteLength(input) > limits.maxBytes { return Err(JsonError(InputBytes(limits.maxBytes), 0)); }
    var reader := new Reader(input);
    r := reader.Document(limits.maxDepth);
    if r.Err? { return; }
    reader.SkipWhitespace();
    if reader.pos != |input| { return Fail(reader.pos); }
    return Ok(r.value, reader.pos);
  }
}
