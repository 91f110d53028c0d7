/** The JSON grammar of RFC 8259, sections 2 to 7, as a relation between the text
    `s[i..j]` and the value it spells.  Numbers are held to the finite binary64
    domain, and a `\u` escape never spells an unpaired surrogate. */
module Grammar {
  import opened Wrappers
  import opened Json
  import Numbers

  predicate IsWs(c: char) { c == ' ' || c == '\t' || c == '\n' || c == '\r' }

  ghost predicate Blank(s: string, i: nat, j: nat) {
    i <= j <= |s| && forall k :: i <= k < j ==> IsWs(s[k])
  }

  function HexDigit(c: char): Option<nat> {
    if '0' <= c <= '9' then Some((c as int - '0' as int) as nat)
    else if 'a' <= c <= 'f' then Some((c as int - 'a' as int + 10) as nat)
    else if 'A' <= c <= 'F' then Some((c as int - 'A' as int + 10) as nat)
    else None
  }

  /** The code unit four hex digits at `i` spell. */
  function Hex4(s: string, i: nat): (unit: Option<nat>)
    ensures unit.Some? ==> unit.value < 0x1_0000 && i + 4 <= |s|
  {
    if i + 4 > |s| then None
    else
      match (HexDigit(s[i]), HexDigit(s[i + 1]), HexDigit(s[i + 2]), HexDigit(s[i + 3]))
      case (Some(a), Some(b), Some(c), Some(d)) =>
        assert a < 16 && b < 16 && c < 16 && d < 16;
        Some(((a * 16 + b) * 16 + c) * 16 + d)
      case _ => None
  }

  function Unescape(e: char): Option<char> {
    if e == '"' || e == '\\' || e == '/' then Some(e)
    else if e == 'b' then Some('\U{8}')
    else if e == 'f' then Some('\U{C}')
    else if e == 'n' then Some('\n')
    else if e == 'r' then Some('\r')
    else if e == 't' then Some('\t')
    else None
  }

  predicate IsHigh(unit: nat) { 0xD800 <= unit < 0xDC00 }
  predicate IsLow(unit: nat) { 0xDC00 <= unit < 0xE000 }

  function Combine(high: nat, low: nat): (scalar: nat)
    requires IsHigh(high) && IsLow(low)
    ensures 0x1_0000 <= scalar < 0x11_0000
  {
    0x1_0000 + (high - 0xD800) * 0x400 + (low - 0xDC00)
  }

  predicate EscapeAt(s: string, i: nat) { i + 1 < |s| && s[i] == '\\' && s[i + 1] == 'u' }

  /** `s[i..j]` spells the one character `c` inside a string. */
  predicate Spells(s: string, i: nat, j: nat, c: char) {
    && i < j <= |s|
    && (|| (j == i + 1 && s[i] == c && ' ' <= c && c != '"' && c != '\\')
        || (j == i + 2 && s[i] == '\\' && Unescape(s[i + 1]) == Some(c))
        || (j == i + 6 && EscapeAt(s, i) && Hex4(s, i + 2) == Some(c as int))
        || (j == i + 12 && EscapeAt(s, i) && EscapeAt(s, i + 6) &&
            match (Hex4(s, i + 2), Hex4(s, i + 8))
            case (Some(high), Some(low)) => IsHigh(high) && IsLow(low) && c as int == Combine(high, low)
            case _ => false))
  }

  ghost predicate CharsAt(s: string, i: nat, j: nat, text: string)
    decreases |text|
  {
    if text == [] then i == j <= |s|
    else exists k: nat :: Spells(s, i, k, text[0]) && CharsAt(s, k, j, text[1..])
  }

  ghost predicate StringAt(s: string, i: nat, j: nat, text: string) {
    && i + 1 < j <= |s| && s[i] == '"' && s[j - 1] == '"' && CharsAt(s, i + 1, j - 1, text)
  }

  ghost predicate IsFiniteNumber(lexeme: string) {
    exists x: Numbers.Lexeme :: x.Valid() && x.Text() == lexeme && Numbers.Finite(x)
  }

  ghost predicate ValueAt(s: string, i: nat, j: nat, v: Json)
    decreases v, 0
  {
    && i < j <= |s|
    && match v
       case Null => s[i..j] == "null"
       case Bool(flag) => s[i..j] == if flag then "true" else "false"
       case Number(lexeme) => s[i..j] == lexeme && IsFiniteNumber(lexeme)
       case Str(text) => StringAt(s, i, j, text)
       case Array(items) =>
         i + 1 < j && s[i] == '[' && s[j - 1] == ']' &&
         if items == [] then Blank(s, i + 1, j - 1) else ItemsAt(s, i + 1, j - 1, items)
       case Object(members) =>
         i + 1 < j && s[i] == '{' && s[j - 1] == '}' &&
         if members == [] then Blank(s, i + 1, j - 1) else MembersAt(s, i + 1, j - 1, members)
  }

  /** A value with white space on either side. */
  ghost predicate ElementAt(s: string, i: nat, j: nat, v: Json)
    decreases v, 1
  {
    exists a: nat, b: nat :: Blank(s, i, a) && ValueAt(s, a, b, v) && Blank(s, b, j)
  }

  /** One or more elements separated by commas. */
  ghost predicate ItemsAt(s: string, i: nat, j: nat, items: seq<Json>)
    requires items != []
    decreases items, 2
  {
    if |items| == 1 then ElementAt(s, i, j, items[0])
    else exists k: nat :: k < |s| && s[k] == ',' && ElementAt(s, i, k, items[0]) && ItemsAt(s, k + 1, j, items[1..])
  }

  ghost predicate NameAt(s: string, i: nat, j: nat, name: string) {
    exists a: nat, b: nat :: Blank(s, i, a) && StringAt(s, a, b, name) && Blank(s, b, j)
  }

  ghost predicate MemberAt(s: string, i: nat, j: nat, member: (string, Json))
    decreases member, 2
  {
    exists k: nat :: k < |s| && s[k] == ':' && NameAt(s, i, k, member.0) && ElementAt(s, k + 1, j, member.1)
  }

  ghost predicate MembersAt(s: string, i: nat, j: nat, members: seq<(string, Json)>)
    requires members != []
    decreases members, 3
  {
    if |members| == 1 then MemberAt(s, i, j, members[0])
    else exists k: nat ::
      k < |s| && s[k] == ',' && MemberAt(s, i, k, members[0]) && MembersAt(s, k + 1, j, members[1..])
  }

  /** `s` is a JSON text of `v`. */
  ghost predicate IsText(s: string, v: Json) {
    ElementAt(s, 0, |s|, v)
  }
}
