/** JSON pointers (RFC 6901) as text: reference tokens escaped, appended and split. */
module Pointers {
  import opened Wrappers
  import Numbers

  /** Every `c` replaced by `text`. */
  function ReplaceChar(s: string, c: char, text: string): string {
    if s == "" then "" else (if s[0] == c then text else [s[0]]) + ReplaceChar(s[1..], c, text)
  }

  /** Every occurrence of the pair `a` `b`, left to right and without overlap, replaced by `text`. */
  function ReplacePair(s: string, a: char, b: char, text: string): string {
    if |s| < 2 then s
    else if s[0] == a && s[1] == b then text + ReplacePair(s[2..], a, b, text)
    else [s[0]] + ReplacePair(s[1..], a, b, text)
  }

  function Token(raw: string): string { ReplaceChar(ReplaceChar(raw, '~', "~0"), '/', "~1") }

  function Unescape(part: string): string { ReplacePair(ReplacePair(part, '~', '1', "/"), '~', '0', "~") }

  function Child(pointer: string, raw: string): string { pointer + "/" + Token(raw) }

  /** The parts between slashes. */
  function Parts(s: string): (parts: seq<string>)
    ensures |parts| > 0
  {
    if s == "" then [""]
    else
      var parts := Parts(s[..|s| - 1]);
      if s[|s| - 1] == '/' then parts + [""] else parts[..|parts| - 1] + [parts[|parts| - 1] + [s[|s| - 1]]]
  }

  function Unescaped(parts: seq<string>): (r: seq<string>)
    ensures |r| == |parts| && forall i :: 0 <= i < |r| ==> r[i] == Unescape(parts[i])
  {
    seq(|parts|, i requires 0 <= i < |parts| => Unescape(parts[i]))
  }

  function Split(pointer: string): seq<string> {
    if pointer == "" then [] else Unescaped(Parts(pointer)[1..])
  }

  /** What is left of a token once its slashes are back. */
  function Halfway(raw: string): string {
    if raw == "" then "" else (if raw[0] == '~' then "~0" else [raw[0]]) + Halfway(raw[1..])
  }

  function EscapeChar(c: char): string { if c == '~' then "~0" else if c == '/' then "~1" else [c] }

  lemma {:induction false} ReplaceAppend(a: string, b: string, c: char, text: string)
    ensures ReplaceChar(a + b, c, text) == ReplaceChar(a, c, text) + ReplaceChar(b, c, text)
  {
    if a == "" {
      assert a + b == b;
    } else {
      assert (a + b)[1..] == a[1..] + b;
      ReplaceAppend(a[1..], b, c, text);
    }
  }

  lemma ReplaceOne(x: char, c: char, text: string)
    ensures ReplaceChar([x], c, text) == if x == c then text else [x]
  {
    assert [x][1..] == "";
  }

  lemma TokenHead(raw: string)
    requires raw != ""
    ensures Token(raw) == EscapeChar(raw[0]) + Token(raw[1..])
  {
    var head := if raw[0] == '~' then "~0" else [raw[0]];
    var rest := ReplaceChar(raw[1..], '~', "~0");
    ReplaceAppend(head, rest, '/', "~1");
    assert "~0" == ['~'] + ['0'];
    ReplaceAppend(['~'], ['0'], '/', "~1");
    ReplaceOne('~', '/', "~1");
    ReplaceOne('0', '/', "~1");
    ReplaceOne(raw[0], '/', "~1");
  }

  lemma NoTilde(c: char, s: string, a: char, b: char, text: string)
    requires c != a
    ensures ReplacePair([c] + s, a, b, text) == [c] + ReplacePair(s, a, b, text)
  {
    if s != "" { assert ([c] + s)[1..] == s; }
  }

  lemma PairHead(s: string, a: char, b: char, text: string)
    ensures ReplacePair([a, b] + s, a, b, text) == text + ReplacePair(s, a, b, text)
  {
    assert ([a, b] + s)[2..] == s;
  }

  lemma SlashBack(c: char, rest: string)
    ensures ReplacePair(EscapeChar(c) + rest, '~', '1', "/") ==
        (if c == '~' then "~0" else [c]) + ReplacePair(rest, '~', '1', "/")
  {
    hide ReplacePair;
    if c == '~' {
      KeepPair(rest);
    } else if c == '/' {
      PairHead(rest, '~', '1', "/");
      assert "~1" == ['~', '1'];
    } else {
      NoTilde(c, rest, '~', '1', "/");
    }
  }

  lemma {:induction false} SlashesBack(raw: string)
    ensures ReplacePair(Token(raw), '~', '1', "/") == Halfway(raw)
  {
    hide ReplacePair, Token, EscapeChar;
    if raw == "" {
      EmptyToken();
    } else {
      TokenHead(raw);
      SlashesBack(raw[1..]);
      SlashBack(raw[0], Token(raw[1..]));
    }
  }

  lemma EmptyToken()
    ensures ReplacePair(Token(""), '~', '1', "/") == ""
  {
    assert Token("") == "";
  }

  lemma KeepPair(rest: string)
    ensures ReplacePair("~0" + rest, '~', '1', "/") == "~0" + ReplacePair(rest, '~', '1', "/")
  {
    assert ("~0" + rest)[1..] == ['0'] + rest;
    NoTilde('0', rest, '~', '1', "/");
  }

  lemma {:induction false} TildesBack(raw: string)
    ensures ReplacePair(Halfway(raw), '~', '0', "~") == raw
  {
    if raw != "" {
      hide ReplacePair;
      TildesBack(raw[1..]);
      var rest := Halfway(raw[1..]);
      if raw[0] == '~' {
        assert "~0" == ['~', '0'];
        PairHead(rest, '~', '0', "~");
      } else {
        NoTilde(raw[0], rest, '~', '0', "~");
      }
      assert raw == [raw[0]] + raw[1..];
    } else {
      assert Halfway("") == "";
      EmptyPair();
    }
  }

  lemma EmptyPair()
    ensures ReplacePair("", '~', '0', "~") == ""
  {
  }

  /** A token is escaped character by character, the tilde as `~0` and the slash as `~1`
      (section 3 of RFC 6901). */
  lemma TokenSpells(a: string, b: string)
    ensures Token(a + b) == Token(a) + Token(b)
    ensures Token("~") == "~0" && Token("/") == "~1" && Token("") == ""
    ensures forall c :: c != '~' && c != '/' ==> Token([c]) == [c]
  {
    hide Token;
    TokenJoins(a, b);
    TokenEmpty();
    forall c ensures Token([c]) == EscapeChar(c) {
      TokenHead([c]);
      assert [c][1..] == "";
    }
    assert Token("~") == EscapeChar('~') && Token("/") == EscapeChar('/');
  }

  lemma TokenEmpty()
    ensures Token("") == ""
  {
  }

  lemma {:induction false} TokenJoins(a: string, b: string)
    ensures Token(a + b) == Token(a) + Token(b)
  {
    hide Token;
    if a == "" {
      TokenEmpty();
      assert a + b == b;
    } else {
      TokenJoins(a[1..], b);
      RestOfConcat(a, b);
      TokenHead(a + b);
      TokenHead(a);
    }
  }

  /** Escaping is undone by unescaping. */
  lemma TokenRoundTrip(raw: string)
    ensures Unescape(Token(raw)) == raw
  {
    hide Token, ReplacePair;
    SlashesBack(raw);
    TildesBack(raw);
  }

  lemma {:induction false} TokenPlain(raw: string)
    ensures '/' !in Token(raw)
  {
    if raw != "" {
      hide Token;
      TokenHead(raw);
      TokenPlain(raw[1..]);
    } else {
      assert Token("") == "";
    }
  }

  /** The parts with text appended to the last of them. */
  function Extended(parts: seq<string>, t: string): seq<string>
    requires parts != []
  {
    parts[..|parts| - 1] + [parts[|parts| - 1] + t]
  }

  lemma ExtendedTwice(parts: seq<string>, t: string, u: string)
    requires parts != []
    ensures Extended(Extended(parts, t), u) == Extended(parts, t + u) && Extended(parts, "") == parts
  {
    var n := |parts| - 1;
    assert Extended(parts, t)[..n] == parts[..n];
    assert parts[n] + t + u == parts[n] + (t + u);
    assert parts[n] + "" == parts[n];
  }

  lemma PartsChar(s: string, c: char)
    requires c != '/'
    ensures Parts(s + [c]) == Extended(Parts(s), [c])
  {
    assert (s + [c])[..|s + [c]| - 1] == s;
  }

  /** Text without a slash stays in the part it is appended to. */
  lemma {:induction false} PartsAppend(s: string, t: string)
    requires '/' !in t
    ensures Parts(s + t) == Extended(Parts(s), t)
    decreases |t|
  {
    hide Parts, Extended;
    ExtendedTwice(Parts(s), "", "");
    if t == "" {
      assert s + t == s;
    } else {
      var n := |t| - 1;
      assert t == t[..n] + [t[n]] && s + t == s + t[..n] + [t[n]];
      PartsAppend(s, t[..n]);
      PartsChar(s + t[..n], t[n]);
      ExtendedTwice(Parts(s), t[..n], [t[n]]);
    }
  }

  lemma PartsChild(pointer: string, raw: string)
    ensures Parts(Child(pointer, raw)) == Parts(pointer) + [Token(raw)]
  {
    var slashed := pointer + "/";
    assert slashed[..|slashed| - 1] == pointer;
    assert Parts(slashed) == Parts(pointer) + [""];
    TokenPlain(raw);
    PartsAppend(slashed, Token(raw));
    assert "" + Token(raw) == Token(raw);
    assert Parts(slashed)[..|Parts(slashed)| - 1] == Parts(pointer);
  }

  /** A child's tokens are its parent's and its own, whatever the two texts are. */
  lemma SplitChild(pointer: string, raw: string)
    ensures Split(Child(pointer, raw)) == Split(pointer) + [raw]
  {
    hide Token, Unescape, Parts;
    PartsChild(pointer, raw);
    TokenRoundTrip(raw);
    var parts := Parts(pointer);
    assert (parts + [Token(raw)])[1..] == parts[1..] + [Token(raw)];
    if pointer == "" { assert Parts("") == [""] by { EmptyParts(); } }
  }

  lemma EmptyParts()
    ensures Parts("") == [""]
  {
  }

  /** The pointer whose tokens are the given ones. */
  function Pointer(tokens: seq<string>): string {
    if tokens == [] then "" else Child(Pointer(tokens[..|tokens| - 1]), tokens[|tokens| - 1])
  }

  lemma {:induction false} SplitPointer(tokens: seq<string>)
    ensures Split(Pointer(tokens)) == tokens
  {
    hide Child;
    if tokens != [] {
      SplitPointer(tokens[..|tokens| - 1]);
      SplitChild(Pointer(tokens[..|tokens| - 1]), tokens[|tokens| - 1]);
    }
  }

  const USIZE_BOUND := 0x1_0000_0000_0000_0000

  /** A token read as an array index: digits after an optional plus, within 64 bits. */
  function Index(part: string): Option<nat> {
    var digits := if |part| > 0 && part[0] == '+' then part[1..] else part;
    if digits != "" && Numbers.AllDigits(digits) && Numbers.NatOf(digits) < USIZE_BOUND then Some(Numbers.NatOf(digits))
      else None
  }
}
