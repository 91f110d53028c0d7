/** Decimal text: JSON number lexemes (section 6 of RFC 8259), the amounts they
    denote, and the ECMAScript layout of shortest digits (section 3.2.2.3 of
    RFC 8785). */
module Numbers {
  import opened Wrappers

  predicate IsDigit(c: char) { '0' <= c <= '9' }

  predicate AllDigits(s: string) { forall i :: 0 <= i < |s| ==> IsDigit(s[i]) }

  function DigitOf(c: char): nat
    requires IsDigit(c)
  {
    (c as int - '0' as int) as nat
  }

  function DigitChar(d: nat): (c: char)
    requires d < 10
    ensures IsDigit(c) && DigitOf(c) == d
  {
    ('0' as int + d) as char
  }

  /** The number a run of decimal digits spells. */
  function NatOf(s: string): nat
    requires AllDigits(s)
  {
    if s == [] then 0 else 10 * NatOf(s[..|s| - 1]) + DigitOf(s[|s| - 1])
  }

  /** The decimal digits of `n`, without a leading zero. */
  function Decimal(n: nat): (s: string)
    ensures AllDigits(s) && |s| > 0 && NatOf(s) == n
    ensures n > 0 ==> s[0] != '0'
    ensures n == 0 ==> s == "0"
  {
    if n < 10 then [DigitChar(n)] else Decimal(n / 10) + [DigitChar(n % 10)]
  }

  function Pow10(n: nat): nat { if n == 0 then 1 else 10 * Pow10(n - 1) }

  function Zeros(n: nat): (s: string)
    ensures |s| == n && AllDigits(s) && forall i :: 0 <= i < n ==> s[i] == '0'
  {
    if n == 0 then "" else Zeros(n - 1) + "0"
  }

  lemma TenTimes(x: nat, y: nat)
    ensures 10 * (x * y) == x * (10 * y)
  {
  }

  lemma {:induction false} NatOfAppend(a: string, b: string)
    requires AllDigits(a) && AllDigits(b)
    ensures AllDigits(a + b) && NatOf(a + b) == NatOf(a) * Pow10(|b|) + NatOf(b)
  {
    if b == [] {
      assert a + b == a;
    } else {
      var b' := b[..|b| - 1];
      NatOfAppend(a, b');
      assert (a + b)[..|a + b| - 1] == a + b';
      TenTimes(NatOf(a), Pow10(|b'|));
    }
  }

  lemma {:induction false} NatOfZeros(n: nat)
    ensures NatOf(Zeros(n)) == 0
  {
    if n > 0 {
      NatOfZeros(n - 1);
      assert Zeros(n)[..n - 1] == Zeros(n - 1);
    }
  }

  lemma {:induction false} NatOfBounds(s: string)
    requires AllDigits(s)
    ensures NatOf(s) < Pow10(|s|)
    ensures |s| > 0 && s[0] != '0' ==> NatOf(s) >= Pow10(|s| - 1)
  {
    if |s| > 1 {
      NatOfBounds(s[..|s| - 1]);
    }
  }

  /** Digits of one length that spell one number are the same digits. */
  lemma {:induction false} NatOfInjective(a: string, b: string)
    requires AllDigits(a) && AllDigits(b) && |a| == |b| && NatOf(a) == NatOf(b)
    ensures a == b
  {
    if |a| > 0 {
      NatOfInjective(a[..|a| - 1], b[..|b| - 1]);
      assert a == a[..|a| - 1] + [a[|a| - 1]];
      assert b == b[..|b| - 1] + [b[|b| - 1]];
    }
  }

  lemma {:induction false} Pow10Add(a: nat, b: nat)
    ensures Pow10(a + b) == Pow10(a) * Pow10(b)
  {
    if a > 0 { Pow10Add(a - 1, b); }
  }

  lemma {:induction false} Pow10Mono(a: nat, b: nat)
    requires a < b
    ensures 0 < Pow10(a) < Pow10(b)
  {
    if a > 0 { Pow10Mono(a - 1, b - 1); } else if b > 1 { Pow10Mono(a, b - 1); }
  }

  // ----- lexemes

  /** The exponent of a lexeme: its mark, its written sign and its digits. */
  datatype Exponent = Exponent(mark: char, sign: string, digits: string) {
    predicate Valid() {
      && (mark == 'e' || mark == 'E') && (sign == "" || sign == "+" || sign == "-")
      && |digits| > 0 && AllDigits(digits)
    }

    function Text(): string { [mark] + (sign + digits) }

    function Value(): int
      requires Valid()
    {
      if sign == "-" then -(NatOf(digits) as int) else NatOf(digits)
    }
  }

  function Minus(negative: bool): string { if negative then "-" else "" }

  function ExponentText(e: Option<Exponent>): string { if e.Some? then e.value.Text() else "" }

  function FractionText(f: Option<string>): string { if f.Some? then "." + f.value else "" }

  /** A number lexeme by its parts: `-`? whole (`.` fraction)? exponent?. */
  datatype Lexeme = Lexeme(negative: bool, whole: string, fraction: Option<string>, exponent: Option<Exponent>) {
    predicate Valid() {
      && |whole| > 0 && AllDigits(whole) && (whole[0] == '0' ==> |whole| == 1)
      && (fraction.Some? ==> |fraction.value| > 0 && AllDigits(fraction.value))
      && (exponent.Some? ==> exponent.value.Valid())
    }

    function Fraction(): string { if fraction.Some? then fraction.value else "" }

    function Text(): string {
      Minus(negative) + (whole + (FractionText(fraction) + ExponentText(exponent)))
    }

    /** The magnitude denoted: `amount.coefficient * 10^amount.power`. */
    function Amount(): Amount
      requires Valid()
    {
      Scaled(NatOf(whole + Fraction()), (if exponent.Some? then exponent.value.Value() else 0) - |Fraction()|)
    }
  }

  datatype Amount = Scaled(coefficient: nat, power: int)

  function Coefficient(a: Amount, power: int): nat
    requires power <= a.power
  {
    a.coefficient * Pow10(a.power - power)
  }

  /** Two scaled decimals denote one amount. */
  predicate SameAmount(a: Amount, b: Amount) {
    var power := if a.power <= b.power then a.power else b.power;
    Coefficient(a, power) == Coefficient(b, power)
  }

  // ----- the layout

  ghost predicate ShortestDigits(digits: string) {
    |digits| > 0 && AllDigits(digits) && digits[0] != '0'
  }

  predicate ExponentForm(n: int) { n > 21 || n <= -6 }

  /** The parts the layout of `digits` at decimal point `n` is written from. */
  function LaidOut(negative: bool, digits: string, n: int): Lexeme
    requires |digits| > 0
  {
    var k := |digits|;
    if k <= n && n <= 21 then
      Lexeme(negative, digits + Zeros(n - k), None, None)
    else if 0 < n && n <= 21 then
      Lexeme(negative, digits[..n], Some(digits[n..]), None)
    else if -6 < n && n <= 0 then
      Lexeme(negative, "0", Some(Zeros(-n) + digits), None)
    else
      Lexeme(negative, digits[..1], if k == 1 then None else Some(digits[1..]),
             Some(Exponent('e', if n - 1 >= 0 then "+" else "-", Decimal(if n - 1 >= 0 then n - 1 else 1 - n))))
  }

  /** Appends `count` zeros, one at a time. */
  method PadZeros(text: string, count: int) returns (out: string)
    requires count >= 0
    ensures out == text + Zeros(count)
  {
    out := text;
    for i := 0 to count
      invariant out == text + Zeros(i)
    {
      out := out + "0";
      assert text + (Zeros(i) + "0") == out;
    }
  }

  method Layout(digits: string, k: int, n: int) returns (out: string)
    requires |digits| == k > 0
    ensures out == LaidOut(false, digits, n).Text()
  {
    hide Decimal, Zeros, Lexeme.Text;
    if k <= n && n <= 21 {
      out := PadZeros(digits, n - k);
      LayoutPlain(digits + Zeros(n - k));
      return;
    }
    if 0 < n && n <= 21 {
      out := digits[..n] + "." + digits[n..];
      LayoutPoint(digits[..n], digits[n..]);
      return;
    }
    if -6 < n && n <= 0 {
      out := PadZeros("0.", -n);
      out := out + digits;
      LayoutPoint("0", Zeros(-n) + digits);
      assert "0." == "0" + ".";
      assert out == "0" + "." + (Zeros(-n) + digits);
      return;
    }
    var e := n - 1;
    var sign := if e >= 0 then "+" else "-";
    var magnitude := if e >= 0 then e else -e;
    if k == 1 {
      out := digits;
    } else {
      out := digits[..1] + "." + digits[1..];
    }
    out := out + "e" + sign + Decimal(magnitude);
    LayoutScientific(digits, sign, Decimal(magnitude));
  }

  lemma LayoutPlain(whole: string)
    ensures Lexeme(false, whole, None, None).Text() == whole
  {
  }

  lemma LayoutPoint(whole: string, fraction: string)
    ensures Lexeme(false, whole, Some(fraction), None).Text() == whole + "." + fraction
  {
  }

  lemma LayoutScientific(digits: string, sign: string, magnitude: string)
    requires |digits| > 0
    ensures var fraction := if |digits| == 1 then None else Some(digits[1..]);
            Lexeme(false, digits[..1], fraction, Some(Exponent('e', sign, magnitude))).Text() ==
            (if |digits| == 1 then digits else digits[..1] + "." + digits[1..]) + "e" + sign + magnitude
  {
    assert |digits| == 1 ==> digits[..1] == digits;
  }

  lemma ZeroDigit()
    ensures NatOf("0") == 0
  {
  }

  lemma SmallDigits(digits: string, zeros: nat)
    requires AllDigits(digits)
    ensures AllDigits("0" + (Zeros(zeros) + digits)) && NatOf("0" + (Zeros(zeros) + digits)) == NatOf(digits)
  {
    hide NatOf, Zeros, Pow10;
    ZeroDigit();
    NatOfAppend(Zeros(zeros), digits);
    NatOfZeros(zeros);
    NatOfAppend("0", Zeros(zeros) + digits);
  }

  /** The exact amount of each layout. */
  lemma LaidOutAmount(negative: bool, digits: string, n: int)
    requires ShortestDigits(digits)
    ensures LaidOut(negative, digits, n).Valid()
    ensures LaidOut(negative, digits, n).Amount() ==
      if |digits| <= n <= 21 then Scaled(NatOf(digits) * Pow10(n - |digits|), 0)
        else Scaled(NatOf(digits), n - |digits|)
  {
    hide NatOf, Pow10, Decimal, Zeros;
    var k := |digits|;
    var x := LaidOut(negative, digits, n);
    if k <= n && n <= 21 {
      NatOfAppend(digits, Zeros(n - k));
      NatOfZeros(n - k);
      assert x.whole + x.Fraction() == x.whole;
    } else if -6 < n && n <= 0 {
      SmallDigits(digits, -n);
    } else {
      assert x.whole + x.Fraction() == digits;
    }
  }

  /** The layout is a JSON number denoting exactly `digits * 10^(n - k)`, with an
      exponent exactly outside `-6 < n <= 21`. */
  lemma LayoutDenotes(negative: bool, digits: string, n: int)
    requires ShortestDigits(digits)
    ensures LaidOut(negative, digits, n).Valid()
    ensures SameAmount(LaidOut(negative, digits, n).Amount(), Scaled(NatOf(digits), n - |digits|))
    ensures LaidOut(negative, digits, n).exponent.Some? <==> ExponentForm(n)
  {
    LaidOutAmount(negative, digits, n);
  }

  // ----- the layout determines its digits

  lemma {:induction false} TrailingZero(s: string)
    requires AllDigits(s) && |s| > 0 && NatOf(s) % 10 == 0
    ensures s[|s| - 1] == '0'
  {
  }

  /** Equal amounts of digits without trailing zeros have equal digits and power. */
  lemma AmountDetermines(a: string, n: int, b: string, m: int)
    requires ShortestDigits(a) && ShortestDigits(b) && a[|a| - 1] != '0' && b[|b| - 1] != '0'
    requires n - |a| <= m - |b|
    requires SameAmount(Scaled(NatOf(a), n - |a|), Scaled(NatOf(b), m - |b|))
    ensures a == b && n == m
  {
    var d := (m - |b|) - (n - |a|);
    assert NatOf(a) == NatOf(b) * Pow10(d);
    if d > 0 {
      TenTimes(NatOf(b), Pow10(d - 1));
      TrailingZero(a);
      assert false;
    }
    NatOfBounds(a);
    NatOfBounds(b);
    if |a| != |b| {
      if |a| < |b| { PowersOrder(|a|, |b| - 1); } else { PowersOrder(|b|, |a| - 1); }
      assert false;
    }
    NatOfInjective(a, b);
  }

  lemma PowersOrder(a: nat, b: nat)
    requires a <= b
    ensures Pow10(a) <= Pow10(b)
  {
    if a < b { Pow10Mono(a, b); }
  }

  // ----- scanning a lexeme

  datatype Scan = Scanned(lexeme: Lexeme, end: nat) | Stuck(at: nat)

  predicate DigitAt(s: string, pos: nat) { pos < |s| && IsDigit(s[pos]) }

  predicate CharAt(s: string, pos: nat, c: char) { pos < |s| && s[pos] == c }

  /** The end of the run of digits that starts at `pos`. */
  function DigitRun(s: string, pos: nat): (end: nat)
    requires pos <= |s|
    ensures pos <= end <= |s| && AllDigits(s[pos..end]) && !DigitAt(s, end)
    decreases |s| - pos
  {
    if DigitAt(s, pos) then
      var end := DigitRun(s, pos + 1);
      assert s[pos..end] == [s[pos]] + s[pos + 1..end];
      end
    else pos
  }

  /** Reads the longest number lexeme at `pos`, or stops where none can go on. */
  function ScanLexeme(s: string, pos: nat): Scan
    requires pos <= |s|
  {
    var negative := CharAt(s, pos, '-');
    var start := if negative then pos + 1 else pos;
    if !DigitAt(s, start) then Stuck(start)
    else
      var whole := if s[start] == '0' then start + 1 else DigitRun(s, start);
      ScanFraction(s, whole, Lexeme(negative, s[start..whole], None, None))
  }

  function ScanFraction(s: string, pos: nat, x: Lexeme): Scan
    requires pos <= |s|
  {
    if !CharAt(s, pos, '.') then ScanExponent(s, pos, x)
    else if !DigitAt(s, pos + 1) then Stuck(pos + 1)
    else
      var end := DigitRun(s, pos + 1);
      ScanExponent(s, end, x.(fraction := Some(s[pos + 1..end])))
  }

  function SignAt(s: string, pos: nat): (sign: string)
    ensures (sign == "" || sign == "+" || sign == "-") && Here(s, if sign == "" && pos > |s| then |s| else pos, sign)
  {
    if CharAt(s, pos, '+') then "+" else if CharAt(s, pos, '-') then "-" else ""
  }

  function ScanExponent(s: string, pos: nat, x: Lexeme): Scan
    requires pos <= |s|
  {
    if !CharAt(s, pos, 'e') && !CharAt(s, pos, 'E') then Scanned(x, pos)
    else
      var sign := SignAt(s, pos + 1);
      var start := pos + 1 + |sign|;
      if !DigitAt(s, start) then Stuck(start)
      else
        var end := DigitRun(s, start);
        Scanned(x.(exponent := Some(Exponent(s[pos], sign, s[start..end]))), end)
  }

  /** `text` is read at `pos`. */
  ghost predicate Here(s: string, pos: nat, text: string) {
    pos + |text| <= |s| && s[pos..pos + |text|] == text
  }

  lemma HereSplit(s: string, pos: nat, a: string, b: string)
    ensures Here(s, pos, a + b) <==> Here(s, pos, a) && Here(s, pos + |a|, b)
  {
    if Here(s, pos, a + b) {
      assert s[pos..pos + |a|] == (a + b)[..|a|];
      assert s[pos + |a|..pos + |a| + |b|] == (a + b)[|a|..];
    }
    if Here(s, pos, a) && Here(s, pos + |a|, b) {
      assert s[pos..pos + |a| + |b|] == a + b;
    }
  }

  lemma HereJoin(s: string, pos: nat, a: string, b: string, c: string)
    requires Here(s, pos, a) && Here(s, pos + |a|, b) && Here(s, pos + |a| + |b|, c)
    ensures Here(s, pos, a + (b + c))
  {
    HereSplit(s, pos + |a|, b, c);
    HereSplit(s, pos, a, b + c);
  }

  /** The lexeme cannot go on at `pos`. */
  predicate NumberEnds(s: string, pos: nat) {
    !DigitAt(s, pos) && !CharAt(s, pos, '.') && !CharAt(s, pos, 'e') && !CharAt(s, pos, 'E')
  }

  lemma {:induction false} DigitRunIs(s: string, pos: nat, digits: string)
    requires Here(s, pos, digits) && AllDigits(digits) && !DigitAt(s, pos + |digits|)
    ensures DigitRun(s, pos) == pos + |digits|
    decreases |digits|
  {
    if digits != [] {
      assert s[pos] == digits[0];
      assert s[pos + 1..pos + |digits|] == digits[1..];
      DigitRunIs(s, pos + 1, digits[1..]);
    }
  }

  lemma HereText(s: string, pos: nat, text: string)
    requires Here(s, pos, text)
    ensures pos + |text| <= |s| && s[pos..pos + |text|] == text
    ensures |text| > 0 ==> s[pos] == text[0]
  {
  }

  lemma ExponentParts(s: string, pos: nat, e: Exponent)
    requires Here(s, pos, e.Text())
    ensures Here(s, pos, [e.mark]) && Here(s, pos + 1, e.sign) && Here(s, pos + 1 + |e.sign|, e.digits)
  {
    hide Here;
    HereSplit(s, pos, [e.mark], e.sign + e.digits);
    HereSplit(s, pos + 1, e.sign, e.digits);
  }

  lemma SignIs(s: string, pos: nat, sign: string, digits: string)
    requires (sign == "" || sign == "+" || sign == "-") && |digits| > 0 && AllDigits(digits)
    requires Here(s, pos, sign) && Here(s, pos + |sign|, digits)
    ensures SignAt(s, pos) == sign && DigitAt(s, pos + |sign|)
  {
    HereText(s, pos, sign);
    HereText(s, pos + |sign|, digits);
  }

  lemma ScanExponentText(s: string, pos: nat, x: Lexeme, e: Option<Exponent>)
    requires pos <= |s| && (e.Some? ==> e.value.Valid())
    requires Here(s, pos, ExponentText(e)) && NumberEnds(s, pos + |ExponentText(e)|) && x.exponent == None
    ensures ScanExponent(s, pos, x) == Scanned(x.(exponent := e), pos + |ExponentText(e)|)
  {
    hide DigitRun, Here, SignAt;
    if e.Some? {
      var v := e.value;
      ExponentParts(s, pos, v);
      HereText(s, pos, [v.mark]);
      HereText(s, pos + 1 + |v.sign|, v.digits);
      SignIs(s, pos + 1, v.sign, v.digits);
      DigitRunIs(s, pos + 1 + |v.sign|, v.digits);
    }
  }

  lemma ScanFractionText(s: string, pos: nat, x: Lexeme, f: Option<string>, e: Option<Exponent>)
    requires pos <= |s| && (e.Some? ==> e.value.Valid()) && (f.Some? ==> |f.value| > 0 && AllDigits(f.value))
    requires Here(s, pos, FractionText(f) + ExponentText(e)) && NumberEnds(s, pos + |FractionText(f) + ExponentText(e)|)
    requires x.exponent == None && x.fraction == None
    ensures ScanFraction(s, pos, x) ==
        Scanned(x.(fraction := f, exponent := e), pos + |FractionText(f) + ExponentText(e)|)
  {
    hide ScanExponent, DigitRun, SignAt;
    HereSplit(s, pos, FractionText(f), ExponentText(e));
    var mid := pos + |FractionText(f)|;
    ExponentStart(s, mid, e);
    if f.Some? {
      HereSplit(s, pos, ".", f.value);
      assert s[pos] == '.' && s[pos + 1] == f.value[0];
      DigitRunIs(s, pos + 1, f.value);
    }
    ScanExponentText(s, mid, x.(fraction := f), e);
  }

  lemma ExponentStart(s: string, pos: nat, e: Option<Exponent>)
    requires (e.Some? ==> e.value.Valid()) && Here(s, pos, ExponentText(e)) && NumberEnds(s, pos + |ExponentText(e)|)
    ensures !DigitAt(s, pos) && !CharAt(s, pos, '.')
  {
    if e.Some? {
      assert s[pos] == ExponentText(e)[0] == e.value.mark;
    }
  }

  lemma FractionStart(s: string, pos: nat, f: Option<string>, e: Option<Exponent>)
    requires (e.Some? ==> e.value.Valid()) && (f.Some? ==> |f.value| > 0 && AllDigits(f.value))
    requires Here(s, pos, FractionText(f) + ExponentText(e)) && NumberEnds(s, pos + |FractionText(f) + ExponentText(e)|)
    ensures !DigitAt(s, pos)
  {
    HereSplit(s, pos, FractionText(f), ExponentText(e));
    if f.Some? {
      assert s[pos] == FractionText(f)[0];
    } else {
      ExponentStart(s, pos, e);
    }
  }

  lemma WholeRun(s: string, pos: nat, whole: string)
    requires Here(s, pos, whole) && |whole| > 0 && AllDigits(whole) && (whole[0] == '0' ==> |whole| == 1)
    requires !DigitAt(s, pos + |whole|)
    ensures DigitAt(s, pos) && s[pos..pos + |whole|] == whole
    ensures (if s[pos] == '0' then pos + 1 else DigitRun(s, pos)) == pos + |whole|
  {
    assert s[pos] == whole[0];
    DigitRunIs(s, pos, whole);
  }

  lemma LexemeParts(s: string, pos: nat, x: Lexeme)
    requires Here(s, pos, x.Text())
    ensures var start := pos + |Minus(x.negative)|;
      && Here(s, pos, Minus(x.negative)) && Here(s, start, x.whole)
      && Here(s, start + |x.whole|, FractionText(x.fraction) + ExponentText(x.exponent))
  {
    hide Here, FractionText, ExponentText, Minus;
    var minus, tail := Minus(x.negative), FractionText(x.fraction) + ExponentText(x.exponent);
    HereSplit(s, pos, minus, x.whole + tail);
    HereSplit(s, pos + |minus|, x.whole, tail);
  }

  lemma MinusHere(s: string, pos: nat, negative: bool, whole: string)
    requires Here(s, pos, Minus(negative)) && Here(s, pos + |Minus(negative)|, whole)
    requires |whole| > 0 && AllDigits(whole)
    ensures CharAt(s, pos, '-') == negative
  {
    HereText(s, pos, Minus(negative));
    HereText(s, pos + |Minus(negative)|, whole);
  }

  /** A lexeme in the text is scanned back whole, wherever a number may end. */
  lemma ScanComplete(s: string, pos: nat, x: Lexeme)
    requires pos <= |s| && x.Valid() && Here(s, pos, x.Text()) && NumberEnds(s, pos + |x.Text()|)
    ensures ScanLexeme(s, pos) == Scanned(x, pos + |x.Text()|)
  {
    hide ScanFraction, DigitRun, Here, FractionText, ExponentText, DigitAt, CharAt, NumberEnds;
    var mid := pos + |Minus(x.negative)| + |x.whole|;
    LexemeParts(s, pos, x);
    FractionStart(s, mid, x.fraction, x.exponent);
    WholeRun(s, pos + |Minus(x.negative)|, x.whole);
    MinusHere(s, pos, x.negative, x.whole);
    HereText(s, pos + |Minus(x.negative)|, x.whole);
    ScanFractionText(s, mid, Lexeme(x.negative, x.whole, None, None), x.fraction, x.exponent);
  }

  lemma ScanExponentSound(s: string, pos: nat, x: Lexeme)
    requires pos <= |s| && x.Valid() && x.exponent == None && ScanExponent(s, pos, x).Scanned?
    ensures var r := ScanExponent(s, pos, x);
      r.lexeme.Valid() && r.lexeme == x.(exponent := r.lexeme.exponent) && Here(s, pos, ExponentText(r.lexeme.exponent))
      && r.end == pos + |ExponentText(r.lexeme.exponent)|
  {
    HereNothing(s, pos);
    hide DigitRun, SignAt, Here, Exponent.Text;
    var r := ScanExponent(s, pos, x);
    if r.lexeme.exponent.Some? { ExponentHere(s, pos, r.lexeme.exponent.value, r.end); }
  }

  lemma ExponentHere(s: string, pos: nat, e: Exponent, end: nat)
    requires pos < |s| && e.mark == s[pos] && Here(s, pos + 1, e.sign)
    requires pos + 1 + |e.sign| <= end <= |s| && e.digits == s[pos + 1 + |e.sign|..end]
    ensures Here(s, pos, e.Text()) && end == pos + |e.Text()|
  {
    hide Here;
    HereSlice(s, pos, pos + 1, [e.mark]);
    HereSlice(s, pos + 1 + |e.sign|, end, e.digits);
    HereSplit(s, pos + 1, e.sign, e.digits);
    HereSplit(s, pos, [e.mark], e.sign + e.digits);
  }

  lemma HereNothing(s: string, pos: nat)
    requires pos <= |s|
    ensures Here(s, pos, "")
  {
  }

  lemma HereSlice(s: string, pos: nat, end: nat, text: string)
    requires pos <= end <= |s| && s[pos..end] == text
    ensures Here(s, pos, text)
  {
  }

  lemma ScanFractionSound(s: string, pos: nat, x: Lexeme)
    requires pos <= |s| && x.Valid() && x.exponent == None && x.fraction == None && ScanFraction(s, pos, x).Scanned?
    ensures var r := ScanFraction(s, pos, x);
      var tail := FractionText(r.lexeme.fraction) + ExponentText(r.lexeme.exponent);
      r.lexeme.Valid() && r.lexeme == x.(fraction := r.lexeme.fraction, exponent := r.lexeme.exponent)
      && Here(s, pos, tail) && r.end == pos + |tail|
  {
    assert FractionText(None) == "";
    hide ScanExponent, DigitRun, ExponentText, FractionText, Here;
    if CharAt(s, pos, '.') {
      var end := DigitRun(s, pos + 1);
      FractionHere(s, pos, end);
      FractionThen(s, pos, end, x.(fraction := Some(s[pos + 1..end])));
    } else {
      HereNothing(s, pos);
      FractionThen(s, pos, pos, x);
    }
  }

  lemma FractionHere(s: string, pos: nat, end: nat)
    requires CharAt(s, pos, '.') && pos + 1 <= end <= |s|
    ensures Here(s, pos, FractionText(Some(s[pos + 1..end])))
    ensures |FractionText(Some(s[pos + 1..end]))| == end - pos
  {
    assert s[pos..end] == "." + s[pos + 1..end];
  }

  /** The exponent that follows what is read of a number so far. */
  lemma FractionThen(s: string, pos: nat, end: nat, x: Lexeme)
    requires pos <= end <= |s| && x.Valid() && x.exponent == None && ScanExponent(s, end, x).Scanned?
    requires Here(s, pos, FractionText(x.fraction)) && end == pos + |FractionText(x.fraction)|
    ensures var r := ScanExponent(s, end, x);
      var tail := FractionText(r.lexeme.fraction) + ExponentText(r.lexeme.exponent);
      r.lexeme.Valid() && r.lexeme == x.(exponent := r.lexeme.exponent)
      && Here(s, pos, tail) && r.end == pos + |tail|
  {
    hide ScanExponent, ExponentText, FractionText, Here;
    ScanExponentSound(s, end, x);
    HereSplit(s, pos, FractionText(x.fraction), ExponentText(ScanExponent(s, end, x).lexeme.exponent));
  }

  /** What is scanned is a lexeme of the grammar, spelled exactly as in the text. */
  lemma ScanSound(s: string, pos: nat)
    requires pos <= |s| && ScanLexeme(s, pos).Scanned?
    ensures var r := ScanLexeme(s, pos);
      r.lexeme.Valid() && pos < r.end <= |s| && s[pos..r.end] == r.lexeme.Text()
  {
    hide ScanFraction, DigitRun, FractionText, ExponentText, Here;
    var negative := CharAt(s, pos, '-');
    var minus := Minus(negative);
    var start := pos + |minus|;
    var whole := if s[start] == '0' then start + 1 else DigitRun(s, start);
    assert whole > start by { assert DigitAt(s, start); }
    var x := Lexeme(negative, s[start..whole], None, None);
    ScanFractionSound(s, whole, x);
    var r := ScanFraction(s, whole, x);
    var tail := FractionText(r.lexeme.fraction) + ExponentText(r.lexeme.exponent);
    HereSlice(s, pos, start, minus);
    HereSlice(s, start, whole, x.whole);
    HereJoin(s, pos, minus, x.whole, tail);
    HereText(s, pos, r.lexeme.Text());
  }

  /** A lexeme is determined by its text. */
  lemma LexemeDetermined(x: Lexeme, y: Lexeme)
    requires x.Valid() && y.Valid() && x.Text() == y.Text()
    ensures x == y
  {
    hide ScanLexeme, Lexeme.Valid, Lexeme.Text, Here, NumberEnds;
    WholeText(x.Text());
    ScanComplete(x.Text(), 0, x);
    ScanComplete(x.Text(), 0, y);
  }

  lemma WholeText(s: string)
    ensures Here(s, 0, s) && NumberEnds(s, |s|)
  {
    assert s[0..|s|] == s;
  }

  lemma ZeroFactor(x: int, u: nat)
    requires u > 0 && x * u == 0
    ensures x == 0
  {
  }

  lemma Cancel(a: nat, u: nat, b: nat, w: nat)
    requires u > 0 && a * u == b * (w * u)
    ensures a == b * w
  {
    assert b * (w * u) == (b * w) * u;
    ZeroFactor(a - b * w, u);
  }

  lemma {:induction false} Positive(n: nat)
    ensures Pow10(n) > 0
  {
    if n > 0 { Positive(n - 1); }
  }

  /** Scaling both amounts down to a common lower power changes nothing. */
  lemma Rescale(a: nat, p: nat, b: nat, q: nat)
    requires a * Pow10(p) == b * Pow10(q)
    ensures SameAmount(Scaled(a, p), Scaled(b, q))
  {
    assert Pow10(0) == 1;
    hide Pow10;
    if p <= q {
      Pow10Add(q - p, p);
      Positive(p);
      Cancel(a, Pow10(p), b, Pow10(q - p));
    } else {
      Pow10Add(p - q, q);
      Positive(q);
      Cancel(b, Pow10(q), a, Pow10(p - q));
    }
  }

  /** A scaled decimal, or the integer it is when it is written out. */
  function Spread(c: nat, p: int, plain: bool): Amount
    requires plain ==> p >= 0
  {
    if plain then Scaled(c * Pow10(p), 0) else Scaled(c, p)
  }

  lemma SpreadSame(c: nat, p: int, plain: bool, d: nat, q: int, flat: bool)
    requires (plain ==> p >= 0) && (flat ==> q >= 0) && Spread(c, p, plain) == Spread(d, q, flat)
    ensures SameAmount(Scaled(c, p), Scaled(d, q))
  {
    assert Pow10(0) == 1;
    hide Pow10, SameAmount;
    if plain && flat {
      Rescale(c, p, d, q);
    } else if plain {
      Rescale(c, p, d, 0);
    } else if flat {
      Rescale(c, 0, d, q);
    } else {
      AmountSelf(Scaled(c, p));
    }
  }

  lemma AmountSelf(a: Amount)
    ensures SameAmount(a, a)
  {
  }

  lemma SameLayoutAmount(a: string, n: int, b: string, m: int)
    requires ShortestDigits(a) && ShortestDigits(b)
    requires LaidOut(false, a, n).Valid() && LaidOut(false, b, m).Valid()
    requires LaidOut(false, a, n).Amount() == LaidOut(false, b, m).Amount()
    ensures SameAmount(Scaled(NatOf(a), n - |a|), Scaled(NatOf(b), m - |b|))
  {
    hide LaidOut, Pow10, NatOf, SameAmount, Lexeme.Valid, Lexeme.Amount;
    LaidOutAmount(false, a, n);
    LaidOutAmount(false, b, m);
    SpreadSame(NatOf(a), n - |a|, |a| <= n <= 21, NatOf(b), m - |b|, |b| <= m <= 21);
  }

  /** The layout of digits without trailing zeros determines them and their power. */
  lemma LayoutInjective(p: bool, a: string, n: int, q: bool, b: string, m: int)
    requires ShortestDigits(a) && ShortestDigits(b) && a[|a| - 1] != '0' && b[|b| - 1] != '0'
    requires LaidOut(p, a, n).Text() == LaidOut(q, b, m).Text()
    ensures p == q && a == b && n == m
  {
    hide NatOf, SameAmount;
    LaidOutAmount(p, a, n);
    LaidOutAmount(q, b, m);
    LexemeDetermined(LaidOut(p, a, n), LaidOut(q, b, m));
    SignOnly(p, a, n);
    SignOnly(q, b, m);
    if n - |a| <= m - |b| {
      SameLayoutAmount(a, n, b, m);
      AmountDetermines(a, n, b, m);
    } else {
      SameLayoutAmount(b, m, a, n);
      AmountDetermines(b, m, a, n);
    }
  }

  lemma SignOnly(p: bool, a: string, n: int)
    requires |a| > 0
    ensures LaidOut(false, a, n) == LaidOut(p, a, n).(negative := false) && LaidOut(p, a, n).negative == p
  {
  }

  /** Digits without a leading zero are the decimal digits of the number they spell. */
  lemma DecimalIs(digits: string)
    requires digits != [] && AllDigits(digits) && (digits[0] != '0' || digits == "0")
    ensures Decimal(NatOf(digits)) == digits
  {
    hide Pow10, NatOf, Decimal;
    var n := NatOf(digits);
    var other := Decimal(n);
    if digits == "0" {
      ZeroIs();
    } else {
      NatPositive(digits);
      NatOfBounds(digits);
      NatOfBounds(other);
      Positive(|digits| - 1);
      if |digits| < |other| { PowersOrder(|digits|, |other| - 1); }
      if |other| < |digits| { PowersOrder(|other|, |digits| - 1); }
      NatOfInjective(digits, other);
    }
  }

  lemma ZeroIs()
    ensures NatOf("0") == 0
  {
  }

  lemma NatPositive(digits: string)
    requires digits != [] && AllDigits(digits) && digits[0] != '0'
    ensures NatOf(digits) > 0
  {
    NatOfBounds(digits);
    Positive(|digits| - 1);
  }

  // ----- the layout is determined by its shape

  /** The last character is no zero. */
  ghost predicate Trimmed(s: string) { s != "" && s[|s| - 1] != '0' }

  /** A fraction without trailing zeros; without an exponent, at most 21 digits before the
      point and at most five zeros after a zero before it; with one, a single digit before
      the point, a small e, a sign, and an exponent without leading zeros of at least 21 or
      at most -7. */
  ghost predicate Shaped(x: Lexeme) {
    && x.Valid() && (x.fraction.Some? ==> Trimmed(x.fraction.value))
    && match x.exponent
       case None => |x.whole| <= 21 && (x.whole == "0" && x.fraction.Some? ==> !(Zeros(6) <= x.fraction.value))
       case Some(e) =>
         && |x.whole| == 1 && x.whole != "0" && e.mark == 'e' && e.sign != "" && e.digits[0] != '0'
         && (e.Value() >= 21 || e.Value() <= -7)
  }

  lemma LaidOutShaped(negative: bool, digits: string, n: int)
    requires ShortestDigits(digits) && Trimmed(digits)
    ensures Shaped(LaidOut(negative, digits, n))
  {
    LaidOutAmount(negative, digits, n);
    var x := LaidOut(negative, digits, n);
    hide NatOf, Decimal, Lexeme.Valid;
    if |digits| <= n <= 21 {
    } else if 0 < n <= 21 {
      assert x.fraction.value[|x.fraction.value| - 1] == digits[|digits| - 1];
    } else if -6 < n <= 0 {
      assert x.fraction.value[-n] == digits[0];
    } else {
      assert Decimal(if n - 1 >= 0 then n - 1 else 1 - n)[0] != '0';
    }
  }

  /** Trailing zeros told apart. */
  lemma {:induction false} Untrimmed(s: string) returns (digits: string)
    requires AllDigits(s) && s != "" && s[0] != '0'
    ensures ShortestDigits(digits) && Trimmed(digits) && |digits| <= |s| && s == digits + Zeros(|s| - |digits|)
  {
    if s[|s| - 1] != '0' {
      digits := s;
    } else {
      digits := Untrimmed(s[..|s| - 1]);
      assert Zeros(|s| - |digits|) == Zeros(|s| - 1 - |digits|) + "0";
      assert s == s[..|s| - 1] + "0";
    }
  }

  /** Leading zeros told apart. */
  lemma {:induction false} Unpadded(s: string) returns (zeros: nat, digits: string)
    requires AllDigits(s) && Trimmed(s)
    ensures ShortestDigits(digits) && Trimmed(digits) && s == Zeros(zeros) + digits
  {
    if s[0] != '0' {
      zeros, digits := 0, s;
    } else {
      zeros, digits := Unpadded(s[1..]);
      ZerosFront(zeros);
      zeros := zeros + 1;
      assert s == "0" + s[1..];
    }
  }

  lemma {:induction false} ZerosFront(n: nat)
    ensures Zeros(n + 1) == "0" + Zeros(n)
  {
    if n > 0 { ZerosFront(n - 1); }
  }

  lemma ZerosPrefix(n: nat, m: nat, rest: string)
    ensures n <= m ==> Zeros(n) <= Zeros(m) + rest
  {
    var all := Zeros(m) + rest;
    assert n <= m ==> forall i :: 0 <= i < n ==> all[i] == Zeros(n)[i];
  }

  /** A shaped lexeme other than a zero is a layout. */
  lemma ShapedIsLaidOut(x: Lexeme) returns (digits: string, n: int)
    requires Shaped(x) && NatOf(x.whole + x.Fraction()) > 0
    ensures ShortestDigits(digits) && Trimmed(digits) && x == LaidOut(x.negative, digits, n)
  {
    hide LaidOut, NatOf;
    if x.exponent.Some? {
      digits, n := ScientificIs(x);
    } else if x.fraction.None? {
      WholeStarts(x);
      digits, n := PlainIs(x);
    } else if x.whole != "0" {
      digits, n := PointIs(x);
    } else {
      digits, n := SmallIs(x);
    }
  }

  lemma ScientificIs(x: Lexeme) returns (digits: string, n: int)
    requires Shaped(x) && x.exponent.Some?
    ensures ShortestDigits(digits) && Trimmed(digits) && x == LaidOut(x.negative, digits, n)
  {
    hide NatOf, Decimal;
    var e := x.exponent.value;
    digits, n := x.whole + x.Fraction(), e.Value() + 1;
    assert x.whole == digits[..1] && x.Fraction() == digits[1..];
    DecimalIs(e.digits);
  }

  lemma PlainIs(x: Lexeme) returns (digits: string, n: int)
    requires Shaped(x) && x.exponent.None? && x.fraction.None? && x.whole[0] != '0'
    ensures ShortestDigits(digits) && Trimmed(digits) && x == LaidOut(x.negative, digits, n)
  {
    digits := Untrimmed(x.whole);
    n := |x.whole|;
  }

  lemma PointIs(x: Lexeme) returns (digits: string, n: int)
    requires Shaped(x) && x.exponent.None? && x.fraction.Some? && x.whole != "0"
    ensures ShortestDigits(digits) && Trimmed(digits) && x == LaidOut(x.negative, digits, n)
  {
    digits, n := x.whole + x.fraction.value, |x.whole|;
    assert digits[..n] == x.whole && digits[n..] == x.fraction.value;
  }

  lemma SmallIs(x: Lexeme) returns (digits: string, n: int)
    requires Shaped(x) && x.exponent.None? && x.fraction.Some? && x.whole == "0"
    ensures ShortestDigits(digits) && Trimmed(digits) && x == LaidOut(x.negative, digits, n)
  {
    var zeros: int;
    zeros, digits := Unpadded(x.fraction.value);
    n := -zeros;
    ZerosPrefix(6, zeros, digits);
  }

  lemma WholeStarts(x: Lexeme)
    requires x.Valid() && x.fraction.None? && NatOf(x.whole + x.Fraction()) > 0
    ensures x.whole[0] != '0'
  {
    assert x.whole + x.Fraction() == x.whole;
    assert x.whole[0] == '0' ==> x.whole == "0";
    ZeroIs();
  }

  /** Of one sign and amount other than zero there is one shaped lexeme: the layout. */
  lemma ShapedUnique(x: Lexeme, negative: bool, digits: string, n: int)
    requires ShortestDigits(digits) && Trimmed(digits)
    ensures Shaped(x) && x.negative == negative && SameAmount(x.Amount(), Scaled(NatOf(digits), n - |digits|)) <==>
      x == LaidOut(negative, digits, n)
  {
    LaidOutShaped(negative, digits, n);
    LayoutDenotes(negative, digits, n);
    if Shaped(x) && x.negative == negative && SameAmount(x.Amount(), Scaled(NatOf(digits), n - |digits|)) {
      NatPositive(digits);
      SamePositive(x.Amount(), Scaled(NatOf(digits), n - |digits|));
      var a, m := ShapedIsLaidOut(x);
      LayoutDenotes(negative, a, m);
      LaidOutSame(negative, a, m, digits, n);
    }
  }

  lemma SamePositive(a: Amount, b: Amount)
    requires SameAmount(a, b) && b.coefficient > 0
    ensures a.coefficient > 0
  {
    var power := if a.power <= b.power then a.power else b.power;
    Positive(b.power - power);
    if a.coefficient == 0 { ZeroFactor(b.coefficient, Pow10(b.power - power)); }
  }

  lemma LaidOutSame(negative: bool, a: string, m: int, digits: string, n: int)
    requires ShortestDigits(a) && Trimmed(a) && ShortestDigits(digits) && Trimmed(digits)
    requires SameAmount(LaidOut(negative, a, m).Amount(), Scaled(NatOf(digits), n - |digits|))
    ensures a == digits && m == n
  {
    LaidOutAmount(negative, a, m);
    var given := Scaled(NatOf(digits), n - |digits|);
    if |a| <= m <= 21 { SpreadLike(NatOf(a), m - |a|, given); }
    assert SameAmount(Scaled(NatOf(a), m - |a|), given);
    if m - |a| <= n - |digits| {
      AmountDetermines(a, m, digits, n);
    } else {
      AmountSwap(Scaled(NatOf(a), m - |a|), given);
      AmountDetermines(digits, n, a, m);
    }
  }

  lemma AmountSwap(a: Amount, b: Amount)
    requires SameAmount(a, b)
    ensures SameAmount(b, a)
  {
  }

  lemma SpreadLike(c: nat, p: nat, b: Amount)
    requires SameAmount(Scaled(c * Pow10(p), 0), b)
    ensures SameAmount(Scaled(c, p), b)
  {
    assert Pow10(0) == 1;
    hide Pow10;
    if b.power >= 0 {
      Rescale(c, p, b.coefficient, b.power);
    } else {
      Pow10Add(p, -b.power);
      Reassociate(c, Pow10(p), Pow10(-b.power));
    }
  }

  lemma Reassociate(a: nat, b: nat, c: nat)
    ensures a * b * c == a * (b * c)
  {
  }

  // ----- the binary64 domain

  function Pow2(n: nat): nat { if n == 0 then 1 else 2 * Pow2(n - 1) }

  /** Where rounding to binary64 first overflows: halfway past the largest finite value. */
  function Overflow(): int { Pow2(1024) - Pow2(970) }

  /** The lexeme rounds to a finite binary64 value. */
  predicate Finite(x: Lexeme)
    requires x.Valid()
  {
    var a := x.Amount();
    if a.power >= 0 then a.coefficient * Pow10(a.power) < Overflow() else a.coefficient < Overflow() * Pow10(-a.power)
  }

  /** A binary64 value by what its rendering reads: its class, its sign, and the
      shortest digits and decimal exponent that round-trip. */
  datatype Binary64 =
    | NaN
    | Infinite(negative: bool)
    | Zero(negative: bool)
    | Nonzero(negative: bool, digits: string, exponent: int)
  {
    ghost predicate Valid() {
      Nonzero? ==> ShortestDigits(digits) && digits[|digits| - 1] != '0'
    }
    predicate IsFinite() { Zero? || Nonzero? }
  }

  /** A number that is not zero is rendered from at least one digit. */
  type Double = v: Binary64 | v.Nonzero? ==> |v.digits| > 0 witness NaN

  function EcmaNumberToString(value: Double): string
    decreases match value case Infinite(n) => n case Nonzero(n, _, _) => n case _ => false
  {
    match value
    case NaN => "NaN"
    case Zero(_) => "0"
    case Infinite(negative) => if negative then "-" + EcmaNumberToString(Infinite(false)) else "Infinity"
    case Nonzero(negative, digits, exponent) =>
      if negative then "-" + EcmaNumberToString(Nonzero(false, digits, exponent))
      else LaidOut(false, digits, exponent + 1).Text()
  }

  /** The lexeme a finite value is rendered as. */
  function Rendered(value: Double): Lexeme
    requires value.IsFinite()
  {
    if value.Zero? then Lexeme(false, "0", None, None) else LaidOut(value.negative, value.digits, value.exponent + 1)
  }

  lemma MinusText(x: Lexeme)
    ensures x.(negative := true).Text() == "-" + x.(negative := false).Text()
  {
  }

  /** A finite value is rendered as a number lexeme of its exact shortest digits. */
  lemma RenderedText(value: Double)
    requires value.Valid() && value.IsFinite()
    ensures Rendered(value).Valid() && EcmaNumberToString(value) == Rendered(value).Text()
    ensures value.Nonzero? ==>
      (Rendered(value).negative == value.negative
      && SameAmount(Rendered(value).Amount(), Scaled(NatOf(value.digits), value.exponent + 1 - |value.digits|)))
  {
    hide LaidOut, SameAmount, Lexeme.Text, Lexeme.Valid;
    if value.Nonzero? {
      LayoutDenotes(value.negative, value.digits, value.exponent + 1);
      SignOnly(value.negative, value.digits, value.exponent + 1);
      MinusText(LaidOut(value.negative, value.digits, value.exponent + 1));
    } else {
      ZeroText();
    }
  }

  lemma ZeroText()
    ensures Lexeme(false, "0", None, None).Valid() && Lexeme(false, "0", None, None).Text() == "0"
  {
  }

  lemma RenderingNonEmpty(value: Double)
    ensures |EcmaNumberToString(value)| > 0
  {
  }

  /** Finite numbers have one rendering exactly when they are one number, or both zeros. */
  lemma RenderingInjective(a: Double, b: Double)
    requires a.Valid() && b.Valid() && a.IsFinite() && b.IsFinite()
    ensures EcmaNumberToString(a) == EcmaNumberToString(b) <==> a == b || (a.Zero? && b.Zero?)
  {
    hide EcmaNumberToString, LaidOut, Lexeme.Text, Lexeme.Valid, ShortestDigits;
    RenderedText(a);
    RenderedText(b);
    if EcmaNumberToString(a) == EcmaNumberToString(b) {
      LexemeDetermined(Rendered(a), Rendered(b));
      if a.Nonzero? && b.Nonzero? {
        LayoutInjective(a.negative, a.digits, a.exponent + 1, b.negative, b.digits, b.exponent + 1);
      } else if a.Nonzero? {
        NonzeroLayout(a.negative, a.digits, a.exponent + 1);
      } else if b.Nonzero? {
        NonzeroLayout(b.negative, b.digits, b.exponent + 1);
      }
    }
  }

  lemma NonzeroLayout(negative: bool, digits: string, n: int)
    requires ShortestDigits(digits)
    ensures LaidOut(negative, digits, n) != Lexeme(false, "0", None, None)
  {
    assert |digits| <= n <= 21 ==> LaidOut(negative, digits, n).whole[0] == digits[0];
  }
}
