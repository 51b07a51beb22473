/** The language the JSON reader accepts, as functions from the remaining text to a result and
    the text left over (src/3rdparty/rapidjson/reader.h). The reader's own cursor code is in
    JsonReader and is proved equal to these functions. */
module JsonGrammar {
  import opened Sequences
  import opened JsonValue
  import opened JsonDouble

  // Characters, by their byte value.
  const TAB: byte := 9
  const LF: byte := 10
  const CR: byte := 13
  const SPACE: byte := 32
  const QUOTE: byte := 34
  const PLUS: byte := 43
  const COMMA: byte := 44
  const MINUS: byte := 45
  const DOT: byte := 46
  const SLASH: byte := 47
  const ZERO: byte := 48
  const COLON: byte := 58
  const LBRACKET: byte := 91
  const BACKSLASH: byte := 92
  const RBRACKET: byte := 93
  const LBRACE: byte := 123
  const RBRACE: byte := 125
  const LETTER_u: byte := 117

  const NULL_TEXT: seq<byte> := [110, 117, 108, 108]
  const TRUE_TEXT: seq<byte> := [116, 114, 117, 101]
  const FALSE_TEXT: seq<byte> := [102, 97, 108, 115, 101]

  datatype Error =
    | OnlyWhitespace | RootNotContainer | TextAfterRoot
    | NameNotString | MissingColon | BadObjectSeparator | BadArraySeparator
    | InvalidLiteral | BadHexDigit | MissingLowSurrogate | InvalidLowSurrogate
    | UnknownEscape | UnterminatedString | UnescapedControl
    | ExpectValue | NumberTooBig | NoFractionDigit | NoExponentDigit

  /** What a parsing function yields: a value with the text left over, or the first error. */
  datatype Parsed<T> = Ok(value: T, rest: seq<byte>) | Fail(error: Error)

  /** The current character; the text is followed by a NUL terminator. */
  function Head(s: seq<byte>): byte { if s == [] then 0 else s[0] }

  predicate IsSpace(c: byte) { c == SPACE || c == LF || c == CR || c == TAB }

  function SkipWs(s: seq<byte>): (r: seq<byte>)
    ensures |r| <= |s|
  {
    if IsSpace(Head(s)) then SkipWs(s[1..]) else s
  }

  // ---- literals ----

  function ParseLiteral(s: seq<byte>, text: seq<byte>, v: Value): Parsed<Value> {
    if text <= s then Ok(v, s[|text|..]) else Fail(InvalidLiteral)
  }

  // ---- strings (section 2.5 of RFC 4627) ----

  predicate IsHex(c: byte) { 48 <= c <= 57 || 65 <= c <= 70 || 97 <= c <= 102 }

  function HexValue(c: byte): (r: nat)
    requires IsHex(c)
    ensures r < 16
  {
    if c <= 57 then c - 48 else if c <= 70 then c - 65 + 10 else c - 97 + 10
  }

  /** k hexadecimal digits on top of acc. */
  function ParseHex(s: seq<byte>, k: nat, acc: nat): (r: Parsed<nat>)
    ensures r.Ok? ==> |r.rest| == |s| - k
    decreases k
  {
    if k == 0 then Ok(acc, s)
    else if !IsHex(Head(s)) then Fail(BadHexDigit)
    else ParseHex(s[1..], k - 1, acc * 16 + HexValue(s[0]))
  }

  /** The character a one-letter escape stands for, 0 if there is no such escape. */
  function Unescape(e: byte): byte {
    if e == QUOTE || e == SLASH || e == BACKSLASH then e
    else if e == 98 then 8          // \b
    else if e == 102 then 12        // \f
    else if e == 110 then 10        // \n
    else if e == 114 then 13        // \r
    else if e == 116 then 9         // \t
    else 0
  }

  /** UTF-8 (section 3 of RFC 3629); shifts and masks are written as / and %. */
  function Utf8Encode(cp: nat): (r: seq<byte>)
    requires cp < 0x11_0000
    ensures 1 <= |r| <= 4
  {
    if cp <= 0x7F then [cp]
    else if cp <= 0x7FF then [0xC0 + cp / 64, 0x80 + cp % 64]
    else if cp <= 0xFFFF then [0xE0 + cp / 4096, 0x80 + cp / 64 % 64, 0x80 + cp % 64]
    else [0xF0 + cp / 262144, 0x80 + cp / 4096 % 64, 0x80 + cp / 64 % 64, 0x80 + cp % 64]
  }

  predicate IsHighSurrogate(u: nat) { 0xD800 <= u <= 0xDBFF }
  predicate IsLowSurrogate(u: nat) { 0xDC00 <= u <= 0xDFFF }

  /** Section 2.2 of RFC 2781. */
  function CombineSurrogates(hi: nat, lo: nat): (cp: nat)
    requires IsHighSurrogate(hi) && IsLowSurrogate(lo)
    ensures 0x1_0000 <= cp < 0x11_0000
  {
    (hi - 0xD800) * 1024 + (lo - 0xDC00) + 0x1_0000
  }

  /** What follows \u: four hexadecimal digits, and for a high surrogate a second escape. */
  function ParseCodePoint(s: seq<byte>): (r: Parsed<nat>)
    ensures r.Ok? ==> r.value < 0x11_0000 && |r.rest| < |s|
  {
    var first := ParseHex(s, 4, 0);
    HexBound(s, 4, 0);
    if first.Fail? || !IsHighSurrogate(first.value) then first
    else if !([BACKSLASH, LETTER_u] <= first.rest) then Fail(MissingLowSurrogate)
    else
      var second := ParseHex(first.rest[2..], 4, 0);
      if second.Fail? then second
      else if !IsLowSurrogate(second.value) then Fail(InvalidLowSurrogate)
      else Ok(CombineSurrogates(first.value, second.value), second.rest)
  }

  function Pow16(k: nat): nat { if k == 0 then 1 else 16 * Pow16(k - 1) }

  lemma {:induction false} HexBound(s: seq<byte>, k: nat, acc: nat)
    ensures var r := ParseHex(s, k, acc); r.Ok? ==> r.value < (acc + 1) * Pow16(k)
    ensures Pow16(4) == 0x1_0000
    decreases k
  {
    assert Pow16(4) == 16 * (16 * (16 * (16 * Pow16(0))));
    if k > 0 && IsHex(Head(s)) {
      var acc' := acc * 16 + HexValue(s[0]);
      HexBound(s[1..], k - 1, acc');
      HexDigitBound(acc, HexValue(s[0]), Pow16(k - 1));
    }
  }

  lemma HexDigitBound(acc: nat, digit: nat, p: nat)
    requires digit < 16
    ensures (acc * 16 + digit + 1) * p <= (acc + 1) * (16 * p)
  {
    assert (acc + 1) * (16 * p) == (acc * 16 + digit + 1) * p + (15 - digit) * p;
  }

  function Prepend<T>(xs: seq<T>, r: Parsed<seq<T>>): Parsed<seq<T>> {
    if r.Ok? then Ok(xs + r.value, r.rest) else r
  }

  /** What follows a backslash. */
  function ParseEscape(s: seq<byte>): (r: Parsed<seq<byte>>)
    ensures r.Ok? ==> |r.rest| < |s|
  {
    var e := Head(s);
    if Unescape(e) != 0 then Ok([Unescape(e)], s[1..])
    else if e == LETTER_u then
      var cp := ParseCodePoint(s[1..]);
      if cp.Fail? then Fail(cp.error) else Ok(Utf8Encode(cp.value), cp.rest)
    else Fail(UnknownEscape)
  }

  /** The characters of a string up to and including the closing quote. */
  function ParseChars(s: seq<byte>): (r: Parsed<seq<byte>>)
    ensures r.Ok? ==> |r.rest| < |s|
    decreases |s|
  {
    var c := Head(s);
    if c == BACKSLASH then
      var e := ParseEscape(s[1..]);
      if e.Fail? then e else Prepend(e.value, ParseChars(e.rest))
    else if c == QUOTE then Ok([], s[1..])
    else if c == 0 then Fail(UnterminatedString)
    else if c < 0x20 then Fail(UnescapedControl)
    else Prepend([c], ParseChars(s[1..]))
  }

  // ---- numbers (section 2.4 of RFC 4627) ----

  predicate IsDigit(c: byte) { 48 <= c <= 57 }

  /** The longest run of digits at the front. */
  function DigitRun(s: seq<byte>): (r: seq<byte>)
    ensures |r| <= |s| && r == s[..|r|]
    ensures DigitsOnly(r)
    ensures !IsDigit(Head(s[|r|..]))
  {
    if IsDigit(Head(s)) then
      var tail := DigitRun(s[1..]);
      assert s[1..][|tail|..] == s[|tail| + 1..];
      [s[0]] + tail
    else []
  }

  lemma {:induction false} DigitRunOf(ds: seq<byte>, rest: seq<byte>)
    requires DigitsOnly(ds) && !IsDigit(Head(rest))
    ensures DigitRun(ds + rest) == ds
  {
    if ds == [] {
      assert ds + rest == rest;
    } else {
      assert (ds + rest)[1..] == ds[1..] + rest;
      DigitRunOf(ds[1..], rest);
    }
  }

  predicate DigitsOnly(ds: seq<byte>) { forall c | c in ds :: IsDigit(c) }

  function DigitValue(c: byte): (r: nat)
    requires IsDigit(c)
    ensures r < 10
  {
    var v: int := c;
    v - 48
  }

  /** n with the digits of ds written after it. */
  function AppendDigits(n: nat, ds: seq<byte>): nat
    requires DigitsOnly(ds)
  {
    if ds == [] then n else AppendDigits(n, ds[..|ds| - 1]) * 10 + DigitValue(ds[|ds| - 1])
  }

  /** Only the first sixteen fraction digits reach the mantissa. */
  function FractionDigits(run: seq<byte>): (r: seq<byte>)
    requires DigitsOnly(run)
    ensures DigitsOnly(r)
  {
    if |run| <= 16 then run else run[..16]
  }

  /** d * 10 + digit in doubles: both operations round. */
  function DoubleStep(d: nat, c: byte): nat
    requires IsDigit(c)
  {
    RoundDouble(RoundDouble(d * 10) + DigitValue(c))
  }

  /** The double d after the digits ds. */
  function AccumulateDouble(d: nat, ds: seq<byte>): nat
    requires DigitsOnly(ds)
  {
    if ds == [] then d else DoubleStep(AccumulateDouble(d, ds[..|ds| - 1]), ds[|ds| - 1])
  }

  /** The power of ten that moves the fraction digits behind the point. */
  function Shift(run: seq<byte>): int
    requires DigitsOnly(run)
  {
    -|FractionDigits(run)|
  }

  /** The mantissa of the double d followed by a point and a run of fraction digits. */
  function Mantissa(d: nat, run: seq<byte>): nat
    requires DigitsOnly(run)
  {
    AccumulateDouble(d, FractionDigits(run))
  }

  /** The number a digit string denotes. */
  function Decimal(ds: seq<byte>): nat
    requires DigitsOnly(ds)
  {
    AppendDigits(0, ds)
  }

  /** The integer part: a single zero, or a run of digits not starting with zero. */
  function IntegerPart(s: seq<byte>): (r: seq<byte>)
    requires IsDigit(Head(s))
    ensures DigitsOnly(r) && 0 < |r| <= |s| && r == s[..|r|]
  {
    if s[0] == ZERO then [ZERO] else DigitRun(s)
  }

  /** Magnitudes that an integer event can carry. */
  predicate FitsInteger(negative: bool, n: nat) {
    if negative then n <= 0x8000_0000_0000_0000 else n < 0x1_0000_0000_0000_0000
  }

  function Pow10(k: nat): nat { if k == 0 then 1 else 10 * Pow10(k - 1) }

  /** The literal 1E307 as a double. */
  const DOUBLE_1E307: nat :=
    9999999999999999860310597602564577717002641838126363875249660735883565852672743849064846414228960666786379280392654615393353172850252103336275952370615397010730691664689375178569039851073146339641623266071126720011020169553304018596457812688561947201171488461172921822139066929851282122002676667750021070848

  /** The integer part as a double: converted from 64 bits, then digit by digit. */
  function IntegerDouble(negative: bool, ds: seq<byte>): nat
    requires DigitsOnly(ds)
  {
    if ds == [] || FitsInteger(negative, Decimal(ds)) then RoundDouble(Decimal(ds))
    else DoubleStep(IntegerDouble(negative, ds[..|ds| - 1]), ds[|ds| - 1])
  }

  /** An integer part too long for a double: the accumulator reached 1E307 and went on. */
  predicate OverflowsDouble(negative: bool, ds: seq<byte>)
    requires DigitsOnly(ds)
  {
    && ds != [] && !FitsInteger(negative, Decimal(ds))
    && (OverflowsDouble(negative, ds[..|ds| - 1])
        || IntegerDouble(negative, ds[..|ds| - 1]) >= DOUBLE_1E307)
  }

  predicate StartsExponent(s: seq<byte>) { Head(s) == 101 || Head(s) == 69 }

  /** The decimal exponent: the power written out, moved by the digits behind the point. */
  function Scaled(power: int, shift: int): int { power + shift }

  /** An optional exponent after mantissa * 10^shift. */
  function ParseExponent(negative: bool, mantissa: nat, shift: int, s: seq<byte>): (r: Parsed<Value>)
    ensures r.Ok? ==> |r.rest| <= |s|
  {
    if !StartsExponent(s) then Ok(Double(negative, mantissa, shift), s)
    else
      var exp := ParsePower(s[1..]);
      if exp.Fail? then Fail(exp.error) else Ok(Double(negative, mantissa, Scaled(exp.value, shift)), exp.rest)
  }

  /** The signed power after an exponent mark. */
  function ParsePower(s: seq<byte>): (r: Parsed<int>)
    ensures r.Ok? ==> |r.rest| <= |s|
  {
    var sign := Head(s);
    var p := ParseUnsignedPower(if sign == PLUS || sign == MINUS then s[1..] else s);
    if p.Fail? then Fail(p.error) else Ok(if sign == MINUS then 0 - p.value else p.value, p.rest)
  }

  function ParseUnsignedPower(s: seq<byte>): (r: Parsed<nat>)
    ensures r.Ok? ==> |r.rest| <= |s|
  {
    var run := DigitRun(s);
    if run == [] then Fail(NoExponentDigit)
    else if Decimal(run) > 308 then Fail(NumberTooBig)
    else Ok(Decimal(run), s[|run|..])
  }

  /** What follows a decimal point. */
  function ParseFraction(negative: bool, d: nat, s: seq<byte>): (r: Parsed<Value>)
    ensures r.Ok? ==> |r.rest| <= |s|
  {
    var run := DigitRun(s);
    if run == [] then Fail(NoFractionDigit)
    else
      ParseExponent(negative, Mantissa(d, run), Shift(run), s[|run|..])
  }

  /** Everything after the integer part n, which is d as a double: an optional fraction and an
      optional exponent. */
  function ParseNumberTail(negative: bool, n: nat, d: nat, s: seq<byte>): (r: Parsed<Value>)
    ensures r.Ok? ==> |r.rest| <= |s|
  {
    if Head(s) == DOT then ParseFraction(negative, d, s[1..])
    else if StartsExponent(s) then ParseExponent(negative, d, 0, s)
    else if FitsInteger(negative, n) then Ok(Integer(if negative then 0 - n else n), s)
    else Ok(Double(negative, d, 0), s)
  }

  function ParseNumber(s: seq<byte>): (r: Parsed<Value>)
    ensures r.Ok? ==> |r.rest| < |s|
  {
    var negative := Head(s) == MINUS;
    var t := if negative then s[1..] else s;
    if !IsDigit(Head(t)) then Fail(ExpectValue)
    else
      var ds := IntegerPart(t);
      if OverflowsDouble(negative, ds) then Fail(NumberTooBig)
      else ParseNumberTail(negative, Decimal(ds), IntegerDouble(negative, ds), t[|ds|..])
  }

  // ---- values ----

  function ParseValue(s: seq<byte>): (r: Parsed<Value>)
    ensures r.Ok? ==> |r.rest| < |s|
    decreases |s|, 1
  {
    var c := Head(s);
    if c == 110 then ParseLiteral(s, NULL_TEXT, Null)
    else if c == 116 then ParseLiteral(s, TRUE_TEXT, Bool(true))
    else if c == 102 then ParseLiteral(s, FALSE_TEXT, Bool(false))
    else if c == QUOTE then
      var r := ParseChars(s[1..]);
      if r.Fail? then Fail(r.error) else Ok(String(r.value), r.rest)
    else if c == LBRACE then ParseObject(s)
    else if c == LBRACKET then ParseArray(s)
    else ParseNumber(s)
  }

  function ParseArray(s: seq<byte>): (r: Parsed<Value>)
    requires Head(s) == LBRACKET
    ensures r.Ok? ==> |r.rest| < |s|
    decreases |s|, 0
  {
    var t := SkipWs(s[1..]);
    if Head(t) == RBRACKET then Ok(Array([]), t[1..])
    else
      var r := ParseElements(t);
      if r.Fail? then Fail(r.error) else Ok(Array(r.value), r.rest)
  }

  /** One or more elements and the closing bracket. */
  function ParseElements(s: seq<byte>): (r: Parsed<seq<Value>>)
    ensures r.Ok? ==> |r.rest| < |s|
    decreases |s|, 2
  {
    var v := ParseValue(s);
    if v.Fail? then Fail(v.error)
    else
      var t := SkipWs(v.rest);
      if Head(t) == COMMA then Prepend([v.value], ParseElements(SkipWs(t[1..])))
      else if Head(t) == RBRACKET then Ok([v.value], t[1..])
      else Fail(BadArraySeparator)
  }

  function ParseObject(s: seq<byte>): (r: Parsed<Value>)
    requires Head(s) == LBRACE
    ensures r.Ok? ==> |r.rest| < |s|
    decreases |s|, 0
  {
    var t := SkipWs(s[1..]);
    if Head(t) == RBRACE then Ok(Object([]), t[1..])
    else
      var r := ParseMembers(t);
      if r.Fail? then Fail(r.error) else Ok(Object(r.value), r.rest)
  }

  /** One name, colon and value. */
  function ParseMember(s: seq<byte>): (r: Parsed<Member>)
    ensures r.Ok? ==> |r.rest| < |s|
    decreases |s|, 2
  {
    if Head(s) != QUOTE then Fail(NameNotString)
    else
      var name := ParseChars(s[1..]);
      if name.Fail? then Fail(name.error)
      else
        var t := SkipWs(name.rest);
        if Head(t) != COLON then Fail(MissingColon)
        else
          var v := ParseValue(SkipWs(t[1..]));
          if v.Fail? then Fail(v.error) else Ok(Member(name.value, v.value), v.rest)
  }

  /** One or more members and the closing brace. */
  function ParseMembers(s: seq<byte>): (r: Parsed<seq<Member>>)
    ensures r.Ok? ==> |r.rest| < |s|
    decreases |s|, 3
  {
    var m := ParseMember(s);
    if m.Fail? then Fail(m.error)
    else
      var t := SkipWs(m.rest);
      if Head(t) == COMMA then Prepend([m.value], ParseMembers(SkipWs(t[1..])))
      else if Head(t) == RBRACE then Ok([m.value], t[1..])
      else Fail(BadObjectSeparator)
  }

  /** A whole text: one object or array, surrounded by white space. Reading stops at a NUL. */
  function Parse(s: seq<byte>): Parsed<Value> {
    var t := SkipWs(s);
    if Head(t) == 0 then Fail(OnlyWhitespace)
    else if Head(t) != LBRACE && Head(t) != LBRACKET then Fail(RootNotContainer)
    else
      var r := if Head(t) == LBRACE then ParseObject(t) else ParseArray(t);
      if r.Fail? then r
      else
        var u := SkipWs(r.rest);
        if Head(u) != 0 then Fail(TextAfterRoot) else Ok(r.value, u)
  }
}
