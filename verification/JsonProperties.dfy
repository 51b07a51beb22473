/** Further laws of the JSON reader and writer: printed text has no NUL, Unicode escapes decode
    to UTF-8, number texts are read exactly, and whatever was read can be printed and read again. */
module JsonProperties {
  import opened Sequences
  import opened JsonValue
  import opened JsonGrammar
  import opened JsonRender
  import opened JsonRoundTrip

  // ---- no NUL byte ----

  lemma {:induction false} DigitsNoNul(n: nat)
    ensures 0 !in Digits(n)
  {
    forall c | c in Digits(n) ensures c != 0 { assert IsDigit(c); }
  }

  lemma {:induction false} EscapeNoNul(s: seq<byte>)
    ensures 0 !in Escape(s)
  {
    if s != [] {
      EscapeNoNul(s[1..]);
      assert 0 !in EscapeChar(s[0]);
    }
  }

  lemma GapNoNul(l: Layout, depth: nat)
    requires ValidLayout(l)
    ensures 0 !in Gap(l, depth) && 0 !in AfterColon(l)
  {
    LayoutIsSpace(l, depth);
    forall c | c in Gap(l, depth) ensures c != 0 { assert IsSpace(c); }
  }

  /** Printed text never contains the terminator, whatever bytes the strings hold. */
  lemma {:induction false} RenderNoNul(v: Value, l: Layout, depth: nat)
    requires ValidLayout(l)
    ensures 0 !in Render(v, l, depth)
    decreases v
  {
    match v
    case Null =>
    case Bool(_) =>
    case Number(data, kinds) =>
      var n := NumberValue(data, kinds);
      DigitsNoNul(if n < 0 then -n else n);
    case Double(_, _, _) =>
    case String(s) => EscapeNoNul(s);
    case Array(es) => if es != [] { ElementsNoNul(es, l, depth + 1); GapNoNul(l, depth); }
    case Object(ms) => if ms != [] { MembersNoNul(ms, l, depth + 1); GapNoNul(l, depth); }
  }

  lemma {:induction false} ElementsNoNul(es: seq<Value>, l: Layout, depth: nat)
    requires es != [] && ValidLayout(l)
    ensures 0 !in RenderElements(es, l, depth)
    decreases es
  {
    RenderNoNul(es[0], l, depth);
    GapNoNul(l, depth);
    if |es| > 1 { ElementsNoNul(es[1..], l, depth); }
  }

  lemma {:induction false} MembersNoNul(ms: seq<Member>, l: Layout, depth: nat)
    requires ms != [] && ValidLayout(l)
    ensures 0 !in RenderMembers(ms, l, depth)
    decreases ms
  {
    EscapeNoNul(ms[0].name);
    RenderNoNul(ms[0].value, l, depth);
    GapNoNul(l, depth);
    assert 0 !in RenderMember(ms[0], l, depth);
    if |ms| > 1 { MembersNoNul(ms[1..], l, depth); }
  }

  // ---- Unicode escapes ----

  /** The code point a UTF-8 sequence stands for (section 3 of RFC 3629), by its first byte. */
  function Utf8Decode(b: seq<byte>): int
    requires b != []
  {
    if b[0] < 0x80 && |b| == 1 then b[0]
    else if 0xC0 <= b[0] < 0xE0 && |b| == 2 then (b[0] as int - 0xC0) * 64 + (b[1] as int - 0x80)
    else if 0xE0 <= b[0] < 0xF0 && |b| == 3 then
      (b[0] as int - 0xE0) * 4096 + (b[1] as int - 0x80) * 64 + (b[2] as int - 0x80)
    else if 0xF0 <= b[0] < 0xF8 && |b| == 4 then
      (b[0] as int - 0xF0) * 262144 + (b[1] as int - 0x80) * 4096
      + (b[2] as int - 0x80) * 64 + (b[3] as int - 0x80)
    else -1
  }

  lemma Split64(x: nat)
    ensures x == x / 64 * 64 + x % 64 && x / 4096 == x / 64 / 64 && x / 262144 == x / 64 / 64 / 64
  {
  }

  /** Encoding is undone by decoding, and every byte after the first is a continuation byte. */
  lemma Utf8RoundTrip(cp: nat)
    requires cp < 0x11_0000
    ensures Utf8Decode(Utf8Encode(cp)) == cp
    ensures forall i | 1 <= i < |Utf8Encode(cp)| :: 0x80 <= Utf8Encode(cp)[i] < 0xC0
  {
    Split64(cp);
    Split64(cp / 64);
    Split64(cp / 4096);
  }

  /** The code of a character below 256. */
  function Code(c: char): int { c as int }

  /** A hexadecimal digit by its position among the digits, in either case. */
  predicate Spells(c: byte, n: nat) {
    n < 16 && (c == Code("0123456789abcdef"[n]) || c == Code("0123456789ABCDEF"[n]))
  }

  lemma SpelledValue(c: byte, n: nat)
    requires n < 16
    ensures IsHex(c) && HexValue(c) == n <==> Spells(c, n)
  {
  }

  /** Four digits for a 16-bit unit, the cases mixed freely. */
  predicate SpellsUnit(h: seq<byte>, u: nat) {
    && u < 0x1_0000 && |h| == 4 && Spells(h[0], u / 4096) && Spells(h[1], u / 256 % 16)
    && Spells(h[2], u / 16 % 16) && Spells(h[3], u % 16)
  }

  lemma SpelledDigits(h: seq<byte>, u: nat)
    requires SpellsUnit(h, u)
    ensures IsHex(h[0]) && IsHex(h[1]) && IsHex(h[2]) && IsHex(h[3])
    ensures HexValue(h[0]) == u / 4096 && HexValue(h[1]) == u / 256 % 16
    ensures HexValue(h[2]) == u / 16 % 16 && HexValue(h[3]) == u % 16
  {
    SpelledValue(h[0], u / 4096);
    SpelledValue(h[1], u / 256 % 16);
    SpelledValue(h[2], u / 16 % 16);
    SpelledValue(h[3], u % 16);
  }

  /** Every spelling of a unit is read as that unit. */
  lemma {:induction false} ReadSpelled(h: seq<byte>, u: nat, tail: seq<byte>)
    requires SpellsUnit(h, u)
    ensures ParseHex(h + tail, 4, 0) == Ok(u, tail)
  {
    SpelledDigits(h, u);
    FourDigits(h, tail);
    Digits16(u);
  }

  lemma {:induction false} FourDigits(h: seq<byte>, tail: seq<byte>)
    requires |h| == 4 && IsHex(h[0]) && IsHex(h[1]) && IsHex(h[2]) && IsHex(h[3])
    ensures ParseHex(h + tail, 4, 0)
         == Ok(((HexValue(h[0]) * 16 + HexValue(h[1])) * 16 + HexValue(h[2])) * 16 + HexValue(h[3]), tail)
  {
    var s := h + tail;
    Drop4(h, tail);
    var a, b, c, d := HexValue(h[0]), HexValue(h[1]), HexValue(h[2]), HexValue(h[3]);
    assert ParseHex(s, 4, 0) == ParseHex(s[1..], 3, a);
    assert ParseHex(s[1..], 3, a) == ParseHex(s[2..], 2, a * 16 + b);
    assert ParseHex(s[2..], 2, a * 16 + b) == ParseHex(s[3..], 1, (a * 16 + b) * 16 + c);
    assert ParseHex(s[3..], 1, (a * 16 + b) * 16 + c) == ParseHex(tail, 0, ((a * 16 + b) * 16 + c) * 16 + d);
  }

  lemma Drop4(h: seq<byte>, tail: seq<byte>)
    requires |h| == 4
    ensures var s := h + tail;
            && s[1..][1..] == s[2..] && s[2..][1..] == s[3..] && s[3..][1..] == tail
            && s[0] == h[0] && s[1..][0] == h[1] && s[2..][0] == h[2] && s[3..][0] == h[3]
  {
  }

  lemma Digits16(u: nat)
    ensures ((u / 4096 * 16 + u / 256 % 16) * 16 + u / 16 % 16) * 16 + u % 16 == u
  {
    assert u / 256 == u / 16 / 16 && u / 4096 == u / 16 / 16 / 16;
  }

  /** The text after the backslash for a code point: one or two 16-bit units (section 2.1 of
      RFC 2781), each as "u" and four hexadecimal digits. */
  ghost predicate SpellsEscape(e: seq<byte>, cp: nat) {
    if cp < 0x1_0000 then exists h :: SpellsUnit(h, cp) && e == [LETTER_u] + h
    else SpellsPair(e, 0xD800 + (cp - 0x1_0000) / 1024, 0xDC00 + (cp - 0x1_0000) % 1024)
  }

  ghost predicate SpellsPair(e: seq<byte>, hi: nat, lo: nat) {
    exists h, l :: SpellsUnit(h, hi) && SpellsUnit(l, lo) && e == [LETTER_u] + h + [BACKSLASH, LETTER_u] + l
  }

  /** What a backslash and u escapes read as, in every spelling. A high surrogate on its own is the
      only 16-bit unit without a reading; a low surrogate on its own is let through. */
  lemma {:induction false} ReadUnicodeEscape(cp: nat, e: seq<byte>, tail: seq<byte>)
    requires cp < 0x11_0000 && !(0xD800 <= cp <= 0xDBFF) && SpellsEscape(e, cp)
    ensures ParseEscape(e + tail) == Ok(Utf8Encode(cp), tail)
  {
    if cp < 0x1_0000 {
      var h :| SpellsUnit(h, cp) && e == [LETTER_u] + h;
      ReadBasicEscape(cp, h, tail);
    } else {
      SurrogatesOf(cp);
      ReadEscapedPair(0xD800 + (cp - 0x1_0000) / 1024, 0xDC00 + (cp - 0x1_0000) % 1024, e, tail);
    }
  }

  lemma {:induction false} ReadEscapedPair(hi: nat, lo: nat, e: seq<byte>, tail: seq<byte>)
    requires IsHighSurrogate(hi) && IsLowSurrogate(lo) && SpellsPair(e, hi, lo)
    ensures ParseEscape(e + tail) == Ok(Utf8Encode(CombineSurrogates(hi, lo)), tail)
  {
    var h, l :| SpellsUnit(h, hi) && SpellsUnit(l, lo) && e == [LETTER_u] + h + [BACKSLASH, LETTER_u] + l;
    EscapedPair(hi, lo, h, l, tail);
  }

  lemma ReadBasicEscape(cp: nat, h: seq<byte>, tail: seq<byte>)
    requires SpellsUnit(h, cp) && !IsHighSurrogate(cp)
    ensures ParseEscape([LETTER_u] + h + tail) == Ok(Utf8Encode(cp), tail)
  {
    ReadSpelled(h, cp, tail);
    AfterLetter(h, tail);
    assert ParseCodePoint(h + tail) == Ok(cp, tail);
    EscapeOf([LETTER_u] + h + tail, cp, tail);
  }

  /** Splitting a code point into surrogates is undone by combining them. */
  lemma SurrogatesOf(cp: nat)
    requires 0x1_0000 <= cp < 0x11_0000
    ensures var hi, lo := 0xD800 + (cp - 0x1_0000) / 1024, 0xDC00 + (cp - 0x1_0000) % 1024;
            IsHighSurrogate(hi) && IsLowSurrogate(lo) && CombineSurrogates(hi, lo) == cp
  {
  }

  lemma EscapedPair(hi: nat, lo: nat, h: seq<byte>, l: seq<byte>, tail: seq<byte>)
    requires IsHighSurrogate(hi) && IsLowSurrogate(lo) && SpellsUnit(h, hi) && SpellsUnit(l, lo)
    ensures ParseEscape(([LETTER_u] + h + [BACKSLASH, LETTER_u] + l) + tail)
         == Ok(Utf8Encode(CombineSurrogates(hi, lo)), tail)
  {
    PairShape(h, l, tail);
    ReadPair(hi, lo, h, l, tail);
    EscapeOf(([LETTER_u] + h + [BACKSLASH, LETTER_u] + l) + tail, CombineSurrogates(hi, lo), tail);
  }

  lemma EscapeOf(t: seq<byte>, cp: nat, tail: seq<byte>)
    requires cp < 0x11_0000 && t != [] && t[0] == LETTER_u && ParseCodePoint(t[1..]) == Ok(cp, tail)
    ensures ParseEscape(t) == Ok(Utf8Encode(cp), tail)
  {
  }

  lemma AfterLetter(h: seq<byte>, tail: seq<byte>)
    ensures var t := [LETTER_u] + h + tail; t[0] == LETTER_u && t[1..] == h + tail
  {
  }

  lemma ReadPair(hi: nat, lo: nat, h: seq<byte>, l: seq<byte>, tail: seq<byte>)
    requires IsHighSurrogate(hi) && IsLowSurrogate(lo) && SpellsUnit(h, hi) && SpellsUnit(l, lo)
    ensures ParseCodePoint(h + ([BACKSLASH, LETTER_u] + (l + tail))) == Ok(CombineSurrogates(hi, lo), tail)
  {
    ReadSpelled(h, hi, [BACKSLASH, LETTER_u] + (l + tail));
    PairShape(h, l, tail);
    ReadSpelled(l, lo, tail);
  }

  lemma PairShape(hi: seq<byte>, lo: seq<byte>, tail: seq<byte>)
    ensures var t := ([LETTER_u] + hi + [BACKSLASH, LETTER_u] + lo) + tail;
            Head(t) == LETTER_u && t[1..] == hi + ([BACKSLASH, LETTER_u] + (lo + tail))
    ensures var r := [BACKSLASH, LETTER_u] + (lo + tail);
            [BACKSLASH, LETTER_u] <= r && r[2..] == lo + tail
  {
  }

  lemma LoneHighSurrogate(u: nat, h: seq<byte>, tail: seq<byte>)
    requires 0xD800 <= u <= 0xDBFF && SpellsUnit(h, u) && !([BACKSLASH, LETTER_u] <= tail)
    ensures ParseEscape([LETTER_u] + h + tail) == Fail(MissingLowSurrogate)
  {
    ReadSpelled(h, u, tail);
    AfterLetter(h, tail);
  }

  /** A high surrogate followed by anything but a low one is refused as well. */
  lemma WrongLowSurrogate(hi: nat, lo: nat, h: seq<byte>, l: seq<byte>, tail: seq<byte>)
    requires 0xD800 <= hi <= 0xDBFF && !(0xDC00 <= lo <= 0xDFFF) && SpellsUnit(h, hi) && SpellsUnit(l, lo)
    ensures ParseEscape(([LETTER_u] + h + [BACKSLASH, LETTER_u] + l) + tail) == Fail(InvalidLowSurrogate)
  {
    var more := [BACKSLASH, LETTER_u] + (l + tail);
    PairShape(h, l, tail);
    ReadSpelled(h, hi, more);
    ReadSpelled(l, lo, tail);
    assert ParseCodePoint(h + more) == Fail(InvalidLowSurrogate);
    RefusedEscape(([LETTER_u] + h + [BACKSLASH, LETTER_u] + l) + tail, InvalidLowSurrogate);
  }

  lemma {:induction false} RefusedEscape(t: seq<byte>, error: Error)
    requires t != [] && t[0] == LETTER_u && ParseCodePoint(t[1..]) == Fail(error)
    ensures ParseEscape(t) == Fail(error)
  {
  }

  // ---- number texts ----

  /** Section 2.4 of RFC 4627: no leading zero. */
  predicate IntegerText(ds: seq<byte>) {
    ds != [] && DigitsOnly(ds) && (ds[0] == ZERO ==> ds == [ZERO])
  }

  /** Every integer text is read as exactly the number it denotes while 64 bits hold it; beyond
      that as the double it accumulates to, or refused when that reaches 1E307 too early. */
  lemma {:induction false} IntegerTextExact(negative: bool, ds: seq<byte>, rest: seq<byte>)
    requires IntegerText(ds) && EndsNumber(Head(rest))
    ensures var v := if negative then 0 - Decimal(ds) else Decimal(ds);
            var r := ParseNumber((if negative then [MINUS] else []) + (ds + rest));
            if -0x8000_0000_0000_0000 <= v < 0x1_0000_0000_0000_0000 then r == Ok(Integer(v), rest)
            else if OverflowsDouble(negative, ds) then r == Fail(NumberTooBig)
            else r == Ok(Double(negative, IntegerDouble(negative, ds), 0), rest)
  {
    IntegerTextRead(negative, ds, rest);
  }

  lemma {:induction false} IntegerTextRead(negative: bool, ds: seq<byte>, rest: seq<byte>)
    requires IntegerText(ds) && EndsNumber(Head(rest))
    ensures var n := Decimal(ds);
            ParseNumber((if negative then [MINUS] else []) + (ds + rest)) ==
            (if FitsInteger(negative, n) then Ok(Integer(if negative then 0 - n else n), rest)
             else if OverflowsDouble(negative, ds) then Fail(NumberTooBig)
             else Ok(Double(negative, IntegerDouble(negative, ds), 0), rest))
  {
    var t := ds + rest;
    IntegerPartOf(ds, rest);
    PlainTail(negative, Decimal(ds), IntegerDouble(negative, ds), rest);
    if negative { AfterSign(t); } else { assert [] + t == t; }
    NumberOf(negative, ds, (if negative then [MINUS] else []) + t);
  }

  lemma {:induction false} NumberOf(negative: bool, ds: seq<byte>, s: seq<byte>)
    requires negative <==> Head(s) == MINUS
    requires var t := if negative then s[1..] else s; IsDigit(Head(t)) && IntegerPart(t) == ds && |ds| <= |t|
    ensures var t := if negative then s[1..] else s;
            ParseNumber(s) == if OverflowsDouble(negative, ds) then Fail(NumberTooBig)
                              else ParseNumberTail(negative, Decimal(ds), IntegerDouble(negative, ds), t[|ds|..])
  {
  }

  /** Nothing behind the integer part. */
  lemma {:induction false} PlainTail(negative: bool, n: nat, d: nat, rest: seq<byte>)
    requires EndsNumber(Head(rest))
    ensures ParseNumberTail(negative, n, d, rest)
         == if FitsInteger(negative, n) then Ok(Integer(if negative then 0 - n else n), rest) else Ok(Double(negative, d, 0), rest)
  {
  }

  lemma AfterSign(t: seq<byte>)
    ensures var s := [MINUS] + t; Head(s) == MINUS && s[1..] == t
  {
  }

  lemma {:induction false} IntegerPartOf(ds: seq<byte>, rest: seq<byte>)
    requires IntegerText(ds) && !IsDigit(Head(rest))
    ensures var t := ds + rest; IsDigit(Head(t)) && IntegerPart(t) == ds && t[|ds|..] == rest
  {
    assert ds[0] in ds && (ds + rest)[0] == ds[0];
    if ds[0] != ZERO { DigitRunOf(ds, rest); }
  }

  // ---- everything read can be printed ----

  /** Numbers are integers in the common representation, or doubles. */
  ghost predicate Canonical(v: Value) {
    match v
    case Number(data, kinds) => exists n: int :: Representable(n) && v == Integer(n)
    case Array(es) => forall e | e in es :: Canonical(e)
    case Object(ms) => forall m | m in ms :: Canonical(m.value)
    case _ => true
  }

  ghost predicate DoubleFree(v: Value) {
    match v
    case Double(_, _, _) => false
    case Array(es) => forall e | e in es :: DoubleFree(e)
    case Object(ms) => forall m | m in ms :: DoubleFree(m.value)
    case _ => true
  }

  lemma {:induction false} CanonicalDoubleFree(v: Value)
    requires Canonical(v) && DoubleFree(v)
    ensures WellFormed(v)
    decreases v
  {
    match v
    case Array(es) => forall e | e in es ensures WellFormed(e) { CanonicalDoubleFree(e); }
    case Object(ms) => forall m | m in ms ensures WellFormed(m.value) { CanonicalDoubleFree(m.value); }
    case _ =>
  }

  lemma NumberTailCanonical(negative: bool, n: nat, d: nat, s: seq<byte>)
    ensures var r := ParseNumberTail(negative, n, d, s); r.Ok? ==> Canonical(r.value)
  {
    if Head(s) != DOT && !StartsExponent(s) && FitsInteger(negative, n) {
      assert Representable(if negative then 0 - n else n);
    }
  }

  lemma NumberCanonical(s: seq<byte>)
    ensures var r := ParseNumber(s); r.Ok? ==> Canonical(r.value)
  {
    var negative := Head(s) == MINUS;
    var t := if negative then s[1..] else s;
    if IsDigit(Head(t)) {
      var ds := IntegerPart(t);
      NumberTailCanonical(negative, Decimal(ds), IntegerDouble(negative, ds), t[|ds|..]);
    }
  }

  lemma {:induction false} ValueCanonical(s: seq<byte>)
    ensures var r := ParseValue(s); r.Ok? ==> Canonical(r.value)
    decreases |s|, 1
  {
    NumberCanonical(s);
    if Head(s) == LBRACKET { ArrayCanonical(s); }
    if Head(s) == LBRACE { ObjectCanonical(s); }
  }

  lemma {:induction false} ArrayCanonical(s: seq<byte>)
    requires Head(s) == LBRACKET
    ensures var r := ParseArray(s); r.Ok? ==> Canonical(r.value)
    decreases |s|, 0
  {
    ElementsCanonical(SkipWs(s[1..]));
  }

  lemma {:induction false} ElementsCanonical(s: seq<byte>)
    ensures var r := ParseElements(s); r.Ok? ==> forall e | e in r.value :: Canonical(e)
    decreases |s|, 2
  {
    ValueCanonical(s);
    var v := ParseValue(s);
    if v.Ok? && Head(SkipWs(v.rest)) == COMMA { ElementsCanonical(SkipWs(SkipWs(v.rest)[1..])); }
  }

  lemma {:induction false} ObjectCanonical(s: seq<byte>)
    requires Head(s) == LBRACE
    ensures var r := ParseObject(s); r.Ok? ==> Canonical(r.value)
    decreases |s|, 0
  {
    MembersCanonical(SkipWs(s[1..]));
  }

  lemma {:induction false} MembersCanonical(s: seq<byte>)
    ensures var r := ParseMembers(s); r.Ok? ==> forall m | m in r.value :: Canonical(m.value)
    decreases |s|, 3
  {
    var m := ParseMember(s);
    if m.Ok? {
      ValueCanonical(SkipWs(SkipWs(ParseChars(s[1..]).rest)[1..]));
      if Head(SkipWs(m.rest)) == COMMA { MembersCanonical(SkipWs(SkipWs(m.rest)[1..])); }
    }
  }

  /** A document is an object or an array, and without doubles it is one that can be printed. */
  lemma ReadAsContainer(text: seq<byte>)
    requires Parse(text).Ok? && DoubleFree(Parse(text).value)
    ensures WellFormed(Parse(text).value) && (Parse(text).value.Array? || Parse(text).value.Object?)
  {
    var t := SkipWs(text);
    if Head(t) == LBRACE { ObjectCanonical(t); } else { ArrayCanonical(t); }
    CanonicalDoubleFree(Parse(text).value);
  }

  /** Reading normalises: any accepted text without doubles can be printed in either layout and
      reads back as the same tree, however the original was spaced or escaped. */
  lemma ReadPrintRead(text: seq<byte>, l: Layout)
    requires Parse(text).Ok? && DoubleFree(Parse(text).value) && ValidLayout(l)
    ensures Parse(Render(Parse(text).value, l, 0)) == Ok(Parse(text).value, [])
  {
    ReadAsContainer(text);
    RoundTrip(Parse(text).value, l);
  }
}
