/** The reader accepts exactly the texts of RFC 4627, within its limits: every syntax tree's text is
    read as the tree's value, and every text that is read is the text of a tree. */
module JsonAcceptance {
  import opened Sequences
  import opened JsonValue
  import opened JsonGrammar
  import opened JsonRoundTrip
  import opened JsonProperties
  import opened JsonSyntax

  lemma Cons(c: byte, t: seq<byte>)
    ensures var s := [c] + t; Head(s) == c && s[1..] == t && s[0] == c
  {
  }

  lemma Uncons(s: seq<byte>)
    requires s != []
    ensures s == [s[0]] + s[1..] && Head(s) == s[0]
  {
  }

  lemma TwoThen(a: byte, b: byte, t: seq<byte>)
    ensures [a, b] <= [a, b] + t && ([a, b] + t)[2..] == t
  {
  }

  lemma SplitAt(s: seq<byte>, n: nat)
    requires n <= |s|
    ensures s == s[..n] + s[n..]
  {
  }

  // ---- white space ----

  lemma {:induction false} LeadingSpace(s: seq<byte>) returns (ws: seq<byte>)
    ensures AllSpace(ws) && s == ws + SkipWs(s) && !IsSpace(Head(SkipWs(s)))
  {
    if IsSpace(Head(s)) {
      var more := LeadingSpace(s[1..]);
      Uncons(s);
      ws := [s[0]] + more;
    } else {
      ws := [];
    }
  }

  // ---- characters ----

  lemma HexText(h: seq<byte>, tail: seq<byte>)
    requires FourHex(h)
    ensures ParseHex(h + tail, 4, 0) == Ok(HexNumber(h), tail)
  {
    assert h[0] in h && h[1] in h && h[2] in h && h[3] in h;
    FourDigits(h, tail);
  }

  lemma {:induction false} HexPrefix(s: seq<byte>, k: nat, acc: nat)
    requires ParseHex(s, k, acc).Ok?
    ensures k <= |s| && ParseHex(s, k, acc).rest == s[k..] && forall i | 0 <= i < k :: IsHex(s[i])
    decreases k
  {
    if k > 0 { HexPrefix(s[1..], k - 1, acc * 16 + HexValue(s[0])); }
  }

  lemma HexRead(s: seq<byte>)
    requires ParseHex(s, 4, 0).Ok?
    ensures |s| >= 4 && FourHex(s[..4]) && s == s[..4] + s[4..]
    ensures ParseHex(s, 4, 0) == Ok(HexNumber(s[..4]), s[4..])
  {
    HexPrefix(s, 4, 0);
    SplitAt(s, 4);
    HexText(s[..4], s[4..]);
  }

  lemma CodePointText(c: Char, tail: seq<byte>)
    requires CharOk(c) && (c.Unit? || c.Pair?)
    ensures CharText(c, tail) == [BACKSLASH] + ([LETTER_u] + CharText(c, tail)[2..])
    ensures var r := ParseCodePoint(CharText(c, tail)[2..]);
            r.Ok? && r.rest == tail && Utf8Encode(r.value) == CharValue(c)
  {
    match c
    case Unit(h) =>
      TwoCons(BACKSLASH, LETTER_u, h + tail);
      HexText(h, tail);
    case Pair(hi, lo) =>
      var more := [BACKSLASH, LETTER_u] + (lo + tail);
      TwoCons(BACKSLASH, LETTER_u, hi + more);
      HexText(hi, more);
      TwoThen(BACKSLASH, LETTER_u, lo + tail);
      HexText(lo, tail);
  }

  lemma TwoCons(a: byte, b: byte, t: seq<byte>)
    ensures ([a] + ([b] + t))[2..] == t
  {
  }

  lemma ReadChar(c: Char, tail: seq<byte>)
    requires CharOk(c)
    ensures ParseChars(CharText(c, tail)) == Prepend(CharValue(c), ParseChars(tail))
  {
    match c
    case Plain(b) => Cons(b, tail);
    case Short(e) =>
      Cons(e, tail);
      Cons(BACKSLASH, [e] + tail);
    case _ =>
      CodePointText(c, tail);
      var t := CharText(c, tail)[2..];
      Cons(LETTER_u, t);
      Cons(BACKSLASH, [LETTER_u] + t);
      EscapeOf([LETTER_u] + t, ParseCodePoint(t).value, tail);
  }

  lemma {:induction false} ReadCharsText(cs: seq<Char>, rest: seq<byte>)
    requires CharsOk(cs)
    ensures ParseChars(CharsText(cs, rest)) == Ok(CharsValue(cs), rest)
  {
    if cs == [] {
      Cons(QUOTE, rest);
    } else {
      ReadChar(cs[0], CharsText(cs[1..], rest));
      ReadCharsText(cs[1..], rest);
    }
  }

  lemma {:induction false} EscapeRead(s: seq<byte>) returns (c: Char)
    requires ParseEscape(s).Ok?
    ensures CharOk(c) && CharText(c, ParseEscape(s).rest) == [BACKSLASH] + s && CharValue(c) == ParseEscape(s).value
  {
    Uncons(s);
    if Unescape(s[0]) != 0 { c := Short(s[0]); } else { c := CodePointRead(s[1..]); }
  }

  lemma {:induction false} CodePointRead(t: seq<byte>) returns (c: Char)
    requires ParseCodePoint(t).Ok?
    ensures var r := ParseCodePoint(t);
            CharOk(c) && CharText(c, r.rest) == [BACKSLASH] + ([LETTER_u] + t) && CharValue(c) == Utf8Encode(r.value)
  {
    HexRead(t);
    if IsHighSurrogate(HexNumber(t[..4])) { c := PairRead(t); } else { c := Unit(t[..4]); }
  }

  lemma {:induction false} PairRead(t: seq<byte>) returns (c: Char)
    requires ParseCodePoint(t).Ok? && ParseHex(t, 4, 0).Ok? && IsHighSurrogate(ParseHex(t, 4, 0).value)
    ensures var r := ParseCodePoint(t);
            CharOk(c) && CharText(c, r.rest) == [BACKSLASH] + ([LETTER_u] + t) && CharValue(c) == Utf8Encode(r.value)
  {
    HexRead(t);
    var hi, u := t[..4], t[4..];
    SplitAt(u, 2);
    HexRead(u[2..]);
    var lo := u[2..][..4];
    c := Pair(hi, lo);
    PairText(hi, lo, u[2..][4..], u, t);
  }

  lemma PairText(hi: seq<byte>, lo: seq<byte>, rest: seq<byte>, u: seq<byte>, t: seq<byte>)
    requires u == [BACKSLASH, LETTER_u] + (lo + rest) && t == hi + u
    ensures CharText(Pair(hi, lo), rest) == [BACKSLASH] + ([LETTER_u] + t)
  {
  }

  lemma {:induction false} CharsRead(s: seq<byte>) returns (cs: seq<Char>)
    requires ParseChars(s).Ok?
    ensures CharsOk(cs) && s == CharsText(cs, ParseChars(s).rest) && CharsValue(cs) == ParseChars(s).value
    decreases |s|
  {
    Uncons(s);
    if s[0] == QUOTE {
      cs := [];
    } else {
      var c, t;
      if s[0] == BACKSLASH {
        c := EscapeRead(s[1..]);
        t := ParseEscape(s[1..]).rest;
      } else {
        c, t := Plain(s[0]), s[1..];
      }
      var more := CharsRead(t);
      cs := [c] + more;
      assert cs[0] == c && cs[1..] == more;
    }
  }

  // ---- numbers ----

  lemma {:induction false} ReadExponentText(negative: bool, m: nat, shift: int, e: Exponent, rest: seq<byte>)
    requires ExponentOk(e) && EndsNumber(Head(rest)) && (e.Power? ==> Decimal(e.digits) <= 308)
    ensures ParseExponent(negative, m, shift, ExponentText(e, rest)) == Ok(Double(negative, m, Scaled(PowerValue(e), shift)), rest)
  {
    if e.Power? {
      Cons(e.mark, e.sign + (e.digits + rest));
      ReadPower(e, rest);
    }
  }

  lemma {:induction false} ReadPower(e: Exponent, rest: seq<byte>)
    requires ExponentOk(e) && e.Power? && !IsDigit(Head(rest)) && Decimal(e.digits) <= 308
    ensures var r := ParsePower(e.sign + (e.digits + rest)); r.Ok? && r.value == PowerValue(e) && r.rest == rest
  {
    ReadUnsigned(e.digits, rest);
    ReadSign(e.sign, e.digits + rest, Decimal(e.digits), rest);
  }

  lemma {:induction false} ReadSign(sign: seq<byte>, t: seq<byte>, n: nat, rest: seq<byte>)
    requires sign == [] || sign == [PLUS] || sign == [MINUS]
    requires IsDigit(Head(t)) && ParseUnsignedPower(t) == Ok(n, rest)
    ensures var r := ParsePower(sign + t);
            r.Ok? && r.value == (if sign == [MINUS] then 0 - n else n) && r.rest == rest
  {
    if sign == [] { assert sign + t == t; } else { Cons(sign[0], t); }
  }

  lemma {:induction false} ReadUnsigned(ds: seq<byte>, rest: seq<byte>)
    requires ds != [] && DigitsOnly(ds) && !IsDigit(Head(rest)) && Decimal(ds) <= 308
    ensures ParseUnsignedPower(ds + rest) == Ok(Decimal(ds), rest) && IsDigit(Head(ds + rest))
  {
    DigitRunOf(ds, rest);
    assert (ds + rest)[|ds|..] == rest && ds[0] in ds;
  }

  lemma {:induction false} ExponentRead(negative: bool, m: nat, shift: int, s: seq<byte>) returns (e: Exponent)
    requires ParseExponent(negative, m, shift, s).Ok?
    ensures var r := ParseExponent(negative, m, shift, s);
            && ExponentOk(e) && (e.Power? ==> Decimal(e.digits) <= 308) && s == ExponentText(e, r.rest)
            && r.value == Double(negative, m, Scaled(PowerValue(e), shift))
  {
    if StartsExponent(s) {
      Uncons(s);
      e := PowerRead(s[0], s[1..]);
    } else {
      e := NoExponent;
    }
  }

  lemma {:induction false} PowerRead(mark: byte, s: seq<byte>) returns (e: Exponent)
    requires (mark == 101 || mark == 69) && ParsePower(s).Ok?
    ensures var r := ParsePower(s);
            && e.Power? && e.mark == mark && ExponentOk(e) && Decimal(e.digits) <= 308 && PowerValue(e) == r.value
            && s == e.sign + (e.digits + r.rest)
  {
    var signed := Head(s) == PLUS || Head(s) == MINUS;
    var t := if signed then s[1..] else s;
    var run := DigitRun(t);
    SplitAt(t, |run|);
    e := Power(mark, if signed then [s[0]] else [], run);
    if signed { Uncons(s); } else { assert [] + t == t; }
  }

  lemma {:induction false} FractionRun(negative: bool, n: nat, f: seq<byte>, e: seq<byte>)
    requires f != [] && DigitsOnly(f) && !IsDigit(Head(e))
    ensures ParseFraction(negative, n, f + e) == ParseExponent(negative, Mantissa(n, f), Shift(f), e)
  {
    DigitRunOf(f, e);
    assert (f + e)[|f|..] == e;
  }

  lemma {:induction false} ExponentHead(e: Exponent, rest: seq<byte>)
    requires ExponentOk(e) && EndsNumber(Head(rest))
    ensures var t := ExponentText(e, rest);
            !IsDigit(Head(t)) && Head(t) != DOT && (StartsExponent(t) <==> e.Power?) && (e.NoExponent? ==> t == rest)
  {
    if e.Power? { Cons(e.mark, e.sign + (e.digits + rest)); }
  }

  lemma {:induction false} DotTail(minus: bool, n: nat, d: nat, t: seq<byte>)
    ensures ParseNumberTail(minus, n, d, [DOT] + t) == ParseFraction(minus, d, t) && Head([DOT] + t) == DOT
  {
    Cons(DOT, t);
  }

  lemma {:induction false} DoubleValue(n: Numeral)
    requires NumeralOk(n) && (n.fraction != [] || n.exponent.Power?)
    ensures NumeralValue(n) == Double(n.minus, Mantissa(IntegerDouble(n.minus, n.int_), n.fraction),
                                      Scaled(PowerValue(n.exponent), Shift(n.fraction)))
  {
  }

  lemma {:induction false} ReadFractionTail(n: Numeral, rest: seq<byte>)
    requires NumeralOk(n) && WithinLimits(n) && EndsNumber(Head(rest)) && n.fraction != []
    ensures var t := FractionText(n.fraction, ExponentText(n.exponent, rest));
            Head(t) == DOT && ParseNumberTail(n.minus, Decimal(n.int_), IntegerDouble(n.minus, n.int_), t) == Ok(NumeralValue(n), rest)
  {
    var d := IntegerDouble(n.minus, n.int_);
    DotTail(n.minus, Decimal(n.int_), d, n.fraction + ExponentText(n.exponent, rest));
    ReadFractionDigits(n.minus, d, n.fraction, n.exponent, rest);
    DoubleValue(n);
  }

  lemma {:induction false} ReadFractionDigits(minus: bool, n: nat, f: seq<byte>, e: Exponent, rest: seq<byte>)
    requires f != [] && DigitsOnly(f) && ExponentOk(e) && (e.Power? ==> Decimal(e.digits) <= 308) && EndsNumber(Head(rest))
    ensures ParseFraction(minus, n, f + ExponentText(e, rest))
         == Ok(Double(minus, Mantissa(n, f), Scaled(PowerValue(e), Shift(f))), rest)
  {
    ExponentHead(e, rest);
    FractionRun(minus, n, f, ExponentText(e, rest));
    ReadExponentText(minus, Mantissa(n, f), Shift(f), e, rest);
  }

  lemma {:induction false} ReadPlainTail(n: Numeral, rest: seq<byte>)
    requires NumeralOk(n) && WithinLimits(n) && EndsNumber(Head(rest)) && n.fraction == []
    ensures ParseNumberTail(n.minus, Decimal(n.int_), IntegerDouble(n.minus, n.int_), ExponentText(n.exponent, rest))
         == Ok(NumeralValue(n), rest)
  {
    var t, d := ExponentText(n.exponent, rest), IntegerDouble(n.minus, n.int_);
    ExponentHead(n.exponent, rest);
    NoFraction(d);
    if n.exponent.Power? {
      DoubleValue(n);
      MarkTail(n.minus, Decimal(n.int_), d, t);
      ReadExponentText(n.minus, d, 0, n.exponent, rest);
    } else {
      IntegerTail(n, rest);
    }
  }

  lemma {:induction false} MarkTail(minus: bool, n: nat, d: nat, t: seq<byte>)
    requires StartsExponent(t)
    ensures ParseNumberTail(minus, n, d, t) == ParseExponent(minus, d, 0, t)
  {
  }

  lemma {:induction false} IntegerTail(n: Numeral, rest: seq<byte>)
    requires NumeralOk(n) && EndsNumber(Head(rest)) && n.fraction == [] && n.exponent.NoExponent?
    ensures ParseNumberTail(n.minus, Decimal(n.int_), IntegerDouble(n.minus, n.int_), rest) == Ok(NumeralValue(n), rest)
  {
    NoFraction(IntegerDouble(n.minus, n.int_));
  }

  lemma NoFraction(d: nat)
    ensures Mantissa(d, []) == d && Shift([]) == 0
  {
  }

  lemma {:induction false} ReadNumeralTail(n: Numeral, rest: seq<byte>)
    requires NumeralOk(n) && WithinLimits(n) && EndsNumber(Head(rest))
    ensures var t := FractionText(n.fraction, ExponentText(n.exponent, rest));
            !IsDigit(Head(t)) && ParseNumberTail(n.minus, Decimal(n.int_), IntegerDouble(n.minus, n.int_), t) == Ok(NumeralValue(n), rest)
  {
    if n.fraction == [] {
      ExponentHead(n.exponent, rest);
      ReadPlainTail(n, rest);
    } else {
      ReadFractionTail(n, rest);
    }
  }

  lemma ReadNumeral(n: Numeral, rest: seq<byte>)
    requires NumeralOk(n) && WithinLimits(n) && EndsNumber(Head(rest))
    ensures ParseNumber(NumeralText(n, rest)) == Ok(NumeralValue(n), rest)
  {
    var tail := FractionText(n.fraction, ExponentText(n.exponent, rest));
    ReadNumeralTail(n, rest);
    IntegerPartOf(n.int_, tail);
    SignThen(n.minus, n.int_ + tail);
  }

  lemma SignThen(minus: bool, t: seq<byte>)
    requires IsDigit(Head(t))
    ensures var s := (if minus then [MINUS] else []) + t;
            (Head(s) == MINUS <==> minus) && (if minus then s[1..] else s) == t
  {
    if !minus { assert [] + t == t; }
  }

  lemma {:induction false} FractionRead(minus: bool, n: nat, s: seq<byte>) returns (f: seq<byte>, e: Exponent)
    requires ParseFraction(minus, n, s).Ok?
    ensures var r := ParseFraction(minus, n, s);
            && f != [] && DigitsOnly(f) && ExponentOk(e) && (e.Power? ==> Decimal(e.digits) <= 308)
            && s == f + ExponentText(e, r.rest)
            && r.value == Double(minus, Mantissa(n, f), Scaled(PowerValue(e), Shift(f)))
  {
    f := DigitRun(s);
    SplitAt(s, |f|);
    FractionRun(minus, n, f, s[|f|..]);
    e := ExponentRead(minus, Mantissa(n, f), Shift(f), s[|f|..]);
  }

  lemma {:induction false} TailRead(minus: bool, ds: seq<byte>, s: seq<byte>) returns (f: seq<byte>, e: Exponent)
    requires IntegerText(ds) && ParseNumberTail(minus, Decimal(ds), IntegerDouble(minus, ds), s).Ok?
    ensures var r := ParseNumberTail(minus, Decimal(ds), IntegerDouble(minus, ds), s);
            && DigitsOnly(f) && ExponentOk(e) && (e.Power? ==> Decimal(e.digits) <= 308)
            && s == FractionText(f, ExponentText(e, r.rest))
            && r.value == NumeralValue(Numeral(minus, ds, f, e))
  {
    var d := IntegerDouble(minus, ds);
    if Head(s) == DOT {
      Uncons(s);
      DotTail(minus, Decimal(ds), d, s[1..]);
      f, e := FractionRead(minus, d, s[1..]);
      DoubleValue(Numeral(minus, ds, f, e));
    } else {
      f := [];
      NoFraction(d);
      if StartsExponent(s) {
        MarkTail(minus, Decimal(ds), d, s);
        e := PlainExponentRead(minus, d, s);
        DoubleValue(Numeral(minus, ds, f, e));
      } else {
        e := NoExponent;
      }
    }
  }

  lemma {:induction false} PlainExponentRead(minus: bool, n: nat, s: seq<byte>) returns (e: Exponent)
    requires StartsExponent(s) && ParseExponent(minus, n, 0, s).Ok?
    ensures var r := ParseExponent(minus, n, 0, s);
            && e.Power? && ExponentOk(e) && Decimal(e.digits) <= 308 && s == ExponentText(e, r.rest)
            && r.value == Double(minus, n, Scaled(PowerValue(e), 0))
  {
    Uncons(s);
    e := PowerRead(s[0], s[1..]);
  }

  lemma {:induction false} IntegerPartText(t: seq<byte>)
    requires IsDigit(Head(t))
    ensures IntegerText(IntegerPart(t))
  {
    if t[0] != ZERO { assert IntegerPart(t)[0] == t[0]; }
  }

  lemma NumeralRead(s: seq<byte>) returns (n: Numeral)
    requires ParseNumber(s).Ok?
    ensures NumeralOk(n) && WithinLimits(n) && s == NumeralText(n, ParseNumber(s).rest)
    ensures NumeralValue(n) == ParseNumber(s).value
  {
    var minus := Head(s) == MINUS;
    var t := if minus then s[1..] else s;
    var ds := IntegerPart(t);
    IntegerPartText(t);
    SplitAt(t, |ds|);
    var f, e := TailRead(minus, ds, t[|ds|..]);
    n := Numeral(minus, ds, f, e);
    if minus { Uncons(s); } else { assert [] + t == t; }
  }

  // ---- reading the text of a tree ----

  /** The first character tells the kind of value. */
  lemma {:induction false} TextHead(t: Tree, rest: seq<byte>)
    requires TreeOk(t)
    ensures var s := TreeText(t, rest);
            && s != [] && !IsSpace(s[0]) && s[0] != RBRACKET && s[0] != 0 && Head(s) == s[0]
            && (t.StringTree? <==> s[0] == QUOTE) && (t.ArrayTree? <==> s[0] == LBRACKET)
            && (t.ObjectTree? <==> s[0] == LBRACE)
            && (t.NumberTree? ==> IsDigit(s[0]) || s[0] == MINUS)
  {
    if t.NumberTree? {
      var n := t.n;
      assert n.int_[0] in n.int_;
      var tail := n.int_ + FractionText(n.fraction, ExponentText(n.exponent, rest));
      if n.minus { Cons(MINUS, tail); } else { assert [] + tail == tail; }
    }
  }

  lemma {:induction false} ReadTree(t: Tree, rest: seq<byte>)
    requires TreeOk(t) && EndsValue(rest)
    ensures ParseValue(TreeText(t, rest)) == Ok(TreeValue(t), rest)
    decreases t, 1
  {
    TextHead(t, rest);
    match t
    case NullTree => ReadWord(NULL_TEXT, rest, Null);
    case BoolTree(b) => ReadWord(if b then TRUE_TEXT else FALSE_TEXT, rest, Bool(b));
    case NumberTree(n) => ReadNumeral(n, rest);
    case StringTree(cs) =>
      Cons(QUOTE, CharsText(cs, rest));
      ReadCharsText(cs, rest);
    case ArrayTree(_, _) => ReadArrayTree(t, rest);
    case ObjectTree(_, _) => ReadObjectTree(t, rest);
  }

  lemma ReadWord(word: seq<byte>, rest: seq<byte>, v: Value)
    ensures ParseLiteral(word + rest, word, v) == Ok(v, rest)
  {
    assert (word + rest)[|word|..] == rest;
  }

  lemma {:induction false} ReadArrayTree(t: Tree, rest: seq<byte>)
    requires t.ArrayTree? && TreeOk(t)
    ensures Head(TreeText(t, rest)) == LBRACKET && ParseArray(TreeText(t, rest)) == Ok(TreeValue(t), rest)
    decreases t, 0
  {
    var body := if t.items == [] then [RBRACKET] + rest else ItemsText(t.items, rest);
    Cons(LBRACKET, t.gap + body);
    if t.items == [] {
      ClosingTail(t.gap, RBRACKET, rest);
    } else {
      ItemsHead(t.items, rest);
      SkipWsDrops(t.gap, body);
      ReadItems(t.items, rest);
    }
  }

  lemma ItemsHead(items: seq<Item>, rest: seq<byte>)
    requires items != [] && ItemOk(items[0])
    ensures var c := Head(ItemsText(items, rest)); !IsSpace(c) && c != RBRACKET
  {
    TextHead(items[0].tree, items[0].after + AfterItem(items, rest));
  }

  lemma EntriesHead(es: seq<Entry>, rest: seq<byte>)
    requires es != []
    ensures Head(EntriesText(es, rest)) == QUOTE
  {
  }

  /** What comes after the first item and its white space. */
  function AfterItem(items: seq<Item>, rest: seq<byte>): seq<byte>
    requires items != []
  {
    if |items| == 1 then [RBRACKET] + rest else [COMMA] + (items[0].next + ItemsText(items[1..], rest))
  }

  lemma {:induction false} ReadItem(i: Item, c: byte, rest: seq<byte>)
    requires ItemOk(i) && !IsSpace(c) && EndsNumber(c)
    ensures var r := ParseValue(ItemText(i, [c] + rest));
            r.Ok? && r.value == TreeValue(i.tree) && SkipWs(r.rest) == [c] + rest
    decreases i
  {
    ClosingTail(i.after, c, rest);
    ReadTree(i.tree, i.after + ([c] + rest));
  }

  lemma {:induction false} ReadItems(items: seq<Item>, rest: seq<byte>)
    requires items != [] && forall i | 0 <= i < |items| :: ItemOk(items[i])
    ensures ParseElements(ItemsText(items, rest)) == Ok(ItemValues(items), rest)
    decreases items
  {
    assert ItemOk(items[0]);
    if |items| == 1 {
      ReadItem(items[0], RBRACKET, rest);
      ElementThenEnd(ItemsText(items, rest), rest);
      OneItem(items);
    } else {
      var more, next := items[1..], items[0].next + ItemsText(items[1..], rest);
      ReadItem(items[0], COMMA, next);
      ItemsHead(more, rest);
      SkipWsDrops(items[0].next, ItemsText(more, rest));
      ReadItems(more, rest);
      ElementThenMore(ItemsText(items, rest), next, ItemValues(more), rest);
    }
  }

  lemma {:induction false} OneItem(items: seq<Item>)
    requires |items| == 1 && ItemOk(items[0])
    ensures ItemValues(items) == [TreeValue(items[0].tree)]
  {
    assert ItemValues(items[1..]) == [];
  }

  lemma {:induction false} ElementThenEnd(t: seq<byte>, rest: seq<byte>)
    requires ParseValue(t).Ok? && SkipWs(ParseValue(t).rest) == [RBRACKET] + rest
    ensures ParseElements(t) == Ok([ParseValue(t).value], rest)
  {
    Cons(RBRACKET, rest);
  }

  lemma {:induction false} ElementThenMore(t: seq<byte>, next: seq<byte>, vs: seq<Value>, rest: seq<byte>)
    requires ParseValue(t).Ok? && SkipWs(ParseValue(t).rest) == [COMMA] + next
    requires ParseElements(SkipWs(next)) == Ok(vs, rest)
    ensures ParseElements(t) == Ok([ParseValue(t).value] + vs, rest)
  {
    Cons(COMMA, next);
  }

  lemma {:induction false} ReadObjectTree(t: Tree, rest: seq<byte>)
    requires t.ObjectTree? && TreeOk(t)
    ensures Head(TreeText(t, rest)) == LBRACE && ParseObject(TreeText(t, rest)) == Ok(TreeValue(t), rest)
    decreases t, 0
  {
    var body := if t.entries == [] then [RBRACE] + rest else EntriesText(t.entries, rest);
    Cons(LBRACE, t.gap + body);
    if t.entries == [] {
      ClosingTail(t.gap, RBRACE, rest);
    } else {
      EntriesHead(t.entries, rest);
      SkipWsDrops(t.gap, body);
      ReadEntries(t.entries, rest);
    }
  }

  lemma {:induction false} ReadEntry(e: Entry, c: byte, rest: seq<byte>)
    requires EntryOk(e) && !IsSpace(c) && EndsNumber(c)
    ensures var r := ParseMember(EntryText(e, [c] + rest));
            r.Ok? && r.value == EntryMember(e) && SkipWs(r.rest) == [c] + rest
    decreases e
  {
    var value := ItemText(e.item, [c] + rest);
    var colon := [COLON] + (e.afterColon + value);
    Cons(QUOTE, CharsText(e.name, e.beforeColon + colon));
    ReadCharsText(e.name, e.beforeColon + colon);
    Cons(COLON, e.afterColon + value);
    SkipWsDrops(e.beforeColon, colon);
    assert ItemOk(e.item);
    TextHead(e.item.tree, e.item.after + ([c] + rest));
    SkipWsDrops(e.afterColon, value);
    ReadItem(e.item, c, rest);
  }

  lemma {:induction false} ReadEntries(es: seq<Entry>, rest: seq<byte>)
    requires es != [] && forall i | 0 <= i < |es| :: EntryOk(es[i])
    ensures ParseMembers(EntriesText(es, rest)) == Ok(EntryMembers(es), rest)
    decreases es
  {
    assert EntryOk(es[0]);
    if |es| == 1 {
      ReadEntry(es[0], RBRACE, rest);
      MemberThenEnd(EntriesText(es, rest), rest);
      OneEntry(es);
    } else {
      var more, next := es[1..], es[0].item.next + EntriesText(es[1..], rest);
      ReadEntry(es[0], COMMA, next);
      EntriesHead(more, rest);
      assert ItemOk(es[0].item);
      SkipWsDrops(es[0].item.next, EntriesText(more, rest));
      ReadEntries(more, rest);
      MemberThenMore(EntriesText(es, rest), next, EntryMembers(more), rest);
    }
  }

  lemma {:induction false} OneEntry(es: seq<Entry>)
    requires |es| == 1 && EntryOk(es[0])
    ensures EntryMembers(es) == [EntryMember(es[0])]
  {
    assert EntryMembers(es[1..]) == [];
  }

  lemma {:induction false} MemberThenEnd(t: seq<byte>, rest: seq<byte>)
    requires ParseMember(t).Ok? && SkipWs(ParseMember(t).rest) == [RBRACE] + rest
    ensures ParseMembers(t) == Ok([ParseMember(t).value], rest)
  {
    Cons(RBRACE, rest);
  }

  lemma {:induction false} MemberThenMore(t: seq<byte>, next: seq<byte>, ms: seq<Member>, rest: seq<byte>)
    requires ParseMember(t).Ok? && SkipWs(ParseMember(t).rest) == [COMMA] + next
    requires ParseMembers(SkipWs(next)) == Ok(ms, rest)
    ensures ParseMembers(t) == Ok([ParseMember(t).value] + ms, rest)
  {
    Cons(COMMA, next);
  }

  // ---- the tree of a text that was read ----

  lemma {:induction false} TreeRead(s: seq<byte>) returns (t: Tree)
    requires ParseValue(s).Ok?
    ensures TreeOk(t) && s == TreeText(t, ParseValue(s).rest) && TreeValue(t) == ParseValue(s).value
    decreases |s|, 1
  {
    var c := Head(s);
    if c == 110 {
      WordRead(s, NULL_TEXT);
      t := NullTree;
    } else if c == 116 {
      WordRead(s, TRUE_TEXT);
      t := BoolTree(true);
    } else if c == 102 {
      WordRead(s, FALSE_TEXT);
      t := BoolTree(false);
    } else if c == QUOTE {
      Uncons(s);
      var cs := CharsRead(s[1..]);
      t := StringTree(cs);
    } else if c == LBRACE {
      t := ObjectRead(s);
    } else if c == LBRACKET {
      t := ArrayRead(s);
    } else {
      var n := NumeralRead(s);
      t := NumberTree(n);
    }
  }

  lemma WordRead(s: seq<byte>, word: seq<byte>)
    requires word <= s
    ensures s == word + s[|word|..]
  {
  }

  lemma {:induction false} ArrayRead(s: seq<byte>) returns (t: Tree)
    requires Head(s) == LBRACKET && ParseArray(s).Ok?
    ensures TreeOk(t) && t.ArrayTree? && s == TreeText(t, ParseArray(s).rest) && TreeValue(t) == ParseArray(s).value
    decreases |s|, 0
  {
    Uncons(s);
    var gap := LeadingSpace(s[1..]);
    var u := SkipWs(s[1..]);
    if Head(u) == RBRACKET {
      Uncons(u);
      t := ArrayTree(gap, []);
    } else {
      var items := ItemsRead(u);
      t := ArrayTree(gap, items);
    }
  }

  lemma {:induction false} ItemsRead(s: seq<byte>) returns (items: seq<Item>)
    requires ParseElements(s).Ok?
    ensures items != [] && forall i | 0 <= i < |items| :: ItemOk(items[i])
    ensures s == ItemsText(items, ParseElements(s).rest) && ItemValues(items) == ParseElements(s).value
    decreases |s|, 2
  {
    var t := TreeRead(s);
    var after := LeadingSpace(ParseValue(s).rest);
    var u := SkipWs(ParseValue(s).rest);
    Uncons(u);
    if Head(u) == COMMA {
      var next := LeadingSpace(u[1..]);
      var more := ItemsRead(SkipWs(u[1..]));
      items := MoreItems(Item(t, after, next), more, ParseElements(s).rest);
    } else {
      items := [Item(t, after, [])];
      OneItem(items);
    }
  }

  lemma {:induction false} MoreItems(first: Item, more: seq<Item>, rest: seq<byte>) returns (items: seq<Item>)
    requires more != [] && ItemOk(first) && forall i | 0 <= i < |more| :: ItemOk(more[i])
    ensures items == [first] + more && forall i | 0 <= i < |items| :: ItemOk(items[i])
    ensures ItemsText(items, rest) == ItemText(first, [COMMA] + (first.next + ItemsText(more, rest)))
    ensures ItemValues(items) == [TreeValue(first.tree)] + ItemValues(more)
  {
    items := [first] + more;
    assert items[0] == first && items[1..] == more;
  }

  lemma {:induction false} ObjectRead(s: seq<byte>) returns (t: Tree)
    requires Head(s) == LBRACE && ParseObject(s).Ok?
    ensures TreeOk(t) && t.ObjectTree? && s == TreeText(t, ParseObject(s).rest) && TreeValue(t) == ParseObject(s).value
    decreases |s|, 0
  {
    Uncons(s);
    var gap := LeadingSpace(s[1..]);
    var u := SkipWs(s[1..]);
    if Head(u) == RBRACE {
      Uncons(u);
      t := ObjectTree(gap, []);
    } else {
      var entries := EntriesRead(u);
      t := ObjectTree(gap, entries);
    }
  }

  /** A member up to its value, with the white space that follows still to be filled in. */
  lemma {:induction false} EntryRead(s: seq<byte>) returns (e: Entry)
    requires ParseMember(s).Ok?
    ensures var r := ParseMember(s);
            && EntryOk(e) && e.item.next == [] && EntryMember(e) == r.value
            && s == EntryText(e, SkipWs(r.rest)) && !IsSpace(Head(SkipWs(r.rest)))
    decreases |s|, 2
  {
    Uncons(s);
    var name := CharsRead(s[1..]);
    var p := ParseChars(s[1..]).rest;
    var beforeColon := LeadingSpace(p);
    Uncons(SkipWs(p));
    var q := SkipWs(p)[1..];
    var afterColon := LeadingSpace(q);
    var t := TreeRead(SkipWs(q));
    var after := LeadingSpace(ParseValue(SkipWs(q)).rest);
    e := Entry(name, beforeColon, afterColon, Item(t, after, []));
  }

  lemma {:induction false} EntriesRead(s: seq<byte>) returns (es: seq<Entry>)
    requires ParseMembers(s).Ok?
    ensures es != [] && forall i | 0 <= i < |es| :: EntryOk(es[i])
    ensures s == EntriesText(es, ParseMembers(s).rest) && EntryMembers(es) == ParseMembers(s).value
    decreases |s|, 3
  {
    var e := EntryRead(s);
    var u := SkipWs(ParseMember(s).rest);
    Uncons(u);
    if Head(u) == COMMA {
      var next := LeadingSpace(u[1..]);
      var more := EntriesRead(SkipWs(u[1..]));
      es := MoreEntries(e, next, more, ParseMembers(s).rest);
    } else {
      es := [e];
      OneEntry(es);
    }
  }

  lemma {:induction false} MoreEntries(e: Entry, next: seq<byte>, more: seq<Entry>, rest: seq<byte>) returns (es: seq<Entry>)
    requires more != [] && EntryOk(e) && AllSpace(next) && forall i | 0 <= i < |more| :: EntryOk(more[i])
    ensures es == [e.(item := e.item.(next := next))] + more && forall i | 0 <= i < |es| :: EntryOk(es[i])
    ensures EntriesText(es, rest) == EntryText(e, [COMMA] + (next + EntriesText(more, rest)))
    ensures EntryMembers(es) == [EntryMember(e)] + EntryMembers(more)
  {
    var first := e.(item := e.item.(next := next));
    assert ItemOk(e.item);
    assert ItemOk(first.item);
    es := [first] + more;
    assert es[0] == first && es[1..] == more;
    NextUnused(e.item, next, [COMMA] + (next + EntriesText(more, rest)));
  }

  lemma NextUnused(i: Item, next: seq<byte>, rest: seq<byte>)
    ensures ItemText(i.(next := next), rest) == ItemText(i, rest)
  {
  }

  // ---- acceptance ----

  /** The text ends, or a NUL stands for its end. */
  predicate Terminated(end: seq<byte>) { Head(end) == 0 }

  ghost predicate DenotesBefore(d: Document, text: seq<byte>, v: Value, end: seq<byte>) {
    DocumentOk(d) && text == DocumentText(d, end) && Terminated(end) && TreeValue(d.root) == v
  }

  lemma {:induction false} DocumentAccepted(d: Document, end: seq<byte>)
    requires DocumentOk(d) && Terminated(end)
    ensures Parse(DocumentText(d, end)) == Ok(TreeValue(d.root), end)
  {
    var tail := d.after + end;
    var t := TreeText(d.root, tail);
    TextHead(d.root, tail);
    SkipWsDrops(d.before, t);
    SkipWsDrops(d.after, end);
    if d.root.ArrayTree? { ReadArrayTree(d.root, tail); } else { ReadObjectTree(d.root, tail); }
  }

  lemma {:induction false} AcceptedDocument(text: seq<byte>) returns (d: Document)
    requires Parse(text).Ok?
    ensures DenotesBefore(d, text, Parse(text).value, Parse(text).rest)
  {
    var before := LeadingSpace(text);
    var t := SkipWs(text);
    var root;
    if Head(t) == LBRACE { root := ObjectRead(t); } else { root := ArrayRead(t); }
    var rest := if Head(t) == LBRACE then ParseObject(t).rest else ParseArray(t).rest;
    var after := LeadingSpace(rest);
    d := Document(before, root, after);
  }

  /** Acceptance, exactly: a text is read as v if and only if it is, up to its end, a JSON text of
      RFC 4627 within the reader's limits that denotes v. */
  lemma AcceptsExactly(text: seq<byte>, v: Value)
    ensures Parse(text).Ok? && Parse(text).value == v <==> exists d, end :: DenotesBefore(d, text, v, end)
  {
    if Parse(text).Ok? && Parse(text).value == v { var d := AcceptedDocument(text); }
    forall d, end | DenotesBefore(d, text, v, end) ensures Parse(text).Ok? && Parse(text).value == v {
      DocumentAccepted(d, end);
    }
  }

  /** The grammar is unambiguous: one text, one value. */
  lemma OneMeaning(a: Document, b: Document)
    requires DocumentOk(a) && DocumentOk(b) && DocumentText(a, []) == DocumentText(b, [])
    ensures TreeValue(a.root) == TreeValue(b.root)
  {
    DocumentAccepted(a, []);
    DocumentAccepted(b, []);
  }
}
