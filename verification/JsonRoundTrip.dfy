/** Reading undoes printing, in either layout. */
module JsonRoundTrip {
  import opened Sequences
  import opened JsonValue
  import opened JsonGrammar
  import opened JsonRender

  ghost predicate AllSpace(ws: seq<byte>) { forall c | c in ws :: IsSpace(c) }

  lemma {:induction false} SkipWsDrops(ws: seq<byte>, s: seq<byte>)
    requires AllSpace(ws) && !IsSpace(Head(s))
    ensures SkipWs(ws + s) == s
  {
    if ws == [] {
      assert ws + s == s;
    } else {
      assert (ws + s)[1..] == ws[1..] + s;
      SkipWsDrops(ws[1..], s);
    }
  }

  lemma RegroupFour(a: seq<byte>, b: seq<byte>, c: seq<byte>, d: seq<byte>)
    ensures (a + b + c) + d == a + (b + (c + d))
  {
  }

  /** Inside the brackets of a printed container. */
  lemma InsideBrackets(open: byte, body: seq<byte>, gap: seq<byte>, close: byte, rest: seq<byte>)
    ensures (([open] + body + gap + [close]) + rest)[1..] == body + (gap + ([close] + rest))
  {
  }

  lemma FirstAndRest<T>(xs: seq<T>)
    requires xs != []
    ensures xs == [xs[0]] + xs[1..] && (|xs| == 1 ==> xs == [xs[0]])
  {
  }

  lemma LayoutIsSpace(l: Layout, depth: nat)
    requires ValidLayout(l)
    ensures AllSpace(Gap(l, depth)) && AllSpace(AfterColon(l))
  {
  }

  // ---- numbers ----

  lemma {:induction false} DigitsDecimal(n: nat)
    ensures Decimal(Digits(n)) == n
    ensures Digits(n)[0] == ZERO ==> n == 0 && Digits(n) == [ZERO]
  {
    if n >= 10 {
      DigitsDecimal(n / 10);
      var front := Digits(n / 10);
      assert Digits(n)[..|Digits(n)| - 1] == front;
    } else {
      assert Digits(n)[..0] == [];
      assert Decimal(Digits(n)) == Decimal(Digits(n)[..0]) * 10 + DigitValue(Digits(n)[0]);
    }
  }

  /** A character that ends a number: not a digit, a point or an exponent mark. */
  predicate EndsNumber(c: byte) { !IsDigit(c) && c != DOT && c != 101 && c != 69 }

  lemma ReadMagnitude(negative: bool, n: nat, rest: seq<byte>)
    requires FitsInteger(negative, n) && EndsNumber(Head(rest))
    ensures var t := Digits(n) + rest;
            && IsDigit(Head(t)) && IntegerPart(t) == Digits(n) && t[|Digits(n)|..] == rest
            && !OverflowsDouble(negative, Digits(n)) && Decimal(Digits(n)) == n
            && ParseNumberTail(negative, n, IntegerDouble(negative, Digits(n)), rest) == Ok(Integer(if negative then 0 - n else n), rest)
  {
    var ds := Digits(n);
    var t := ds + rest;
    DigitsDecimal(n);
    assert ds[0] in ds && Head(t) == ds[0];
    if ds[0] != ZERO { DigitRunOf(ds, rest); }
  }

  lemma NegativeHead(ds: seq<byte>, rest: seq<byte>)
    ensures var s := ([MINUS] + ds) + rest; Head(s) == MINUS && s[1..] == ds + rest
  {
  }

  lemma ReadInteger(v: int, rest: seq<byte>)
    requires Representable(v) && EndsNumber(Head(rest))
    ensures ParseNumber(RenderInteger(v) + rest) == Ok(Integer(v), rest)
  {
    if v < 0 {
      var n: nat := 0 - v;
      ReadMagnitude(true, n, rest);
      NegativeHead(Digits(n), rest);
      assert ParseNumber(RenderInteger(v) + rest) == ParseNumberTail(true, n, IntegerDouble(true, Digits(n)), rest);
    } else {
      ReadMagnitude(false, v, rest);
      assert ParseNumber(Digits(v) + rest) == ParseNumberTail(false, v, IntegerDouble(false, Digits(v)), rest);
    }
  }

  // ---- strings ----

  lemma HexDigitValue(n: nat)
    requires n < 16
    ensures IsHex(HexDigit(n)) && HexValue(HexDigit(n)) == n
  {
  }

  /** The four-digit escape the writer uses for a control character. */
  lemma ReadControlEscape(c: byte, tail: seq<byte>)
    requires c < 32
    ensures ParseCodePoint([ZERO, ZERO, HexDigit(c / 16), HexDigit(c % 16)] + tail) == Ok(c, tail)
  {
    var s := [ZERO, ZERO, HexDigit(c / 16), HexDigit(c % 16)] + tail;
    HexDigitValue(c / 16);
    HexDigitValue(c % 16);
    assert s[1..] == [ZERO, HexDigit(c / 16), HexDigit(c % 16)] + tail;
    assert s[1..][1..] == [HexDigit(c / 16), HexDigit(c % 16)] + tail;
    assert s[1..][1..][1..] == [HexDigit(c % 16)] + tail;
    assert s[1..][1..][1..][1..] == tail;
    calc {
      ParseHex(s, 4, 0);
      ParseHex(s[1..], 3, 0);
      ParseHex(s[1..][1..], 2, 0);
      ParseHex(s[1..][1..][1..], 1, c / 16);
      ParseHex(tail, 0, c / 16 * 16 + c % 16);
      Ok(c, tail);
    }
  }

  lemma ReadControlChar(c: byte, tail: seq<byte>)
    requires EscapeLetter(c) == LETTER_u
    ensures EscapeChar(c) + tail == [BACKSLASH] + (EscapeChar(c)[1..] + tail)
    ensures ParseEscape(EscapeChar(c)[1..] + tail) == Ok([c], tail)
  {
    var t := EscapeChar(c)[1..] + tail;
    assert t[0] == LETTER_u && t[1..] == [ZERO, ZERO, HexDigit(c / 16), HexDigit(c % 16)] + tail;
    ReadControlEscape(c, tail);
  }

  lemma AfterBackslash(t: seq<byte>)
    ensures var s := [BACKSLASH] + t; Head(s) == BACKSLASH && s[1..] == t
  {
  }

  lemma ReadEscapedChar(c: byte, tail: seq<byte>)
    ensures ParseChars(EscapeChar(c) + tail) == Prepend([c], ParseChars(tail))
  {
    var e := EscapeLetter(c);
    if e == 0 {
      assert (EscapeChar(c) + tail)[1..] == tail;
    } else if e == LETTER_u {
      ReadControlChar(c, tail);
      AfterBackslash(EscapeChar(c)[1..] + tail);
    } else {
      assert EscapeChar(c) + tail == [BACKSLASH] + ([e] + tail);
      AfterBackslash([e] + tail);
      assert ([e] + tail)[1..] == tail;
    }
  }

  lemma {:induction false} ReadChars(str: seq<byte>, rest: seq<byte>)
    ensures ParseChars(Escape(str) + [QUOTE] + rest) == Ok(str, rest)
  {
    if str == [] {
      assert (Escape(str) + [QUOTE] + rest) == [QUOTE] + rest;
    } else {
      var tail := Escape(str[1..]) + [QUOTE] + rest;
      assert Escape(str) + [QUOTE] + rest == EscapeChar(str[0]) + tail;
      ReadEscapedChar(str[0], tail);
      ReadChars(str[1..], rest);
      assert [str[0]] + str[1..] == str;
    }
  }

  lemma ReadQuoted(str: seq<byte>, rest: seq<byte>)
    ensures (Quoted(str) + rest)[1..] == Escape(str) + [QUOTE] + rest
    ensures ParseChars((Quoted(str) + rest)[1..]) == Ok(str, rest)
  {
    assert (Quoted(str) + rest)[1..] == Escape(str) + [QUOTE] + rest;
    ReadChars(str, rest);
  }

  // ---- values ----

  /** Every printed value starts with a character that opens a value. */
  lemma RenderHead(v: Value, l: Layout, depth: nat, rest: seq<byte>)
    requires WellFormed(v)
    ensures var s := Render(v, l, depth); s != [] && Head(s + rest) == s[0]
    ensures var c := Render(v, l, depth)[0];
            !IsSpace(c) && c != RBRACKET && c != 0 &&
            (v.Number? ==> IsDigit(c) || c == MINUS) && (v.String? <==> c == QUOTE) &&
            (v.Array? <==> c == LBRACKET) && (v.Object? <==> c == LBRACE)
  {
    match v
    case Number(data, kinds) =>
      var n := NumberValue(data, kinds);
      var ds := Digits(if n < 0 then -n else n);
      assert ds[0] in ds;
    case _ =>
  }

  /** What may follow a value inside a container or at the root. */
  predicate EndsValue(rest: seq<byte>) { EndsNumber(Head(rest)) }

  lemma {:induction false} ReadValue(v: Value, l: Layout, depth: nat, rest: seq<byte>)
    requires WellFormed(v) && ValidLayout(l) && EndsValue(rest)
    ensures ParseValue(Render(v, l, depth) + rest) == Ok(v, rest)
    decreases v
  {
    var s := Render(v, l, depth) + rest;
    RenderHead(v, l, depth, rest);
    match v
    case Null => assert NULL_TEXT <= s && s[|NULL_TEXT|..] == rest;
    case Bool(b) =>
      assert (if b then TRUE_TEXT else FALSE_TEXT) <= s;
      assert s[|if b then TRUE_TEXT else FALSE_TEXT|..] == rest;
    case Number(data, kinds) =>
      var n: int :| Representable(n) && v == Integer(n);
      AcceptKeepsInteger(n);
      ReadInteger(n, rest);
    case String(str) => ReadQuoted(str, rest);
    case Array(es) => ReadArray(es, l, depth, rest);
    case Object(ms) => ReadObject(ms, l, depth, rest);
  }

  lemma {:induction false} ReadArray(es: seq<Value>, l: Layout, depth: nat, rest: seq<byte>)
    requires WellFormed(Array(es)) && ValidLayout(l)
    ensures ParseArray(Render(Array(es), l, depth) + rest) == Ok(Array(es), rest)
    decreases es, 1
  {
    var s := Render(Array(es), l, depth) + rest;
    if es == [] {
      assert s[1..] == [RBRACKET] + rest;
    } else {
      InsideBrackets(LBRACKET, RenderElements(es, l, depth + 1), Gap(l, depth), RBRACKET, rest);
      ElementsStart(es, l, depth + 1, Gap(l, depth) + ([RBRACKET] + rest));
      LayoutIsSpace(l, depth);
      ReadElements(es, l, depth + 1, Gap(l, depth), rest);
    }
  }

  lemma ConsConcat(c: byte, s: seq<byte>, tail: seq<byte>)
    ensures ([c] + s) + tail == [c] + (s + tail)
  {
  }

  /** What follows the first element of a printed list. */
  function ElementsAfter(es: seq<Value>, l: Layout, depth: nat, tail: seq<byte>): seq<byte>
    requires es != []
  {
    if |es| == 1 then tail else [COMMA] + (RenderElements(es[1..], l, depth) + tail)
  }

  lemma {:induction false} ElementsShape(es: seq<Value>, l: Layout, depth: nat, tail: seq<byte>)
    requires es != []
    ensures RenderElements(es, l, depth) + tail
         == Gap(l, depth) + (Render(es[0], l, depth) + ElementsAfter(es, l, depth, tail))
  {
    var more := if |es| == 1 then [] else [COMMA] + RenderElements(es[1..], l, depth);
    RegroupFour(Gap(l, depth), Render(es[0], l, depth), more, tail);
    if |es| > 1 { ConsConcat(COMMA, RenderElements(es[1..], l, depth), tail); }
  }

  /** White space, a closing character c and the rest. */
  lemma ClosingTail(gap: seq<byte>, c: byte, rest: seq<byte>)
    requires AllSpace(gap) && !IsSpace(c) && EndsNumber(c)
    ensures var tail := gap + ([c] + rest);
            EndsValue(tail) && SkipWs(tail) == [c] + rest && ([c] + rest)[1..] == rest
  {
    SkipWsDrops(gap, [c] + rest);
    if gap == [] { assert gap + ([c] + rest) == [c] + rest; }
  }

  lemma LastElement(t: seq<byte>, v: Value, gap: seq<byte>, rest: seq<byte>)
    requires AllSpace(gap) && ParseValue(t) == Ok(v, gap + ([RBRACKET] + rest))
    ensures ParseElements(t) == Ok([v], rest)
  {
    ClosingTail(gap, RBRACKET, rest);
  }

  lemma NextElement(t: seq<byte>, v: Value, u: seq<byte>, vs: seq<Value>, rest: seq<byte>)
    requires ParseValue(t) == Ok(v, [COMMA] + u) && ParseElements(SkipWs(u)) == Ok(vs, rest)
    ensures ParseElements(t) == Ok([v] + vs, rest)
  {
    assert ([COMMA] + u)[1..] == u;
  }

  /** Leading white space gone, a printed list starts with its first element. */
  function ElementsText(es: seq<Value>, l: Layout, depth: nat, tail: seq<byte>): seq<byte>
    requires es != []
  {
    Render(es[0], l, depth) + ElementsAfter(es, l, depth, tail)
  }

  lemma ElementsStart(es: seq<Value>, l: Layout, depth: nat, tail: seq<byte>)
    requires es != [] && WellFormed(es[0]) && ValidLayout(l)
    ensures var t := ElementsText(es, l, depth, tail);
            SkipWs(RenderElements(es, l, depth) + tail) == t && Head(t) != RBRACKET
  {
    ElementsShape(es, l, depth, tail);
    LayoutIsSpace(l, depth);
    RenderHead(es[0], l, depth, ElementsAfter(es, l, depth, tail));
    SkipWsDrops(Gap(l, depth), ElementsText(es, l, depth, tail));
  }

  lemma {:induction false} ReadElements(es: seq<Value>, l: Layout, depth: nat,
                                        gap: seq<byte>, rest: seq<byte>)
    requires es != [] && (forall e | e in es :: WellFormed(e)) && ValidLayout(l) && AllSpace(gap)
    ensures ParseElements(ElementsText(es, l, depth, gap + ([RBRACKET] + rest))) == Ok(es, rest)
    decreases es, 0
  {
    var tail := gap + ([RBRACKET] + rest);
    ClosingTail(gap, RBRACKET, rest);
    ReadValue(es[0], l, depth, ElementsAfter(es, l, depth, tail));
    var t := ElementsText(es, l, depth, tail);
    FirstAndRest(es);
    if |es| == 1 {
      LastElement(t, es[0], gap, rest);
    } else {
      ElementsStart(es[1..], l, depth, tail);
      ReadElements(es[1..], l, depth, gap, rest);
      NextElement(t, es[0], RenderElements(es[1..], l, depth) + tail, es[1..], rest);
    }
  }

  lemma {:induction false} ReadObject(ms: seq<Member>, l: Layout, depth: nat, rest: seq<byte>)
    requires WellFormed(Object(ms)) && ValidLayout(l)
    ensures ParseObject(Render(Object(ms), l, depth) + rest) == Ok(Object(ms), rest)
    decreases ms, 2
  {
    var s := Render(Object(ms), l, depth) + rest;
    if ms == [] {
      assert s[1..] == [RBRACE] + rest;
    } else {
      InsideBrackets(LBRACE, RenderMembers(ms, l, depth + 1), Gap(l, depth), RBRACE, rest);
      MembersStart(ms, l, depth + 1, Gap(l, depth) + ([RBRACE] + rest));
      LayoutIsSpace(l, depth);
      ReadMembers(ms, l, depth + 1, Gap(l, depth), rest);
    }
  }

  /** A printed member is a quoted name, a colon and, after white space, a printed value. */
  lemma MemberShape(m: Member, l: Layout, depth: nat, rest: seq<byte>)
    ensures RenderMember(m, l, depth) + rest
         == Quoted(m.name) + ([COLON] + (AfterColon(l) + (Render(m.value, l, depth) + rest)))
    ensures Head(RenderMember(m, l, depth) + rest) == QUOTE
  {
  }

  lemma {:induction false} ReadMember(m: Member, l: Layout, depth: nat, rest: seq<byte>)
    requires WellFormed(m.value) && ValidLayout(l) && EndsValue(rest)
    ensures ParseMember(RenderMember(m, l, depth) + rest) == Ok(m, rest)
    decreases m
  {
    var text := Render(m.value, l, depth) + rest;
    var tail := [COLON] + (AfterColon(l) + text);
    MemberShape(m, l, depth, rest);
    ReadQuoted(m.name, tail);
    assert tail[1..] == AfterColon(l) + text;
    RenderHead(m.value, l, depth, rest);
    LayoutIsSpace(l, depth);
    SkipWsDrops(AfterColon(l), text);
    ReadValue(m.value, l, depth, rest);
  }

  function MembersAfter(ms: seq<Member>, l: Layout, depth: nat, tail: seq<byte>): seq<byte>
    requires ms != []
  {
    if |ms| == 1 then tail else [COMMA] + (RenderMembers(ms[1..], l, depth) + tail)
  }

  lemma {:induction false} MembersShape(ms: seq<Member>, l: Layout, depth: nat, tail: seq<byte>)
    requires ms != []
    ensures RenderMembers(ms, l, depth) + tail
         == Gap(l, depth) + (RenderMember(ms[0], l, depth) + MembersAfter(ms, l, depth, tail))
  {
    var more := if |ms| == 1 then [] else [COMMA] + RenderMembers(ms[1..], l, depth);
    RegroupFour(Gap(l, depth), RenderMember(ms[0], l, depth), more, tail);
    if |ms| > 1 { ConsConcat(COMMA, RenderMembers(ms[1..], l, depth), tail); }
  }

  lemma LastMember(t: seq<byte>, m: Member, gap: seq<byte>, rest: seq<byte>)
    requires AllSpace(gap) && ParseMember(t) == Ok(m, gap + ([RBRACE] + rest))
    ensures ParseMembers(t) == Ok([m], rest)
  {
    ClosingTail(gap, RBRACE, rest);
  }

  lemma NextMember(t: seq<byte>, m: Member, u: seq<byte>, ms: seq<Member>, rest: seq<byte>)
    requires ParseMember(t) == Ok(m, [COMMA] + u) && ParseMembers(SkipWs(u)) == Ok(ms, rest)
    ensures ParseMembers(t) == Ok([m] + ms, rest)
  {
    assert ([COMMA] + u)[1..] == u;
  }

  function MembersText(ms: seq<Member>, l: Layout, depth: nat, tail: seq<byte>): seq<byte>
    requires ms != []
  {
    RenderMember(ms[0], l, depth) + MembersAfter(ms, l, depth, tail)
  }

  lemma MembersStart(ms: seq<Member>, l: Layout, depth: nat, tail: seq<byte>)
    requires ms != [] && ValidLayout(l)
    ensures var t := MembersText(ms, l, depth, tail);
            SkipWs(RenderMembers(ms, l, depth) + tail) == t && Head(t) != RBRACE
  {
    MembersShape(ms, l, depth, tail);
    LayoutIsSpace(l, depth);
    MemberShape(ms[0], l, depth, MembersAfter(ms, l, depth, tail));
    SkipWsDrops(Gap(l, depth), MembersText(ms, l, depth, tail));
  }

  lemma {:induction false} ReadMembers(ms: seq<Member>, l: Layout, depth: nat,
                                       gap: seq<byte>, rest: seq<byte>)
    requires ms != [] && (forall m | m in ms :: WellFormed(m.value)) && ValidLayout(l) && AllSpace(gap)
    ensures ParseMembers(MembersText(ms, l, depth, gap + ([RBRACE] + rest))) == Ok(ms, rest)
    decreases ms, 1
  {
    var tail := gap + ([RBRACE] + rest);
    ClosingTail(gap, RBRACE, rest);
    ReadMember(ms[0], l, depth, MembersAfter(ms, l, depth, tail));
    var t := MembersText(ms, l, depth, tail);
    FirstAndRest(ms);
    if |ms| == 1 {
      LastMember(t, ms[0], gap, rest);
    } else {
      MembersStart(ms[1..], l, depth, tail);
      ReadMembers(ms[1..], l, depth, gap, rest);
      NextMember(t, ms[0], RenderMembers(ms[1..], l, depth) + tail, ms[1..], rest);
    }
  }

  /** The round trip: any tree of constructed values with a container at the root, printed by
      either writer, is read back as exactly that tree. */
  lemma RoundTrip(v: Value, l: Layout)
    requires WellFormed(v) && (v.Array? || v.Object?) && ValidLayout(l)
    ensures Parse(Render(v, l, 0)) == Ok(v, [])
  {
    var s := Render(v, l, 0);
    assert s + [] == s;
    RenderHead(v, l, 0, []);
    if v.Array? { ReadArray(v.elements, l, 0, []); } else { ReadObject(v.members, l, 0, []); }
  }

  /** Both writers' texts mean the same tree. */
  lemma LayoutsAgree(v: Value, indentChar: byte, indentCount: nat)
    requires WellFormed(v) && (v.Array? || v.Object?) && IsSpace(indentChar)
    ensures Parse(Render(v, Pretty(indentChar, indentCount), 0)) == Parse(Render(v, Compact, 0))
  {
    RoundTrip(v, Pretty(indentChar, indentCount));
    RoundTrip(v, Compact);
  }
}
