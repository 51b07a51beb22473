/** The characters of the JSON texts by their names in RFC 4627, and what numbers and layouts come to:
    the tables of the reader and the writer (src/3rdparty/rapidjson/reader.h, writer.h, prettywriter.h)
    said without them. */
module JsonCharacters {
  import opened Sequences
  import opened JsonValue
  import opened JsonDouble
  import opened JsonGrammar
  import opened JsonRender
  import opened JsonRoundTrip
  import opened JsonProperties
  import opened JsonSyntax
  import opened JsonAcceptance

  predicate IsAscii(s: string) { forall i | 0 <= i < |s| :: Code(s[i]) < 128 }

  /** The bytes of an ASCII text. */
  function Ascii(s: string): seq<byte>
    requires IsAscii(s)
  {
    seq(|s|, i requires 0 <= i < |s| => Code(s[i]))
  }

  /** The structural characters, the words and the escape letters (sections 2 to 2.5). */
  lemma StructuralCharacters()
    ensures [LBRACKET, LBRACE, RBRACKET, RBRACE, COLON, COMMA] == Ascii("[{]}:,")
    ensures [QUOTE, BACKSLASH, LETTER_u, MINUS, PLUS, DOT, ZERO] == Ascii("\"\\u-+.0")
    ensures FALSE_TEXT == Ascii("false") && NULL_TEXT == Ascii("null") && TRUE_TEXT == Ascii("true")
  {
  }

  lemma SpaceCharacters(c: byte)
    ensures IsSpace(c) <==> c in Ascii(" \t\n\r")
  {
    var ws := Ascii(" \t\n\r");
    assert ws == [32, 9, 10, 13];
  }

  /** A decimal digit by its position among the digits. */
  lemma DigitCharacters(c: byte, n: nat)
    requires n < 10
    ensures IsDigit(c) && DigitValue(c) == n <==> c == Code("0123456789"[n])
  {
  }

  lemma ExponentCharacters(s: seq<byte>)
    ensures StartsExponent(s) <==> s != [] && s[0] in Ascii("eE")
  {
    assert Ascii("eE") == [101, 69];
  }

  /** What the one-letter escapes stand for; no other letter is one. */
  lemma EscapesRead(e: byte)
    ensures [Unescape(Code('"')), Unescape(Code('\\')), Unescape(Code('/'))] == Ascii("\"\\/")
    ensures [Unescape(Code('b')), Unescape(Code('f')), Unescape(Code('n')), Unescape(Code('r')), Unescape(Code('t'))]
         == [0x8, 0xC, 0xA, 0xD, 0x9]
    ensures Unescape(e) != 0 <==> e in Ascii("\"\\/bfnrt")
  {
    assert Ascii("\"\\/bfnrt") == [34, 92, 47, 98, 102, 110, 114, 116];
  }

  /** Exactly the quote, the backslash and the control characters are escaped when written. */
  lemma EscapesWritten(c: byte)
    ensures EscapeLetter(c) != 0 <==> c < 0x20 || c == Code('"') || c == Code('\\')
    ensures EscapeLetter(c) == LETTER_u ==>
              EscapeChar(c) == [Code('\\'), Code('u'), Code('0'), Code('0'), Code("0123456789ABCDEF"[c / 16]), Code("0123456789ABCDEF"[c % 16])]
    ensures EscapeLetter(c) == 0 ==> EscapeChar(c) == [c]
  {
  }

  // ---- numbers ----

  /** A digit string denotes the sum of its digits times powers of ten. */
  lemma {:induction false} DecimalSum(ds: seq<byte>)
    requires DigitsOnly(ds) && ds != []
    ensures Decimal(ds) == DigitValue(ds[0]) * Pow10(|ds| - 1) + Decimal(ds[1..])
  {
    var front, n := ds[..|ds| - 1], |ds| - 1;
    assert ds[0] in ds && ds[n] in ds;
    if n == 0 {
      assert front == [] && ds[1..] == [] && Pow10(0) == 1;
    } else {
      DecimalSum(front);
      assert ds[1..][..n - 1] == front[1..] && ds[1..][n - 1] == ds[n];
      assert Pow10(n) == 10 * Pow10(n - 1);
      TimesTen(DigitValue(ds[0]), Pow10(n - 1));
    }
  }

  lemma TimesTen(a: nat, p: nat)
    ensures a * (10 * p) == 10 * (a * p)
  {
  }

  /** Below 2^53 nothing is rounded. */
  lemma {:induction false} SmallExact(d: nat, ds: seq<byte>)
    requires DigitsOnly(ds) && AppendDigits(d, ds) < TWO_TO_53
    ensures AccumulateDouble(d, ds) == AppendDigits(d, ds)
  {
    if ds != [] { SmallExact(d, ds[..|ds| - 1]); }
  }

  lemma {:induction false} AppendConcat(n: nat, a: seq<byte>, b: seq<byte>)
    requires DigitsOnly(a) && DigitsOnly(b)
    ensures DigitsOnly(a + b) && AppendDigits(n, a + b) == AppendDigits(AppendDigits(n, a), b)
    decreases |b|
  {
    if b == [] {
      assert a + b == a;
    } else {
      assert (a + b)[..|a + b| - 1] == a + b[..|b| - 1];
      AppendConcat(n, a, b[..|b| - 1]);
    }
  }

  /** A number with a fraction of at most sixteen digits, below 2^53 without its point: exactly the
      digits written, times ten to the written exponent less one for each fraction digit. */
  lemma {:induction false} FractionExact(n: Numeral, rest: seq<byte>)
    requires NumeralOk(n) && WithinLimits(n) && EndsNumber(Head(rest)) && 0 < |n.fraction| <= 16
    requires DigitsOnly(n.int_ + n.fraction) && Decimal(n.int_ + n.fraction) < TWO_TO_53
    ensures var power := if n.exponent.NoExponent? then 0
                         else if n.exponent.sign == [Code('-')] then 0 - Decimal(n.exponent.digits)
                         else Decimal(n.exponent.digits);
            var r := ParseNumber(NumeralText(n, rest));
            && r.Ok? && r.rest == rest && r.value.Double? && r.value.negative == n.minus
            && r.value.mantissa == Decimal(n.int_ + n.fraction) && r.value.exponent == power - |n.fraction|
  {
    ReadNumeral(n, rest);
    DoubleValue(n);
    MantissaExact(n);
  }

  lemma {:induction false} MantissaExact(n: Numeral)
    requires NumeralOk(n) && 0 < |n.fraction| <= 16
    requires DigitsOnly(n.int_ + n.fraction) && Decimal(n.int_ + n.fraction) < TWO_TO_53
    ensures Mantissa(IntegerDouble(n.minus, n.int_), n.fraction) == Decimal(n.int_ + n.fraction)
  {
    var whole := Decimal(n.int_);
    AppendConcat(0, n.int_, n.fraction);
    WholeBelow(whole, n.fraction);
    SmallExact(whole, n.fraction);
    SmallInteger(n.minus, n.int_);
  }

  lemma {:induction false} SmallInteger(negative: bool, ds: seq<byte>)
    requires DigitsOnly(ds) && Decimal(ds) < TWO_TO_53
    ensures IntegerDouble(negative, ds) == Decimal(ds)
  {
  }

  lemma {:induction false} WholeBelow(d: nat, ds: seq<byte>)
    requires DigitsOnly(ds)
    ensures d <= AppendDigits(d, ds)
  {
    if ds != [] { WholeBelow(d, ds[..|ds| - 1]); }
  }

  /** Fraction digits beyond the sixteenth change nothing. */
  lemma {:induction false} FractionCut(n: Numeral, more: seq<byte>)
    requires NumeralOk(n) && |n.fraction| == 16 && DigitsOnly(n.fraction + more)
    ensures NumeralValue(n.(fraction := n.fraction + more)) == NumeralValue(n)
  {
    var longer := n.(fraction := n.fraction + more);
    assert (n.fraction + more)[..16] == n.fraction;
    assert n.fraction + [] == n.fraction;
    assert FractionDigits(n.fraction + more) == FractionDigits(n.fraction);
    DoubleValue(n);
    DoubleValue(longer);
  }

  // ---- layouts ----

  /** A line break in the indenting layout: a line feed and, for each level, the given number of
      indent characters; the compact layout has none of it. */
  lemma LineBreaks(c: byte, count: nat, depth: nat)
    ensures var gap := Gap(Pretty(c, count), depth);
            |gap| == 1 + depth * count && gap[0] == Code('\n') && forall i | 1 <= i < |gap| :: gap[i] == c
    ensures AfterColon(Pretty(c, count)) == Ascii(" ")
    ensures Gap(Compact, depth) == [] && AfterColon(Compact) == []
  {
  }
}
