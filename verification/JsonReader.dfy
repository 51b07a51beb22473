/** GenericReader (src/3rdparty/rapidjson/reader.h): a cursor over a NUL-terminated text that
    raises events on a document. Take never runs past the terminator: its precondition is proved
    at every call. An error is a returned outcome instead of a longjmp. */
module JsonReader {
  import opened Sequences
  import opened JsonValue
  import opened JsonDouble
  import opened JsonDocument
  import G = JsonGrammar

  datatype Outcome = Success | Failed(error: G.Error)

  function OutcomeOf<T>(r: G.Parsed<T>): Outcome {
    if r.Ok? then Success else Failed(r.error)
  }

  // ---- digits ----

  lemma DecimalAppend(ds: seq<byte>, c: byte)
    requires G.DigitsOnly(ds) && G.IsDigit(c)
    ensures G.DigitsOnly(ds + [c]) && G.Decimal(ds + [c]) == G.Decimal(ds) * 10 + G.DigitValue(c)
  {
    assert (ds + [c])[..|ds|] == ds;
  }

  lemma OneMoreByte(text: seq<byte>, start: nat, end: nat)
    requires start <= end < |text|
    ensures text[start..end + 1] == text[start..end] + [text[end]]
  {
  }

  /** One more digit of the text. */
  lemma {:induction false} SliceNext(text: seq<byte>, start: nat, end: nat)
    requires start <= end < |text| && G.DigitsOnly(text[start..end]) && G.IsDigit(text[end])
    ensures G.DigitsOnly(text[start..end + 1])
    ensures G.Decimal(text[start..end + 1]) == G.Decimal(text[start..end]) * 10 + G.DigitValue(text[end])
  {
    DecimalAppend(text[start..end], text[end]);
    OneMoreByte(text, start, end);
  }

  lemma {:induction false} DecimalGrows(ds: seq<byte>, more: seq<byte>)
    requires G.DigitsOnly(ds) && G.DigitsOnly(more)
    ensures G.DigitsOnly(ds + more) && G.Decimal(ds) <= G.Decimal(ds + more)
  {
    if more == [] {
      assert ds + more == ds;
    } else {
      var front := more[..|more| - 1];
      DecimalGrows(ds, front);
      assert ds + more == (ds + front) + [more[|more| - 1]];
      DecimalAppend(ds + front, more[|more| - 1]);
    }
  }

  /** The digits from start to end are a whole run. */
  lemma RunEnds(text: seq<byte>, start: nat, end: nat)
    requires start <= end <= |text| && G.DigitsOnly(text[start..end]) && !G.IsDigit(G.Head(text[end..]))
    ensures G.DigitRun(text[start..]) == text[start..end]
    ensures text[start..][|text[start..end]|..] == text[end..]
  {
    assert text[start..] == text[start..end] + text[end..];
    G.DigitRunOf(text[start..end], text[end..]);
  }

  lemma SplitRun(text: seq<byte>, start: nat, end: nat, n: nat)
    requires start <= end <= |text| && n <= |text[end..]|
    ensures text[start..] == (text[start..end] + text[end..][..n]) + text[end..][n..]
  {
  }

  /** The digits from start to end are the beginning of a run. */
  lemma {:induction false} RunContains(text: seq<byte>, start: nat, end: nat)
    requires start <= end <= |text| && G.DigitsOnly(text[start..end])
    ensures var run := G.DigitRun(text[start..]);
            && text[start..end] <= run && G.Decimal(text[start..end]) <= G.Decimal(run)
  {
    var more := G.DigitRun(text[end..]);
    var tail := text[end..][|more|..];
    SplitRun(text, start, end, |more|);
    DecimalGrows(text[start..end], more);
    G.DigitRunOf(text[start..end] + more, tail);
  }

  /** A digit string that goes on past mid denotes at least what mid and one more digit denote. */
  lemma SliceGrows(text: seq<byte>, start: nat, mid: nat, end: nat)
    requires start <= mid < end <= |text| && G.DigitsOnly(text[start..end])
    ensures G.DigitsOnly(text[start..mid]) && G.IsDigit(text[mid])
    ensures G.Decimal(text[start..mid]) * 10 + G.DigitValue(text[mid]) <= G.Decimal(text[start..end])
  {
    var ds := text[start..end];
    assert text[start..mid] == ds[..mid - start] && text[mid] == ds[mid - start];
    assert ds == (text[start..mid] + [text[mid]]) + text[mid + 1..end];
    DecimalAppend(text[start..mid], text[mid]);
    DecimalGrows(text[start..mid] + [text[mid]], text[mid + 1..end]);
  }

  /** Magnitudes the 32-bit paths hold. */
  predicate Fits32(negative: bool, n: nat) {
    if negative then n <= 0x8000_0000 else n < 0x1_0000_0000
  }

  /** How far the three digit loops got: a 32-bit value, a 64-bit value or a double. */
  datatype Scan = In32(i: uint32) | In64(i64: uint64) | AsDouble(d: nat) | TooBig

  /** What the digit loops have to deliver for the digits ds. */
  predicate ScanSpec(negative: bool, ds: seq<byte>, r: Scan)
    requires G.DigitsOnly(ds)
  {
    var n := G.Decimal(ds);
    match r
    case In32(i) => i == n && Fits32(negative, n)
    case In64(i) => i == n && !Fits32(negative, n) && G.FitsInteger(negative, n)
    case AsDouble(d) => d == G.IntegerDouble(negative, ds) && !G.FitsInteger(negative, n) && !G.OverflowsDouble(negative, ds)
    case TooBig => G.OverflowsDouble(negative, ds)
  }

  lemma {:induction false} FractionStep(negative: bool, n: nat, s: seq<byte>, run: seq<byte>)
    requires run == G.DigitRun(s) && run != []
    ensures G.ParseFraction(negative, n, s) ==
            G.ParseExponent(negative, G.Mantissa(n, run), G.Shift(run), s[|run|..])
  {
  }

  lemma {:induction false} FractionIs(negative: bool, n: nat, text: seq<byte>, start: nat, end: nat, d: nat, expFrac: int)
    requires start < end <= |text|
    requires G.DigitsOnly(text[start..end]) && !G.IsDigit(G.Head(text[end..]))
    requires d == G.Mantissa(n, text[start..end]) && expFrac == G.Shift(text[start..end])
    ensures G.ParseFraction(negative, n, text[start..]) == G.ParseExponent(negative, d, expFrac, text[end..])
  {
    RunEnds(text, start, end);
    FractionStep(negative, n, text[start..], text[start..end]);
  }

  /** The fraction digits from start to end are in the accumulator. */
  predicate InFraction(text: seq<byte>, start: nat, end: nat, n: nat, d: nat, expFrac: int)
    requires start <= end <= |text|
  {
    var run := text[start..end];
    G.DigitsOnly(run) && d == G.Mantissa(n, run) && expFrac == G.Shift(run)
  }

  lemma {:induction false} InFractionNext(text: seq<byte>, start: nat, end: nat, n: nat, d: nat, expFrac: int)
    requires start <= end < |text| && InFraction(text, start, end, n, d, expFrac) && G.IsDigit(text[end])
    ensures if expFrac > -16 then InFraction(text, start, end + 1, n, G.DoubleStep(d, text[end]), expFrac - 1)
            else InFraction(text, start, end + 1, n, d, expFrac)
  {
    OneMoreByte(text, start, end);
    MantissaAppend(n, text[start..end], text[end]);
  }

  lemma {:induction false} MantissaAppend(n: nat, run: seq<byte>, c: byte)
    requires G.DigitsOnly(run) && G.IsDigit(c)
    ensures G.DigitsOnly(run + [c])
    ensures |run| < 16 ==> G.Mantissa(n, run + [c]) == G.DoubleStep(G.Mantissa(n, run), c) && G.Shift(run + [c]) == G.Shift(run) - 1
    ensures |run| >= 16 ==> G.Mantissa(n, run + [c]) == G.Mantissa(n, run) && G.Shift(run + [c]) == -16 == G.Shift(run)
  {
    assert (run + [c])[..|run|] == run;
    if |run| >= 16 { assert (run + [c])[..16] == run[..16]; }
  }

  /** What the digit loops know about the digits from start to end. */
  predicate ScannedSlice(negative: bool, text: seq<byte>, start: nat, end: nat, r: Scan)
    requires start < end <= |text|
  {
    && G.DigitsOnly(text[start..end])
    && var n := G.Decimal(text[start..end]);
       match r
       case In32(i) => i == n && Fits32(negative, n) && !G.IsDigit(G.Head(text[end..]))
       case In64(i) => i == n && !Fits32(negative, n) && G.FitsInteger(negative, n)
                       && !G.IsDigit(G.Head(text[end..]))
       case AsDouble(d) => d == G.IntegerDouble(negative, text[start..end]) && !G.FitsInteger(negative, n)
                           && !G.IsDigit(G.Head(text[end..])) && !G.OverflowsDouble(negative, text[start..end])
       case TooBig => TooBigAt(negative, text, start, end)
  }

  lemma ScannedRun(negative: bool, text: seq<byte>, start: nat, end: nat, r: Scan)
    requires start < end <= |text| && ScannedSlice(negative, text, start, end, r)
    ensures ScanSpec(negative, G.DigitRun(text[start..]), r)
    ensures !r.TooBig? ==> end == start + |G.DigitRun(text[start..])|
  {
    if r.TooBig? {
      OverflowingRun(negative, text, start, end + 1);
    } else {
      RunEnds(text, start, end);
    }
  }

  /** The digits from start to end are in the double accumulator, and one more does not fit 64 bits. */
  predicate InDouble(negative: bool, text: seq<byte>, start: nat, end: nat, d: nat)
    requires start <= end <= |text|
  {
    var ds := text[start..end];
    && G.DigitsOnly(ds) && d == G.IntegerDouble(negative, ds) && !G.OverflowsDouble(negative, ds)
    && (end < |text| && G.IsDigit(text[end]) ==> !G.FitsInteger(negative, G.Decimal(ds) * 10 + G.DigitValue(text[end])))
  }

  predicate Past64(negative: bool, text: seq<byte>, start: nat, end: nat)
    requires start <= end <= |text|
  {
    G.DigitsOnly(text[start..end]) && !G.FitsInteger(negative, G.Decimal(text[start..end]))
  }

  /** The accumulator is too big already and another digit follows. */
  predicate TooBigAt(negative: bool, text: seq<byte>, start: nat, end: nat)
    requires start <= end <= |text|
  {
    end < |text| && G.DigitsOnly(text[start..end + 1]) && G.OverflowsDouble(negative, text[start..end + 1])
  }

  /** The integer part one digit further. */
  lemma {:induction false} InDoubleNext(negative: bool, text: seq<byte>, start: nat, end: nat, d: nat)
    requires start <= end < |text| && InDouble(negative, text, start, end, d) && G.IsDigit(text[end])
    ensures if d >= G.DOUBLE_1E307
            then TooBigAt(negative, text, start, end)
            else InDouble(negative, text, start, end + 1, G.DoubleStep(d, text[end])) && Past64(negative, text, start, end + 1)
  {
    OneMoreByte(text, start, end);
    IntegerDoubleAppend(negative, text[start..end], text[end]);
  }

  /** 64 bits are full: the conversion to a double. */
  lemma {:induction false} IntoDouble(negative: bool, text: seq<byte>, start: nat, end: nat, i64: uint64)
    requires start < end < |text| && G.DigitsOnly(text[start..end]) && G.IsDigit(text[end])
    requires i64 == G.Decimal(text[start..end]) && G.FitsInteger(negative, i64)
    requires !G.FitsInteger(negative, i64 * 10 + G.DigitValue(text[end]))
    ensures InDouble(negative, text, start, end, RoundDouble(i64))
  {
  }

  lemma {:induction false} IntegerDoubleAppend(negative: bool, ds: seq<byte>, c: byte)
    requires G.DigitsOnly(ds) && G.IsDigit(c)
    requires !G.FitsInteger(negative, G.Decimal(ds) * 10 + G.DigitValue(c))
    ensures G.DigitsOnly(ds + [c]) && !G.FitsInteger(negative, G.Decimal(ds + [c]))
    ensures G.IntegerDouble(negative, ds + [c]) == G.DoubleStep(G.IntegerDouble(negative, ds), c)
    ensures G.OverflowsDouble(negative, ds + [c])
       <==> G.OverflowsDouble(negative, ds) || G.IntegerDouble(negative, ds) >= G.DOUBLE_1E307
  {
    DecimalAppend(ds, c);
    assert (ds + [c])[..|ds|] == ds;
  }

  /** Once too big, always too big. */
  lemma {:induction false} OverflowGrows(negative: bool, ds: seq<byte>, more: seq<byte>)
    requires G.DigitsOnly(ds) && G.DigitsOnly(more) && G.OverflowsDouble(negative, ds)
    ensures G.DigitsOnly(ds + more) && G.OverflowsDouble(negative, ds + more)
    decreases |more|
  {
    if more == [] {
      assert ds + more == ds;
    } else {
      var front := more[..|more| - 1];
      OverflowGrows(negative, ds, front);
      DecimalGrows(ds, more);
      assert (ds + more)[..|ds + more| - 1] == ds + front;
    }
  }

  lemma {:induction false} OverflowingRun(negative: bool, text: seq<byte>, start: nat, end: nat)
    requires start <= end <= |text| && G.DigitsOnly(text[start..end]) && G.OverflowsDouble(negative, text[start..end])
    ensures G.OverflowsDouble(negative, G.DigitRun(text[start..]))
  {
    RunContains(text, start, end);
    var run, k := G.DigitRun(text[start..]), |text[start..end]|;
    OverflowGrows(negative, text[start..end], run[k..]);
    assert run == text[start..end] + run[k..];
  }

  /** The value a scan stands for. */
  predicate ScanValue(negative: bool, n: nat, m: nat, r: Scan) {
    match r
    case In32(i) => i == n && Fits32(negative, n) && m == RoundDouble(n)
    case In64(i) => i == n && G.FitsInteger(negative, n) && m == RoundDouble(n)
    case AsDouble(d) => d == m && !G.FitsInteger(negative, n)
    case TooBig => false
  }

  // ---- strings ----

  lemma PrependAgain<T>(xs: seq<T>, x: T, r: G.Parsed<seq<T>>)
    ensures G.Prepend(xs, G.Prepend([x], r)) == G.Prepend(xs + [x], r)
  {
    if r.Ok? { assert xs + ([x] + r.value) == (xs + [x]) + r.value; }
  }

  lemma PrependNothing<T>(r: G.Parsed<seq<T>>)
    ensures G.Prepend([], r) == r
  {
    if r.Ok? { assert [] + r.value == r.value; }
  }

  lemma PrependTwice(a: seq<byte>, b: seq<byte>, r: G.Parsed<seq<byte>>)
    ensures G.Prepend(a, G.Prepend(b, r)) == G.Prepend(a + b, r)
  {
    if r.Ok? { assert a + (b + r.value) == (a + b) + r.value; }
  }

  class Reader {
    const text: seq<byte>
    const doc: Document
    var pos: nat

    constructor (text: seq<byte>, doc: Document)
      ensures this.text == text && this.doc == doc && pos == 0
    {
      this.text, this.doc, pos := text, doc, 0;
    }

    // ---- stream ----

    function Peek(): (c: byte)
      requires pos <= |text|
      reads this
      ensures c == G.Head(text[pos..])
    {
      if pos < |text| then text[pos] else 0
    }

    method Take() returns (c: byte)
      requires pos <= |text|
      modifies this`pos
      ensures pos == old(pos) + 1 && c == G.Head(text[old(pos)..])
      ensures c != 0 ==> pos <= |text| && text[pos..] == text[old(pos)..][1..] && c == text[old(pos)]
    {
      c := Peek();
      pos := pos + 1;
    }

    method SkipWhitespace()
      requires pos <= |text|
      modifies this`pos
      ensures old(pos) <= pos <= |text| && text[pos..] == G.SkipWs(text[old(pos)..])
    {
      while G.IsSpace(Peek())
        invariant old(pos) <= pos <= |text|
        invariant G.SkipWs(text[pos..]) == G.SkipWs(text[old(pos)..])
        decreases |text| - pos
      {
        var _ := Take();
      }
    }

    // ---- literals ----

    /** Take() == a && Take() == b && ...: stops at the first mismatch. */
    method TakeAll(expected: seq<byte>) returns (ok: bool)
      requires pos <= |text| && 0 !in expected
      modifies this`pos
      ensures ok <==> expected <= text[old(pos)..]
      ensures ok ==> pos == old(pos) + |expected| && text[pos..] == text[old(pos)..][|expected|..]
    {
      ghost var s := text[pos..];
      var k := 0;
      while k < |expected|
        invariant 0 <= k <= |expected| && pos == old(pos) + k && pos <= |text|
        invariant expected[..k] == s[..k]
      {
        var c := Take();
        if c != expected[k] { return false; }
        assert expected[..k + 1] == expected[..k] + [c] && s[..k + 1] == s[..k] + [c];
        k := k + 1;
      }
      ok := true;
    }

    method ParseLiteral(expected: seq<byte>, v: Value) returns (o: Outcome)
      requires pos <= |text| && 0 !in expected
      modifies this`pos, doc
      ensures var r := G.ParseLiteral(text[old(pos)..], expected, v);
              o == OutcomeOf(r) &&
              (o.Success? ==> pos <= |text| && text[pos..] == r.rest && doc.stack == old(doc.stack) + [v])
    {
      var ok := TakeAll(expected);
      if ok {
        doc.Push(v);
        o := Success;
      } else {
        o := Failed(G.InvalidLiteral);
      }
    }

    // ---- strings ----

    method ParseHex4() returns (codepoint: nat, o: Outcome)
      requires pos <= |text|
      modifies this`pos
      ensures var r := G.ParseHex(text[old(pos)..], 4, 0);
              o == OutcomeOf(r) &&
              (o.Success? ==> pos <= |text| && text[pos..] == r.rest && codepoint == r.value)
    {
      codepoint := 0;
      var i := 0;
      while i < 4
        invariant 0 <= i <= 4 && pos <= |text|
        invariant G.ParseHex(text[old(pos)..], 4, 0) == G.ParseHex(text[pos..], 4 - i, codepoint)
      {
        var c := Take();
        if !G.IsHex(c) { return codepoint, Failed(G.BadHexDigit); }
        codepoint := codepoint * 16 + G.HexValue(c);
        i := i + 1;
      }
      o := Success;
    }

    method ParseCodePoint() returns (codepoint: nat, o: Outcome)
      requires pos <= |text|
      modifies this`pos
      ensures var r := G.ParseCodePoint(text[old(pos)..]);
              o == OutcomeOf(r) &&
              (o.Success? ==> pos <= |text| && text[pos..] == r.rest && codepoint == r.value)
    {
      codepoint, o := ParseHex4();
      if o.Failed? || !G.IsHighSurrogate(codepoint) { return; }
      var second := TakeAll([G.BACKSLASH, G.LETTER_u]);
      if !second { return codepoint, Failed(G.MissingLowSurrogate); }
      var codepoint2;
      codepoint2, o := ParseHex4();
      if o.Failed? { return; }
      if !G.IsLowSurrogate(codepoint2) { return codepoint, Failed(G.InvalidLowSurrogate); }
      codepoint := G.CombineSurrogates(codepoint, codepoint2);
    }

    method ParseEscape() returns (chars: seq<byte>, o: Outcome)
      requires pos <= |text|
      modifies this`pos
      ensures var r := G.ParseEscape(text[old(pos)..]);
              o == OutcomeOf(r) &&
              (o.Success? ==> pos <= |text| && text[pos..] == r.rest && chars == r.value)
    {
      var e := Take();
      if G.Unescape(e) != 0 {
        return [G.Unescape(e)], Success;
      } else if e == G.LETTER_u {
        var codepoint;
        codepoint, o := ParseCodePoint();
        chars := [];
        if o.Success? { chars := G.Utf8Encode(codepoint); }
      } else {
        return [], Failed(G.UnknownEscape);
      }
    }

    /** Decoded characters go to a buffer first, then to the document as one string. */
    method ParseString() returns (o: Outcome)
      requires pos <= |text| && Peek() == G.QUOTE
      modifies this`pos, doc
      ensures var r := G.ParseChars(text[old(pos)..][1..]);
              o == OutcomeOf(r) &&
              (o.Success? ==> pos <= |text| && text[pos..] == r.rest
                              && doc.stack == old(doc.stack) + [String(r.value)])
    {
      var _ := Take();
      ghost var start := text[pos..];
      var buffer: seq<byte> := [];
      PrependNothing(G.ParseChars(start));
      while true
        invariant pos <= |text| && doc.stack == old(doc.stack)
        invariant G.ParseChars(start) == G.Prepend(buffer, G.ParseChars(text[pos..]))
        decreases |text| - pos
      {
        ghost var here := text[pos..];
        var c := Take();
        if c == G.BACKSLASH {
          var chars;
          chars, o := ParseEscape();
          if o.Failed? { return; }
          PrependTwice(buffer, chars, G.ParseChars(text[pos..]));
          buffer := buffer + chars;
        } else if c == G.QUOTE {
          assert buffer + [] == buffer;
          doc.Push(String(buffer));
          return Success;
        } else if c == 0 {
          return Failed(G.UnterminatedString);
        } else if c < 0x20 {
          return Failed(G.UnescapedControl);
        } else {
          PrependTwice(buffer, [c], G.ParseChars(text[pos..]));
          buffer := buffer + [c];
        }
      }
    }

    // ---- numbers ----

    /** The first loop: a 32-bit accumulator that stops before it would overflow. */
    method Scan32(minus: bool) returns (i: uint32, try64bit: bool)
      requires pos < |text| && G.IsDigit(Peek())
      modifies this`pos
      ensures old(pos) < pos <= |text| && G.DigitsOnly(text[old(pos)..pos])
      ensures i == G.Decimal(text[old(pos)..pos]) && Fits32(minus, i)
      ensures try64bit ==> G.IsDigit(Peek()) && !Fits32(minus, i * 10 + G.DigitValue(Peek()))
      ensures !try64bit ==> !G.IsDigit(Peek())
    {
      ghost var start := pos;
      var c := Take();
      i, try64bit := G.DigitValue(c), false;
      SliceNext(text, start, start);
      var limit, last := if minus then 214748364 else 429496729, if minus then 8 else 5;
      while G.IsDigit(Peek())
        invariant start < pos <= |text| && G.DigitsOnly(text[start..pos])
        invariant i == G.Decimal(text[start..pos]) && Fits32(minus, i) && !try64bit
        decreases |text| - pos
      {
        if i >= limit && (i != limit || G.DigitValue(Peek()) > last) {
          try64bit := true;
          break;
        }
        SliceNext(text, start, pos);
        c := Take();
        i := i * 10 + G.DigitValue(c);
      }
    }

    /** The second loop: the same with 64 bits, continuing from the first. */
    method Scan64(minus: bool, i: uint32, ghost start: nat) returns (i64: uint64, useDouble: bool)
      requires start < pos <= |text| && G.DigitsOnly(text[start..pos])
      requires i == G.Decimal(text[start..pos]) && Fits32(minus, i)
      modifies this`pos
      ensures old(pos) <= pos <= |text| && G.DigitsOnly(text[start..pos])
      ensures i64 == G.Decimal(text[start..pos]) && G.FitsInteger(minus, i64)
      ensures useDouble ==> G.IsDigit(Peek()) && !G.FitsInteger(minus, i64 * 10 + G.DigitValue(Peek()))
      ensures !useDouble ==> !G.IsDigit(Peek())
      ensures G.IsDigit(G.Head(text[old(pos)..])) ==> old(pos) < pos
    {
      i64, useDouble := i, false;
      var limit := if minus then 922337203685477580 else 1844674407370955161;
      var last := if minus then 8 else 5;
      while G.IsDigit(Peek())
        invariant old(pos) <= pos <= |text| && G.DigitsOnly(text[start..pos])
        invariant i64 == G.Decimal(text[start..pos]) && G.FitsInteger(minus, i64) && !useDouble
        decreases |text| - pos
      {
        if i64 >= limit && (i64 != limit || G.DigitValue(Peek()) > last) {
          useDouble := true;
          break;
        }
        SliceNext(text, start, pos);
        var c := Take();
        i64 := i64 * 10 + G.DigitValue(c);
      }
    }

    /** The third loop: a double accumulator, refused when it reaches 1E307 and more follows. */
    method ScanDouble(minus: bool, i64: uint64, ghost start: nat) returns (d: nat, tooBig: bool)
      requires start < pos < |text| && G.IsDigit(Peek()) && InDouble(minus, text, start, pos, RoundDouble(i64))
      modifies this`pos
      ensures old(pos) <= pos <= |text|
      ensures if tooBig then TooBigAt(minus, text, start, pos)
              else !G.IsDigit(Peek()) && InDouble(minus, text, start, pos, d) && Past64(minus, text, start, pos)
    {
      d, tooBig := RoundDouble(i64), false;
      while G.IsDigit(Peek())
        invariant old(pos) <= pos <= |text| && InDouble(minus, text, start, pos, d)
        invariant pos == old(pos) || Past64(minus, text, start, pos)
        decreases |text| - pos
      {
        d, tooBig := DoubleTurn(minus, d, start);
        if tooBig { return; }
      }
    }

    method DoubleTurn(minus: bool, d: nat, ghost start: nat) returns (next: nat, tooBig: bool)
      requires start <= pos < |text| && G.IsDigit(text[pos]) && InDouble(minus, text, start, pos, d)
      modifies this`pos
      ensures if tooBig then pos == old(pos) && TooBigAt(minus, text, start, pos)
              else pos == old(pos) + 1 && InDouble(minus, text, start, pos, next) && Past64(minus, text, start, pos)
    {
      InDoubleNext(minus, text, start, pos, d);
      if d >= G.DOUBLE_1E307 { return d, true; }
      next, tooBig := G.DoubleStep(d, text[pos]), false;
      var _ := Take();
    }

    /** The integer part through all three loops. The narrowest type that holds the value is
        used, no accumulator overflows, and a double is used exactly when 64 bits do not do. */
    method ScanInteger(minus: bool) returns (r: Scan)
      requires pos < |text| && G.IsDigit(Peek())
      modifies this`pos
      ensures ScanSpec(minus, G.IntegerPart(text[old(pos)..]), r)
      ensures !r.TooBig? ==> pos == old(pos) + |G.IntegerPart(text[old(pos)..])| && pos <= |text|
    {
      ghost var start := pos;
      if Peek() == G.ZERO {
        var c := Take();
        assert [c] == [] + [c];
        DecimalAppend([], c);
        return In32(0);
      }
      r := ScanDigits(minus);
      ScannedRun(minus, text, start, pos, r);
    }

    method ScanDigits(minus: bool) returns (r: Scan)
      requires pos < |text| && G.IsDigit(Peek())
      modifies this`pos
      ensures old(pos) < pos <= |text| && ScannedSlice(minus, text, old(pos), pos, r)
    {
      var i, try64bit := Scan32(minus);
      if !try64bit { return In32(i); }
      ghost var at32 := pos;
      var i64, useDouble := Scan64(minus, i, old(pos));
      SliceGrows(text, old(pos), at32, pos);
      if !useDouble { return In64(i64); }
      IntoDouble(minus, text, old(pos), pos, i64);
      var d, tooBig := ScanDouble(minus, i64, old(pos));
      if tooBig { return TooBig; }
      return AsDouble(d);
    }

    /** The fraction loop. Digits beyond the sixteenth are read but not used. */
    method ScanFractionDigits(n: nat) returns (d: nat, expFrac: int)
      requires pos <= |text|
      modifies this`pos
      ensures old(pos) <= pos <= |text| && !G.IsDigit(Peek()) && InFraction(text, old(pos), pos, n, d, expFrac)
    {
      d, expFrac := n, 0;
      while G.IsDigit(Peek())
        invariant old(pos) <= pos <= |text| && InFraction(text, old(pos), pos, n, d, expFrac)
        decreases |text| - pos
      {
        InFractionNext(text, old(pos), pos, n, d, expFrac);
        if expFrac > -16 {
          d := G.DoubleStep(d, Peek());
          expFrac := expFrac - 1;
        }
        var _ := Take();
      }
    }

    method ParseFraction(minus: bool, n: nat) returns (o: Outcome)
      requires pos <= |text|
      modifies this`pos, doc
      ensures var p := G.ParseFraction(minus, n, text[old(pos)..]);
              o == OutcomeOf(p) &&
              (o.Success? ==> pos <= |text| && text[pos..] == p.rest
                              && doc.stack == old(doc.stack) + [p.value])
    {
      if !G.IsDigit(Peek()) {
        o := Failed(G.NoFractionDigit);
      } else {
        o := ParseFractionDigits(minus, n);
      }
    }

    method ParseFractionDigits(minus: bool, n: nat) returns (o: Outcome)
      requires pos < |text| && G.IsDigit(Peek())
      modifies this`pos, doc
      ensures var p := G.ParseFraction(minus, n, text[old(pos)..]);
              o == OutcomeOf(p) &&
              (o.Success? ==> pos <= |text| && text[pos..] == p.rest
                              && doc.stack == old(doc.stack) + [p.value])
    {
      var d, expFrac := ReadFraction(minus, n);
      o := FinishDouble(minus, d, expFrac);
    }

    method ReadFraction(minus: bool, n: nat) returns (d: nat, expFrac: int)
      requires pos < |text| && G.IsDigit(Peek())
      modifies this`pos
      ensures pos <= |text|
      ensures G.ParseFraction(minus, n, text[old(pos)..]) == G.ParseExponent(minus, d, expFrac, text[pos..])
    {
      d, expFrac := ScanFractionDigits(n);
      FractionIs(minus, n, text, old(pos), pos, d, expFrac);
    }

    /** The power after an exponent mark, refused as soon as it exceeds 308. */
    method ScanPower() returns (exp: int, o: Outcome)
      requires pos <= |text|
      modifies this`pos
      ensures var p := G.ParsePower(text[old(pos)..]);
              o == OutcomeOf(p) &&
              (o.Success? ==> pos <= |text| && text[pos..] == p.rest && exp == p.value)
    {
      var expMinus := Peek() == G.MINUS;
      if Peek() == G.PLUS || Peek() == G.MINUS { var _ := Take(); }
      exp, o := ScanUnsignedPower();
      if expMinus { exp := 0 - exp; }
    }

    method ScanUnsignedPower() returns (exp: int, o: Outcome)
      requires pos <= |text|
      modifies this`pos
      ensures var p := G.ParseUnsignedPower(text[old(pos)..]);
              o == OutcomeOf(p) &&
              (o.Success? ==> pos <= |text| && text[pos..] == p.rest && exp == p.value)
    {
      exp, o := ScanExponentDigits();
      if o == Success {
        RunEnds(text, old(pos), pos);
      } else if o == Failed(G.NumberTooBig) {
        RunContains(text, old(pos), pos);
      }
    }

    method ScanExponentDigits() returns (exp: int, o: Outcome)
      requires pos <= |text|
      modifies this`pos
      ensures o != Failed(G.NoExponentDigit) ==>
                old(pos) < pos <= |text| && G.DigitsOnly(text[old(pos)..pos])
                && exp == G.Decimal(text[old(pos)..pos])
      ensures match o
              case Success => exp <= 308 && !G.IsDigit(Peek())
              case Failed(e) => (e == G.NoExponentDigit && !G.IsDigit(G.Head(text[old(pos)..])))
                                || (e == G.NumberTooBig && exp > 308)
    {
      exp := 0;
      if !G.IsDigit(Peek()) { return exp, Failed(G.NoExponentDigit); }
      while G.IsDigit(Peek())
        invariant old(pos) <= pos <= |text| && G.DigitsOnly(text[old(pos)..pos])
        invariant exp == G.Decimal(text[old(pos)..pos]) && exp <= 308
        invariant pos == old(pos) ==> G.IsDigit(Peek())
        decreases |text| - pos
      {
        SliceNext(text, old(pos), pos);
        var c := Take();
        exp := exp * 10 + G.DigitValue(c);
        if exp > 308 { return exp, Failed(G.NumberTooBig); }
      }
      o := Success;
    }

    /** The event that ends a number without fraction and exponent. -(int)i and -(int64_t)i64
        stand for the two's complement negation, which is exact on the scanned range. */
    method NumberEvent(minus: bool, r: Scan)
      requires !r.TooBig? && (r.In32? ==> Fits32(minus, r.i)) && (r.In64? ==> G.FitsInteger(minus, r.i64))
      modifies doc
      ensures doc.stack == old(doc.stack)
                + [match r
                   case In32(i) => Integer(if minus then 0 - i else i)
                   case In64(i) => Integer(if minus then 0 - i else i)
                   case AsDouble(d) => Double(minus, d, 0)
                   case TooBig => Null]
    {
      match r
      case In32(i) => if minus { doc.Int(0 - i); } else { doc.Uint(i); }
      case In64(i) => if minus { doc.Int64(0 - i); } else { doc.Uint64(i); }
      case AsDouble(d) => doc.Push(Double(minus, d, 0));
    }

    method ParseNumber() returns (o: Outcome)
      requires pos <= |text|
      modifies this`pos, doc
      ensures var r := G.ParseNumber(text[old(pos)..]);
              o == OutcomeOf(r) &&
              (o.Success? ==> pos <= |text| && text[pos..] == r.rest
                              && doc.stack == old(doc.stack) + [r.value])
    {
      var minus := Peek() == G.MINUS;
      if minus { var _ := Take(); }
      if !G.IsDigit(Peek()) { return Failed(G.ExpectValue); }
      ghost var t := text[pos..];
      ghost var ds := G.IntegerPart(t);
      ghost var start := pos;
      var r := ScanInteger(minus);
      if r.TooBig? { return Failed(G.NumberTooBig); }
      assert text[pos..] == t[|ds|..];
      o := ParseNumberTail(minus, r, G.Decimal(ds), G.IntegerDouble(minus, ds));
    }

    /** Fraction and exponent, then the event. */
    method ParseNumberTail(minus: bool, r: Scan, ghost n: nat, ghost m: nat) returns (o: Outcome)
      requires pos <= |text| && !r.TooBig?
      requires ScanValue(minus, n, m, r)
      modifies this`pos, doc
      ensures var p := G.ParseNumberTail(minus, n, m, text[old(pos)..]);
              o == OutcomeOf(p) &&
              (o.Success? ==> pos <= |text| && text[pos..] == p.rest
                              && doc.stack == old(doc.stack) + [p.value])
    {
      var d := match r case In32(i) => RoundDouble(i) case In64(i) => RoundDouble(i) case AsDouble(d) => d case TooBig => 0;
      if Peek() == G.DOT {
        var _ := Take();
        o := ParseFraction(minus, d);
      } else if G.StartsExponent(text[pos..]) {
        o := FinishDouble(minus, d, 0);
      } else {
        NumberEvent(minus, r);
        o := Success;
      }
    }

    /** An optional exponent and the double event. */
    method FinishDouble(minus: bool, d: nat, expFrac: int) returns (o: Outcome)
      requires pos <= |text|
      modifies this`pos, doc
      ensures var p := G.ParseExponent(minus, d, expFrac, text[old(pos)..]);
              o == OutcomeOf(p) &&
              (o.Success? ==> pos <= |text| && text[pos..] == p.rest
                              && doc.stack == old(doc.stack) + [p.value])
    {
      var exp := 0;
      if G.StartsExponent(text[pos..]) {
        var _ := Take();
        exp, o := ScanPower();
        if o.Failed? { return; }
      }
      doc.Push(Double(minus, d, exp + expFrac));
      o := Success;
    }

    // ---- values ----

    method ParseValue() returns (o: Outcome)
      requires pos <= |text|
      modifies this`pos, doc
      ensures var r := G.ParseValue(text[old(pos)..]);
              o == OutcomeOf(r) &&
              (o.Success? ==> old(pos) < pos <= |text| && text[pos..] == r.rest
                              && doc.stack == old(doc.stack) + [r.value])
      decreases |text| - pos, 1
    {
      var c := Peek();
      if c == 110 {
        o := ParseLiteral(G.NULL_TEXT, Null);
      } else if c == 116 {
        o := ParseLiteral(G.TRUE_TEXT, Bool(true));
      } else if c == 102 {
        o := ParseLiteral(G.FALSE_TEXT, Bool(false));
      } else if c == G.QUOTE {
        o := ParseString();
      } else if c == G.LBRACE {
        o := ParseObject();
      } else if c == G.LBRACKET {
        o := ParseArray();
      } else {
        o := ParseNumber();
      }
    }

    method ParseArray() returns (o: Outcome)
      requires pos <= |text| && Peek() == G.LBRACKET
      modifies this`pos, doc
      ensures var r := G.ParseArray(text[old(pos)..]);
              o == OutcomeOf(r) &&
              (o.Success? ==> old(pos) < pos <= |text| && text[pos..] == r.rest
                              && doc.stack == old(doc.stack) + [r.value])
      decreases |text| - pos, 0
    {
      var c := Take();
      doc.Push(Array([]));
      SkipWhitespace();
      if Peek() == G.RBRACKET {
        c := Take();
        StackShape(old(doc.stack), Array([]), []);
        assert doc.stack == old(doc.stack) + [Array([])] + [];
        doc.EndArray(0);
        return Success;
      }
      o := ParseElements(old(doc.stack));
    }

    /** The element loop, up to the closing bracket. */
    method ParseElements(ghost below: seq<Value>) returns (o: Outcome)
      requires pos <= |text| && doc.stack == below + [Array([])]
      modifies this`pos, doc
      ensures var r := G.ParseElements(text[old(pos)..]);
              o == OutcomeOf(r) &&
              (o.Success? ==> old(pos) < pos <= |text| && text[pos..] == r.rest
                              && doc.stack == below + [Array(r.value)])
      decreases |text| - pos, 3
    {
      ghost var start, base := text[pos..], doc.stack;
      ghost var elements: seq<Value> := [];
      var elementCount := 0;
      PrependNothing(G.ParseElements(start));
      while true
        invariant old(pos) <= pos <= |text| && elementCount == |elements|
        invariant doc.stack == base + elements
        invariant G.ParseElements(start) == G.Prepend(elements, G.ParseElements(text[pos..]))
        decreases |text| - pos
      {
        var more;
        ghost var v;
        o, more, v := ElementTurn();
        if o.Failed? { return; }
        elementCount := elementCount + 1;
        Regroup(base, elements, [v]);
        PrependAgain(elements, v, if more then G.ParseElements(text[pos..]) else G.Ok([], text[pos..]));
        elements := elements + [v];
        if !more {
          StackShape(below, Array([]), elements);
          assert elements + [] == elements;
          assert G.ParseElements(start) == G.Ok(elements, text[pos..]);
          doc.EndArray(elementCount);
          return;
        }
      }
    }

    /** One turn of the element loop: a value, then a comma or the closing bracket. */
    method ElementTurn() returns (o: Outcome, more: bool, ghost v: Value)
      requires pos <= |text|
      modifies this`pos, doc
      ensures var r := G.ParseElements(text[old(pos)..]);
              if o.Failed? then r == G.Fail(o.error)
              else old(pos) < pos <= |text| && doc.stack == old(doc.stack) + [v]
                   && r == G.Prepend([v], if more then G.ParseElements(text[pos..]) else G.Ok([], text[pos..]))
      decreases |text| - pos, 2
    {
      more, v := false, Null;
      o := ParseValue();
      if o.Failed? { return; }
      v := G.ParseValue(text[old(pos)..]).value;
      SkipWhitespace();
      var c := Take();
      if c == G.COMMA {
        SkipWhitespace();
        more := true;
      } else if c == G.RBRACKET {
        assert [v] + [] == [v];
      } else {
        o := Failed(G.BadArraySeparator);
      }
    }

    /** A member: two values on the stack. */
    method ParseMember() returns (o: Outcome)
      requires pos <= |text|
      modifies this`pos, doc
      ensures var r := G.ParseMember(text[old(pos)..]);
              o == OutcomeOf(r) &&
              (o.Success? ==> old(pos) < pos <= |text| && text[pos..] == r.rest
                              && doc.stack == old(doc.stack) + [String(r.value.name), r.value.value])
      decreases |text| - pos, 2
    {
      if Peek() != G.QUOTE { return Failed(G.NameNotString); }
      o := ParseString();
      if o.Failed? { return; }
      SkipWhitespace();
      var c := Take();
      if c != G.COLON { return Failed(G.MissingColon); }
      SkipWhitespace();
      o := ParseValue();
    }

    method ParseObject() returns (o: Outcome)
      requires pos <= |text| && Peek() == G.LBRACE
      modifies this`pos, doc
      ensures var r := G.ParseObject(text[old(pos)..]);
              o == OutcomeOf(r) &&
              (o.Success? ==> old(pos) < pos <= |text| && text[pos..] == r.rest
                              && doc.stack == old(doc.stack) + [r.value])
      decreases |text| - pos, 0
    {
      var c := Take();
      doc.Push(Object([]));
      SkipWhitespace();
      if Peek() == G.RBRACE {
        c := Take();
        StackShape(old(doc.stack), Object([]), []);
        assert doc.stack == old(doc.stack) + [Object([])] + [];
        doc.EndObject(0);
        return Success;
      }
      o := ParseMembers(old(doc.stack));
    }

    /** The member loop, up to the closing brace. */
    method ParseMembers(ghost below: seq<Value>) returns (o: Outcome)
      requires pos <= |text| && doc.stack == below + [Object([])]
      modifies this`pos, doc
      ensures var r := G.ParseMembers(text[old(pos)..]);
              o == OutcomeOf(r) &&
              (o.Success? ==> old(pos) < pos <= |text| && text[pos..] == r.rest
                              && doc.stack == below + [Object(r.value)])
      decreases |text| - pos, 4
    {
      ghost var start, base := text[pos..], doc.stack;
      ghost var members: seq<Member> := [];
      var memberCount := 0;
      PrependNothing(G.ParseMembers(start));
      while true
        invariant old(pos) <= pos <= |text| && memberCount == |members|
        invariant doc.stack == base + Flatten(members)
        invariant G.ParseMembers(start) == G.Prepend(members, G.ParseMembers(text[pos..]))
        decreases |text| - pos
      {
        var more;
        ghost var m;
        o, more, m := MemberTurn();
        if o.Failed? { return; }
        memberCount := memberCount + 1;
        FlattenAppend(members, m);
        Regroup(base, Flatten(members), [String(m.name), m.value]);
        PrependAgain(members, m, if more then G.ParseMembers(text[pos..]) else G.Ok([], text[pos..]));
        members := members + [m];
        if !more {
          assert members + [] == members;
          assert G.ParseMembers(start) == G.Ok(members, text[pos..]);
          CloseObject(memberCount, below, members);
          return;
        }
      }
    }

    /** EndObject on a stack that holds the object's members. */
    method CloseObject(memberCount: nat, ghost below: seq<Value>, ghost members: seq<Member>)
      requires memberCount == |members| && doc.stack == below + [Object([])] + Flatten(members)
      modifies doc
      ensures doc.stack == below + [Object(members)]
    {
      PairUpFlatten(members);
      StackShape(below, Object([]), Flatten(members));
      doc.EndObject(memberCount);
    }

    /** One turn of the member loop: a member, then a comma or the closing brace. */
    method MemberTurn() returns (o: Outcome, more: bool, ghost m: Member)
      requires pos <= |text|
      modifies this`pos, doc
      ensures var r := G.ParseMembers(text[old(pos)..]);
              if o.Failed? then r == G.Fail(o.error)
              else old(pos) < pos <= |text| && doc.stack == old(doc.stack) + [String(m.name), m.value]
                   && r == G.Prepend([m], if more then G.ParseMembers(text[pos..]) else G.Ok([], text[pos..]))
      decreases |text| - pos, 3
    {
      more, m := false, Member([], Null);
      o := ParseMember();
      if o.Failed? { return; }
      m := G.ParseMember(text[old(pos)..]).value;
      SkipWhitespace();
      var c := Take();
      if c == G.COMMA {
        SkipWhitespace();
        more := true;
      } else if c == G.RBRACE {
        assert [m] + [] == [m];
      } else {
        o := Failed(G.BadObjectSeparator);
      }
    }

    /** The whole text. On success the document holds exactly the root. */
    method Parse() returns (o: Outcome)
      requires pos == 0
      modifies this`pos, doc
      ensures var r := G.Parse(text);
              o == OutcomeOf(r) && (o.Success? ==> doc.stack == old(doc.stack) + [r.value])
    {
      assert text[0..] == text;
      SkipWhitespace();
      if Peek() == 0 { return Failed(G.OnlyWhitespace); }
      if Peek() == G.LBRACE {
        o := ParseObject();
      } else if Peek() == G.LBRACKET {
        o := ParseArray();
      } else {
        return Failed(G.RootNotContainer);
      }
      if o.Failed? { return; }
      SkipWhitespace();
      if Peek() != 0 { return Failed(G.TextAfterRoot); }
    }
  }

  /** ParseStream: a fresh document, of which the root is all that is left on the stack. */
  method ParseDocument(text: seq<byte>) returns (o: Outcome, root: Value)
    ensures o == OutcomeOf(G.Parse(text))
    ensures root == if o.Success? then G.Parse(text).value else Null
  {
    var doc := new Document();
    var reader := new Reader(text, doc);
    o := reader.Parse();
    root := Null;
    if o.Success? {
      assert |doc.stack| == 1;
      root := doc.stack[0];
    }
  }
}
