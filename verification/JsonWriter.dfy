/** Writer and PrettyWriter (src/3rdparty/rapidjson/writer.h, prettywriter.h): event methods
    that append to an output stream and keep a stack of open levels. */
module JsonWriter {
  import opened Sequences
  import opened JsonValue
  import opened JsonGrammar
  import opened JsonRender

  /** An open array or object and how many values it has received; an object counts names too. */
  datatype Level = Level(inArray: bool, valueCount: nat)

  /** True where the next value has to be a member name. */
  predicate ExpectsName(levels: seq<Level>) {
    levels != [] && !levels[|levels| - 1].inArray && levels[|levels| - 1].valueCount % 2 == 0
  }

  /** What has to be written between the previous value and the next one. */
  function Separator(l: Layout, levels: seq<Level>): seq<byte> {
    if levels == [] then []
    else
      var top := levels[|levels| - 1];
      if top.inArray || top.valueCount % 2 == 0 then
        if top.valueCount > 0 then [COMMA] + Gap(l, |levels|) else Gap(l, |levels|)
      else [COLON] + AfterColon(l)
  }

  /** The innermost level has received one more value. */
  function Bump(levels: seq<Level>): (r: seq<Level>)
    ensures |r| == |levels|
  {
    if levels == [] then []
    else
      var top := levels[|levels| - 1];
      levels[..|levels| - 1] + [top.(valueCount := top.valueCount + 1)]
  }

  /** -i for a 32-bit or 64-bit integer in two's complement, as the unsigned type reads it. */
  function Magnitude(i: int): nat { if i < 0 then -i else i }

  lemma DigitsLength(n: nat, k: nat)
    requires 0 < k && n < Pow10(k)
    ensures |Digits(n)| <= k
  {
    if n >= 10 {
      assert Pow10(1) == 10 * Pow10(0);
      DigitsLength(n / 10, k - 1);
    }
  }

  lemma PowersOfTen()
    ensures Pow10(10) == 10_000_000_000 && Pow10(20) == 100_000_000_000_000_000_000
  {
    assert Pow10(5) == 10 * (10 * (10 * (10 * (10 * Pow10(0)))));
    assert Pow10(10) == 10 * (10 * (10 * (10 * (10 * Pow10(5)))));
    assert Pow10(15) == 10 * (10 * (10 * (10 * (10 * Pow10(10)))));
    assert Pow10(20) == 10 * (10 * (10 * (10 * (10 * Pow10(15)))));
  }

  class Writer {
    const layout: Layout
    var stream: seq<byte>
    var levels: seq<Level>

    constructor (l: Layout)
      requires ValidLayout(l)
      ensures layout == l && stream == [] && levels == []
    {
      layout, stream, levels := l, [], [];
    }

    // ---- output helpers ----

    method Put(c: byte)
      modifies this`stream
      ensures stream == old(stream) + [c]
    {
      stream := stream + [c];
    }

    method PutN(c: byte, n: nat)
      modifies this`stream
      ensures stream == old(stream) + Repeat(c, n)
    {
      var i := 0;
      while i < n
        invariant 0 <= i <= n
        invariant stream + Repeat(c, n - i) == old(stream) + Repeat(c, n)
      {
        assert Repeat(c, n - i) == [c] + Repeat(c, n - i - 1);
        assert stream + Repeat(c, n - i) == (stream + [c]) + Repeat(c, n - i - 1);
        Put(c);
        i := i + 1;
      }
    }

    /** A run of Put calls. */
    method WriteText(text: seq<byte>)
      modifies this`stream
      ensures stream == old(stream) + text
    {
      stream := stream + text;
    }

    /** WriteUint and WriteUint64: the digits are produced backwards into a buffer of the
        given size, 10 or 20 characters, which is always large enough. */
    method WriteUnsigned(value: nat, size: nat)
      requires (size == 10 && value < 0x1_0000_0000) || (size == 20 && value < 0x1_0000_0000_0000_0000)
      modifies this`stream
      ensures stream == old(stream) + Digits(value)
    {
      PowersOfTen();
      DigitsLength(value, size);
      var buffer := new byte[size];
      var p := FillBackwards(buffer, value);
      PutBackwards(buffer, p);
    }

    /** The do-while loop that fills the buffer, lowest digit first. */
    static method FillBackwards(buffer: array<byte>, value: nat) returns (p: nat)
      requires |Digits(value)| <= buffer.Length
      modifies buffer
      ensures p <= buffer.Length && Backwards(buffer[..p]) == Digits(value)
    {
      buffer[0] := 48 + value % 10;
      var u: nat := value / 10;
      p := 1;
      assert buffer[..1] == [48 + value % 10];
      assert Backwards(buffer[..1]) == [48 + value % 10] + Backwards(buffer[..1][..0]);
      while u > 0
        invariant 1 <= p <= buffer.Length
        invariant Digits(value) == Remaining(u) + Backwards(buffer[..p])
      {
        ghost var done := buffer[..p];
        var d: byte := 48 + u % 10;
        NextBackwards(u, done);
        buffer[p] := d;
        assert buffer[..p + 1] == done + [d];
        p, u := p + 1, u / 10;
      }
    }

    /** The loop that copies the buffer to the stream, last character first. */
    method PutBackwards(buffer: array<byte>, count: nat)
      requires count <= buffer.Length
      modifies this`stream
      ensures stream == old(stream) + Backwards(buffer[..count])
    {
      var p := count;
      while p != 0
        invariant 0 <= p <= count
        invariant stream + Backwards(buffer[..p]) == old(stream) + Backwards(buffer[..count])
        decreases p
      {
        p := p - 1;
        assert buffer[..p + 1] == buffer[..p] + [buffer[p]];
        BackwardsAppend(buffer[..p], buffer[p]);
        Regroup(stream, [buffer[p]], Backwards(buffer[..p]));
        Put(buffer[p]);
      }
      assert stream + [] == stream;
    }

    method WriteSigned(i: int, size: nat)
      requires (size == 10 && -0x8000_0000 <= i < 0x8000_0000)
            || (size == 20 && -0x8000_0000_0000_0000 <= i < 0x8000_0000_0000_0000)
      modifies this`stream
      ensures stream == old(stream) + RenderInteger(i)
    {
      if i < 0 { Put(MINUS); }
      WriteUnsigned(Magnitude(i), size);
    }

    method WriteString(str: seq<byte>)
      modifies this`stream
      ensures stream == old(stream) + Quoted(str)
    {
      Put(QUOTE);
      assert str[0..] == str;
      var p := 0;
      while p != |str|
        invariant 0 <= p <= |str|
        invariant stream + Escape(str[p..]) == old(stream) + [QUOTE] + Escape(str)
      {
        ghost var before := stream;
        assert str[p..][1..] == str[p + 1..];
        var e := EscapeLetter(str[p]);
        if e != 0 {
          WriteText([BACKSLASH, e]);
          if e == LETTER_u {
            WriteText([ZERO, ZERO, HexDigit(str[p] / 16), HexDigit(str[p] % 16)]);
            Regroup(before, [BACKSLASH, e], [ZERO, ZERO, HexDigit(str[p] / 16), HexDigit(str[p] % 16)]);
          }
        } else {
          Put(str[p]);
        }
        assert stream == before + EscapeChar(str[p]);
        Regroup(before, EscapeChar(str[p]), Escape(str[p + 1..]));
        p := p + 1;
      }
      assert str[|str|..] == [];
      assert stream == old(stream) + [QUOTE] + Escape(str);
      Put(QUOTE);
      Regroup(old(stream), [QUOTE] + Escape(str), [QUOTE]);
      Regroup(old(stream), [QUOTE], Escape(str));
    }

    method WriteIndent()
      requires layout.Pretty?
      modifies this`stream
      ensures stream == old(stream) + Indent(layout, |levels|)
    {
      PutN(layout.indentChar, |levels| * layout.indentCount);
    }

    /** A line feed and the indentation of the current depth. */
    method NewLine()
      requires layout.Pretty?
      modifies this`stream
      ensures stream == old(stream) + Gap(layout, |levels|)
    {
      Put(LF);
      WriteIndent();
      Regroup(old(stream), [LF], Indent(layout, |levels|));
    }

    /** Prefix of the compact writer. */
    method CompactPrefix()
      requires layout.Compact?
      modifies this
      ensures stream == old(stream) + Separator(layout, old(levels)) && levels == Bump(old(levels))
    {
      if levels != [] {
        var top := levels[|levels| - 1];
        if top.valueCount > 0 {
          if top.inArray {
            Put(COMMA);
          } else {
            Put(if top.valueCount % 2 == 0 then COMMA else COLON);
          }
        }
        levels := levels[..|levels| - 1] + [top.(valueCount := top.valueCount + 1)];
      }
    }

    /** PrettyPrefix of the indenting writer. */
    method PrettyPrefix()
      requires layout.Pretty?
      modifies this
      ensures stream == old(stream) + Separator(layout, old(levels)) && levels == Bump(old(levels))
    {
      if levels != [] {
        var top := levels[|levels| - 1];
        ghost var before := stream;
        if top.inArray {
          if top.valueCount > 0 { Put(COMMA); }
          NewLine();
          Regroup(before, [COMMA], Gap(layout, |levels|));
          assert stream == before + Separator(layout, levels);
        } else {
          if top.valueCount > 0 {
            if top.valueCount % 2 == 0 {
              Put(COMMA);
            } else {
              WriteText([COLON, SPACE]);
            }
          }
          if top.valueCount % 2 == 0 { NewLine(); }
          Regroup(before, [COMMA], Gap(layout, |levels|));
          assert stream == before + Separator(layout, levels);
        }
        levels := levels[..|levels| - 1] + [top.(valueCount := top.valueCount + 1)];
      }
    }

    /** The preconditions are the library's assertions: a root is a container, a name a string. */
    method Prefix(ghost isContainer: bool, ghost isString: bool)
      requires levels == [] ==> isContainer
      requires ExpectsName(levels) ==> isString
      modifies this
      ensures stream == old(stream) + Separator(layout, old(levels)) && levels == Bump(old(levels))
    {
      if layout.Compact? { CompactPrefix(); } else { PrettyPrefix(); }
    }

    // ---- events ----

    method Null()
      requires levels != [] && !ExpectsName(levels)
      modifies this
      ensures stream == old(stream) + Separator(layout, old(levels)) + NULL_TEXT && levels == Bump(old(levels))
    {
      Prefix(false, false);
      WriteText(NULL_TEXT);
    }

    method Bool(b: bool)
      requires levels != [] && !ExpectsName(levels)
      modifies this
      ensures levels == Bump(old(levels))
      ensures stream == old(stream) + Separator(layout, old(levels)) + (if b then TRUE_TEXT else FALSE_TEXT)
    {
      Prefix(false, false);
      WriteText(if b then TRUE_TEXT else FALSE_TEXT);
    }

    /** Int, Uint, Int64 and Uint64. */
    method Number(e: NumberEvent)
      requires levels != [] && !ExpectsName(levels) && !e.DoubleEvent?
      modifies this
      ensures levels == Bump(old(levels))
      ensures stream == old(stream) + Separator(layout, old(levels)) + RenderInteger(EventValue(e))
    {
      Prefix(false, false);
      match e
      case IntEvent(i) => WriteSigned(i, 10);
      case UintEvent(u) => WriteUnsigned(u, 10);
      case Int64Event(i) => WriteSigned(i, 20);
      case Uint64Event(u) => WriteUnsigned(u, 20);
    }

    method String(str: seq<byte>)
      requires levels != []
      modifies this
      ensures stream == old(stream) + Separator(layout, old(levels)) + Quoted(str) && levels == Bump(old(levels))
    {
      Prefix(false, true);
      WriteString(str);
    }

    method Start(inArray: bool)
      requires !ExpectsName(levels)
      modifies this
      ensures stream == old(stream) + Separator(layout, old(levels)) + [if inArray then LBRACKET else LBRACE]
      ensures levels == Bump(old(levels)) + [Level(inArray, 0)]
    {
      Prefix(true, false);
      levels := levels + [Level(inArray, 0)];
      Put(if inArray then LBRACKET else LBRACE);
    }

    /** The closing bracket goes on a line of its own unless the level is empty. */
    method End(inArray: bool)
      requires levels != [] && levels[|levels| - 1].inArray == inArray
      modifies this
      ensures levels == old(levels)[..|old(levels)| - 1]
      ensures stream == old(stream)
                        + (if old(levels[|levels| - 1].valueCount) == 0 then [] else Gap(layout, |levels|))
                        + [if inArray then RBRACKET else RBRACE]
    {
      var empty := levels[|levels| - 1].valueCount == 0;
      levels := levels[..|levels| - 1];
      if layout.Pretty? && !empty {
        NewLine();
      }
      Put(if inArray then RBRACKET else RBRACE);
    }
  }

  /** The digits still to be produced. */
  function Remaining(u: nat): seq<byte> { if u == 0 then [] else Digits(u) }

  /** Moving the lowest digit over to the buffer. */
  lemma NextBackwards(u: nat, done: seq<byte>)
    requires u > 0
    ensures Remaining(u) + Backwards(done) == Remaining(u / 10) + Backwards(done + [48 + u % 10])
    ensures |Remaining(u)| == |Remaining(u / 10)| + 1
  {
    var d: byte := 48 + u % 10;
    BackwardsAppend(done, d);
    Regroup(Remaining(u / 10), [d], Backwards(done));
    assert Remaining(u) == Remaining(u / 10) + [d];
  }

  function Backwards(s: seq<byte>): (r: seq<byte>)
    ensures |r| == |s|
  {
    if s == [] then [] else [s[|s| - 1]] + Backwards(s[..|s| - 1])
  }

  lemma BackwardsAppend(s: seq<byte>, c: byte)
    ensures Backwards(s + [c]) == [c] + Backwards(s)
  {
    assert (s + [c])[..|s|] == s;
  }
}
