/** The text a value is printed as, by structure. The event driven writer with its level stack
    is in JsonWriter and is proved to append exactly this text. */
module JsonRender {
  import opened Sequences
  import opened JsonValue
  import opened JsonGrammar

  /** Compact is Writer; Pretty is PrettyWriter with its indentation character and width. */
  datatype Layout = Compact | Pretty(indentChar: byte, indentCount: nat)

  /** SetIndent only takes white space. */
  predicate ValidLayout(l: Layout) { l.Pretty? ==> IsSpace(l.indentChar) }

  function Indent(l: Layout, depth: nat): seq<byte> {
    if l.Compact? then [] else Repeat(l.indentChar, depth * l.indentCount)
  }

  /** What separates an element or a closing bracket from what comes before it. */
  function Gap(l: Layout, depth: nat): seq<byte> {
    if l.Compact? then [] else [LF] + Indent(l, depth)
  }

  function AfterColon(l: Layout): seq<byte> { if l.Compact? then [] else [SPACE] }

  // ---- numbers ----

  /** Decimal digits without leading zeros. */
  function Digits(n: nat): (r: seq<byte>)
    ensures |r| > 0 && DigitsOnly(r)
  {
    if n < 10 then [48 + n] else Digits(n / 10) + [48 + n % 10]
  }

  function RenderInteger(v: int): seq<byte> {
    if v < 0 then [MINUS] + Digits(-v) else Digits(v)
  }

  // ---- strings ----

  /** The letter after the backslash, 0 for a character that needs no escape. */
  function EscapeLetter(c: byte): byte {
    if c == 8 then 98 else if c == 9 then 116 else if c == 10 then 110
    else if c == 12 then 102 else if c == 13 then 114
    else if c < 32 then LETTER_u
    else if c == QUOTE || c == BACKSLASH then c
    else 0
  }

  function HexDigit(n: nat): byte
    requires n < 16
  {
    if n < 10 then 48 + n else 55 + n
  }

  function EscapeChar(c: byte): seq<byte> {
    var e := EscapeLetter(c);
    if e == 0 then [c]
    else if e == LETTER_u then [BACKSLASH, LETTER_u, ZERO, ZERO, HexDigit(c / 16), HexDigit(c % 16)]
    else [BACKSLASH, e]
  }

  function Escape(s: seq<byte>): seq<byte> {
    if s == [] then [] else EscapeChar(s[0]) + Escape(s[1..])
  }

  function Quoted(s: seq<byte>): seq<byte> { [QUOTE] + Escape(s) + [QUOTE] }

  // ---- values ----

  /** The integer a well formed number stands for. */
  function NumberValue(data: uint64, kinds: Kinds): int {
    EventValue(NumberEventOf(data, kinds))
  }

  function Render(v: Value, l: Layout, depth: nat): seq<byte>
    decreases v
  {
    match v
    case Null => NULL_TEXT
    case Bool(b) => if b then TRUE_TEXT else FALSE_TEXT
    case Number(data, kinds) => RenderInteger(NumberValue(data, kinds))
    case Double(_, _, _) => []
    case String(s) => Quoted(s)
    case Array(es) =>
      if es == [] then [LBRACKET, RBRACKET]
      else [LBRACKET] + RenderElements(es, l, depth + 1) + Gap(l, depth) + [RBRACKET]
    case Object(ms) =>
      if ms == [] then [LBRACE, RBRACE]
      else [LBRACE] + RenderMembers(ms, l, depth + 1) + Gap(l, depth) + [RBRACE]
  }

  function RenderElements(es: seq<Value>, l: Layout, depth: nat): seq<byte>
    requires es != []
    decreases es
  {
    Gap(l, depth) + Render(es[0], l, depth)
    + if |es| == 1 then [] else [COMMA] + RenderElements(es[1..], l, depth)
  }

  function RenderMember(m: Member, l: Layout, depth: nat): seq<byte>
    decreases m
  {
    Quoted(m.name) + [COLON] + AfterColon(l) + Render(m.value, l, depth)
  }

  function RenderMembers(ms: seq<Member>, l: Layout, depth: nat): seq<byte>
    requires ms != []
    decreases ms
  {
    Gap(l, depth) + RenderMember(ms[0], l, depth)
    + if |ms| == 1 then [] else [COMMA] + RenderMembers(ms[1..], l, depth)
  }
}
