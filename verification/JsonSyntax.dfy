/** JSON texts as section 2 of RFC 4627 builds them up, independently of any reading order: a syntax
    tree with all its white space, its text and its value; and the proof that the reader accepts
    exactly the texts of such trees. */
module JsonSyntax {
  import opened Sequences
  import opened JsonValue
  import opened JsonGrammar
  import opened JsonRoundTrip
  import opened JsonProperties

  // ---- strings (section 2.5) ----

  /** Unescaped, a two-character escape, a unit escape, or the two escapes of a surrogate pair. */
  datatype Char = Plain(c: byte) | Short(e: byte) | Unit(h: seq<byte>) | Pair(hi: seq<byte>, lo: seq<byte>)

  predicate FourHex(h: seq<byte>) { |h| == 4 && forall c | c in h :: IsHex(c) }

  function HexNumber(h: seq<byte>): (n: nat)
    requires FourHex(h)
    ensures n < 0x1_0000
  {
    ((HexValue(h[0]) * 16 + HexValue(h[1])) * 16 + HexValue(h[2])) * 16 + HexValue(h[3])
  }

  /** What RFC 4627 allows, except that a high surrogate needs its partner. */
  predicate CharOk(c: Char) {
    match c
    case Plain(b) => b >= 0x20 && b != QUOTE && b != BACKSLASH
    case Short(e) => Unescape(e) != 0
    case Unit(h) => FourHex(h) && !IsHighSurrogate(HexNumber(h))
    case Pair(hi, lo) => FourHex(hi) && FourHex(lo) && IsHighSurrogate(HexNumber(hi)) && IsLowSurrogate(HexNumber(lo))
  }

  function CharValue(c: Char): seq<byte>
    requires CharOk(c)
  {
    match c
    case Plain(b) => [b]
    case Short(e) => [Unescape(e)]
    case Unit(h) => Utf8Encode(HexNumber(h))
    case Pair(hi, lo) => Utf8Encode(CombineSurrogates(HexNumber(hi), HexNumber(lo)))
  }

  /** The text of a character in front of some other text; so for all parts below. */
  function CharText(c: Char, rest: seq<byte>): seq<byte> {
    match c
    case Plain(b) => [b] + rest
    case Short(e) => [BACKSLASH] + ([e] + rest)
    case Unit(h) => [BACKSLASH] + ([LETTER_u] + (h + rest))
    case Pair(hi, lo) => [BACKSLASH] + ([LETTER_u] + (hi + ([BACKSLASH, LETTER_u] + (lo + rest))))
  }

  ghost predicate CharsOk(cs: seq<Char>) { forall i | 0 <= i < |cs| :: CharOk(cs[i]) }

  ghost function CharsValue(cs: seq<Char>): seq<byte>
    requires CharsOk(cs)
  {
    if cs == [] then [] else CharValue(cs[0]) + CharsValue(cs[1..])
  }

  /** The characters and the closing quote. */
  function CharsText(cs: seq<Char>, rest: seq<byte>): seq<byte> {
    if cs == [] then [QUOTE] + rest else CharText(cs[0], CharsText(cs[1..], rest))
  }

  // ---- numbers (section 2.4) ----

  datatype Exponent = NoExponent | Power(mark: byte, sign: seq<byte>, digits: seq<byte>)

  /** A sign, an integer part without leading zero, and optionally a fraction and an exponent. */
  datatype Numeral = Numeral(minus: bool, int_: seq<byte>, fraction: seq<byte>, exponent: Exponent)

  predicate ExponentOk(e: Exponent) {
    e.Power? ==>
      && (e.mark == 101 || e.mark == 69) && (e.sign == [] || e.sign == [PLUS] || e.sign == [MINUS])
      && e.digits != [] && DigitsOnly(e.digits)
  }

  predicate NumeralOk(n: Numeral) { IntegerText(n.int_) && DigitsOnly(n.fraction) && ExponentOk(n.exponent) }

  /** The limits of the reader: the exponent is at most 308, and the double that the integer part
      accumulates to, with all its rounding, is below 1E307 when the last digit comes. */
  predicate WithinLimits(n: Numeral)
    requires NumeralOk(n)
  {
    !OverflowsDouble(n.minus, n.int_) && (n.exponent.Power? ==> Decimal(n.exponent.digits) <= 308)
  }

  function PowerValue(e: Exponent): int
    requires ExponentOk(e)
  {
    if e.NoExponent? then 0 else if e.sign == [MINUS] then 0 - Decimal(e.digits) else Decimal(e.digits)
  }

  function NumeralValue(n: Numeral): Value
    requires NumeralOk(n)
  {
    var whole := Decimal(n.int_);
    if n.fraction == [] && n.exponent.NoExponent? && FitsInteger(n.minus, whole)
    then Integer(if n.minus then 0 - whole else whole)
    else Double(n.minus, Mantissa(IntegerDouble(n.minus, n.int_), n.fraction), Scaled(PowerValue(n.exponent), Shift(n.fraction)))
  }

  function ExponentText(e: Exponent, rest: seq<byte>): seq<byte> {
    if e.NoExponent? then rest else [e.mark] + (e.sign + (e.digits + rest))
  }

  function FractionText(f: seq<byte>, rest: seq<byte>): seq<byte> {
    if f == [] then rest else [DOT] + (f + rest)
  }

  function NumeralText(n: Numeral, rest: seq<byte>): seq<byte> {
    (if n.minus then [MINUS] else []) + (n.int_ + FractionText(n.fraction, ExponentText(n.exponent, rest)))
  }

  // ---- values (sections 2.1 to 2.3) ----

  datatype Tree =
    | NullTree
    | BoolTree(b: bool)
    | NumberTree(n: Numeral)
    | StringTree(cs: seq<Char>)
    | ArrayTree(gap: seq<byte>, items: seq<Item>)
    | ObjectTree(gap: seq<byte>, entries: seq<Entry>)

  /** A value, the white space after it, and the white space after the comma that follows. */
  datatype Item = Item(tree: Tree, after: seq<byte>, next: seq<byte>)

  datatype Entry = Entry(name: seq<Char>, beforeColon: seq<byte>, afterColon: seq<byte>, item: Item)

  ghost predicate TreeOk(t: Tree) {
    match t
    case NullTree => true
    case BoolTree(_) => true
    case NumberTree(n) => NumeralOk(n) && WithinLimits(n)
    case StringTree(cs) => CharsOk(cs)
    case ArrayTree(gap, items) => AllSpace(gap) && forall i | 0 <= i < |items| :: ItemOk(items[i])
    case ObjectTree(gap, entries) => AllSpace(gap) && forall i | 0 <= i < |entries| :: EntryOk(entries[i])
  }

  ghost predicate ItemOk(i: Item) { TreeOk(i.tree) && AllSpace(i.after) && AllSpace(i.next) }

  ghost predicate EntryOk(e: Entry) {
    CharsOk(e.name) && AllSpace(e.beforeColon) && AllSpace(e.afterColon) && ItemOk(e.item)
  }

  ghost function TreeValue(t: Tree): Value
    requires TreeOk(t)
  {
    match t
    case NullTree => Null
    case BoolTree(b) => Bool(b)
    case NumberTree(n) => NumeralValue(n)
    case StringTree(cs) => String(CharsValue(cs))
    case ArrayTree(_, items) => Array(ItemValues(items))
    case ObjectTree(_, entries) => Object(EntryMembers(entries))
  }

  ghost function ItemValues(items: seq<Item>): seq<Value>
    requires forall i | 0 <= i < |items| :: ItemOk(items[i])
  {
    if items == [] then []
    else
      assert ItemOk(items[0]);
      [TreeValue(items[0].tree)] + ItemValues(items[1..])
  }

  ghost function EntryMember(e: Entry): Member
    requires EntryOk(e)
  {
    assert ItemOk(e.item);
    Member(CharsValue(e.name), TreeValue(e.item.tree))
  }

  ghost function EntryMembers(entries: seq<Entry>): seq<Member>
    requires forall i | 0 <= i < |entries| :: EntryOk(entries[i])
  {
    if entries == [] then [] else [EntryMember(entries[0])] + EntryMembers(entries[1..])
  }

  function TreeText(t: Tree, rest: seq<byte>): seq<byte>
    decreases t, 1
  {
    match t
    case NullTree => NULL_TEXT + rest
    case BoolTree(b) => (if b then TRUE_TEXT else FALSE_TEXT) + rest
    case NumberTree(n) => NumeralText(n, rest)
    case StringTree(cs) => [QUOTE] + CharsText(cs, rest)
    case ArrayTree(gap, items) => [LBRACKET] + (gap + (if items == [] then [RBRACKET] + rest else ItemsText(items, rest)))
    case ObjectTree(gap, entries) => [LBRACE] + (gap + (if entries == [] then [RBRACE] + rest else EntriesText(entries, rest)))
  }

  /** One or more items and the closing bracket. */
  function ItemsText(items: seq<Item>, rest: seq<byte>): seq<byte>
    requires items != []
    decreases items, 0
  {
    ItemText(items[0], if |items| == 1 then [RBRACKET] + rest else [COMMA] + (items[0].next + ItemsText(items[1..], rest)))
  }

  function ItemText(i: Item, rest: seq<byte>): seq<byte>
    decreases i
  {
    TreeText(i.tree, i.after + rest)
  }

  function EntriesText(es: seq<Entry>, rest: seq<byte>): seq<byte>
    requires es != []
    decreases es, 0
  {
    EntryText(es[0], if |es| == 1 then [RBRACE] + rest else [COMMA] + (es[0].item.next + EntriesText(es[1..], rest)))
  }

  function EntryText(e: Entry, rest: seq<byte>): seq<byte>
    decreases e
  {
    [QUOTE] + CharsText(e.name, e.beforeColon + ([COLON] + (e.afterColon + ItemText(e.item, rest))))
  }

  /** A whole text: an object or an array with white space around it. */
  datatype Document = Document(before: seq<byte>, root: Tree, after: seq<byte>)

  ghost predicate DocumentOk(d: Document) {
    AllSpace(d.before) && AllSpace(d.after) && TreeOk(d.root) && (d.root.ArrayTree? || d.root.ObjectTree?)
  }

  function DocumentText(d: Document, rest: seq<byte>): seq<byte> { d.before + TreeText(d.root, d.after + rest) }
}
