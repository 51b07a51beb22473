/** The document object model of the JSON library: values, their number representation and
    the four integer constructors (src/3rdparty/rapidjson/document.h). */
module JsonValue {
  import opened Sequences

  type int32 = x: int | -0x8000_0000 <= x < 0x8000_0000
  type uint32 = x: int | 0 <= x < 0x1_0000_0000
  type int64 = x: int | -0x8000_0000_0000_0000 <= x < 0x8000_0000_0000_0000
  type uint64 = x: int | 0 <= x < 0x1_0000_0000_0000_0000

  /** The four kind bits of an integer value; a double carries none of them. */
  datatype Kinds = Kinds(isInt: bool, isUint: bool, isInt64: bool, isUint64: bool)

  datatype Member = Member(name: seq<byte>, value: Value)

  /** Number holds the 64 data bits shared by all integer views and the kind bits.
      Double is what the reader has accumulated when it multiplies by a power of ten: the whole
      double mantissa and that power. The product is not modelled. */
  datatype Value =
    | Null
    | Bool(b: bool)
    | Number(data: uint64, kinds: Kinds)
    | Double(negative: bool, mantissa: nat, exponent: int)
    | String(s: seq<byte>)
    | Array(elements: seq<Value>)
    | Object(members: seq<Member>)

  /** The integers the library can hold at all. */
  predicate Representable(v: int) {
    -0x8000_0000_0000_0000 <= v < 0x1_0000_0000_0000_0000
  }

  /** The kinds whose C++ type contains v. */
  function KindsOf(v: int): Kinds {
    Kinds(-0x8000_0000 <= v < 0x8000_0000,
          0 <= v < 0x1_0000_0000,
          -0x8000_0000_0000_0000 <= v < 0x8000_0000_0000_0000,
          0 <= v < 0x1_0000_0000_0000_0000)
  }

  /** Two's complement bits of a 64-bit integer. */
  function Bits64(v: int): uint64
    requires Representable(v)
  {
    if v < 0 then v + 0x1_0000_0000_0000_0000 else v
  }

  /** The one representation every integer constructor agrees on. */
  function Integer(v: int): Value
    requires Representable(v)
  {
    Number(Bits64(v), KindsOf(v))
  }

  // The constructors. Mask tests of the form !(x & ~(2^k - 1)) are written x / 2^k == 0.

  function FromInt(i: int32): (r: Value)
    ensures r == Integer(i)
  {
    var base := Kinds(true, false, true, false);
    Number(Bits64(i), if i >= 0 then base.(isUint := true, isUint64 := true) else base)
  }

  function FromUint(u: uint32): (r: Value)
    ensures r == Integer(u)
  {
    var base := Kinds(false, true, true, true);
    Number(u, if u / 0x8000_0000 == 0 then base.(isInt := true, isInt64 := true) else base)
  }

  function FromInt64(i: int64): (r: Value)
    ensures r == Integer(i)
  {
    var base := Kinds(false, false, true, false);
    Number(Bits64(i),
           if i >= 0 then
             Kinds(i / 0x8000_0000 == 0, i / 0x1_0000_0000 == 0, true, true)
           else if i >= -2147483648 then base.(isInt := true)
           else base)
  }

  function FromUint64(u: uint64): (r: Value)
    ensures r == Integer(u)
  {
    Number(u, Kinds(u / 0x8000_0000 == 0, u / 0x1_0000_0000 == 0,
                    u / 0x8000_0000_0000_0000 == 0, true))
  }

  /** Signed and unsigned views of the low 32 data bits, and the signed view of all 64. */
  function Low32(data: uint64): uint32 { data % 0x1_0000_0000 }

  function AsInt32(data: uint64): int32 {
    var low := Low32(data);
    if low < 0x8000_0000 then low else low - 0x1_0000_0000
  }

  function AsInt64(data: uint64): int64 {
    if data < 0x8000_0000_0000_0000 then data else data - 0x1_0000_0000_0000_0000
  }

  /** The flags of an integer are the types that hold it. */
  lemma KindsMean(v: int)
    requires Representable(v)
    ensures var k := Integer(v).kinds;
            && (k.isInt <==> -2147483648 <= v <= 2147483647)
            && (k.isUint <==> 0 <= v <= 4294967295)
            && (k.isInt64 <==> -9223372036854775808 <= v <= 9223372036854775807)
            && (k.isUint64 <==> 0 <= v <= 18446744073709551615)
  {
  }

  /** Which number event a value raises, with its argument. */
  datatype NumberEvent = IntEvent(i: int32) | UintEvent(u: uint32) | Int64Event(i64: int64)
                       | Uint64Event(u64: uint64) | DoubleEvent

  function NumberEventOf(data: uint64, kinds: Kinds): NumberEvent {
    if kinds.isInt then IntEvent(AsInt32(data))
    else if kinds.isUint then UintEvent(Low32(data))
    else if kinds.isInt64 then Int64Event(AsInt64(data))
    else if kinds.isUint64 then Uint64Event(data)
    else DoubleEvent
  }

  /** The integer an event argument stands for. */
  function EventValue(e: NumberEvent): int {
    match e
    case IntEvent(i) => i
    case UintEvent(u) => u
    case Int64Event(i) => i
    case Uint64Event(u) => u
    case DoubleEvent => 0
  }

  /** Reading a constructed integer back through Accept's view selection loses nothing: the
      event is the narrowest kind that fits and its argument is the original integer, although
      the 32-bit views look at half of the data bits only. */
  lemma AcceptKeepsInteger(v: int)
    requires Representable(v)
    ensures var e := NumberEventOf(Integer(v).data, Integer(v).kinds);
            && !e.DoubleEvent? && EventValue(e) == v
            && (e.IntEvent? <==> KindsOf(v).isInt)
            && (e.UintEvent? <==> KindsOf(v).isUint && !KindsOf(v).isInt)
            && (e.Uint64Event? <==> KindsOf(v) == Kinds(false, false, false, true))
  {
    var data := Bits64(v);
    if v < 0 {
      assert data == v + 0x1_0000_0000 * 0x1_0000_0000;
      assert -0x8000_0000 <= v ==> Low32(data) == v + 0x1_0000_0000;
    }
  }

  /** A value built through the public constructors: no doubles, every number an Integer. */
  ghost predicate WellFormed(v: Value) {
    match v
    case Number(data, kinds) => exists n: int :: Representable(n) && v == Integer(n)
    case Double(_, _, _) => false
    case Array(es) => forall e | e in es :: WellFormed(e)
    case Object(ms) => forall m | m in ms :: WellFormed(m.value)
    case _ => true
  }
}
