/** GenericDocument as an event handler: a stack of values on which every container is
    assembled in place (src/3rdparty/rapidjson/document.h). */
module JsonDocument {
  import opened Sequences
  import opened JsonValue

  /** Values on the stack that Pop<Member> reads as name/value pairs. */
  predicate IsPairs(vs: seq<Value>) {
    |vs| % 2 == 0 && forall i | 0 <= i < |vs| && i % 2 == 0 :: vs[i].String?
  }

  function PairUp(vs: seq<Value>): seq<Member>
    requires IsPairs(vs)
  {
    if vs == [] then [] else [Member(vs[0].s, vs[1])] + PairUp(vs[2..])
  }

  /** Members as they lie on the stack. */
  function Flatten(ms: seq<Member>): (vs: seq<Value>)
    ensures IsPairs(vs) && |vs| == 2 * |ms|
  {
    if ms == [] then []
    else
      var tail := Flatten(ms[1..]);
      var vs := [String(ms[0].name), ms[0].value] + tail;
      assert forall i | 2 <= i < |vs| :: vs[i] == tail[i - 2];
      vs
  }

  lemma {:induction false} FlattenFirst(ms: seq<Member>)
    requires ms != []
    ensures Flatten(ms)[2..] == Flatten(ms[1..]) && ms == [ms[0]] + ms[1..]
  {
  }

  lemma {:induction false} PairUpFlatten(ms: seq<Member>)
    ensures PairUp(Flatten(ms)) == ms
  {
    if ms != [] {
      FlattenFirst(ms);
      PairUpFlatten(ms[1..]);
    }
  }

  lemma {:induction false} FlattenAppend(ms: seq<Member>, m: Member)
    ensures Flatten(ms + [m]) == Flatten(ms) + [String(m.name), m.value]
  {
    if ms == [] {
      assert ms + [m] == [m] && [m][1..] == [];
    } else {
      assert (ms + [m])[1..] == ms[1..] + [m] && (ms + [m])[0] == ms[0];
      FlattenAppend(ms[1..], m);
    }
  }

  /** The stack below, under and above a container that is being closed. */
  lemma StackShape(below: seq<Value>, container: Value, above: seq<Value>)
    ensures var stack := below + [container] + above;
            var k := |stack| - |above|;
            stack[..k - 1] == below && stack[k..] == above
  {
  }

  class Document {
    var stack: seq<Value>

    constructor ()
      ensures stack == []
    {
      stack := [];
    }

    method Push(v: Value)
      modifies this
      ensures stack == old(stack) + [v]
    {
      stack := stack + [v];
    }

    method Int(i: int32)
      modifies this
      ensures stack == old(stack) + [Integer(i)]
    {
      Push(FromInt(i));
    }

    method Uint(u: uint32)
      modifies this
      ensures stack == old(stack) + [Integer(u)]
    {
      Push(FromUint(u));
    }

    method Int64(i: int64)
      modifies this
      ensures stack == old(stack) + [Integer(i)]
    {
      Push(FromInt64(i));
    }

    method Uint64(u: uint64)
      modifies this
      ensures stack == old(stack) + [Integer(u)]
    {
      Push(FromUint64(u));
    }

    /** The top element becomes an array of the elements popped off it. */
    method EndArray(elementCount: nat)
      requires elementCount < |stack|
      modifies this
      ensures var k := |old(stack)| - elementCount;
              stack == old(stack)[..k - 1] + [Array(old(stack)[k..])]
    {
      var k := |stack| - elementCount;
      var elements := stack[k..];
      stack := stack[..k];
      stack := stack[k - 1 := Array(elements)];
    }

    /** Likewise for an object; a member takes two stack slots. */
    method EndObject(memberCount: nat)
      requires 2 * memberCount < |stack| && IsPairs(stack[|stack| - 2 * memberCount..])
      modifies this
      ensures var k := |old(stack)| - 2 * memberCount;
              stack == old(stack)[..k - 1] + [Object(PairUp(old(stack)[k..]))]
    {
      var k := |stack| - 2 * memberCount;
      var members := PairUp(stack[k..]);
      stack := stack[..k];
      stack := stack[k - 1 := Object(members)];
    }
  }
}
