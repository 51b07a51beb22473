/** Sending a value to a writer as events (Accept in src/3rdparty/rapidjson/document.h). */
module JsonAccept {
  import opened Sequences
  import opened JsonValue
  import opened JsonGrammar
  import opened JsonRender
  import opened JsonRoundTrip
  import opened JsonWriter

  /** A value can be written here: not in place of a member name, and at the root only a container. */
  predicate Accepts(levels: seq<Level>, v: Value) {
    (levels == [] ==> v.Array? || v.Object?) && !ExpectsName(levels)
  }

  lemma BumpTop(levels: seq<Level>, top: Level)
    ensures Bump(levels + [top]) == levels + [top.(valueCount := top.valueCount + 1)]
  {
    assert (levels + [top])[..|levels|] == levels;
  }

  lemma Lead(g: seq<byte>, x: seq<byte>, more: seq<byte>)
    ensures [COMMA] + (g + x + more) == (([COMMA] + g) + x) + more
    ensures [] + (g + x + more) == (g + x) + more
  {
  }

  // ---- what is still to be written of a list ----

  function ElementsRest(es: seq<Value>, i: nat, l: Layout, depth: nat): seq<byte>
    requires i <= |es|
  {
    if i == |es| then []
    else (if i == 0 then [] else [COMMA]) + RenderElements(es[i..], l, depth)
  }

  /** One element with what the writer puts in front of it. */
  function ElementPiece(es: seq<Value>, i: nat, l: Layout, depth: nat): seq<byte>
    requires i < |es|
  {
    (if i == 0 then Gap(l, depth) else [COMMA] + Gap(l, depth)) + Render(es[i], l, depth)
  }

  lemma ElementsStep(es: seq<Value>, i: nat, l: Layout, depth: nat)
    requires i < |es|
    ensures ElementsRest(es, i, l, depth) == ElementPiece(es, i, l, depth) + ElementsRest(es, i + 1, l, depth)
  {
    var tail := es[i..];
    assert tail[0] == es[i] && tail[1..] == es[i + 1..];
    var more := if |tail| == 1 then [] else [COMMA] + RenderElements(tail[1..], l, depth);
    assert more == ElementsRest(es, i + 1, l, depth);
    var g, x := Gap(l, depth), Render(es[i], l, depth);
    assert RenderElements(tail, l, depth) == g + x + more;
    Lead(g, x, more);
  }

  function MembersRest(ms: seq<Member>, i: nat, l: Layout, depth: nat): seq<byte>
    requires i <= |ms|
  {
    if i == |ms| then []
    else (if i == 0 then [] else [COMMA]) + RenderMembers(ms[i..], l, depth)
  }

  function MemberPiece(ms: seq<Member>, i: nat, l: Layout, depth: nat): seq<byte>
    requires i < |ms|
  {
    (if i == 0 then Gap(l, depth) else [COMMA] + Gap(l, depth)) + RenderMember(ms[i], l, depth)
  }

  lemma MembersStep(ms: seq<Member>, i: nat, l: Layout, depth: nat)
    requires i < |ms|
    ensures MembersRest(ms, i, l, depth) == MemberPiece(ms, i, l, depth) + MembersRest(ms, i + 1, l, depth)
  {
    var tail := ms[i..];
    assert tail[0] == ms[i] && tail[1..] == ms[i + 1..];
    var more := if |tail| == 1 then [] else [COMMA] + RenderMembers(tail[1..], l, depth);
    assert more == MembersRest(ms, i + 1, l, depth);
    var g, x := Gap(l, depth), RenderMember(ms[i], l, depth);
    assert RenderMembers(tail, l, depth) == g + x + more;
    Lead(g, x, more);
  }

  /** A name, then a value behind a colon, is a member. */
  lemma PieceOfMember(before: seq<byte>, sep: seq<byte>, m: Member, l: Layout, depth: nat)
    ensures ((before + sep + Quoted(m.name)) + ([COLON] + AfterColon(l))) + Render(m.value, l, depth)
         == before + (sep + RenderMember(m, l, depth))
  {
  }

  lemma MemberWritten(before: seq<byte>, sep: seq<byte>, ms: seq<Member>, i: nat, l: Layout, depth: nat)
    requires i < |ms| && sep == BeforeName(l, depth, i)
    ensures ((before + sep + Quoted(ms[i].name)) + ([COLON] + AfterColon(l))) + Render(ms[i].value, l, depth)
            + MembersRest(ms, i + 1, l, depth)
         == before + MembersRest(ms, i, l, depth)
  {
    MembersStep(ms, i, l, depth);
    PieceOfMember(before, sep, ms[i], l, depth);
    Regroup(before, sep + RenderMember(ms[i], l, depth), MembersRest(ms, i + 1, l, depth));
  }

  lemma Advance(stream: seq<byte>, sep: seq<byte>, x: seq<byte>, rest: seq<byte>)
    ensures (stream + sep + x) + rest == stream + ((sep + x) + rest)
  {
  }

  lemma CloseList(base: seq<byte>, open: byte, body: seq<byte>, gap: seq<byte>, close: byte)
    ensures base + [open] + body + gap + [close] == base + ([open] + body + gap + [close])
    ensures base + [open] + [] + [] + [close] == base + [open, close]
  {
  }

  lemma WholeArray(base: seq<byte>, es: seq<Value>, l: Layout, depth: nat)
    ensures base + [LBRACKET] + ElementsRest(es, 0, l, depth + 1)
            + (if es == [] then [] else Gap(l, depth)) + [RBRACKET]
         == base + Render(Array(es), l, depth)
  {
    assert es[0..] == es;
    var body := ElementsRest(es, 0, l, depth + 1);
    assert es != [] ==> body == RenderElements(es, l, depth + 1);
    CloseList(base, LBRACKET, body, Gap(l, depth), RBRACKET);
  }

  lemma WholeObject(base: seq<byte>, ms: seq<Member>, l: Layout, depth: nat)
    ensures base + [LBRACE] + MembersRest(ms, 0, l, depth + 1)
            + (if ms == [] then [] else Gap(l, depth)) + [RBRACE]
         == base + Render(Object(ms), l, depth)
  {
    assert ms[0..] == ms;
    var body := MembersRest(ms, 0, l, depth + 1);
    assert ms != [] ==> body == RenderMembers(ms, l, depth + 1);
    CloseList(base, LBRACE, body, Gap(l, depth), RBRACE);
  }

  /** The event driven writer produces the structural text: the separator its level stack calls
      for, then the printed value, with the enclosing level counting one more value. */
  method Accept(v: Value, w: Writer)
    requires WellFormed(v) && Accepts(w.levels, v)
    modifies w
    ensures w.levels == Bump(old(w.levels))
    ensures w.stream == old(w.stream) + Separator(w.layout, old(w.levels))
                        + Render(v, w.layout, |old(w.levels)|)
    decreases v, 1
  {
    match v
    case Null => w.Null();
    case Bool(b) => w.Bool(b);
    case String(s) => w.String(s);
    case Number(data, kinds) =>
      ghost var n: int :| Representable(n) && v == Integer(n);
      AcceptKeepsInteger(n);
      w.Number(NumberEventOf(data, kinds));
    case Array(es) => AcceptArray(es, w);
    case Object(ms) => AcceptObject(ms, w);
  }

  method AcceptArray(es: seq<Value>, w: Writer)
    requires WellFormed(Array(es)) && Accepts(w.levels, Array(es))
    modifies w
    ensures w.levels == Bump(old(w.levels))
    ensures w.stream == old(w.stream) + Separator(w.layout, old(w.levels))
                        + Render(Array(es), w.layout, |old(w.levels)|)
    decreases es, 2
  {
    ghost var outer, depth := Bump(w.levels), |w.levels|;
    ghost var base := w.stream + Separator(w.layout, w.levels);
    w.Start(true);
    AcceptElements(es, w, outer);
    w.End(true);
    WholeArray(base, es, w.layout, depth);
  }

  method AcceptElements(es: seq<Value>, w: Writer, ghost outer: seq<Level>)
    requires (forall e | e in es :: WellFormed(e)) && w.levels == outer + [Level(true, 0)]
    modifies w
    ensures w.levels == outer + [Level(true, |es|)]
    ensures w.stream == old(w.stream) + ElementsRest(es, 0, w.layout, |outer| + 1)
    decreases es, 1
  {
    var i := 0;
    while i < |es|
      invariant 0 <= i <= |es| && w.levels == outer + [Level(true, i)]
      invariant w.stream + ElementsRest(es, i, w.layout, |outer| + 1)
             == old(w.stream) + ElementsRest(es, 0, w.layout, |outer| + 1)
    {
      AcceptElement(es, i, w, outer);
      i := i + 1;
    }
    assert w.stream + [] == w.stream;
  }

  /** One turn of the element loop. */
  method AcceptElement(es: seq<Value>, i: nat, w: Writer, ghost outer: seq<Level>)
    requires i < |es| && WellFormed(es[i]) && w.levels == outer + [Level(true, i)]
    modifies w
    ensures w.levels == outer + [Level(true, i + 1)]
    ensures w.stream + ElementsRest(es, i + 1, w.layout, |outer| + 1)
         == old(w.stream) + ElementsRest(es, i, w.layout, |outer| + 1)
    decreases es, 0
  {
    ghost var sep := Separator(w.layout, w.levels);
    ElementsStep(es, i, w.layout, |outer| + 1);
    BumpTop(outer, Level(true, i));
    Accept(es[i], w);
    Advance(old(w.stream), sep, Render(es[i], w.layout, |outer| + 1),
            ElementsRest(es, i + 1, w.layout, |outer| + 1));
  }

  method AcceptObject(ms: seq<Member>, w: Writer)
    requires WellFormed(Object(ms)) && Accepts(w.levels, Object(ms))
    modifies w
    ensures w.levels == Bump(old(w.levels))
    ensures w.stream == old(w.stream) + Separator(w.layout, old(w.levels))
                        + Render(Object(ms), w.layout, |old(w.levels)|)
    decreases ms, 2
  {
    ghost var outer, depth := Bump(w.levels), |w.levels|;
    ghost var base := w.stream + Separator(w.layout, w.levels);
    w.Start(false);
    AcceptMembers(ms, w, outer);
    w.End(false);
    WholeObject(base, ms, w.layout, depth);
  }

  method AcceptMembers(ms: seq<Member>, w: Writer, ghost outer: seq<Level>)
    requires (forall m | m in ms :: WellFormed(m.value)) && w.levels == outer + [Level(false, 0)]
    modifies w
    ensures w.levels == outer + [Level(false, 2 * |ms|)]
    ensures w.stream == old(w.stream) + MembersRest(ms, 0, w.layout, |outer| + 1)
    decreases ms, 1
  {
    var i := 0;
    while i < |ms|
      invariant 0 <= i <= |ms| && w.levels == outer + [Level(false, 2 * i)]
      invariant w.stream + MembersRest(ms, i, w.layout, |outer| + 1)
             == old(w.stream) + MembersRest(ms, 0, w.layout, |outer| + 1)
    {
      AcceptMember(ms, i, w, outer);
      i := i + 1;
    }
    assert w.stream + [] == w.stream;
  }

  /** One turn of the member loop. */
  method AcceptMember(ms: seq<Member>, i: nat, w: Writer, ghost outer: seq<Level>)
    requires i < |ms| && WellFormed(ms[i].value) && w.levels == outer + [Level(false, 2 * i)]
    modifies w
    ensures w.levels == outer + [Level(false, 2 * i + 2)]
    ensures w.stream + MembersRest(ms, i + 1, w.layout, |outer| + 1)
         == old(w.stream) + MembersRest(ms, i, w.layout, |outer| + 1)
    decreases ms, 0
  {
    AcceptPair(ms[i], i, w, outer);
    MemberWritten(old(w.stream), BeforeName(w.layout, |outer| + 1, i), ms, i, w.layout, |outer| + 1);
  }

  /** What comes before the i-th name. */
  function BeforeName(l: Layout, depth: nat, i: nat): seq<byte> {
    if i == 0 then Gap(l, depth) else [COMMA] + Gap(l, depth)
  }

  /** The name as a string, then the value. */
  method AcceptPair(m: Member, ghost i: nat, w: Writer, ghost outer: seq<Level>)
    requires WellFormed(m.value) && w.levels == outer + [Level(false, 2 * i)]
    modifies w
    ensures w.levels == outer + [Level(false, 2 * i + 2)]
    ensures w.stream == ((old(w.stream) + BeforeName(w.layout, |outer| + 1, i) + Quoted(m.name))
                         + ([COLON] + AfterColon(w.layout))) + Render(m.value, w.layout, |outer| + 1)
    decreases m, 2
  {
    NameSeparator(w.layout, outer, i);
    BumpTop(outer, Level(false, 2 * i));
    w.String(m.name);
    AcceptMemberValue(m.value, i, w, outer);
  }

  method AcceptMemberValue(v: Value, ghost i: nat, w: Writer, ghost outer: seq<Level>)
    requires WellFormed(v) && w.levels == outer + [Level(false, 2 * i + 1)]
    modifies w
    ensures w.levels == outer + [Level(false, 2 * i + 2)]
    ensures w.stream == old(w.stream) + ([COLON] + AfterColon(w.layout)) + Render(v, w.layout, |outer| + 1)
    decreases v, 2
  {
    ValueSeparator(w.layout, outer, i);
    BumpTop(outer, Level(false, 2 * i + 1));
    Accept(v, w);
  }

  lemma TopOf(outer: seq<Level>, top: Level)
    ensures var levels := outer + [top]; levels != [] && levels[|levels| - 1] == top && |levels| == |outer| + 1
  {
  }

  lemma NameSeparator(l: Layout, outer: seq<Level>, i: nat)
    ensures Separator(l, outer + [Level(false, 2 * i)]) == BeforeName(l, |outer| + 1, i)
  {
    TopOf(outer, Level(false, 2 * i));
  }

  lemma ValueSeparator(l: Layout, outer: seq<Level>, i: nat)
    ensures Separator(l, outer + [Level(false, 2 * i + 1)]) == [COLON] + AfterColon(l)
  {
    TopOf(outer, Level(false, 2 * i + 1));
  }

  /** Json::stringify and back: what Accept sends to a fresh writer of either layout is a text
      that reads back as the same value. */
  method Stringify(v: Value, l: Layout) returns (text: seq<byte>)
    requires WellFormed(v) && (v.Array? || v.Object?) && ValidLayout(l)
    ensures text == Render(v, l, 0) && Parse(text) == Ok(v, [])
  {
    var w := new Writer(l);
    Accept(v, w);
    text := w.stream;
    assert [] + [] + Render(v, l, 0) == Render(v, l, 0);
    RoundTrip(v, l);
  }
}
