/** The writer and the reader as the server calls them, one after the other
    (src/server/json.h, src/server/job.cpp). */
module JsonEndToEnd {
  import opened Sequences
  import opened JsonValue
  import opened JsonGrammar
  import opened JsonRender
  import opened JsonProperties
  import C = JsonAcceptance
  import A = JsonAccept
  import R = JsonReader

  /** What the writer object prints, the reader object accepts, and the document it builds is the
      tree that was printed; the text holds no terminator. */
  method PrintAndRead(v: Value, l: Layout) returns (text: seq<byte>, back: Value)
    requires WellFormed(v) && (v.Array? || v.Object?) && ValidLayout(l)
    ensures 0 !in text && back == v
  {
    text := A.Stringify(v, l);
    RenderNoNul(v, l, 0);
    var o;
    o, back := R.ParseDocument(text);
  }

  /** Reading, printing and reading again: the second document is the first, whatever the spacing
      and the escapes of the text, as long as no number in it is beyond 64 bits or fractional. */
  method ReadPrintAndRead(text: seq<byte>, l: Layout) returns (accepted: bool, first: Value, second: Value)
    requires ValidLayout(l) && (Parse(text).Ok? ==> DoubleFree(Parse(text).value))
    ensures accepted == Parse(text).Ok?
    ensures accepted ==> first == Parse(text).value && second == first
  {
    var o;
    o, first := R.ParseDocument(text);
    accepted, second := o.Success?, Null;
    if accepted {
      ReadAsContainer(text);
      var printed := A.Stringify(first, l);
      o, second := R.ParseDocument(printed);
    }
  }

  /** The reader object against the grammar of RFC 4627 itself: it accepts a text exactly if the
      text is in the language, within the reader's limits, and returns what the text denotes. */
  method ReadDenoted(text: seq<byte>) returns (accepted: bool, v: Value)
    ensures accepted <==> exists d, w, end :: C.DenotesBefore(d, text, w, end)
    ensures accepted ==> exists d, end :: C.DenotesBefore(d, text, v, end)
  {
    var o;
    o, v := R.ParseDocument(text);
    accepted := o.Success?;
    if accepted {
      C.AcceptsExactly(text, v);
    } else {
      forall d, w, end | C.DenotesBefore(d, text, w, end) ensures false { C.AcceptsExactly(text, w); }
    }
  }
}
