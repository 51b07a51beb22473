/** The errors the JSON reader reports, from the texts it reports them for
    (src/3rdparty/rapidjson/reader.h). */
module JsonErrors {
  import opened Sequences
  import opened JsonValue
  import opened JsonGrammar
  import opened JsonRoundTrip
  import opened JsonProperties
  import opened JsonSyntax
  import opened JsonAcceptance

  /** White space up to the end or to a NUL. */
  lemma EmptyText(ws: seq<byte>, rest: seq<byte>)
    requires AllSpace(ws) && (rest == [] || rest[0] == 0)
    ensures Parse(ws + rest) == Fail(OnlyWhitespace)
  {
    SkipWsDrops(ws, rest);
  }

  /** Anything but an object or an array at the root. */
  lemma ScalarRoot(ws: seq<byte>, c: byte, rest: seq<byte>)
    requires AllSpace(ws) && !IsSpace(c) && c != 0 && c != Code('{') && c != Code('[')
    ensures Parse(ws + ([c] + rest)) == Fail(RootNotContainer)
  {
    Cons(c, rest);
    SkipWsDrops(ws, [c] + rest);
  }

  /** Anything behind it. */
  lemma {:induction false} TextBehindRoot(d: Document, c: byte, rest: seq<byte>)
    requires DocumentOk(d) && !IsSpace(c) && c != 0
    ensures Parse(DocumentText(d, [c] + rest)) == Fail(TextAfterRoot)
  {
    var tail := d.after + ([c] + rest);
    Cons(c, rest);
    TextHead(d.root, tail);
    SkipWsDrops(d.before, TreeText(d.root, tail));
    SkipWsDrops(d.after, [c] + rest);
    if d.root.ArrayTree? { ReadArrayTree(d.root, tail); } else { ReadObjectTree(d.root, tail); }
  }

  /** An element that neither a comma nor the bracket follows. */
  lemma {:induction false} BadSeparatorInArray(i: Item, c: byte, rest: seq<byte>)
    requires ItemOk(i) && !IsSpace(c) && EndsNumber(c) && c != Code(',') && c != Code(']')
    ensures ParseElements(ItemText(i, [c] + rest)) == Fail(BadArraySeparator)
  {
    Cons(c, rest);
    ReadItem(i, c, rest);
  }

  /** A member that neither a comma nor the brace follows. */
  lemma {:induction false} BadSeparatorInObject(e: Entry, c: byte, rest: seq<byte>)
    requires EntryOk(e) && !IsSpace(c) && EndsNumber(c) && c != Code(',') && c != Code('}')
    ensures ParseMembers(EntryText(e, [c] + rest)) == Fail(BadObjectSeparator)
  {
    Cons(c, rest);
    ReadEntry(e, c, rest);
  }

  /** A member that does not start with a name, or a name that no colon follows. */
  lemma {:induction false} BadMember(s: seq<byte>, name: seq<Char>, ws: seq<byte>, c: byte, rest: seq<byte>)
    requires CharsOk(name) && AllSpace(ws) && !IsSpace(c) && c != Code(':')
    ensures Head(s) != Code('"') ==> ParseMembers(s) == Fail(NameNotString)
    ensures ParseMembers([QUOTE] + CharsText(name, ws + ([c] + rest))) == Fail(MissingColon)
  {
    var tail := ws + ([c] + rest);
    Cons(QUOTE, CharsText(name, tail));
    ReadCharsText(name, tail);
    Cons(c, rest);
    SkipWsDrops(ws, [c] + rest);
    assert ParseMember([QUOTE] + CharsText(name, tail)) == Fail(MissingColon);
  }
}
