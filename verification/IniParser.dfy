/** The configuration file parser (src/common/iniparser.cpp): nested sections, keys with
    continuation lines, and the open sections as a chain from the root. */
module IniParser {
  import opened Sequences
  import opened StringUtils

  const NAME_TRIM: string := "\n\t []\r"

  datatype IniError = NoKeyToAppendTo | WrongDepth | DuplicateSection | NoEqualsSign | DuplicateKey

  type Values = seq<(string, string)>

  /** A section that is complete, in file order. */
  datatype Tree = Tree(values: Values, sections: seq<(string, Tree)>)

  /** A section that is still open; its completed subsections are trees. */
  datatype Frame = Frame(name: string, values: Values, sections: seq<(string, Tree)>)

  /** The open sections from the root inwards, and the key a "+" line belongs to. */
  datatype State = State(open: seq<Frame>, lastKey: string)

  datatype Result = Ok(state: State) | Err(error: IniError)

  // ---- one line ----

  predicate HasKey<T>(xs: seq<(string, T)>, key: string) { exists i | 0 <= i < |xs| :: xs[i].0 == key }

  function Top(st: State): Frame
    requires st.open != []
  {
    st.open[|st.open| - 1]
  }

  function WithTop(st: State, f: Frame): State
    requires st.open != []
  {
    st.(open := st.open[..|st.open| - 1] + [f])
  }

  /** Append a continuation to the value of a key. */
  function AppendTo(vs: Values, key: string, more: string): Values {
    if vs == [] then []
    else if vs[|vs| - 1].0 == key then vs[..|vs| - 1] + [(key, vs[|vs| - 1].1 + "\n" + more)]
    else AppendTo(vs[..|vs| - 1], key, more) + [vs[|vs| - 1]]
  }

  /** Number of leading brackets. */
  function Brackets(line: string): (n: nat)
    ensures n <= |line| && (forall i | 0 <= i < n :: line[i] == '[') && (n < |line| ==> line[n] != '[')
  {
    if line == "" || line[0] != '[' then 0 else 1 + Brackets(line[1..])
  }

  /** Complete the innermost sections until d are open. */
  function CloseTo(open: seq<Frame>, d: nat): (r: seq<Frame>)
    requires 1 <= d <= |open|
    ensures |r| == d
    decreases |open|
  {
    if |open| == d then open
    else
      var n := |open|;
      var inner, outer := open[n - 1], open[n - 2];
      var grown := outer.(sections := outer.sections + [(inner.name, Tree(inner.values, inner.sections))]);
      CloseTo(open[..n - 2] + [grown], d)
  }

  function FindEquals(line: string): (n: nat)
    ensures n <= |line| && '=' !in line[..n] && (n < |line| ==> line[n] == '=')
  {
    if line == "" || line[0] == '=' then 0
    else
      var k := FindEquals(line[1..]);
      assert line[..k + 1] == [line[0]] + line[1..][..k];
      1 + k
  }

  function SectionLine(st: State, line: string): Result
    requires st.open != [] && line != "" && line[0] == '['
  {
    var depth := Brackets(line);
    if depth > |st.open| then Err(WrongDepth)
    else
      var open := CloseTo(st.open, depth);
      var name := Trim(line, NAME_TRIM);
      if HasKey(open[depth - 1].sections, name) then Err(DuplicateSection)
      else Ok(State(open + [Frame(name, [], [])], ""))
  }

  function KeyLine(st: State, line: string): Result
    requires st.open != []
  {
    var n := FindEquals(line);
    if n == |line| then Err(NoEqualsSign)
    else
      var key, value := Trim(line[..n], BLANKS), Trim(line[n + 1..], BLANKS);
      if HasKey(Top(st).values, key) then Err(DuplicateKey)
      else Ok(WithTop(st, Top(st).(values := Top(st).values + [(key, value)])).(lastKey := key))
  }

  function Step(st: State, raw: string): (r: Result)
    requires st.open != []
    ensures r.Ok? ==> r.state.open != []
  {
    var line := Trim(raw, BLANKS);
    if line == "" || line[0] == '#' || line[0] == ';' then Ok(st.(lastKey := ""))
    else if line[0] == '+' then
      if st.lastKey == "" then Err(NoKeyToAppendTo)
      else Ok(WithTop(st, Top(st).(values := AppendTo(Top(st).values, st.lastKey, line[1..]))))
    else if line[0] == '[' then SectionLine(st, line)
    else KeyLine(st, line)
  }

  function Fold(st: State, lines: seq<string>): (r: Result)
    requires st.open != []
    ensures r.Ok? ==> r.state.open != []
    decreases |lines|
  {
    if lines == [] then Ok(st)
    else
      var r := Step(st, lines[0]);
      if r.Err? then r else Fold(r.state, lines[1..])
  }

  const ROOT: Frame := Frame("", [], [])

  datatype Parsed = Document(tree: Tree) | Invalid(error: IniError)

  /** A simple fold over the lines. */
  function Parse(lines: seq<string>): Parsed {
    var r := Fold(State([ROOT], ""), lines);
    if r.Err? then Invalid(r.error)
    else
      var root := CloseTo(r.state.open, 1)[0];
      Document(Tree(root.values, root.sections))
  }

  // ---- the shape of the result ----

  predicate DistinctKeys<T>(xs: seq<(string, T)>) {
    forall i, j | 0 <= i < j < |xs| :: xs[i].0 != xs[j].0
  }

  ghost predicate FrameOk(f: Frame) {
    DistinctKeys(f.values) && DistinctKeys(f.sections) && forall i | 0 <= i < |f.sections| :: TreeOk(f.sections[i].1)
  }

  /** No key and no section name occurs twice at one level, at any depth. */
  ghost predicate TreeOk(t: Tree) {
    && DistinctKeys(t.values) && DistinctKeys(t.sections)
    && forall i | 0 <= i < |t.sections| :: TreeOk(t.sections[i].1)
  }

  /** An open section is not yet among its parent's completed ones. */
  ghost predicate OpenOk(open: seq<Frame>) {
    && open != []
    && (forall i | 0 <= i < |open| :: FrameOk(open[i]))
    && (forall i | 0 <= i < |open| - 1 :: !HasKey(open[i].sections, open[i + 1].name))
  }

  lemma {:induction false} CloseToOk(open: seq<Frame>, d: nat)
    requires OpenOk(open) && 1 <= d <= |open|
    ensures OpenOk(CloseTo(open, d))
    decreases |open|
  {
    if |open| > d {
      var n := |open|;
      var inner, outer := open[n - 1], open[n - 2];
      var grown := outer.(sections := outer.sections + [(inner.name, Tree(inner.values, inner.sections))]);
      assert !HasKey(open[n - 2].sections, open[n - 1].name);
      assert FrameOk(grown);
      CloseToOk(open[..n - 2] + [grown], d);
    }
  }

  lemma {:induction false} AppendToKeys(vs: Values, key: string, more: string)
    ensures |AppendTo(vs, key, more)| == |vs|
    ensures forall i | 0 <= i < |vs| :: AppendTo(vs, key, more)[i].0 == vs[i].0
  {
    if vs != [] && vs[|vs| - 1].0 != key { AppendToKeys(vs[..|vs| - 1], key, more); }
  }

  /** The innermost section may get other values as long as its keys stay distinct. */
  lemma TopValuesOk(st: State, vs: Values)
    requires OpenOk(st.open) && DistinctKeys(vs)
    ensures OpenOk(WithTop(st, Top(st).(values := vs)).open)
  {
    var n := |st.open|;
    var open := WithTop(st, Top(st).(values := vs)).open;
    assert forall i | 0 <= i < n - 1 :: open[i] == st.open[i];
    forall i | 0 <= i < n - 1 ensures !HasKey(open[i].sections, open[i + 1].name) {
      assert !HasKey(st.open[i].sections, st.open[i + 1].name);
    }
  }

  lemma PushOk(open: seq<Frame>, name: string)
    requires OpenOk(open) && !HasKey(open[|open| - 1].sections, name)
    ensures OpenOk(open + [Frame(name, [], [])])
  {
    var all := open + [Frame(name, [], [])];
    forall i | 0 <= i < |all| - 1 ensures !HasKey(all[i].sections, all[i + 1].name) {
      if i < |open| - 1 { assert !HasKey(open[i].sections, open[i + 1].name); }
    }
  }

  lemma KeyLineOk(st: State, line: string)
    requires OpenOk(st.open) && KeyLine(st, line).Ok?
    ensures OpenOk(KeyLine(st, line).state.open)
  {
    var n := FindEquals(line);
    var key, value := Trim(line[..n], BLANKS), Trim(line[n + 1..], BLANKS);
    var vs := Top(st).values;
    assert forall i | 0 <= i < |vs| :: vs[i].0 != key;
    TopValuesOk(st, vs + [(key, value)]);
  }

  lemma {:induction false} StepOk(st: State, raw: string)
    requires OpenOk(st.open) && Step(st, raw).Ok?
    ensures OpenOk(Step(st, raw).state.open)
  {
    var line := Trim(raw, BLANKS);
    if line == "" || line[0] == '#' || line[0] == ';' {
    } else if line[0] == '+' {
      AppendToKeys(Top(st).values, st.lastKey, line[1..]);
      TopValuesOk(st, AppendTo(Top(st).values, st.lastKey, line[1..]));
    } else if line[0] == '[' {
      CloseToOk(st.open, Brackets(line));
      PushOk(CloseTo(st.open, Brackets(line)), Trim(line, NAME_TRIM));
    } else {
      KeyLineOk(st, line);
    }
  }

  lemma {:induction false} FoldOk(st: State, lines: seq<string>)
    requires OpenOk(st.open) && Fold(st, lines).Ok?
    ensures OpenOk(Fold(st, lines).state.open)
    decreases |lines|
  {
    if lines != [] {
      StepOk(st, lines[0]);
      FoldOk(Step(st, lines[0]).state, lines[1..]);
    }
  }

  /** Whatever file is accepted, the tree has every key and every section of a level once. */
  lemma ParsedTreeOk(lines: seq<string>)
    requires Parse(lines).Document?
    ensures TreeOk(Parse(lines).tree)
  {
    FoldOk(State([ROOT], ""), lines);
    CloseToOk(Fold(State([ROOT], ""), lines).state.open, 1);
  }

  /** A line of nothing but blanks is skipped exactly if it is empty: trim returns any other one
      unchanged, and without an equals sign it is refused. */
  lemma BlankLine(st: State, raw: string)
    requires st.open != [] && AllIn(raw, BLANKS)
    ensures Step(st, raw) == if raw == "" then Ok(st.(lastKey := "")) else Err(NoEqualsSign)
  {
    TrimMeaning(raw, BLANKS);
    if raw != "" {
      assert raw[0] in raw && raw[0] in BLANKS;
      if FindEquals(raw) < |raw| { assert raw[FindEquals(raw)] in raw; }
    }
  }

  /** Closing leaves section d as it was, with the section that was open in it complete. */
  lemma {:induction false} ClosedTop(open: seq<Frame>, d: nat)
    requires 1 <= d <= |open|
    ensures var was, now := open[d - 1], CloseTo(open, d)[d - 1];
            && now.name == was.name && now.values == was.values
            && |now.sections| == |was.sections| + (if d < |open| then 1 else 0)
            && now.sections[..|was.sections|] == was.sections
            && (d < |open| ==> now.sections[|was.sections|].0 == open[d].name)
    decreases |open|
  {
    if |open| > d {
      var n := |open|;
      var inner, outer := open[n - 1], open[n - 2];
      var grown := outer.(sections := outer.sections + [(inner.name, Tree(inner.values, inner.sections))]);
      ClosedTop(open[..n - 2] + [grown], d);
      assert grown.sections[..|outer.sections|] == outer.sections;
    }
  }

  /** What a section may no longer be called: the names in its parent, complete or still open. */
  predicate NameTaken(open: seq<Frame>, d: nat, name: string)
    requires 1 <= d <= |open|
  {
    HasKey(open[d - 1].sections, name) || (d < |open| && open[d].name == name)
  }

  lemma TakenMeans(open: seq<Frame>, d: nat, name: string)
    requires 1 <= d <= |open|
    ensures HasKey(CloseTo(open, d)[d - 1].sections, name) <==> NameTaken(open, d, name)
  {
    ClosedTop(open, d);
    var was, now := open[d - 1].sections, CloseTo(open, d)[d - 1].sections;
    forall i | 0 <= i < |was| ensures now[i] == was[i] { assert now[i] == now[..|was|][i]; }
    if d < |open| { assert now[|was|].0 == open[d].name; }
  }

  lemma EqualsFound(line: string)
    ensures '=' in line <==> FindEquals(line) < |line|
  {
    if FindEquals(line) < |line| { assert line[FindEquals(line)] in line; } else { assert line[..|line|] == line; }
  }

  lemma TrimCharacters(c: char)
    ensures c in BLANKS <==> c == ' ' || c == '\t' || c == '\r' || c == '\n'
    ensures c in NAME_TRIM <==> c in BLANKS || c == '[' || c == ']'
  {
  }

  /** Empty lines and comments do no more than end the value before them. */
  lemma SkippedLine(st: State, raw: string)
    requires st.open != []
    requires var line := Trim(raw, BLANKS); line == "" || line[0] == '#' || line[0] == ';'
    ensures Step(st, raw) == Ok(State(st.open, ""))
  {
  }

  /** A "+" line is refused exactly if there is no value to go on with. */
  lemma ContinuationLine(st: State, raw: string)
    requires st.open != [] && var line := Trim(raw, BLANKS); line != "" && line[0] == '+'
    ensures Step(st, raw).Err? <==> st.lastKey == ""
    ensures Step(st, raw).Ok? ==>
              var line, next := Trim(raw, BLANKS), Step(st, raw).state;
              next.lastKey == st.lastKey && next.open == st.open[..|st.open| - 1] + [
                Top(st).(values := AppendTo(Top(st).values, st.lastKey, line[1..]))]
  {
  }

  /** A section line is refused exactly if it is more than one deeper than the open section or its
      name is taken there; otherwise it opens an empty section at its depth. */
  lemma SectionHeader(st: State, raw: string)
    requires st.open != [] && var line := Trim(raw, BLANKS); line != "" && line[0] == '['
    ensures var depth, name := Brackets(Trim(raw, BLANKS)), Trim(Trim(raw, BLANKS), NAME_TRIM);
            && (Step(st, raw).Err? <==> depth > |st.open| || NameTaken(st.open, depth, name))
            && (Step(st, raw).Ok? ==>
                  var next := Step(st, raw).state;
                  next.lastKey == "" && |next.open| == depth + 1 && Top(next) == Frame(name, [], []))
  {
    var line := Trim(raw, BLANKS);
    if Brackets(line) <= |st.open| { TakenMeans(st.open, Brackets(line), Trim(line, NAME_TRIM)); }
  }

  /** Any other line is refused exactly if it has no equals sign or its key is there already;
      otherwise the section gets the key and the value, what is before and behind the first sign. */
  lemma KeyValueLine(st: State, raw: string)
    requires st.open != []
    requires var line := Trim(raw, BLANKS); line != "" && line[0] != '#' && line[0] != ';' && line[0] != '+' && line[0] != '['
    ensures var line := Trim(raw, BLANKS);
            var n := FindEquals(line);
            && (Step(st, raw).Err? <==> '=' !in line || HasKey(Top(st).values, Trim(line[..n], BLANKS)))
            && (Step(st, raw).Ok? ==>
                  && n < |line|
                  && var next, key, value := Step(st, raw).state, Trim(line[..n], BLANKS), Trim(line[n + 1..], BLANKS);
                     && next.lastKey == key
                     && next.open == st.open[..|st.open| - 1] + [Top(st).(values := Top(st).values + [(key, value)])])
  {
    EqualsFound(Trim(raw, BLANKS));
  }

  /** A continuation changes the value of its key, by a line feed and the text, and no other. */
  lemma {:induction false} AppendToMeans(vs: Values, key: string, more: string, i: nat)
    requires DistinctKeys(vs) && i < |vs|
    ensures |AppendTo(vs, key, more)| == |vs|
    ensures AppendTo(vs, key, more)[i] == (vs[i].0, if vs[i].0 == key then vs[i].1 + "\n" + more else vs[i].1)
  {
    AppendToKeys(vs, key, more);
    if vs[|vs| - 1].0 != key && i < |vs| - 1 { AppendToMeans(vs[..|vs| - 1], key, more, i); }
  }

  // ---- printing ----

  /** Keys, values and names that survive being written to a line and read back. */
  predicate GoodKey(k: string) {
    Trimmed(k, BLANKS) && '=' !in k && k[0] != '#' && k[0] != ';' && k[0] != '+' && k[0] != '['
  }

  predicate GoodStart(v: string) { v == "" || Trimmed(v, BLANKS) }

  predicate GoodMore(v: string) { v == "" || v[|v| - 1] !in BLANKS }

  predicate GoodName(n: string) { Trimmed(n, NAME_TRIM) }

  /** The position of the last line feed; the length if there is none. */
  function LastBreak(v: string): (i: nat)
    ensures i <= |v| && (i < |v| ==> v[i] == '\n') && (i == |v| ==> '\n' !in v)
  {
    if v == "" then 0
    else if v[|v| - 1] == '\n' then |v| - 1
    else
      var i := LastBreak(v[..|v| - 1]);
      if i == |v| - 1 then |v| else i
  }

  predicate GoodValue(v: string) {
    var i := LastBreak(v);
    if i == |v| then GoodStart(v) else GoodValue(v[..i]) && GoodMore(v[i + 1..])
  }

  /** An empty key takes no continuation lines. */
  predicate GoodEntry(k: string, v: string) {
    if k == "" then '\n' !in v && GoodStart(v) else GoodKey(k) && GoodValue(v)
  }

  /** key = first line, then a "+" line for every further line of the value. */
  function ValueLines(key: string, v: string): seq<string> {
    var i := LastBreak(v);
    if i == |v| then [key + "=" + v] else ValueLines(key, v[..i]) + ["+" + v[i + 1..]]
  }

  function AllValueLines(vs: Values): seq<string> {
    if vs == [] then [] else AllValueLines(vs[..|vs| - 1]) + ValueLines(vs[|vs| - 1].0, vs[|vs| - 1].1)
  }

  function Header(name: string, depth: nat): string { Repeat('[', depth) + name + Repeat(']', depth) }

  /** The lines of a section's body; depth is the depth of its subsections. */
  function Lines(t: Tree, depth: nat): seq<string>
    decreases t, 1
  {
    AllValueLines(t.values) + SectionLines(t.sections, depth)
  }

  function SectionLines(ss: seq<(string, Tree)>, depth: nat): seq<string>
    decreases ss, 0
  {
    if ss == [] then [] else OneSection(ss[0], depth) + SectionLines(ss[1..], depth)
  }

  function OneSection(s: (string, Tree), depth: nat): seq<string>
    decreases s
  {
    [Header(s.0, depth)] + Lines(s.1, depth + 1)
  }

  /** A tree that can be written: distinct and harmless keys and names throughout. */
  ghost predicate Printable(t: Tree) {
    && DistinctKeys(t.values) && DistinctKeys(t.sections)
    && (forall i | 0 <= i < |t.values| :: GoodEntry(t.values[i].0, t.values[i].1))
    && (forall i | 0 <= i < |t.sections| :: GoodName(t.sections[i].0) && Printable(t.sections[i].1))
  }

  // ---- reading printed lines ----

  lemma {:induction false} FoldConcat(st: State, a: seq<string>, b: seq<string>)
    requires st.open != []
    ensures Fold(st, a + b) == if Fold(st, a).Err? then Fold(st, a) else Fold(Fold(st, a).state, b)
    decreases |a|
  {
    if a == [] {
      assert a + b == b;
    } else {
      assert (a + b)[1..] == a[1..] + b && (a + b)[0] == a[0];
      if Step(st, a[0]).Ok? { FoldConcat(Step(st, a[0]).state, a[1..], b); }
    }
  }

  lemma FoldOne(st: State, line: string)
    requires st.open != []
    ensures Fold(st, [line]) == Step(st, line)
  {
    assert [line][1..] == [];
  }

  lemma {:induction false} FindEqualsAt(k: string, v: string)
    requires '=' !in k
    ensures FindEquals(k + "=" + v) == |k|
  {
    if k != "" {
      assert (k + "=" + v)[1..] == k[1..] + "=" + v && k[0] in k;
      FindEqualsAt(k[1..], v);
    }
  }

  /** A line of a key and a value is taken apart as it was put together. */
  lemma {:induction false} KeyLineText(k: string, v: string)
    requires (k == "" || GoodKey(k)) && GoodStart(v)
    ensures var line := k + "=" + v;
            && Trim(line, BLANKS) == line && line[0] == (if k == "" then '=' else k[0])
            && FindEquals(line) == |k| < |line| && line[..|k|] == k && line[|k| + 1..] == v
  {
    var line := k + "=" + v;
    assert line[0] == (if k == "" then '=' else k[0]) && line[|line| - 1] == if v == "" then '=' else v[|v| - 1];
    TrimNothing(line, BLANKS);
    FindEqualsAt(k, v);
  }

  lemma {:induction false} ReadKeyLine(st: State, k: string, v: string)
    requires st.open != [] && (k == "" || GoodKey(k)) && GoodStart(v) && !HasKey(Top(st).values, k)
    ensures Step(st, k + "=" + v)
         == Ok(WithTop(st, Top(st).(values := Top(st).values + [(k, v)])).(lastKey := k))
  {
    KeyLineText(k, v);
    TrimNothing(k, BLANKS);
    TrimNothing(v, BLANKS);
    KeyStep(st, k + "=" + v);
    KeyLineOf(st, k + "=" + v, k, v);
  }

  lemma {:induction false} KeyStep(st: State, raw: string)
    requires st.open != [] && Trim(raw, BLANKS) == raw && raw != "" && raw[0] !in "#;+["
    ensures Step(st, raw) == KeyLine(st, raw)
  {
  }

  lemma {:induction false} KeyLineOf(st: State, line: string, k: string, v: string)
    requires st.open != [] && FindEquals(line) == |k| < |line| && line[..|k|] == k && line[|k| + 1..] == v
    requires Trim(k, BLANKS) == k && Trim(v, BLANKS) == v && !HasKey(Top(st).values, k)
    ensures KeyLine(st, line) == Ok(WithTop(st, Top(st).(values := Top(st).values + [(k, v)])).(lastKey := k))
  {
  }

  lemma ReadMoreLine(st: State, more: string)
    requires st.open != [] && GoodMore(more) && st.lastKey != ""
    ensures Step(st, "+" + more)
         == Ok(WithTop(st, Top(st).(values := AppendTo(Top(st).values, st.lastKey, more))))
  {
    var line := "+" + more;
    assert line[|line| - 1] == if more == "" then '+' else more[|more| - 1];
    TrimNothing(line, BLANKS);
    assert line[1..] == more;
  }

  /** The values of the innermost section, with the key that was read last. */
  function Reading(open: seq<Frame>, vs: Values, key: string): State
    requires open != []
  {
    State(open[..|open| - 1] + [open[|open| - 1].(values := vs)], key)
  }

  lemma ReadingAgain(open: seq<Frame>, vs: Values, key: string, ws: Values, key2: string)
    requires open != []
    ensures var st := Reading(open, vs, key);
            WithTop(st, Top(st).(values := ws)).(lastKey := key2) == Reading(open, ws, key2) && Top(st).values == vs
  {
    var st := Reading(open, vs, key);
    assert st.open[..|st.open| - 1] == open[..|open| - 1];
  }

  lemma {:induction false} ReadValueLines(open: seq<Frame>, vs: Values, key0: string, k: string, v: string)
    requires open != [] && GoodEntry(k, v) && !HasKey(vs, k)
    ensures Fold(Reading(open, vs, key0), ValueLines(k, v)) == Ok(Reading(open, vs + [(k, v)], k))
    decreases |v|
  {
    var i := LastBreak(v);
    var st := Reading(open, vs, key0);
    if i == |v| {
      ReadFirstLine(open, vs, key0, k, v);
    } else {
      BreakAt(v, i);
      ReadValueLines(open, vs, key0, k, v[..i]);
      ReadContinuation(open, vs, k, v[..i], v[i + 1..]);
      FoldThen(st, ValueLines(k, v[..i]), "+" + v[i + 1..], Reading(open, vs + [(k, v[..i])], k));
    }
  }

  lemma BreakAt(v: string, i: nat)
    requires i < |v| && v[i] == '\n'
    ensures v[..i] + "\n" + v[i + 1..] == v
  {
  }

  lemma AllButLast<T>(xs: seq<T>)
    requires xs != []
    ensures xs[..|xs| - 1] + [xs[|xs| - 1]] == xs
  {
  }

  lemma {:induction false} FoldThen(st: State, lines: seq<string>, line: string, mid: State)
    requires st.open != [] && mid.open != [] && Fold(st, lines) == Ok(mid)
    ensures Fold(st, lines + [line]) == Step(mid, line)
  {
    FoldConcat(st, lines, [line]);
    FoldOne(mid, line);
  }

  lemma {:induction false} ReadFirstLine(open: seq<Frame>, vs: Values, key0: string, k: string, v: string)
    requires open != [] && (k == "" || GoodKey(k)) && GoodStart(v) && !HasKey(vs, k)
    ensures Fold(Reading(open, vs, key0), [k + "=" + v]) == Ok(Reading(open, vs + [(k, v)], k))
  {
    var st := Reading(open, vs, key0);
    FoldOne(st, k + "=" + v);
    ReadingAgain(open, vs, key0, vs + [(k, v)], k);
    ReadKeyLine(st, k, v);
  }

  lemma {:induction false} ReadContinuation(open: seq<Frame>, vs: Values, k: string, front: string, more: string)
    requires open != [] && k != "" && GoodMore(more)
    ensures Step(Reading(open, vs + [(k, front)], k), "+" + more)
         == Ok(Reading(open, vs + [(k, front + "\n" + more)], k))
  {
    var next := vs + [(k, front + "\n" + more)];
    AppendLast(vs, k, front, more);
    ReadingAgain(open, vs + [(k, front)], k, next, k);
    ReadMoreLine(Reading(open, vs + [(k, front)], k), more);
  }

  lemma AppendLast(vs: Values, k: string, front: string, more: string)
    ensures AppendTo(vs + [(k, front)], k, more) == vs + [(k, front + "\n" + more)]
  {
    var all := vs + [(k, front)];
    assert all[..|all| - 1] == vs;
  }

  lemma {:induction false} ReadAllValues(open: seq<Frame>, key0: string, vs: Values)
    requires open != [] && DistinctKeys(vs)
    requires forall i | 0 <= i < |vs| :: GoodEntry(vs[i].0, vs[i].1)
    requires open[|open| - 1].values == []
    ensures var r := Fold(State(open, key0), AllValueLines(vs));
            r.Ok? && r.state == Reading(open, vs, r.state.lastKey)
    decreases |vs|
  {
    if vs == [] {
      assert Reading(open, [], key0).open == open;
    } else {
      var front, last := vs[..|vs| - 1], vs[|vs| - 1];
      ReadAllValues(open, key0, front);
      var mid := Fold(State(open, key0), AllValueLines(front)).state;
      assert !HasKey(front, last.0);
      ReadValueLines(open, front, mid.lastKey, last.0, last.1);
      FoldConcat(State(open, key0), AllValueLines(front), ValueLines(last.0, last.1));
      AllButLast(vs);
    }
  }

  lemma HeaderShape(name: string, depth: nat)
    requires GoodName(name) && depth >= 1
    ensures var h := Header(name, depth);
            && Trim(h, BLANKS) == h && h[0] == '[' && Brackets(h) == depth && Trim(h, NAME_TRIM) == name
  {
    var h := Header(name, depth);
    var a, b := Repeat('[', depth), Repeat(']', depth);
    assert h[0] == a[0] && h[|h| - 1] == b[depth - 1];
    TrimNothing(h, BLANKS);
    TrimWrapped(a, name, b, NAME_TRIM);
    var n := Brackets(h);
    assert h[depth] == name[0] && name[0] != '[';
    assert forall i | 0 <= i < depth :: h[i] == a[i];
  }

  lemma ReadHeader(st: State, name: string, depth: nat)
    requires GoodName(name) && 1 <= depth <= |st.open|
    requires !HasKey(CloseTo(st.open, depth)[depth - 1].sections, name)
    ensures Step(st, Header(name, depth)) == Ok(State(CloseTo(st.open, depth) + [Frame(name, [], [])], ""))
  {
    HeaderShape(name, depth);
    SectionStep(st, Header(name, depth));
    assert SectionLine(st, Header(name, depth)) == Ok(State(CloseTo(st.open, depth) + [Frame(name, [], [])], ""));
  }

  lemma SectionStep(st: State, raw: string)
    requires st.open != [] && Trim(raw, BLANKS) == raw && raw != "" && raw[0] == '['
    ensures Step(st, raw) == SectionLine(st, raw)
  {
  }

  lemma {:induction false} CloseTwice(open: seq<Frame>, a: nat, b: nat)
    requires 1 <= b <= a <= |open|
    ensures CloseTo(CloseTo(open, a), b) == CloseTo(open, b)
    decreases |open|
  {
    if |open| > a {
      var n := |open|;
      var inner, outer := open[n - 1], open[n - 2];
      var grown := outer.(sections := outer.sections + [(inner.name, Tree(inner.values, inner.sections))]);
      CloseTwice(open[..n - 2] + [grown], a, b);
    }
  }

  /** Reading the body of a section: closed down to its own level, it holds exactly its tree. */
  lemma {:induction false} ReadBody(below: seq<Frame>, name: string, key0: string, t: Tree)
    requires Printable(t)
    ensures var open := below + [Frame(name, [], [])];
            var r := Fold(State(open, key0), Lines(t, |open|));
            r.Ok? && |r.state.open| >= |open|
            && CloseTo(r.state.open, |open|) == below + [Frame(name, t.values, t.sections)]
    decreases t, 1
  {
    var open := below + [Frame(name, [], [])];
    ReadAllValues(open, key0, t.values);
    var mid := Fold(State(open, key0), AllValueLines(t.values)).state;
    assert mid.open == below + [Frame(name, t.values, [])];
    FoldConcat(State(open, key0), AllValueLines(t.values), SectionLines(t.sections, |open|));
    ReadSections(mid, below, Frame(name, t.values, []), t.sections);
    assert [] + t.sections == t.sections;
  }

  lemma {:induction false} ReadSections(st: State, below: seq<Frame>, f: Frame, ss: seq<(string, Tree)>)
    requires |st.open| > |below| && CloseTo(st.open, |below| + 1) == below + [f]
    requires forall i | 0 <= i < |ss| :: GoodName(ss[i].0) && Printable(ss[i].1)
    requires DistinctKeys(f.sections + ss)
    ensures var r := Fold(st, SectionLines(ss, |below| + 1));
            r.Ok? && |r.state.open| > |below|
            && CloseTo(r.state.open, |below| + 1) == below + [f.(sections := f.sections + ss)]
    decreases ss, 0
  {
    if ss == [] {
      assert f.sections + ss == f.sections;
    } else {
      FreshName(f.sections, ss);
      var after := ReadSection(st, below, f, ss[0]);
      FoldConcat(st, OneSection(ss[0], |below| + 1), SectionLines(ss[1..], |below| + 1));
      MoveSection(f.sections, ss);
      ReadSections(after, below, f.(sections := f.sections + [ss[0]]), ss[1..]);
    }
  }

  /** A header and a body. */
  lemma {:induction false} ReadSection(st: State, below: seq<Frame>, f: Frame, s: (string, Tree)) returns (after: State)
    requires |st.open| > |below| && CloseTo(st.open, |below| + 1) == below + [f]
    requires GoodName(s.0) && Printable(s.1) && !HasKey(f.sections, s.0)
    ensures Fold(st, OneSection(s, |below| + 1)) == Ok(after) && |after.open| > |below|
    ensures CloseTo(after.open, |below| + 1) == below + [f.(sections := f.sections + [s])]
    decreases s
  {
    var d := |below| + 1;
    ReadHeader(st, s.0, d);
    var inner := State(below + [f] + [Frame(s.0, [], [])], "");
    ReadBody(below + [f], s.0, "", s.1);
    after := Fold(inner, Lines(s.1, d + 1)).state;
    ReadOne(st, s, d, inner, after);
    CloseTwice(after.open, d + 1, d);
    CloseOne(below, f, s.0, s.1);
  }

  lemma FreshName(done: seq<(string, Tree)>, ss: seq<(string, Tree)>)
    requires ss != [] && DistinctKeys(done + ss)
    ensures !HasKey(done, ss[0].0)
  {
    var all := done + ss;
    forall i | 0 <= i < |done| ensures done[i].0 != ss[0].0 { assert all[i].0 != all[|done|].0; }
  }

  lemma MoveSection(done: seq<(string, Tree)>, ss: seq<(string, Tree)>)
    requires ss != []
    ensures (done + [ss[0]]) + ss[1..] == done + ss
  {
  }

  lemma CloseOne(below: seq<Frame>, f: Frame, name: string, sub: Tree)
    ensures var open := below + [f] + [Frame(name, sub.values, sub.sections)];
            CloseTo(open, |below| + 1) == below + [f.(sections := f.sections + [(name, sub)])]
  {
    var open := below + [f] + [Frame(name, sub.values, sub.sections)];
    var n := |open|;
    assert open[..n - 2] == below && open[n - 2] == f;
  }

  lemma ReadOne(st: State, s: (string, Tree), d: nat, inner: State, after: State)
    requires st.open != [] && inner.open != [] && Step(st, Header(s.0, d)) == Ok(inner)
    requires Fold(inner, Lines(s.1, d + 1)) == Ok(after)
    ensures Fold(st, OneSection(s, d)) == Ok(after)
  {
    FoldConcat(st, [Header(s.0, d)], Lines(s.1, d + 1));
    FoldOne(st, Header(s.0, d));
  }

  /** Printing a tree and parsing the lines gives the tree back. */
  lemma PrintParse(t: Tree)
    requires Printable(t)
    ensures Parse(Lines(t, 1)) == Document(t)
  {
    ReadBody([], "", "", t);
    assert [] + [ROOT] == [ROOT];
    assert ([] + [Frame("", t.values, t.sections)])[0] == Frame("", t.values, t.sections);
  }
}
