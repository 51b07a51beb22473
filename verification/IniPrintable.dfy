/** Which configuration files survive being read, printed and read again. */
module IniPrintable {
  import opened Sequences
  import opened StringUtils
  import opened IniParser

  /** A section name that is more than brackets and blanks. */
  predicate BareName(name: string) { AllIn(name, NAME_TRIM) }

  ghost predicate NoBareNames(t: Tree) {
    forall i | 0 <= i < |t.sections| :: !BareName(t.sections[i].0) && NoBareNames(t.sections[i].1)
  }

  // ---- what lines without a line feed leave in a tree ----

  ghost predicate ValuesRead(vs: Values) { forall i | 0 <= i < |vs| :: GoodEntry(vs[i].0, vs[i].1) }

  predicate NameRead(name: string) { BareName(name) || GoodName(name) }

  ghost predicate TreeRead(t: Tree) {
    ValuesRead(t.values) && forall i | 0 <= i < |t.sections| :: NameRead(t.sections[i].0) && TreeRead(t.sections[i].1)
  }

  ghost predicate FrameRead(f: Frame) {
    ValuesRead(f.values) && forall i | 0 <= i < |f.sections| :: NameRead(f.sections[i].0) && TreeRead(f.sections[i].1)
  }

  ghost predicate OpenRead(open: seq<Frame>) {
    && open != [] && (forall i | 0 <= i < |open| :: FrameRead(open[i]))
    && (forall i | 1 <= i < |open| :: NameRead(open[i].name))
  }

  // ---- lines ----

  lemma TrimContains(s: string, chars: string)
    ensures forall c | c in Trim(s, chars) :: c in s
  {
  }

  /** Unless it is blank throughout, a trimmed line begins and ends with something. */
  lemma TrimmedLine(raw: string, c: char)
    requires c !in BLANKS && c in Trim(raw, BLANKS)
    ensures Trimmed(Trim(raw, BLANKS), BLANKS)
  {
    TrimMeaning(raw, BLANKS);
  }

  lemma KeyRead(line: string, n: nat)
    requires Trimmed(line, BLANKS) && n <= |line| && '=' !in line[..n]
    requires line[0] != '#' && line[0] != ';' && line[0] != '+' && line[0] != '['
    ensures var key := Trim(line[..n], BLANKS); key == "" || GoodKey(key)
  {
    var front := line[..n];
    TrimMeaning(front, BLANKS);
    TrimContains(front, BLANKS);
    if n > 0 {
      assert front[0] == line[0] && front[0] in front;
      assert FirstNotOf(front, BLANKS) == 0;
      assert Trim(front, BLANKS)[0] == line[0];
    }
  }

  lemma ValueRead(line: string, n: nat)
    requires Trimmed(line, BLANKS) && n <= |line| && '\n' !in line
    ensures var v := Trim(line[n..], BLANKS); GoodStart(v) && '\n' !in v && GoodValue(v)
  {
    var rest := line[n..];
    TrimMeaning(rest, BLANKS);
    TrimContains(rest, BLANKS);
    if rest != "" { assert rest[|rest| - 1] == line[|line| - 1] && rest[|rest| - 1] in rest; }
    var v := Trim(rest, BLANKS);
    assert forall c | c in v :: c in line;
  }

  lemma {:induction false} LastBreakAt(v: string, more: string)
    requires '\n' !in more
    ensures LastBreak(v + "\n" + more) == |v|
    decreases |more|
  {
    var s := v + "\n" + more;
    if more != "" {
      assert s[..|s| - 1] == v + "\n" + more[..|more| - 1];
      assert s[|s| - 1] == more[|more| - 1] && more[|more| - 1] in more;
      LastBreakAt(v, more[..|more| - 1]);
    }
  }

  lemma MoreRead(v: string, more: string)
    requires GoodValue(v) && GoodMore(more) && '\n' !in more
    ensures GoodValue(v + "\n" + more)
  {
    var s := v + "\n" + more;
    LastBreakAt(v, more);
    assert s[..|v|] == v && s[|v| + 1..] == more;
  }

  lemma {:induction false} AppendRead(vs: Values, key: string, more: string)
    requires ValuesRead(vs) && key != "" && GoodMore(more) && '\n' !in more
    ensures ValuesRead(AppendTo(vs, key, more))
  {
    if vs != [] {
      var last := vs[|vs| - 1];
      if last.0 == key { MoreRead(last.1, more); } else { AppendRead(vs[..|vs| - 1], key, more); }
    }
  }

  // ---- steps ----

  lemma TopRead(st: State, vs: Values)
    requires OpenRead(st.open) && ValuesRead(vs)
    ensures OpenRead(WithTop(st, Top(st).(values := vs)).open)
  {
    var n := |st.open|;
    var open := WithTop(st, Top(st).(values := vs)).open;
    assert forall i | 0 <= i < n - 1 :: open[i] == st.open[i];
    assert FrameRead(st.open[n - 1]);
  }

  lemma {:induction false} CloseRead(open: seq<Frame>, d: nat)
    requires OpenRead(open) && 1 <= d <= |open|
    ensures OpenRead(CloseTo(open, d))
    decreases |open|
  {
    if |open| > d {
      var n := |open|;
      var inner, outer := open[n - 1], open[n - 2];
      var grown := outer.(sections := outer.sections + [(inner.name, Tree(inner.values, inner.sections))]);
      assert FrameRead(inner) && FrameRead(outer);
      assert TreeRead(Tree(inner.values, inner.sections));
      assert FrameRead(grown);
      CloseRead(open[..n - 2] + [grown], d);
    }
  }

  lemma {:induction false} SectionRead(st: State, line: string)
    requires OpenRead(st.open) && line != "" && line[0] == '[' && SectionLine(st, line).Ok?
    ensures OpenRead(SectionLine(st, line).state.open)
  {
    CloseRead(st.open, Brackets(line));
    TrimMeaning(line, NAME_TRIM);
    var name := Trim(line, NAME_TRIM);
    assert NameRead(name);
    assert FrameRead(Frame(name, [], []));
  }

  lemma {:induction false} KeyLineRead(st: State, line: string)
    requires OpenRead(st.open) && Trimmed(line, BLANKS) && '\n' !in line && KeyLine(st, line).Ok?
    requires line[0] != '#' && line[0] != ';' && line[0] != '+' && line[0] != '['
    ensures OpenRead(KeyLine(st, line).state.open)
  {
    var n := FindEquals(line);
    KeyRead(line, n);
    ValueRead(line, n + 1);
    assert FrameRead(Top(st));
    var key, value := Trim(line[..n], BLANKS), Trim(line[n + 1..], BLANKS);
    assert GoodEntry(key, value);
    TopRead(st, Top(st).values + [(key, value)]);
  }

  lemma AppendLineRead(st: State, line: string)
    requires OpenRead(st.open) && Trimmed(line, BLANKS) && '\n' !in line && st.lastKey != ""
    ensures OpenRead(WithTop(st, Top(st).(values := AppendTo(Top(st).values, st.lastKey, line[1..]))).open)
  {
    var more := line[1..];
    assert FrameRead(Top(st));
    if more != "" { assert more[|more| - 1] == line[|line| - 1]; }
    AppendRead(Top(st).values, st.lastKey, more);
    TopRead(st, AppendTo(Top(st).values, st.lastKey, more));
  }

  lemma {:induction false} StepRead(st: State, raw: string)
    requires OpenRead(st.open) && '\n' !in raw && Step(st, raw).Ok?
    ensures OpenRead(Step(st, raw).state.open)
  {
    var line := Trim(raw, BLANKS);
    TrimContains(raw, BLANKS);
    if line == "" || line[0] == '#' || line[0] == ';' {
    } else if line[0] == '+' {
      TrimmedLine(raw, '+');
      AppendLineRead(st, line);
    } else if line[0] == '[' {
      SectionRead(st, line);
    } else {
      assert line[FindEquals(line)] in line;
      TrimmedLine(raw, '=');
      KeyLineRead(st, line);
    }
  }

  ghost predicate SingleLines(lines: seq<string>) { forall i | 0 <= i < |lines| :: '\n' !in lines[i] }

  lemma {:induction false} FoldRead(st: State, lines: seq<string>)
    requires OpenRead(st.open) && SingleLines(lines) && Fold(st, lines).Ok?
    ensures OpenRead(Fold(st, lines).state.open)
    decreases |lines|
  {
    if lines != [] {
      StepRead(st, lines[0]);
      FoldRead(Step(st, lines[0]).state, lines[1..]);
    }
  }

  lemma ParsedTreeRead(lines: seq<string>)
    requires SingleLines(lines) && Parse(lines).Document?
    ensures TreeRead(Parse(lines).tree)
  {
    var start := State([ROOT], "");
    FoldRead(start, lines);
    CloseRead(Fold(start, lines).state.open, 1);
    assert FrameRead(CloseTo(Fold(start, lines).state.open, 1)[0]);
  }

  // ---- printable, exactly ----

  lemma {:induction false} ReadPrintable(t: Tree)
    requires TreeOk(t) && TreeRead(t)
    ensures Printable(t) <==> NoBareNames(t)
  {
    forall i | 0 <= i < |t.sections|
      ensures Printable(t.sections[i].1) <==> NoBareNames(t.sections[i].1)
      ensures GoodName(t.sections[i].0) <==> !BareName(t.sections[i].0)
    {
      ReadPrintable(t.sections[i].1);
      var name := t.sections[i].0;
      if GoodName(name) { assert name[0] in name; }
    }
  }

  // ---- names that are lost ----

  /** A section of this name, at any depth. */
  ghost predicate HasName(t: Tree, name: string) {
    exists i | 0 <= i < |t.sections| :: t.sections[i].0 == name || HasName(t.sections[i].1, name)
  }

  ghost predicate FrameHas(f: Frame, name: string) { HasName(Tree(f.values, f.sections), name) }

  ghost predicate OpenHas(open: seq<Frame>, name: string) {
    exists i | 0 <= i < |open| :: FrameHas(open[i], name) || (i > 0 && open[i].name == name)
  }

  lemma ValuesKeep(t: Tree, vs: Values, name: string)
    requires HasName(t, name)
    ensures HasName(t.(values := vs), name)
  {
    var i :| 0 <= i < |t.sections| && (t.sections[i].0 == name || HasName(t.sections[i].1, name));
    assert t.(values := vs).sections[i] == t.sections[i];
  }

  lemma MoreSections(t: Tree, s: (string, Tree), name: string)
    requires HasName(t, name) || s.0 == name || HasName(s.1, name)
    ensures HasName(t.(sections := t.sections + [s]), name)
  {
    var more := t.(sections := t.sections + [s]);
    if HasName(t, name) {
      var i :| 0 <= i < |t.sections| && (t.sections[i].0 == name || HasName(t.sections[i].1, name));
      assert more.sections[i] == t.sections[i];
    } else {
      assert more.sections[|t.sections|] == s;
    }
  }

  lemma {:induction false} CloseKeeps(open: seq<Frame>, d: nat, name: string)
    requires OpenHas(open, name) && 1 <= d <= |open|
    ensures OpenHas(CloseTo(open, d), name)
    decreases |open|
  {
    if |open| > d {
      var n := |open|;
      var inner, outer := open[n - 1], open[n - 2];
      var sub := (inner.name, Tree(inner.values, inner.sections));
      var grown := outer.(sections := outer.sections + [sub]);
      var next := open[..n - 2] + [grown];
      var i :| 0 <= i < n && (FrameHas(open[i], name) || (i > 0 && open[i].name == name));
      if i < n - 2 {
        assert next[i] == open[i];
      } else {
        if FrameHas(outer, name) || i == n - 1 { MoreSections(Tree(outer.values, outer.sections), sub, name); }
        assert next[n - 2] == grown;
      }
      CloseKeeps(next, d, name);
    }
  }

  lemma TopKeeps(st: State, vs: Values, name: string)
    requires st.open != [] && OpenHas(st.open, name)
    ensures OpenHas(WithTop(st, Top(st).(values := vs)).open, name)
  {
    var n := |st.open|;
    var open := WithTop(st, Top(st).(values := vs)).open;
    var i :| 0 <= i < n && (FrameHas(st.open[i], name) || (i > 0 && st.open[i].name == name));
    if i < n - 1 {
      assert open[i] == st.open[i];
    } else {
      if FrameHas(st.open[i], name) { ValuesKeep(Tree(Top(st).values, Top(st).sections), vs, name); }
      assert open[i] == Top(st).(values := vs);
    }
  }

  lemma PushKeeps(open: seq<Frame>, f: Frame, name: string)
    requires open != [] && (OpenHas(open, name) || f.name == name)
    ensures OpenHas(open + [f], name)
  {
    var all := open + [f];
    if OpenHas(open, name) {
      var i :| 0 <= i < |open| && (FrameHas(open[i], name) || (i > 0 && open[i].name == name));
      assert all[i] == open[i];
    } else {
      assert all[|open|] == f;
    }
  }

  lemma StepKeeps(st: State, raw: string, name: string)
    requires OpenHas(st.open, name) && Step(st, raw).Ok?
    ensures OpenHas(Step(st, raw).state.open, name)
  {
    var line := Trim(raw, BLANKS);
    if line == "" || line[0] == '#' || line[0] == ';' {
    } else if line[0] == '+' {
      TopKeeps(st, AppendTo(Top(st).values, st.lastKey, line[1..]), name);
    } else if line[0] == '[' {
      CloseKeeps(st.open, Brackets(line), name);
      PushKeeps(CloseTo(st.open, Brackets(line)), Frame(Trim(line, NAME_TRIM), [], []), name);
    } else {
      var n := FindEquals(line);
      TopKeeps(st, Top(st).values + [(Trim(line[..n], BLANKS), Trim(line[n + 1..], BLANKS))], name);
    }
  }

  lemma {:induction false} FoldKeeps(st: State, lines: seq<string>, name: string)
    requires OpenHas(st.open, name) && Fold(st, lines).Ok?
    ensures OpenHas(Fold(st, lines).state.open, name)
    decreases |lines|
  {
    if lines != [] {
      StepKeeps(st, lines[0], name);
      FoldKeeps(Step(st, lines[0]).state, lines[1..], name);
    }
  }

  /** Every section line of an accepted file has its section in the tree. */
  lemma {:induction false} SectionKept(st: State, lines: seq<string>, line: string)
    requires st.open != [] && Fold(st, lines).Ok? && line in lines
    requires Trim(line, BLANKS) == line && line != "" && line[0] == '['
    ensures OpenHas(Fold(st, lines).state.open, Trim(line, NAME_TRIM))
    decreases |lines|
  {
    var next := Step(st, lines[0]).state;
    if lines[0] == line {
      SectionStep(st, line);
      PushKeeps(CloseTo(st.open, Brackets(line)), Frame(Trim(line, NAME_TRIM), [], []), Trim(line, NAME_TRIM));
      FoldKeeps(next, lines[1..], Trim(line, NAME_TRIM));
    } else {
      assert line in lines[1..];
      SectionKept(next, lines[1..], line);
    }
  }

  lemma {:induction false} SectionInTree(lines: seq<string>, line: string)
    requires Parse(lines).Document? && line in lines
    requires Trim(line, BLANKS) == line && line != "" && line[0] == '['
    ensures HasName(Parse(lines).tree, Trim(line, NAME_TRIM))
  {
    var start := State([ROOT], "");
    var open := Fold(start, lines).state.open;
    SectionKept(start, lines, line);
    CloseKeeps(open, 1, Trim(line, NAME_TRIM));
    RootHas(CloseTo(open, 1), Trim(line, NAME_TRIM));
  }

  lemma RootHas(open: seq<Frame>, name: string)
    requires |open| == 1 && OpenHas(open, name)
    ensures HasName(Tree(open[0].values, open[0].sections), name)
  {
  }

  /** Every section of a tree has its header among the printed lines. */
  lemma {:induction false} NamePrinted(t: Tree, depth: nat, name: string) returns (d: nat)
    requires HasName(t, name) && depth >= 1
    ensures d >= 1 && Header(name, d) in Lines(t, depth)
    decreases t
  {
    var i :| 0 <= i < |t.sections| && (t.sections[i].0 == name || HasName(t.sections[i].1, name));
    if t.sections[i].0 == name {
      d := depth;
      assert Header(name, d) == OneSection(t.sections[i], depth)[0];
    } else {
      d := NamePrinted(t.sections[i].1, depth + 1, name);
    }
    SectionPrinted(t.sections, depth, i, Header(name, d));
  }

  lemma {:induction false} SectionPrinted(ss: seq<(string, Tree)>, depth: nat, i: nat, line: string)
    requires i < |ss| && line in OneSection(ss[i], depth)
    ensures line in SectionLines(ss, depth)
  {
    if i > 0 { SectionPrinted(ss[1..], depth, i - 1, line); }
  }

  /** One more than the length of the longest bare name from the k-th section on, 0 if there is none. */
  ghost function BareBound(t: Tree, k: nat): nat
    requires k <= |t.sections|
    decreases t, |t.sections| - k
  {
    if k == |t.sections| then 0
    else
      var (name, sub) := t.sections[k];
      Max(Max(if BareName(name) then |name| + 1 else 0, BareBound(t.sections[k].1, 0)), BareBound(t, k + 1))
  }

  function Max(a: nat, b: nat): nat { if a < b then b else a }

  lemma {:induction false} BareBoundHolds(t: Tree, k: nat, i: nat, name: string)
    requires k <= i < |t.sections| && BareName(name) && (t.sections[i].0 == name || HasName(t.sections[i].1, name))
    ensures |name| < BareBound(t, k)
    decreases t, |t.sections| - k
  {
    if k < i {
      BareBoundHolds(t, k + 1, i, name);
    } else if t.sections[i].0 != name {
      var sub := t.sections[i].1;
      var j :| 0 <= j < |sub.sections| && (sub.sections[j].0 == name || HasName(sub.sections[j].1, name));
      BareBoundHolds(t.sections[i].1, 0, j, name);
    }
  }

  lemma {:induction false} NoBareBound(t: Tree, k: nat)
    requires k <= |t.sections| && BareBound(t, k) == 0
    ensures forall i | k <= i < |t.sections| :: !BareName(t.sections[i].0) && NoBareNames(t.sections[i].1)
    decreases t, |t.sections| - k
  {
    if k < |t.sections| {
      NoBareBound(t.sections[k].1, 0);
      NoBareBound(t, k + 1);
    }
  }

  lemma {:induction false} LongestBare(t: Tree, k: nat) returns (name: string)
    requires k <= |t.sections| && BareBound(t, k) > 0
    ensures HasName(t, name) && BareName(name) && BareBound(t, k) == |name| + 1
    decreases t, |t.sections| - k
  {
    if BareName(t.sections[k].0) && BareBound(t, k) == |t.sections[k].0| + 1 {
      name := t.sections[k].0;
    } else if BareBound(t, k) == BareBound(t.sections[k].1, 0) {
      name := LongestBare(t.sections[k].1, 0);
    } else {
      name := LongestBare(t, k + 1);
    }
  }

  /** The header of a bare name is bare itself, and longer. */
  lemma BareHeader(name: string, d: nat)
    requires BareName(name) && d >= 1
    ensures var h := Header(name, d);
            |h| > |name| && h[0] == '[' && Trim(h, BLANKS) == h && BareName(h) && Trim(h, NAME_TRIM) == h
  {
    var h := Header(name, d);
    var a, b := Repeat('[', d), Repeat(']', d);
    assert h[0] == a[0] && h[|h| - 1] == b[d - 1];
    TrimNothing(h, BLANKS);
    TrimMeaning(h, NAME_TRIM);
    forall c | c in h ensures c in NAME_TRIM {
      if c in a { assert c == '['; } else if c in b { assert c == ']'; } else { assert c in name; }
    }
  }

  /** A tree with a bare name does not come back: the longest one would come back longer. */
  lemma BareNamesLost(t: Tree)
    requires !NoBareNames(t)
    ensures Parse(Lines(t, 1)) != Document(t)
  {
    if BareBound(t, 0) == 0 { NoBareBound(t, 0); }
    var name := LongestBare(t, 0);
    var d := NamePrinted(t, 1, name);
    BareHeader(name, d);
    if Parse(Lines(t, 1)).Document? {
      var back := Parse(Lines(t, 1)).tree;
      SectionInTree(Lines(t, 1), Header(name, d));
      var i :| 0 <= i < |back.sections| && (back.sections[i].0 == Header(name, d) || HasName(back.sections[i].1, Header(name, d)));
      BareBoundHolds(back, 0, i, Header(name, d));
      assert BareBound(back, 0) > BareBound(t, 0);
    }
  }

  /** Whatever file of single lines was accepted: its tree can be printed, and the printed lines
      read back as the tree, exactly if no section name in it consists of brackets and blanks alone. */
  lemma ReadPrintRead(lines: seq<string>)
    requires SingleLines(lines) && Parse(lines).Document?
    ensures var t := Parse(lines).tree;
            (Printable(t) <==> NoBareNames(t)) && (Parse(Lines(t, 1)) == Parse(lines) <==> NoBareNames(t))
  {
    ParsedTreeOk(lines);
    ParsedTreeRead(lines);
    ReadPrintable(Parse(lines).tree);
    if NoBareNames(Parse(lines).tree) { PrintParse(Parse(lines).tree); } else { BareNamesLost(Parse(lines).tree); }
  }
}
