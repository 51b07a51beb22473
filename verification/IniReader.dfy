/** The configuration parser as the program runs it (src/common/iniparser.cpp, src/common/iniparser.h):
    a recursive method that consumes lines and grows a tree of levels with parent pointers. A level
    is a record in a store and a pointer is its index; it is proved to compute the fold over lines. */
module IniReader {
  import opened StringUtils
  import opened IniParser

  const NULL: int := -1

  /** A map and the list of its keys in file order, for values and for subsections. */
  datatype Level = Level(values: map<string, string>, orderedValues: seq<string>,
                         sections: map<string, nat>, orderedSections: seq<string>,
                         parent: int, depth: nat)

  const EMPTY: Level := Level(map[], [], map[], [], NULL, 0)

  // ---- the invariant of the store ----

  /** The list names every key of the map, each once. */
  ghost predicate Enumerates<T>(keys: seq<string>, m: map<string, T>) {
    && (forall i | 0 <= i < |keys| :: keys[i] in m)
    && (forall k | k in m :: k in keys)
    && (forall i, j | 0 <= i < j < |keys| :: keys[i] != keys[j])
  }

  /** A subsection is one deeper than its parent and points back at it. */
  ghost predicate ChildOk(ls: seq<Level>, id: nat, c: nat)
    requires id < |ls|
  {
    id < c < |ls| && ls[c].parent == id && ls[c].depth == ls[id].depth + 1
  }

  ghost predicate LevelOk(ls: seq<Level>, id: nat)
    requires id < |ls|
  {
    && Enumerates(ls[id].orderedValues, ls[id].values)
    && Enumerates(ls[id].orderedSections, ls[id].sections)
    && (forall k | k in ls[id].sections :: ChildOk(ls, id, ls[id].sections[k]))
    && (if id == 0 then ls[id].parent == NULL && ls[id].depth == 0
        else 0 <= ls[id].parent < id && ls[id].depth == ls[ls[id].parent].depth + 1)
  }

  ghost predicate Store(ls: seq<Level>) {
    |ls| > 0 && forall id | 0 <= id < |ls| :: LevelOk(ls, id)
  }

  ghost function Child(ls: seq<Level>, id: nat, i: nat): (c: nat)
    requires Store(ls) && id < |ls| && i < |ls[id].orderedSections|
    ensures ChildOk(ls, id, c)
  {
    assert LevelOk(ls, id);
    ls[id].sections[ls[id].orderedSections[i]]
  }

  // ---- the tree and the open sections that a store stands for ----

  ghost function ValuesOf(lv: Level): (vs: Values)
    requires Enumerates(lv.orderedValues, lv.values)
    ensures |vs| == |lv.orderedValues|
    ensures forall i | 0 <= i < |vs| :: vs[i] == (lv.orderedValues[i], lv.values[lv.orderedValues[i]])
  {
    seq(|lv.orderedValues|, i requires 0 <= i < |lv.orderedValues| => (lv.orderedValues[i], lv.values[lv.orderedValues[i]]))
  }

  /** The first n subsections of a level. */
  ghost function SectionsOf(ls: seq<Level>, id: nat, n: nat): (ss: seq<(string, Tree)>)
    requires Store(ls) && id < |ls| && n <= |ls[id].orderedSections|
    ensures |ss| == n && forall i | 0 <= i < n :: ss[i].0 == ls[id].orderedSections[i]
    decreases |ls| - id, n
  {
    if n == 0 then [] else SectionsOf(ls, id, n - 1) + [(ls[id].orderedSections[n - 1], TreeOf(ls, Child(ls, id, n - 1)))]
  }

  ghost function TreeOf(ls: seq<Level>, id: nat): Tree
    requires Store(ls) && id < |ls|
    decreases |ls| - id, |ls[id].orderedSections| + 1
  {
    assert LevelOk(ls, id);
    Tree(ValuesOf(ls[id]), SectionsOf(ls, id, |ls[id].orderedSections|))
  }

  ghost function NameOf(ls: seq<Level>, id: nat): string
    requires Store(ls) && id < |ls|
  {
    assert LevelOk(ls, id);
    if id == 0 || ls[ls[id].parent].orderedSections == [] then ""
    else ls[ls[id].parent].orderedSections[|ls[ls[id].parent].orderedSections| - 1]
  }

  ghost function FrameOf(ls: seq<Level>, id: nat, n: nat): Frame
    requires Store(ls) && id < |ls| && n <= |ls[id].orderedSections|
  {
    assert LevelOk(ls, id);
    Frame(NameOf(ls, id), ValuesOf(ls[id]), SectionsOf(ls, id, n))
  }

  /** Everything below a level lies before hi. */
  ghost predicate Within(ls: seq<Level>, id: nat, hi: nat)
    requires Store(ls) && id < |ls|
    decreases |ls| - id
  {
    id < hi && forall i | 0 <= i < |ls[id].orderedSections| :: Within(ls, Child(ls, id, i), hi)
  }

  /** Each section from the root to this one is the last of its parent, and what its parent
      completed before lies before it. */
  ghost predicate Innermost(ls: seq<Level>, id: nat)
    requires Store(ls) && id < |ls|
    decreases id
  {
    assert LevelOk(ls, id);
    id != 0 ==>
      var p := ls[id].parent;
      var n := |ls[p].orderedSections|;
      && n > 0 && Child(ls, p, n - 1) == id
      && (forall i | 0 <= i < n - 1 :: Within(ls, Child(ls, p, i), id))
      && Innermost(ls, p)
  }

  /** The open sections around a level. */
  ghost function Below(ls: seq<Level>, id: nat): (r: seq<Frame>)
    requires Store(ls) && id < |ls| && Innermost(ls, id)
    ensures |r| == ls[id].depth
    decreases id
  {
    assert LevelOk(ls, id);
    if id == 0 then []
    else
      var p := ls[id].parent;
      Below(ls, p) + [FrameOf(ls, p, |ls[p].orderedSections| - 1)]
  }

  ghost function Open(ls: seq<Level>, id: nat): (r: seq<Frame>)
    requires Store(ls) && id < |ls| && Innermost(ls, id)
    ensures |r| == ls[id].depth + 1
  {
    Below(ls, id) + [FrameOf(ls, id, |ls[id].orderedSections|)]
  }

  // ---- walking up ----

  /** With its last section completed, a level is the frame of all its sections. */
  lemma CompleteLast(ls: seq<Level>, id: nat)
    requires Store(ls) && 0 < id < |ls| && Innermost(ls, id)
    ensures LevelOk(ls, id)
    ensures var p := ls[id].parent;
            var m := |ls[p].orderedSections|;
            var inner := FrameOf(ls, id, |ls[id].orderedSections|);
            var outer := FrameOf(ls, p, m - 1);
            FrameOf(ls, p, m) == outer.(sections := outer.sections + [(inner.name, Tree(inner.values, inner.sections))])
  {
    assert LevelOk(ls, id);
    var p := ls[id].parent;
    var m := |ls[p].orderedSections|;
    assert LevelOk(ls, p);
    assert SectionsOf(ls, p, m) == SectionsOf(ls, p, m - 1) + [(ls[p].orderedSections[m - 1], TreeOf(ls, Child(ls, p, m - 1)))];
    assert TreeOf(ls, id) == Tree(ValuesOf(ls[id]), SectionsOf(ls, id, |ls[id].orderedSections|));
  }

  /** One step of the parent walk completes one section. */
  lemma CloseStep(ls: seq<Level>, id: nat, d: nat)
    requires Store(ls) && id < |ls| && Innermost(ls, id) && 1 <= d <= ls[id].depth
    ensures LevelOk(ls, id) && id != 0
    ensures Innermost(ls, ls[id].parent) && ls[id].depth == ls[ls[id].parent].depth + 1
    ensures CloseTo(Open(ls, id), d) == CloseTo(Open(ls, ls[id].parent), d)
  {
    assert LevelOk(ls, id);
    var p := ls[id].parent;
    var m := |ls[p].orderedSections|;
    var open := Open(ls, id);
    var n := |open|;
    assert open[n - 1] == FrameOf(ls, id, |ls[id].orderedSections|);
    assert open[n - 2] == FrameOf(ls, p, m - 1);
    assert open[..n - 2] == Below(ls, p);
    CompleteLast(ls, id);
    assert open[..n - 2] + [FrameOf(ls, p, m)] == Open(ls, p);
  }

  /** All the way up, the root holds the whole tree. */
  lemma {:induction false} CloseAll(ls: seq<Level>, id: nat)
    requires Store(ls) && id < |ls| && Innermost(ls, id)
    ensures CloseTo(Open(ls, id), 1) == [FrameOf(ls, 0, |ls[0].orderedSections|)]
    decreases id
  {
    assert LevelOk(ls, id);
    if id != 0 {
      CloseStep(ls, id, 1);
      CloseAll(ls, ls[id].parent);
    }
  }

  // ---- what a change to one level leaves alone ----

  lemma {:induction false} WithinAll(ls: seq<Level>, id: nat)
    requires Store(ls) && id < |ls|
    ensures Within(ls, id, |ls|)
    decreases |ls| - id
  {
    forall i | 0 <= i < |ls[id].orderedSections| ensures Within(ls, Child(ls, id, i), |ls|) {
      WithinAll(ls, Child(ls, id, i));
    }
  }

  /** The same levels from id up to hi. */
  ghost predicate Same(ls: seq<Level>, ms: seq<Level>, id: nat, hi: nat) {
    hi <= |ls| && hi <= |ms| && forall i | id <= i < hi :: ms[i] == ls[i]
  }

  lemma {:induction false} TreeSame(ls: seq<Level>, ms: seq<Level>, id: nat, hi: nat)
    requires Store(ls) && Store(ms) && id < |ls| && Within(ls, id, hi) && Same(ls, ms, id, hi)
    ensures TreeOf(ms, id) == TreeOf(ls, id) && Within(ms, id, hi)
    decreases |ls| - id, |ls[id].orderedSections| + 1
  {
    var n := |ls[id].orderedSections|;
    assert ms[id] == ls[id];
    SectionsSame(ls, ms, id, hi, n);
  }

  lemma {:induction false} SectionsSame(ls: seq<Level>, ms: seq<Level>, id: nat, hi: nat, n: nat)
    requires Store(ls) && Store(ms) && id < |ls| && id < |ms| && n <= |ls[id].orderedSections|
    requires n <= |ms[id].orderedSections|
    requires forall i | 0 <= i < n :: ms[id].orderedSections[i] == ls[id].orderedSections[i] && Child(ms, id, i) == Child(ls, id, i)
    requires forall i | 0 <= i < n :: Within(ls, Child(ls, id, i), hi)
    requires Same(ls, ms, id + 1, hi)
    ensures SectionsOf(ms, id, n) == SectionsOf(ls, id, n)
    ensures forall i | 0 <= i < n :: Within(ms, Child(ms, id, i), hi)
    decreases |ls| - id, n
  {
    if n > 0 {
      SectionsSame(ls, ms, id, hi, n - 1);
      TreeSame(ls, ms, Child(ls, id, n - 1), hi);
    }
  }

  /** The sections around a level depend only on the levels before it. */
  lemma {:induction false} BelowSame(ls: seq<Level>, ms: seq<Level>, id: nat)
    requires Store(ls) && Store(ms) && id < |ls| && id < |ms| && Innermost(ls, id)
    requires Same(ls, ms, 0, id) && ms[id].parent == ls[id].parent && ms[id].depth == ls[id].depth
    ensures Innermost(ms, id) && Below(ms, id) == Below(ls, id) && NameOf(ms, id) == NameOf(ls, id)
    decreases id
  {
    assert LevelOk(ls, id);
    if id != 0 {
      var p := ls[id].parent;
      BelowSame(ls, ms, p);
      ParentSame(ls, ms, id, p);
    }
  }

  /** The parent keeps its name, its values and what it completed before this section. */
  lemma {:induction false} ParentSame(ls: seq<Level>, ms: seq<Level>, id: nat, p: nat)
    requires Store(ls) && Store(ms) && p < id < |ls| && id < |ms| && Same(ls, ms, 0, id)
    requires ls[p].orderedSections != [] && Child(ls, p, |ls[p].orderedSections| - 1) == id
    requires forall i | 0 <= i < |ls[p].orderedSections| - 1 :: Within(ls, Child(ls, p, i), id)
    requires NameOf(ms, p) == NameOf(ls, p)
    ensures ms[p] == ls[p] && Child(ms, p, |ls[p].orderedSections| - 1) == id
    ensures forall i | 0 <= i < |ls[p].orderedSections| - 1 :: Within(ms, Child(ms, p, i), id)
    ensures FrameOf(ms, p, |ls[p].orderedSections| - 1) == FrameOf(ls, p, |ls[p].orderedSections| - 1)
  {
    assert ms[p] == ls[p];
    SectionsSame(ls, ms, p, id, |ls[p].orderedSections| - 1);
  }

  /** The own subsections of a level depend only on the levels after it. */
  lemma OwnSections(ls: seq<Level>, ms: seq<Level>, id: nat)
    requires Store(ls) && Store(ms) && id < |ls| <= |ms| && Same(ls, ms, id + 1, |ls|)
    requires |ms[id].orderedSections| >= |ls[id].orderedSections|
    requires forall i | 0 <= i < |ls[id].orderedSections| ::
      ms[id].orderedSections[i] == ls[id].orderedSections[i] && Child(ms, id, i) == Child(ls, id, i)
    ensures SectionsOf(ms, id, |ls[id].orderedSections|) == SectionsOf(ls, id, |ls[id].orderedSections|)
    ensures forall i | 0 <= i < |ls[id].orderedSections| :: Within(ms, Child(ms, id, i), |ls|)
  {
    forall i | 0 <= i < |ls[id].orderedSections| ensures Within(ls, Child(ls, id, i), |ls|) {
      WithinAll(ls, Child(ls, id, i));
    }
    SectionsSame(ls, ms, id, |ls|, |ls[id].orderedSections|);
  }

  // ---- new values in the innermost section ----

  lemma ValuesStore(ls: seq<Level>, id: nat, keys: seq<string>, m: map<string, string>)
    requires Store(ls) && id < |ls| && Enumerates(keys, m)
    ensures Store(ls[id := ls[id].(values := m, orderedValues := keys)])
  {
    var ms := ls[id := ls[id].(values := m, orderedValues := keys)];
    forall x | 0 <= x < |ms| ensures LevelOk(ms, x) {
      assert LevelOk(ls, x);
      forall k | k in ms[x].sections ensures ChildOk(ms, x, ms[x].sections[k]) {
        assert ChildOk(ls, x, ls[x].sections[k]);
      }
    }
  }

  lemma ValuesOpen(ls: seq<Level>, id: nat, keys: seq<string>, m: map<string, string>)
    requires Store(ls) && id < |ls| && Innermost(ls, id) && Enumerates(keys, m)
    ensures var ms := ls[id := ls[id].(values := m, orderedValues := keys)];
            && Store(ms) && Innermost(ms, id)
            && Open(ms, id) == Below(ls, id) + [FrameOf(ls, id, |ls[id].orderedSections|).(values := ValuesOf(ms[id]))]
  {
    var ms := ls[id := ls[id].(values := m, orderedValues := keys)];
    ValuesStore(ls, id, keys, m);
    BelowSame(ls, ms, id);
    OwnSections(ls, ms, id);
  }

  lemma EnumerateOneMore<T>(keys: seq<string>, m: map<string, T>, k: string, v: T)
    requires Enumerates(keys, m) && k !in m
    ensures Enumerates(keys + [k], m[k := v])
  {
    var all := keys + [k];
    assert all[|keys|] == k;
    forall x | x in m[k := v] ensures x in all {
      if x != k { assert x in keys; }
    }
  }

  lemma KeysAgree(lv: Level, key: string)
    requires Enumerates(lv.orderedValues, lv.values)
    ensures key in lv.values <==> HasKey(ValuesOf(lv), key)
  {
    if key in lv.values {
      var i :| 0 <= i < |lv.orderedValues| && lv.orderedValues[i] == key;
      assert ValuesOf(lv)[i].0 == key;
    }
  }

  /** Appending to the mapped value is appending in the listing. */
  lemma {:induction false} AppendListed(vs: Values, key: string, more: string, i: nat)
    requires DistinctKeys(vs) && i < |vs| && vs[i].0 == key
    ensures AppendTo(vs, key, more) == vs[i := (key, vs[i].1 + "\n" + more)]
    decreases |vs|
  {
    var n := |vs| - 1;
    if i < n {
      assert vs[i].0 != vs[n].0;
      AppendListed(vs[..n], key, more, i);
    }
  }

  // ---- a new subsection ----

  /** The store with an empty section of this name at the end of a level's list. */
  function WithSection(ls: seq<Level>, p: nat, name: string): seq<Level>
    requires p < |ls|
  {
    ls[p := ls[p].(sections := ls[p].sections[name := |ls|], orderedSections := ls[p].orderedSections + [name])]
    + [EMPTY.(parent := p, depth := ls[p].depth + 1)]
  }

  lemma SectionStore(ls: seq<Level>, p: nat, name: string)
    requires Store(ls) && p < |ls| && name !in ls[p].sections
    ensures Store(WithSection(ls, p, name))
  {
    var ms := WithSection(ls, p, name);
    assert LevelOk(ls, p);
    EnumerateOneMore(ls[p].orderedSections, ls[p].sections, name, |ls|);
    forall x | 0 <= x < |ms| ensures LevelOk(ms, x) {
      if x < |ls| {
        assert LevelOk(ls, x);
        forall k | k in ms[x].sections ensures ChildOk(ms, x, ms[x].sections[k]) {
          if x != p || k != name { assert ChildOk(ls, x, ls[x].sections[k]); }
        }
      }
    }
  }

  lemma SectionOpen(ls: seq<Level>, p: nat, name: string)
    requires Store(ls) && p < |ls| && Innermost(ls, p) && name !in ls[p].sections
    ensures var ms := WithSection(ls, p, name);
            Store(ms) && Innermost(ms, |ls|) && Open(ms, |ls|) == Open(ls, p) + [Frame(name, [], [])]
  {
    SectionStore(ls, p, name);
    SectionFrame(ls, p, name);
    NewLevel(ls, WithSection(ls, p, name), p, name);
  }

  lemma SectionFrame(ls: seq<Level>, p: nat, name: string)
    requires Store(ls) && p < |ls| && Innermost(ls, p) && name !in ls[p].sections
    requires Store(WithSection(ls, p, name))
    ensures var ms := WithSection(ls, p, name);
            var n := |ls[p].orderedSections|;
            && Innermost(ms, p) && Below(ms, p) == Below(ls, p) && FrameOf(ms, p, n) == FrameOf(ls, p, n)
            && (forall i | 0 <= i < n :: Within(ms, Child(ms, p, i), |ls|)) && Child(ms, p, n) == |ls|
  {
    var ms := WithSection(ls, p, name);
    assert LevelOk(ls, p);
    BelowSame(ls, ms, p);
    SameChildren(ls, p, name);
    OwnSections(ls, ms, p);
    assert ValuesOf(ms[p]) == ValuesOf(ls[p]);
  }

  /** An empty level behind the last one is innermost. */
  lemma NewLevel(ls: seq<Level>, ms: seq<Level>, p: nat, name: string)
    requires Store(ls) && Store(ms) && p < |ls| < |ms| && Innermost(ls, p)
    requires ms[|ls|] == EMPTY.(parent := p, depth := ls[p].depth + 1)
    requires ms[p].orderedSections == ls[p].orderedSections + [name]
    requires var n := |ls[p].orderedSections|;
             && Innermost(ms, p) && Below(ms, p) == Below(ls, p) && FrameOf(ms, p, n) == FrameOf(ls, p, n)
             && (forall i | 0 <= i < n :: Within(ms, Child(ms, p, i), |ls|)) && Child(ms, p, n) == |ls|
    ensures Innermost(ms, |ls|) && Open(ms, |ls|) == Open(ls, p) + [Frame(name, [], [])]
  {
    assert LevelOk(ms, |ls|);
    assert Innermost(ms, |ls|);
    assert FrameOf(ms, |ls|, 0) == Frame(name, [], []);
  }

  lemma SameChildren(ls: seq<Level>, p: nat, name: string)
    requires Store(ls) && p < |ls| && name !in ls[p].sections && Store(WithSection(ls, p, name))
    ensures forall i | 0 <= i < |ls[p].orderedSections| ::
      && WithSection(ls, p, name)[p].orderedSections[i] == ls[p].orderedSections[i]
      && Child(WithSection(ls, p, name), p, i) == Child(ls, p, i)
    ensures Child(WithSection(ls, p, name), p, |ls[p].orderedSections|) == |ls|
  {
    assert LevelOk(ls, p);
  }

  lemma SectionsAgree(ls: seq<Level>, p: nat, name: string)
    requires Store(ls) && p < |ls|
    ensures name in ls[p].sections <==> HasKey(SectionsOf(ls, p, |ls[p].orderedSections|), name)
  {
    assert LevelOk(ls, p);
    if name in ls[p].sections {
      var i :| 0 <= i < |ls[p].orderedSections| && ls[p].orderedSections[i] == name;
      assert SectionsOf(ls, p, |ls[p].orderedSections|)[i].0 == name;
    }
  }

  // ---- lines ----

  const START: State := State([ROOT], "")

  lemma OneMoreLine(lines: seq<string>, n: nat)
    requires n < |lines|
    ensures lines[..n + 1] == lines[..n] + [lines[n]]
  {
  }

  lemma FoldNext(st: State, lines: seq<string>, n: nat)
    requires st.open != [] && n < |lines| && Fold(st, lines[..n]).Ok?
    ensures Fold(st, lines[..n + 1]) == Step(Fold(st, lines[..n]).state, lines[n])
  {
    OneMoreLine(lines, n);
    FoldConcat(st, lines[..n], [lines[n]]);
    FoldOne(Fold(st, lines[..n]).state, lines[n]);
  }

  lemma FoldStops(st: State, lines: seq<string>, n: nat)
    requires st.open != [] && n <= |lines| && Fold(st, lines[..n]).Err?
    ensures Fold(st, lines) == Fold(st, lines[..n])
  {
    assert lines == lines[..n] + lines[n..];
    FoldConcat(st, lines[..n], lines[n..]);
  }

  datatype Outcome = Fine | Failed(error: IniError)

  class Parser {
    const lines: seq<string>
    var levels: seq<Level>
    var ln: nat

    constructor (lines: seq<string>)
      ensures this.lines == lines && levels == [EMPTY] && ln == 0
    {
      this.lines := lines;
      levels := [EMPTY];
      ln := 0;
    }

    /** The lines read so far have brought the fold to this level and key. */
    ghost predicate At(l: nat, lastKey: string)
      reads this
    {
      && Store(levels) && l < |levels| && Innermost(levels, l) && ln <= |lines|
      && (lastKey != "" ==> lastKey in levels[l].values)
      && Fold(START, lines[..ln]) == Ok(State(Open(levels, l), lastKey))
    }

    /** As before the line that was just taken. */
    ghost predicate Reads(l: nat, lastKey: string, line: string)
      reads this
    {
      && Store(levels) && l < |levels| && Innermost(levels, l) && 0 < ln <= |lines|
      && (lastKey != "" ==> lastKey in levels[l].values)
      && Fold(START, lines[..ln - 1]) == Ok(State(Open(levels, l), lastKey))
      && Fold(START, lines[..ln]) == Step(State(Open(levels, l), lastKey), lines[ln - 1])
      && line == Trim(lines[ln - 1], BLANKS)
    }

    /** The fold fails on the last line that was taken and not before. */
    ghost predicate FailsHere(e: IniError)
      reads this
    {
      0 < ln <= |lines| && Fold(START, lines[..ln - 1]).Ok? && Fold(START, lines[..ln]) == Err(e)
    }

    /** All lines are consumed and the root holds the tree of the fold. */
    ghost predicate AtEnd()
      reads this
    {
      && ln == |lines| && Store(levels) && Fold(START, lines).Ok?
      && CloseTo(Fold(START, lines).state.open, 1) == [FrameOf(levels, 0, |levels[0].orderedSections|)]
    }

    method TakeLine(l: nat, lastKey: string) returns (line: string)
      requires At(l, lastKey) && ln < |lines|
      modifies this`ln
      ensures ln == old(ln) + 1 && Reads(l, lastKey, line)
    {
      FoldNext(START, lines, ln);
      line := Trim(lines[ln], BLANKS);
      ln := ln + 1;
    }

    /** A "+" line with a key to append to. */
    method AppendLine(l: nat, lastKey: string, line: string)
      requires Reads(l, lastKey, line) && line != "" && line[0] == '+' && lastKey != ""
      modifies this`levels
      ensures At(l, lastKey)
    {
      var lv := levels[l];
      assert LevelOk(levels, l);
      var m := lv.values[lastKey := lv.values[lastKey] + "\n" + line[1..]];
      Appended(lv, lastKey, line[1..]);
      ValuesOpen(levels, l, lv.orderedValues, m);
      ghost var open := Open(levels, l);
      TopOf(levels, l);
      levels := levels[l := lv.(values := m)];
    }

    /** A key with its value. */
    method KeyValueLine(l: nat, lastKey: string, line: string) returns (r: Outcome, key: string)
      requires Reads(l, lastKey, line) && line != "" && line[0] !in "#;+["
      modifies this`levels
      ensures r.Fine? ==> At(l, key)
      ensures r.Failed? ==> FailsHere(r.error)
    {
      KeyStepIs(Open(levels, l), lastKey, lines[ln - 1]);
      var n := FindEquals(line);
      key := "";
      if n == |line| { return Failed(NoEqualsSign), key; }
      key := Trim(line[..n], BLANKS);
      var value := Trim(line[n + 1..], BLANKS);
      var lv := levels[l];
      assert LevelOk(levels, l);
      KeysAgree(lv, key);
      TopOf(levels, l);
      KeyLineIs(Below(levels, l), FrameOf(levels, l, |lv.orderedSections|), lastKey, line);
      if key in lv.values { return Failed(DuplicateKey), key; }
      InsertOpen(levels, l, key, value);
      levels := WithValue(levels, l, key, value);
      r := Fine;
    }

    /** Count the brackets, walk up to the parent and open the section there. */
    method SectionHeader(l: nat, lastKey: string, line: string) returns (r: Outcome, lp: nat)
      requires Reads(l, lastKey, line) && line != "" && line[0] == '['
      modifies this`levels
      ensures r.Fine? ==> At(lp, "")
      ensures r.Failed? ==> FailsHere(r.error)
    {
      lp := 0;
      var depth := CountBrackets(line);
      var name := Trim(line, NAME_TRIM);
      SectionStepIs(Open(levels, l), lastKey, lines[ln - 1]);
      if depth > levels[l].depth + 1 { return Failed(WrongDepth), lp; }
      var parent := WalkUp(l, depth);
      SectionsAgree(levels, parent, name);
      LastOpen(levels, parent);
      assert LevelOk(levels, parent);
      if name in levels[parent].sections && levels[levels[parent].sections[name]].depth != 0 {
        return Failed(DuplicateSection), lp;
      }
      SectionOpen(levels, parent, name);
      lp := |levels|;
      levels := WithSection(levels, parent, name);
      r := Fine;
    }

    method CountBrackets(line: string) returns (depth: nat)
      ensures depth == Brackets(line)
    {
      depth := 0;
      while depth < |line|
        invariant depth <= |line| && forall i | 0 <= i < depth :: line[i] == '['
      {
        if line[depth] != '[' { break; }
        depth := depth + 1;
      }
    }

    /** The walk stays inside the tree and ends at the one ancestor whose depth is one less than the header's. */
    method WalkUp(l: nat, depth: nat) returns (lp: nat)
      requires Store(levels) && l < |levels| && Innermost(levels, l) && 1 <= depth <= levels[l].depth + 1
      ensures lp <= l && Innermost(levels, lp) && levels[lp].depth == depth - 1
      ensures CloseTo(Open(levels, l), depth) == Open(levels, lp)
    {
      if levels[l].depth == depth - 1 { return l; }
      CloseStep(levels, l, depth);
      lp := levels[l].parent;
      var n := levels[l].depth - depth;
      for i := 0 to n
        invariant lp <= l && Innermost(levels, lp) && levels[lp].depth == levels[l].depth - 1 - i
        invariant CloseTo(Open(levels, l), depth) == CloseTo(Open(levels, lp), depth)
      {
        CloseStep(levels, lp, depth);
        lp := levels[lp].parent;
      }
    }

    /** Read lines into a level until the input ends; a section header recurses, and that call
        returns only at the end of the input or with an error, so its caller is done too. */
    method ParseLevel(l: nat) returns (r: Outcome)
      requires At(l, "")
      modifies this
      ensures r.Fine? ==> AtEnd()
      ensures r.Failed? ==> FailsHere(r.error)
      decreases |lines| - ln
    {
      var lastKey := "";
      while ln < |lines|
        invariant At(l, lastKey) && ln >= old(ln)
        decreases |lines| - ln
      {
        var line := TakeLine(l, lastKey);
        if line == "" || line[0] == '#' || line[0] == ';' {
          lastKey := "";
        } else if line[0] == '+' {
          if lastKey == "" { return Failed(NoKeyToAppendTo); }
          AppendLine(l, lastKey, line);
        } else if line[0] == '[' {
          var lp;
          r, lp := SectionHeader(l, lastKey, line);
          if r.Fine? { r := ParseLevel(lp); }
          return;
        } else {
          r, lastKey := KeyValueLine(l, lastKey, line);
          if r.Failed? { return; }
        }
      }
      r := Fine;
      assert lines[..ln] == lines;
      CloseAll(levels, l);
    }
  }

  // ---- the steps of the parser, stated on frames ----

  lemma TopOf(ls: seq<Level>, l: nat)
    requires Store(ls) && l < |ls| && Innermost(ls, l)
    ensures Open(ls, l)[|Open(ls, l)| - 1] == FrameOf(ls, l, |ls[l].orderedSections|)
    ensures Open(ls, l)[..|Open(ls, l)| - 1] == Below(ls, l)
  {
  }

  lemma LastOpen(ls: seq<Level>, l: nat)
    requires Store(ls) && l < |ls| && Innermost(ls, l)
    ensures Open(ls, l)[ls[l].depth].sections == SectionsOf(ls, l, |ls[l].orderedSections|)
  {
  }

  lemma Appended(lv: Level, key: string, more: string)
    requires Enumerates(lv.orderedValues, lv.values) && key in lv.values
    ensures var m := lv.values[key := lv.values[key] + "\n" + more];
            && Enumerates(lv.orderedValues, m)
            && ValuesOf(lv.(values := m)) == AppendTo(ValuesOf(lv), key, more)
  {
    var m := lv.values[key := lv.values[key] + "\n" + more];
    var i :| 0 <= i < |lv.orderedValues| && lv.orderedValues[i] == key;
    AppendListed(ValuesOf(lv), key, more, i);
    UpdatedListing(lv, key, lv.values[key] + "\n" + more, i);
  }

  lemma UpdatedListing(lv: Level, key: string, value: string, i: nat)
    requires Enumerates(lv.orderedValues, lv.values) && i < |lv.orderedValues| && lv.orderedValues[i] == key
    ensures Enumerates(lv.orderedValues, lv.values[key := value])
    ensures ValuesOf(lv.(values := lv.values[key := value])) == ValuesOf(lv)[i := (key, value)]
  {
  }

  lemma OneMoreValue(lv: Level, key: string, value: string)
    requires Enumerates(lv.orderedValues, lv.values) && key !in lv.values
    requires Enumerates(lv.orderedValues + [key], lv.values[key := value])
    ensures ValuesOf(lv.(values := lv.values[key := value], orderedValues := lv.orderedValues + [key]))
         == ValuesOf(lv) + [(key, value)]
  {
  }

  /** The store with a new key at the end of a level's list. */
  function WithValue(ls: seq<Level>, l: nat, key: string, value: string): seq<Level>
    requires l < |ls|
  {
    ls[l := ls[l].(values := ls[l].values[key := value], orderedValues := ls[l].orderedValues + [key])]
  }

  lemma InsertOpen(ls: seq<Level>, l: nat, key: string, value: string)
    requires Store(ls) && l < |ls| && Innermost(ls, l) && key !in ls[l].values
    ensures var ms := WithValue(ls, l, key, value);
            var f := FrameOf(ls, l, |ls[l].orderedSections|);
            Store(ms) && Innermost(ms, l) && Open(ms, l) == Below(ls, l) + [f.(values := f.values + [(key, value)])]
  {
    assert LevelOk(ls, l);
    EnumerateOneMore(ls[l].orderedValues, ls[l].values, key, value);
    ValuesOpen(ls, l, ls[l].orderedValues + [key], ls[l].values[key := value]);
    OneMoreValue(ls[l], key, value);
  }

  lemma KeyStepIs(open: seq<Frame>, lastKey: string, raw: string)
    requires open != [] && Trim(raw, BLANKS) != "" && Trim(raw, BLANKS)[0] !in "#;+["
    ensures Step(State(open, lastKey), raw) == KeyLine(State(open, lastKey), Trim(raw, BLANKS))
  {
  }

  lemma {:induction false} KeyLineIs(below: seq<Frame>, f: Frame, lastKey: string, line: string)
    requires FindEquals(line) < |line|
    ensures var n := FindEquals(line);
            var key, value := Trim(line[..n], BLANKS), Trim(line[n + 1..], BLANKS);
            KeyLine(State(below + [f], lastKey), line)
            == if HasKey(f.values, key) then Err(DuplicateKey)
               else Ok(State(below + [f.(values := f.values + [(key, value)])], key))
  {
    var n := FindEquals(line);
    InsertTop(below, f, lastKey, Trim(line[..n], BLANKS), Trim(line[n + 1..], BLANKS));
  }

  lemma {:induction false} InsertTop(below: seq<Frame>, f: Frame, lastKey: string, key: string, value: string)
    ensures var st := State(below + [f], lastKey);
            Top(st) == f && WithTop(st, f.(values := f.values + [(key, value)])).(lastKey := key)
                            == State(below + [f.(values := f.values + [(key, value)])], key)
  {
    assert (below + [f])[..|below|] == below;
  }

  lemma SectionStepIs(open: seq<Frame>, lastKey: string, raw: string)
    requires open != [] && Trim(raw, BLANKS) != "" && Trim(raw, BLANKS)[0] == '['
    ensures Step(State(open, lastKey), raw) == SectionLine(State(open, lastKey), Trim(raw, BLANKS))
  {
  }

  /** The parser accepts exactly the files the fold accepts and builds the same tree, in which every
      list enumerates its map in file order and every section is one deeper than its parent; on a
      refused file it stops at the first line the fold refuses. */
  method ParseFile(lines: seq<string>) returns (r: Outcome, levels: seq<Level>, line: nat)
    ensures r.Fine? ==> Store(levels) && Parse(lines) == Document(TreeOf(levels, 0))
    ensures r.Failed? ==> Parse(lines) == Invalid(r.error) && 0 < line <= |lines|
    ensures r.Failed? ==> Parse(lines[..line]) == Invalid(r.error) && Parse(lines[..line - 1]).Document?
  {
    var p := new Parser(lines);
    assert LevelOk([EMPTY], 0);
    assert Open(p.levels, 0) == [ROOT];
    r := p.ParseLevel(0);
    levels := p.levels;
    line := p.ln;
    if r.Failed? { FoldStops(START, lines, p.ln); }
  }
}
