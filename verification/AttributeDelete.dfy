/** Removing rows by attribute sets (Worker::removeByAttributes in src/server/worker.cpp): the
    loops that write a WHERE clause with numbered placeholders, and what that clause selects. */
module AttributeDelete {
  import opened Sql

  /** The pieces written to the statement stream. Condition is
      "column is not distinct from $number". */
  datatype Token = Open | Close | AndToken | OrToken | Condition(column: Column, number: nat)

  /** A std::map, as the sequence its iteration yields. */
  type AttributeSet = seq<(Column, Cell)>

  // ---- what the clause means ----

  datatype Value = Value(b: bool, rest: seq<Token>) | SyntaxError

  function EvalCondition(t: Token, row: Row, params: seq<Cell>): Value {
    if t.Condition? && 1 <= t.number <= |params|
    then Value(Get(row, t.column) == params[t.number - 1], [])
    else SyntaxError
  }

  /** condition { and condition } ) */
  function EvalConjunction(ts: seq<Token>, row: Row, params: seq<Cell>): (v: Value)
    ensures v.Value? ==> |v.rest| < |ts|
  {
    if |ts| < 2 then SyntaxError
    else
      var c := EvalCondition(ts[0], row, params);
      if c == SyntaxError then SyntaxError
      else if ts[1] == Close then Value(c.b, ts[2..])
      else if ts[1] == AndToken then
        var more := EvalConjunction(ts[2..], row, params);
        if more == SyntaxError then SyntaxError else Value(c.b && more.b, more.rest)
      else SyntaxError
  }

  /** ( conjunction { or ( conjunction } */
  function EvalClause(ts: seq<Token>, row: Row, params: seq<Cell>): Value
    decreases |ts|
  {
    if ts == [] || ts[0] != Open then SyntaxError
    else
      var g := EvalConjunction(ts[1..], row, params);
      if g == SyntaxError then SyntaxError
      else if g.rest == [] then g
      else if g.rest[0] != OrToken then SyntaxError
      else
        var more := EvalClause(g.rest[1..], row, params);
        if more == SyntaxError then SyntaxError else Value(g.b || more.b, more.rest)
  }

  // ---- what the clause should mean ----

  predicate MatchesSet(set_: AttributeSet, row: Row) {
    forall i | 0 <= i < |set_| :: Get(row, set_[i].0) == set_[i].1
  }

  /** Some non-empty set agrees with the row on all its attributes. */
  predicate Matches(sets: seq<AttributeSet>, row: Row) {
    exists i | 0 <= i < |sets| :: sets[i] != [] && MatchesSet(sets[i], row)
  }

  // ---- what the loops write ----

  function Conjunction(set_: AttributeSet, n: nat): seq<Token>
    requires set_ != []
  {
    if |set_| == 1 then [Condition(set_[0].0, n + 1), Close]
    else [Condition(set_[0].0, n + 1), AndToken] + Conjunction(set_[1..], n + 1)
  }

  function Clause(sets: seq<AttributeSet>, n: nat): seq<Token> {
    if sets == [] then []
    else if sets[0] == [] then Clause(sets[1..], n)
    else (if n > 0 then [OrToken] else []) + [Open] + Conjunction(sets[0], n) + Clause(sets[1..], n + |sets[0]|)
  }

  function ValuesOf(set_: AttributeSet): (r: seq<Cell>)
    ensures |r| == |set_|
  {
    if set_ == [] then [] else [set_[0].1] + ValuesOf(set_[1..])
  }

  function AllValues(sets: seq<AttributeSet>): seq<Cell> {
    if sets == [] then [] else ValuesOf(sets[0]) + AllValues(sets[1..])
  }

  // ---- the clause means what it should ----

  lemma FirstCondition(a: Token, b: Token, more: seq<Token>, tail: seq<Token>)
    ensures var ts := ([a, b] + more) + tail; ts[0] == a && ts[1] == b && ts[2..] == more + tail
    ensures var ts := [a, b] + tail; ts[0] == a && ts[1] == b && ts[2..] == tail
  {
  }

  lemma FirstValue(set_: AttributeSet, n: nat, params: seq<Cell>)
    requires set_ != [] && n + |set_| <= |params| && params[n..n + |set_|] == ValuesOf(set_)
    ensures params[n] == set_[0].1 && params[n + 1..n + |set_|] == ValuesOf(set_[1..])
  {
    assert params[n] == params[n..n + |set_|][0];
    assert params[n + 1..n + |set_|] == params[n..n + |set_|][1..];
  }

  lemma {:induction false} ConjunctionMeans(set_: AttributeSet, n: nat, tail: seq<Token>, row: Row, params: seq<Cell>)
    requires set_ != [] && n + |set_| <= |params| && params[n..n + |set_|] == ValuesOf(set_)
    ensures EvalConjunction(Conjunction(set_, n) + tail, row, params) == Value(MatchesSet(set_, row), tail)
  {
    FirstValue(set_, n, params);
    MatchesSplit(set_, row);
    var c, rest := Condition(set_[0].0, n + 1), set_[1..];
    if |set_| == 1 {
      FirstCondition(c, Close, [], tail);
    } else {
      FirstCondition(c, AndToken, Conjunction(rest, n + 1), tail);
      ConjunctionMeans(rest, n + 1, tail, row, params);
    }
  }

  lemma MatchesSplit(set_: AttributeSet, row: Row)
    requires set_ != []
    ensures MatchesSet(set_, row) <==> Get(row, set_[0].0) == set_[0].1 && MatchesSet(set_[1..], row)
  {
    if MatchesSet(set_[1..], row) {
      forall i | 1 <= i < |set_| ensures Get(row, set_[i].0) == set_[i].1 { assert set_[1..][i - 1] == set_[i]; }
    }
    if MatchesSet(set_, row) {
      forall i | 0 <= i < |set_| - 1 ensures Get(row, set_[1..][i].0) == set_[1..][i].1 { assert set_[1..][i] == set_[i + 1]; }
    }
  }

  lemma MatchesTail(sets: seq<AttributeSet>, row: Row)
    requires sets != []
    ensures Matches(sets, row) <==> (sets[0] != [] && MatchesSet(sets[0], row)) || Matches(sets[1..], row)
  {
    if Matches(sets[1..], row) {
      var i :| 0 <= i < |sets| - 1 && sets[1..][i] != [] && MatchesSet(sets[1..][i], row);
      assert sets[i + 1] == sets[1..][i];
    }
    if Matches(sets, row) && !(sets[0] != [] && MatchesSet(sets[0], row)) {
      var i :| 0 <= i < |sets| && sets[i] != [] && MatchesSet(sets[i], row);
      assert sets[1..][i - 1] == sets[i];
    }
  }

  /** Nothing but empty sets: nothing written. */
  lemma {:induction false} EmptyClause(sets: seq<AttributeSet>, n: nat)
    ensures Clause(sets, n) == [] <==> AllValues(sets) == []
    ensures n > 0 && Clause(sets, n) != [] ==> Clause(sets, n)[0] == OrToken
  {
    if sets != [] {
      EmptyClause(sets[1..], n);
      if sets[0] == [] { assert AllValues(sets) == AllValues(sets[1..]); }
    }
  }

  lemma {:induction false} EmptyMatchesNothing(sets: seq<AttributeSet>, row: Row)
    requires AllValues(sets) == []
    ensures !Matches(sets, row)
  {
    if sets != [] {
      assert |AllValues(sets)| == |ValuesOf(sets[0])| + |AllValues(sets[1..])|;
      MatchesTail(sets, row);
      EmptyMatchesNothing(sets[1..], row);
    }
  }

  /** One group in front of the rest of the clause. */
  lemma {:induction false} GroupThenRest(body: seq<Token>, conj: seq<Token>, tail: seq<Token>, row: Row,
                                         params: seq<Cell>, b: bool, m: bool)
    requires body == [Open] + conj + tail && EvalConjunction(conj + tail, row, params) == Value(b, tail)
    requires tail == [] ==> !m
    requires tail != [] ==> tail[0] == OrToken && EvalClause(tail[1..], row, params) == Value(m, [])
    ensures EvalClause(body, row, params) == Value(b || m, [])
  {
    DropOpen(body, conj, tail);
  }

  lemma DropOpen(body: seq<Token>, conj: seq<Token>, tail: seq<Token>)
    requires body == [Open] + conj + tail
    ensures body != [] && body[0] == Open && body[1..] == conj + tail
  {
  }

  /** The clause without its leading OR, if it has one. */
  function Body(sets: seq<AttributeSet>, n: nat): seq<Token> {
    var c := Clause(sets, n);
    if n > 0 && c != [] then c[1..] else c
  }

  lemma {:induction false} BodyShape(sets: seq<AttributeSet>, n: nat)
    requires sets != [] && sets[0] != []
    ensures Body(sets, n) == [Open] + Conjunction(sets[0], n) + Clause(sets[1..], n + |sets[0]|)
  {
    var group := [Open] + Conjunction(sets[0], n) + Clause(sets[1..], n + |sets[0]|);
    assert n > 0 ==> Clause(sets, n) == [OrToken] + group;
    assert n == 0 ==> Clause(sets, n) == group;
  }

  lemma {:induction false} ClauseMeans(sets: seq<AttributeSet>, n: nat, row: Row, params: seq<Cell>)
    requires AllValues(sets) != [] && n <= |params| && params[n..] == AllValues(sets)
    ensures EvalClause(Body(sets, n), row, params) == Value(Matches(sets, row), [])
    decreases |sets|, 1
  {
    if sets[0] == [] {
      EmptySetSkipped(sets, n, row);
      ClauseMeans(sets[1..], n, row, params);
    } else {
      SplitValues(sets, n, params);
      RestMeans(sets, n, row, params);
      FirstGroupMeans(sets, n, row, params);
    }
  }

  lemma {:induction false} RestMeans(sets: seq<AttributeSet>, n: nat, row: Row, params: seq<Cell>)
    requires sets != [] && n + |sets[0]| <= |params| && params[n + |sets[0]|..] == AllValues(sets[1..])
    ensures AllValues(sets[1..]) != [] ==>
              EvalClause(Body(sets[1..], n + |sets[0]|), row, params) == Value(Matches(sets[1..], row), [])
    decreases |sets|, 0
  {
    if AllValues(sets[1..]) != [] { ClauseMeans(sets[1..], n + |sets[0]|, row, params); }
  }

  lemma {:induction false} EmptySetSkipped(sets: seq<AttributeSet>, n: nat, row: Row)
    requires sets != [] && sets[0] == []
    ensures AllValues(sets) == AllValues(sets[1..]) && Body(sets, n) == Body(sets[1..], n)
    ensures Matches(sets, row) == Matches(sets[1..], row)
  {
    MatchesTail(sets, row);
  }

  /** The first set's group decides, or the rest of the clause does. */
  lemma {:induction false} FirstGroupMeans(sets: seq<AttributeSet>, n: nat, row: Row, params: seq<Cell>)
    requires sets != [] && sets[0] != [] && n + |sets[0]| <= |params| && params[n..n + |sets[0]|] == ValuesOf(sets[0])
    requires AllValues(sets[1..]) != [] ==>
               EvalClause(Body(sets[1..], n + |sets[0]|), row, params) == Value(Matches(sets[1..], row), [])
    ensures EvalClause(Body(sets, n), row, params) == Value(Matches(sets, row), [])
  {
    var rest, k := sets[1..], n + |sets[0]|;
    var conj, tail := Conjunction(sets[0], n), Clause(rest, k);
    MatchesTail(sets, row);
    RestShape(rest, k, row);
    ConjunctionMeans(sets[0], n, tail, row, params);
    BodyShape(sets, n);
    GroupThenRest(Body(sets, n), conj, tail, row, params, MatchesSet(sets[0], row), Matches(rest, row));
  }

  /** What can follow a group. */
  lemma {:induction false} RestShape(sets: seq<AttributeSet>, n: nat, row: Row)
    requires n > 0
    ensures var c := Clause(sets, n);
            && (c == [] <==> AllValues(sets) == []) && (c == [] ==> !Matches(sets, row))
            && (c != [] ==> c[0] == OrToken && c[1..] == Body(sets, n))
  {
    EmptyClause(sets, n);
    if AllValues(sets) == [] { EmptyMatchesNothing(sets, row); }
  }

  lemma {:induction false} SplitValues(sets: seq<AttributeSet>, n: nat, params: seq<Cell>)
    requires sets != [] && n <= |params| && params[n..] == AllValues(sets)
    ensures var k := n + |sets[0]|;
            k <= |params| && params[n..k] == ValuesOf(sets[0]) && params[k..] == AllValues(sets[1..])
  {
    var k := n + |sets[0]|;
    assert params[n..k] == params[n..][..|sets[0]|];
    assert params[k..] == params[n..][|sets[0]|..];
  }

  /** Compilation preserves meaning: with the collected values, the generated clause is well
      formed and selects exactly the rows that match some non-empty attribute set, NULLs being
      matched by NULLs. */
  lemma CompilationCorrect(sets: seq<AttributeSet>, row: Row)
    requires AllValues(sets) != []
    ensures EvalClause(Clause(sets, 0), row, AllValues(sets)) == Value(Matches(sets, row), [])
  {
    var params := AllValues(sets);
    assert params[0..] == params;
    ClauseMeans(sets, 0, row, params);
  }

  /** A row matches if it has all values of some set that has any; a NULL has to be there as NULL. */
  lemma MatchesMeans(sets: seq<AttributeSet>, row: Row)
    ensures Matches(sets, row) <==> exists s: AttributeSet | s in sets && s != [] :: forall a | a in s ::
              if a.1 == Null then Get(row, a.0) == Null else Get(row, a.0) != Null && Get(row, a.0) == a.1
  {
    forall s: AttributeSet
      ensures MatchesSet(s, row) <==> forall a | a in s ::
                if a.1 == Null then Get(row, a.0) == Null else Get(row, a.0) != Null && Get(row, a.0) == a.1
    {
      if MatchesSet(s, row) {
        forall a | a in s ensures Get(row, a.0) == a.1 { var i :| 0 <= i < |s| && s[i] == a; }
      } else {
        var i :| 0 <= i < |s| && Get(row, s[i].0) != s[i].1;
        assert s[i] in s;
      }
    }
    if Matches(sets, row) {
      var i :| 0 <= i < |sets| && sets[i] != [] && MatchesSet(sets[i], row);
      assert sets[i] in sets;
    }
  }

  // ---- the loops ----

  /** The statement text after the sets done so far, its values and the number of the next. */
  class DeleteStatement {
    var tokens: seq<Token>
    var attrValues: seq<Cell>

    constructor ()
      ensures tokens == [] && attrValues == []
    {
      tokens, attrValues := [], [];
    }

    /** One condition; its placeholder carries the number of values collected so far. */
    method AddCondition(attribute: (Column, Cell), i: nat)
      modifies this
      ensures attrValues == old(attrValues) + [attribute.1]
      ensures tokens == old(tokens) + (if i > 0 then [AndToken] else [])
                        + [Condition(attribute.0, |old(attrValues)| + 1)]
    {
      if i > 0 { tokens := tokens + [AndToken]; }
      attrValues := attrValues + [attribute.1];
      tokens := tokens + [Condition(attribute.0, |attrValues|)];
    }

    /** The inner loop: one parenthesised group. False if a field is unknown. */
    method AddSet(set_: AttributeSet, fields: set<Column>) returns (known: bool)
      requires set_ != []
      modifies this
      ensures known <==> forall i | 0 <= i < |set_| :: set_[i].0 in fields
      ensures known ==> tokens == old(tokens) + (if old(attrValues) != [] then [OrToken] else [])
                                  + [Open] + Conjunction(set_, |old(attrValues)|)
      ensures known ==> attrValues == old(attrValues) + ValuesOf(set_)
    {
      if attrValues != [] { tokens := tokens + [OrToken]; }
      tokens := tokens + [Open];
      ghost var start := tokens;
      known := AddConditions(set_, fields);
      tokens := tokens + [Close];
      WrittenAll(set_, |old(attrValues)|);
      Join(start, Written(set_, |set_|, |old(attrValues)|), [], [Close]);
    }

    method AddConditions(set_: AttributeSet, fields: set<Column>) returns (known: bool)
      modifies this
      ensures known <==> forall i | 0 <= i < |set_| :: set_[i].0 in fields
      ensures known ==> tokens == old(tokens) + Written(set_, |set_|, |old(attrValues)|)
      ensures known ==> attrValues == old(attrValues) + ValuesOf(set_)
    {
      ghost var n := |attrValues|;
      var i := 0;
      while i < |set_|
        invariant 0 <= i <= |set_| && forall j | 0 <= j < i :: set_[j].0 in fields
        invariant tokens == old(tokens) + Written(set_, i, n)
        invariant attrValues == old(attrValues) + ValuesOf(set_[..i])
      {
        if set_[i].0 !in fields { return false; }
        ghost var w, vs := Written(set_, i, n), ValuesOf(set_[..i]);
        AddCondition(set_[i], i);
        WrittenStep(set_, i, n);
        Join(old(tokens), w, [AndToken], [Condition(set_[i].0, n + i + 1)]);
        ValuesStep(set_, i);
        Join(old(attrValues), vs, [], [set_[i].1]);
        i := i + 1;
      }
      assert set_[..|set_|] == set_;
      known := true;
    }

    /** The outer loop. Empty sets write nothing. */
    method AddSets(sets: seq<AttributeSet>, fields: set<Column>) returns (known: bool)
      requires tokens == [] && attrValues == []
      modifies this
      ensures known <==> forall i, j | 0 <= i < |sets| && 0 <= j < |sets[i]| :: sets[i][j].0 in fields
      ensures known ==> tokens == Clause(sets, 0) && attrValues == AllValues(sets)
    {
      var k := 0;
      while k < |sets|
        invariant 0 <= k <= |sets|
        invariant forall i, j | 0 <= i < k && 0 <= j < |sets[i]| :: sets[i][j].0 in fields
        invariant tokens + Clause(sets[k..], |attrValues|) == Clause(sets, 0)
        invariant attrValues + AllValues(sets[k..]) == AllValues(sets)
      {
        assert sets[k..][1..] == sets[k + 1..];
        known := AddNext(sets[k..], fields);
        if !known { return; }
        k := k + 1;
      }
      assert tokens + [] == tokens && attrValues + [] == attrValues;
      known := true;
    }

    /** One turn: the first of the sets that are left. */
    method AddNext(sets: seq<AttributeSet>, fields: set<Column>) returns (known: bool)
      requires sets != []
      modifies this
      ensures known <==> forall j | 0 <= j < |sets[0]| :: sets[0][j].0 in fields
      ensures known ==> tokens + Clause(sets[1..], |attrValues|) == old(tokens) + Clause(sets, |old(attrValues)|)
      ensures known ==> attrValues + AllValues(sets[1..]) == old(attrValues) + AllValues(sets)
    {
      ghost var ts, vs := tokens, attrValues;
      if |sets[0]| > 0 {
        known := AddSet(sets[0], fields);
        ClauseStep(ts, vs != [], Conjunction(sets[0], |vs|), Clause(sets[1..], |attrValues|));
        Join(vs, ValuesOf(sets[0]), [], AllValues(sets[1..]));
      } else {
        assert AllValues(sets) == AllValues(sets[1..]);
        known := true;
      }
    }
  }

  lemma Join<T>(a: seq<T>, b: seq<T>, c: seq<T>, d: seq<T>)
    ensures a + b + c + d == a + (b + c + d)
    ensures a + b + d == a + (b + [] + d) == a + (b + d)
  {
  }

  lemma ValuesStep(set_: AttributeSet, i: nat)
    requires i < |set_|
    ensures ValuesOf(set_[..i + 1]) == ValuesOf(set_[..i]) + [set_[i].1]
  {
    assert set_[..i + 1] == set_[..i] + [set_[i]];
    ValuesAppend(set_[..i], set_[i]);
  }

  lemma {:induction false} ClauseStep(ts: seq<Token>, or: bool, conj: seq<Token>, rest: seq<Token>)
    ensures (ts + (if or then [OrToken] else []) + [Open] + conj) + rest
         == ts + ((if or then [OrToken] else []) + [Open] + conj + rest)
  {
  }

  /** The conditions written after i turns of the inner loop. */
  function Written(set_: AttributeSet, i: nat, n: nat): seq<Token>
    requires i <= |set_|
  {
    if i == 0 then []
    else Written(set_, i - 1, n) + (if i > 1 then [AndToken] else []) + [Condition(set_[i - 1].0, n + i)]
  }

  lemma WrittenStep(set_: AttributeSet, i: nat, n: nat)
    requires i < |set_|
    ensures Written(set_, i + 1, n) == Written(set_, i, n) + (if i > 0 then [AndToken] else []) + [Condition(set_[i].0, n + i + 1)]
  {
  }

  lemma {:induction false} WrittenFrom(set_: AttributeSet, i: nat, n: nat)
    requires 1 <= i <= |set_|
    ensures set_[1..] != [] || i == 1
    ensures i > 1 ==> Written(set_, i, n) == [Condition(set_[0].0, n + 1), AndToken] + Written(set_[1..], i - 1, n + 1)
    decreases i
  {
    if i == 2 {
      assert Written(set_, 1, n) == [] + [] + [Condition(set_[0].0, n + 1)];
      assert Written(set_[1..], 1, n + 1) == [] + [] + [Condition(set_[1].0, n + 2)];
      assert Written(set_, 0, n) == [] && Written(set_[1..], 0, n + 1) == [];
    } else if i > 2 {
      WrittenFrom(set_, i - 1, n);
    }
  }

  lemma {:induction false} WrittenAll(set_: AttributeSet, n: nat)
    requires set_ != []
    ensures Written(set_, |set_|, n) + [Close] == Conjunction(set_, n)
  {
    if |set_| == 1 {
      assert Written(set_, 0, n) == [];
    } else {
      WrittenFrom(set_, |set_|, n);
      WrittenAll(set_[1..], n + 1);
    }
  }

  lemma {:induction false} ValuesAppend(set_: AttributeSet, a: (Column, Cell))
    ensures ValuesOf(set_ + [a]) == ValuesOf(set_) + [a.1]
  {
    if set_ == [] {
      assert set_ + [a] == [a] && [a][1..] == [];
    } else {
      assert (set_ + [a])[1..] == set_[1..] + [a];
      ValuesAppend(set_[1..], a);
    }
  }

  /** DELETE ... WHERE clause. */
  function DeleteWhere(t: Table, clause: seq<Token>, params: seq<Cell>): Table {
    if t == [] then []
    else (if EvalClause(clause, t[0], params) == Value(true, []) then [] else [t[0]])
         + DeleteWhere(t[1..], clause, params)
  }

  /** The rows that are left if the matching ones go. */
  function Without(t: Table, sets: seq<AttributeSet>): Table {
    if t == [] then [] else (if Matches(sets, t[0]) then [] else [t[0]]) + Without(t[1..], sets)
  }

  lemma {:induction false} DeleteWhereMeans(t: Table, sets: seq<AttributeSet>)
    requires AllValues(sets) != []
    ensures DeleteWhere(t, Clause(sets, 0), AllValues(sets)) == Without(t, sets)
  {
    if t != [] {
      CompilationCorrect(sets, t[0]);
      DeleteWhereMeans(t[1..], sets);
    }
  }

  /** Exactly the rows that do not match are left, each as often as before. */
  lemma {:induction false} WithoutMeans(t: Table, sets: seq<AttributeSet>, row: Row)
    ensures multiset(Without(t, sets))[row] == if Matches(sets, row) then 0 else multiset(t)[row]
  {
    if t != [] {
      WithoutMeans(t[1..], sets, row);
      assert t == [t[0]] + t[1..];
      assert Without(t, sets) == (if Matches(sets, t[0]) then [] else [t[0]]) + Without(t[1..], sets);
    }
  }

  /** The rows a DELETE with this clause touches. */
  function CountSelected(t: Table, clause: seq<Token>, params: seq<Cell>): nat {
    if t == [] then 0
    else (if EvalClause(clause, t[0], params) == Value(true, []) then 1 else 0)
         + CountSelected(t[1..], clause, params)
  }

  function CountMatching(t: Table, sets: seq<AttributeSet>): nat {
    if t == [] then 0 else (if Matches(sets, t[0]) then 1 else 0) + CountMatching(t[1..], sets)
  }

  lemma {:induction false} SelectedMatch(t: Table, sets: seq<AttributeSet>)
    requires AllValues(sets) != []
    ensures CountSelected(t, Clause(sets, 0), AllValues(sets)) == CountMatching(t, sets)
  {
    if t != [] {
      CompilationCorrect(sets, t[0]);
      SelectedMatch(t[1..], sets);
    }
  }

  lemma {:induction false} NothingMatches(t: Table, sets: seq<AttributeSet>)
    requires AllValues(sets) == []
    ensures Without(t, sets) == t && CountMatching(t, sets) == 0
  {
    if t != [] {
      EmptyMatchesNothing(sets, t[0]);
      NothingMatches(t[1..], sets);
    }
  }

  /** Every row is either left or counted. */
  lemma {:induction false} MatchingBalance(t: Table, sets: seq<AttributeSet>)
    ensures |Without(t, sets)| + CountMatching(t, sets) == |t|
  {
    if t != [] { MatchingBalance(t[1..], sets); }
  }
}
