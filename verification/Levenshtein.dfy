/** The edit distance behind the "did you mean" hint (levenshteinDistance in
    src/common/stringutils.cpp). */
module Levenshtein {
  import opened Sequences

  function Min(a: nat, b: nat): nat { if a < b then a else b }

  /** The recurrence the cost table is filled by; on equal characters it takes the diagonal. */
  function Dist(a: string, b: string): nat
    decreases |a| + |b|
  {
    if a == "" then |b|
    else if b == "" then |a|
    else if Last(a) == Last(b) then Dist(Most(a), Most(b))
    else 1 + Min(Min(Dist(Most(a), b), Dist(Most(a), Most(b))), Dist(a, Most(b)))
  }

  // ---- the one-row table ----

  lemma Prefixes(s: string, i: nat)
    requires i < |s|
    ensures s[..i + 1] != "" && Most(s[..i + 1]) == s[..i] && Last(s[..i + 1]) == s[i]
  {
  }

  method LevenshteinDistance(s1: string, s2: string) returns (d: nat)
    ensures d == Dist(s1, s2)
  {
    var m, n := |s1|, |s2|;
    if m == 0 { return n; }
    if n == 0 { return m; }
    var costs := new nat[n + 1];
    var k := 0;
    while k <= n
      invariant 0 <= k <= n + 1
      invariant forall x | 0 <= x < k :: costs[x] == x
    {
      costs[k] := k;
      k := k + 1;
    }
    assert s1[..0] == "";
    var i := 0;
    while i < m
      invariant 0 <= i <= m
      invariant forall x | 0 <= x <= n :: costs[x] == Dist(s1[..i], s2[..x])
    {
      FillRow(costs, s1, s2, i);
      i := i + 1;
    }
    assert s1[..m] == s1 && s2[..n] == s2;
    d := costs[n];
  }

  /** One entry of the table from its three neighbours. */
  lemma EntryStep(s1: string, s2: string, i: nat, j: nat)
    requires i < |s1| && j < |s2|
    ensures Dist(s1[..i + 1], s2[..j + 1]) ==
            if s1[i] == s2[j] then Dist(s1[..i], s2[..j])
            else 1 + Min(Min(Dist(s1[..i], s2[..j + 1]), Dist(s1[..i], s2[..j])), Dist(s1[..i + 1], s2[..j]))
  {
    Prefixes(s1, i);
    Prefixes(s2, j);
  }

  /** The inner loop: turns row i of the table into row i + 1 in place. */
  method FillRow(costs: array<nat>, s1: string, s2: string, i: nat)
    requires i < |s1| && s2 != "" && costs.Length == |s2| + 1
    requires forall x | 0 <= x <= |s2| :: costs[x] == Dist(s1[..i], s2[..x])
    modifies costs
    ensures forall x | 0 <= x <= |s2| :: costs[x] == Dist(s1[..i + 1], s2[..x])
  {
    assert s2[..0] == "";
    costs[0] := i + 1;
    var corner := i;
    var j := 0;
    while j < |s2|
      invariant 0 <= j <= |s2|
      invariant forall x | 0 <= x <= j :: costs[x] == Dist(s1[..i + 1], s2[..x])
      invariant forall x | j < x <= |s2| :: costs[x] == Dist(s1[..i], s2[..x])
      invariant corner == Dist(s1[..i], s2[..j])
    {
      corner := FillEntry(costs, s1, s2, i, j, corner);
      j := j + 1;
    }
  }

  /** The entry from its left, upper and diagonal neighbours; the old entry is the next diagonal. */
  method FillEntry(costs: array<nat>, s1: string, s2: string, i: nat, j: nat, corner: nat) returns (upper: nat)
    requires i < |s1| && j < |s2| && costs.Length == |s2| + 1
    requires corner == Dist(s1[..i], s2[..j])
    requires costs[j] == Dist(s1[..i + 1], s2[..j]) && costs[j + 1] == Dist(s1[..i], s2[..j + 1])
    modifies costs
    ensures upper == old(costs[j + 1]) && costs[j + 1] == Dist(s1[..i + 1], s2[..j + 1])
    ensures forall x | 0 <= x <= |s2| && x != j + 1 :: costs[x] == old(costs[x])
  {
    EntryStep(s1, s2, i, j);
    upper := costs[j + 1];
    var cost := corner;
    if s1[i] != s2[j] {
      var t := if upper < corner then upper else corner;
      cost := (if costs[j] < t then costs[j] else t) + 1;
    }
    costs[j + 1] := cost;
  }

  // ---- neighbouring entries of the table ----

  lemma {:induction false} DistSymmetric(a: string, b: string)
    ensures Dist(a, b) == Dist(b, a)
    decreases |a| + |b|
  {
    if a != "" && b != "" {
      DistSymmetric(Most(a), Most(b));
      DistSymmetric(Most(a), b);
      DistSymmetric(a, Most(b));
    }
  }

  lemma Snoc(s: string, c: char)
    ensures Most(s + [c]) == s && Last(s + [c]) == c
  {
  }

  /** One more character on either side changes the distance by at most one; so the diagonal
      taken on equal characters is never worse than the other two moves. */
  lemma {:induction false} AddRight(a: string, b: string, c: char)
    ensures Dist(a, b + [c]) <= Dist(a, b) + 1
    decreases |a| + |b|, 1
  {
    Snoc(b, c);
    if a != "" && Last(a) == c {
      DropLeft(Most(a), b, c);
      assert Most(a) + [c] == a;
    }
  }

  lemma {:induction false} DropLeft(a: string, b: string, c: char)
    ensures Dist(a, b) <= Dist(a + [c], b) + 1
    decreases |a| + |b|, 2
  {
    Snoc(a, c);
    if b != "" {
      AddRight(a, Most(b), Last(b));
      assert Most(b) + [Last(b)] == b;
      DropLeft(a, Most(b), c);
    }
  }

  lemma DropRight(a: string, b: string, c: char)
    ensures Dist(a, b) <= Dist(a, b + [c]) + 1
  {
    DropLeft(b, a, c);
    DistSymmetric(a, b);
    DistSymmetric(a, b + [c]);
  }

  lemma {:induction false} ChangeRight(a: string, b: string, c: char, d: char)
    ensures Dist(a, b + [d]) <= Dist(a, b + [c]) + 1
    decreases |a|
  {
    Snoc(b, c);
    Snoc(b, d);
    if a != "" {
      ChangeRight(Most(a), b, c, d);
      DropRight(Most(a), b, c);
      DropLeft(Most(a), b, Last(a));
      assert Most(a) + [Last(a)] == a;
    }
  }

  /** The three moves bound the distance whether or not the last characters agree. */
  lemma DiagonalNeverWorse(a: string, b: string, c: char)
    ensures Dist(a + [c], b + [c]) == Dist(a, b)
    ensures Dist(a, b) <= Dist(a, b + [c]) + 1 && Dist(a, b) <= Dist(a + [c], b) + 1
  {
    Snoc(a, c);
    Snoc(b, c);
    DropRight(a, b, c);
    DropLeft(a, b, c);
  }

  // ---- edit scripts ----

  predicate Inserts(x: string, y: string, i: nat, c: char) { i <= |x| && y == x[..i] + [c] + x[i..] }

  predicate Substitutes(x: string, y: string, i: nat, c: char) { i < |x| && y == x[..i] + [c] + x[i + 1..] }

  /** y is x with one character inserted, deleted or replaced, anywhere. */
  ghost predicate OneEdit(x: string, y: string) {
    || (exists i: nat, c: char :: Inserts(x, y, i, c))
    || (exists i: nat, c: char :: Inserts(y, x, i, c))
    || (exists i: nat, c: char :: Substitutes(x, y, i, c))
  }

  /** A script: the strings passed through, one edit at a time. */
  ghost predicate IsScript(p: seq<string>, s: string, t: string) {
    p != [] && p[0] == s && p[|p| - 1] == t && forall i | 0 <= i < |p| - 1 :: OneEdit(p[i], p[i + 1])
  }

  /** Replacing u by v in front of anything costs at most one. */
  ghost predicate Close(u: string, v: string) { forall s: string :: Dist(s, v) <= Dist(s, u) + 1 }

  lemma {:induction false} CloseSnoc(u: string, v: string, c: char, s: string)
    requires Close(u, v)
    ensures Dist(s, v + [c]) <= Dist(s, u + [c]) + 1
    decreases |s|
  {
    Snoc(u, c);
    Snoc(v, c);
    if s == "" {
      assert Dist(s, v) <= Dist(s, u) + 1;
    } else {
      CloseSnoc(u, v, c, Most(s));
      assert Dist(Most(s), v) <= Dist(Most(s), u) + 1 && Dist(s, v) <= Dist(s, u) + 1;
    }
  }

  lemma {:induction false} CloseAppend(u: string, v: string, z: string)
    requires Close(u, v)
    ensures Close(u + z, v + z)
    decreases |z|
  {
    if z == "" {
      assert u + z == u && v + z == v;
    } else {
      CloseAppend(u, v, Most(z));
      assert u + z == (u + Most(z)) + [Last(z)] && v + z == (v + Most(z)) + [Last(z)];
      forall s: string ensures Dist(s, v + z) <= Dist(s, u + z) + 1 {
        CloseSnoc(u + Most(z), v + Most(z), Last(z), s);
      }
    }
  }

  lemma CloseInsert(x: string, y: string, i: nat, c: char)
    requires Inserts(x, y, i, c)
    ensures Close(x, y) && Close(y, x)
  {
    var p := x[..i];
    forall s: string ensures Dist(s, p + [c]) <= Dist(s, p) + 1 { AddRight(s, p, c); }
    forall s: string ensures Dist(s, p) <= Dist(s, p + [c]) + 1 { DropRight(s, p, c); }
    CloseAppend(p, p + [c], x[i..]);
    CloseAppend(p + [c], p, x[i..]);
    assert p + x[i..] == x;
  }

  lemma CloseSubstitute(x: string, y: string, i: nat, c: char)
    requires Substitutes(x, y, i, c)
    ensures Close(x, y)
  {
    var p := x[..i];
    forall s: string ensures Dist(s, p + [c]) <= Dist(s, p + [x[i]]) + 1 { ChangeRight(s, p, x[i], c); }
    CloseAppend(p + [x[i]], p + [c], x[i + 1..]);
    assert p + [x[i]] + x[i + 1..] == x;
  }

  lemma EditIsClose(x: string, y: string)
    requires OneEdit(x, y)
    ensures Close(x, y)
  {
    if i: nat, c: char :| Inserts(x, y, i, c) {
      CloseInsert(x, y, i, c);
    } else if i: nat, c: char :| Inserts(y, x, i, c) {
      CloseInsert(y, x, i, c);
    } else {
      var i: nat, c: char :| Substitutes(x, y, i, c);
      CloseSubstitute(x, y, i, c);
    }
  }

  lemma {:induction false} DistSelf(s: string)
    ensures Dist(s, s) == 0
  {
    if s != "" { DistSelf(Most(s)); }
  }

  /** No script is shorter than the distance. */
  lemma {:induction false} ScriptAtLeast(p: seq<string>, s: string, t: string)
    requires IsScript(p, s, t)
    ensures Dist(s, t) <= |p| - 1
    decreases |p|
  {
    if |p| == 1 {
      DistSelf(s);
    } else {
      var front := p[..|p| - 1];
      ScriptAtLeast(front, s, p[|p| - 2]);
      assert OneEdit(p[|p| - 2], p[|p| - 1]);
      EditIsClose(p[|p| - 2], t);
    }
  }

  // ---- a script of that length exists ----

  lemma EditInsertLast(x: string, c: char)
    ensures OneEdit(x, x + [c]) && OneEdit(x + [c], x)
  {
    assert Inserts(x, x + [c], |x|, c);
  }

  lemma EditChangeLast(x: string, c: char, d: char)
    ensures OneEdit(x + [c], x + [d])
  {
    assert Substitutes(x + [c], x + [d], |x|, d);
  }

  lemma EditSnoc(x: string, y: string, c: char)
    requires OneEdit(x, y)
    ensures OneEdit(x + [c], y + [c])
  {
    if i: nat, d: char :| Inserts(x, y, i, d) {
      InsertSnoc(x, y, i, d, c);
    } else if i: nat, d: char :| Inserts(y, x, i, d) {
      InsertSnoc(y, x, i, d, c);
    } else {
      var i: nat, d: char :| Substitutes(x, y, i, d);
      assert (x + [c])[..i] == x[..i] && (x + [c])[i + 1..] == x[i + 1..] + [c];
      assert Substitutes(x + [c], y + [c], i, d);
    }
  }

  lemma InsertSnoc(x: string, y: string, i: nat, d: char, c: char)
    requires Inserts(x, y, i, d)
    ensures Inserts(x + [c], y + [c], i, d)
  {
    assert (x + [c])[..i] == x[..i] && (x + [c])[i..] == x[i..] + [c];
  }

  function SnocAll(p: seq<string>, c: char): (r: seq<string>)
    ensures |r| == |p| && forall i | 0 <= i < |p| :: r[i] == p[i] + [c]
  {
    seq(|p|, i requires 0 <= i < |p| => p[i] + [c])
  }

  lemma ScriptSnoc(p: seq<string>, s: string, t: string, c: char)
    requires IsScript(p, s, t)
    ensures IsScript(SnocAll(p, c), s + [c], t + [c])
  {
    forall i | 0 <= i < |p| - 1 ensures OneEdit(SnocAll(p, c)[i], SnocAll(p, c)[i + 1]) {
      EditSnoc(p[i], p[i + 1], c);
    }
  }

  lemma ScriptAddStep(p: seq<string>, s: string, t: string, u: string)
    requires IsScript(p, s, t) && OneEdit(t, u)
    ensures IsScript(p + [u], s, u)
  {
  }

  lemma {:induction false} ShortestScript(s: string, t: string) returns (p: seq<string>)
    ensures IsScript(p, s, t) && |p| - 1 == Dist(s, t)
    decreases |s| + |t|
  {
    if s == "" && t == "" {
      p := [""];
    } else if s == "" {
      p := ShortestScript(s, Most(t));
      InsertLast(p, s, t);
      p := p + [t];
    } else if t == "" {
      p := ShortestScript(Most(s), t);
      DeleteFirst(p, s, t);
      p := [s] + p;
    } else {
      assert Most(s) + [Last(s)] == s && Most(t) + [Last(t)] == t;
      if Last(s) == Last(t) {
        var q := ShortestScript(Most(s), Most(t));
        ScriptSnoc(q, Most(s), Most(t), Last(s));
        p := SnocAll(q, Last(s));
      } else {
        p := ShortestByMove(s, t);
      }
    }
  }

  lemma DeleteFirst(p: seq<string>, s: string, t: string)
    requires s != "" && IsScript(p, Most(s), t)
    ensures IsScript([s] + p, s, t)
  {
    EditInsertLast(Most(s), Last(s));
    assert Most(s) + [Last(s)] == s;
  }

  lemma InsertLast(p: seq<string>, s: string, t: string)
    requires t != "" && IsScript(p, s, Most(t))
    ensures IsScript(p + [t], s, t)
  {
    EditInsertLast(Most(t), Last(t));
    assert Most(t) + [Last(t)] == t;
    ScriptAddStep(p, s, Most(t), t);
  }

  lemma ChangeLast(q: seq<string>, s: string, t: string)
    requires s != "" && t != "" && Last(s) != Last(t) && IsScript(q, Most(s), Most(t))
    ensures IsScript(SnocAll(q, Last(s)) + [t], s, t)
  {
    assert Most(s) + [Last(s)] == s && Most(t) + [Last(t)] == t;
    ScriptSnoc(q, Most(s), Most(t), Last(s));
    EditChangeLast(Most(t), Last(s), Last(t));
    ScriptAddStep(SnocAll(q, Last(s)), s, Most(t) + [Last(s)], t);
  }

  /** The last characters differ: take the cheapest of deletion, replacement and insertion. */
  lemma {:induction false} ShortestByMove(s: string, t: string) returns (p: seq<string>)
    requires s != "" && t != "" && Last(s) != Last(t)
    ensures IsScript(p, s, t) && |p| - 1 == Dist(s, t)
    decreases |s| + |t|, 0
  {
    var a, b, c := Dist(Most(s), t), Dist(Most(s), Most(t)), Dist(s, Most(t));
    if a <= b && a <= c {
      p := ShortestScript(Most(s), t);
      DeleteFirst(p, s, t);
      p := [s] + p;
    } else if b <= c {
      var q := ShortestScript(Most(s), Most(t));
      ChangeLast(q, s, t);
      p := SnocAll(q, Last(s)) + [t];
    } else {
      p := ShortestScript(s, Most(t));
      InsertLast(p, s, t);
      p := p + [t];
    }
  }

  /** The distance is the minimum number of single-character edits. */
  lemma DistIsMinimum(s: string, t: string)
    ensures exists p: seq<string> :: IsScript(p, s, t) && |p| - 1 == Dist(s, t)
    ensures forall p: seq<string> | IsScript(p, s, t) :: Dist(s, t) <= |p| - 1
  {
    var p := ShortestScript(s, t);
    forall q: seq<string> | IsScript(q, s, t) ensures Dist(s, t) <= |q| - 1 { ScriptAtLeast(q, s, t); }
  }

  lemma ScriptJoin(p: seq<string>, q: seq<string>, s: string, t: string, u: string)
    requires IsScript(p, s, t) && IsScript(q, t, u)
    ensures IsScript(p + q[1..], s, u)
  {
    var r := p + q[1..];
    forall i | 0 <= i < |r| - 1 ensures OneEdit(r[i], r[i + 1]) {
      if i >= |p| - 1 {
        var k := i - (|p| - 1);
        assert r[i] == q[k] && r[i + 1] == q[k + 1];
      }
    }
    assert |q| > 1 ==> r[|r| - 1] == q[|q| - 1];
  }

  /** A metric: symmetric, zero only between equal strings, and obeying the triangle inequality. */
  lemma DistIsMetric(s: string, t: string, u: string)
    ensures Dist(s, t) == Dist(t, s)
    ensures Dist(s, t) == 0 <==> s == t
    ensures Dist(s, u) <= Dist(s, t) + Dist(t, u)
  {
    DistSymmetric(s, t);
    DistSelf(s);
    var p := ShortestScript(s, t);
    var q := ShortestScript(t, u);
    ScriptJoin(p, q, s, t, u);
    ScriptAtLeast(p + q[1..], s, u);
  }
}
