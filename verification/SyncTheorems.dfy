/** What a synchronisation achieves: correctness, idempotence, caution about NULL keys, and the
    balance of its statistics. */
module SyncTheorems {
  import opened Sql

  // ---- three-valued keys ----

  /** Both keys have a value in k and the values differ. */
  predicate SurelyApart(a: Row, b: Row, k: Column) {
    Get(a, k) != Null && Get(b, k) != Null && Get(a, k) != Get(b, k)
  }

  lemma {:induction false} KeyEqualFalse(a: Row, b: Row, keys: seq<Column>)
    ensures KeyEqual(a, b, keys) == False <==> exists k | k in keys :: SurelyApart(a, b, k)
  {
    if keys != [] {
      KeyEqualFalse(a, b, keys[1..]);
      assert keys == [keys[0]] + keys[1..];
      assert SurelyApart(a, b, keys[0]) <==> EqualCells(Get(a, keys[0]), Get(b, keys[0])) == False;
    }
  }

  lemma {:induction false} NotInTrue(r: Row, t: Table, keys: seq<Column>)
    ensures NotIn(r, t, keys) == True <==> forall q | q in t :: KeyEqual(r, q, keys) == False
  {
    if t != [] {
      NotInTrue(r, t[1..], keys);
      assert t[0] in t && forall q | q in t :: q == t[0] || q in t[1..];
    }
  }

  /** The exact meaning of NOT IN: every row of the table is, in some key column, surely apart. */
  lemma NotInMeaning(r: Row, t: Table, keys: seq<Column>)
    ensures NotIn(r, t, keys) == True <==> forall q | q in t :: exists k | k in keys :: SurelyApart(r, q, k)
  {
    NotInTrue(r, t, keys);
    forall q | q in t
      ensures KeyEqual(r, q, keys) == False <==> exists k | k in keys :: SurelyApart(r, q, k)
    {
      KeyEqualFalse(r, q, keys);
    }
  }

  /** Caution, with NULLs anywhere in the keys: a target row whose key is not distinct from a
      temp key is never deleted, a temp row whose key is not distinct from a target key never
      inserted. */
  lemma NullKeyCaution(p: Plan, a: Row, b: Row, t: Table)
    requires SameKey(a, b, p.keys) && b in t
    ensures NotIn(a, t, p.keys) != True
    ensures forall target: Table | a in target :: a in Delete(p, target, t)
    ensures forall temp: Table :: a !in Missing(p, temp, t)
  {
    NotInMeaning(a, t, p.keys);
  }

  /** A single temp row without any key value keeps DELETE from removing anything. */
  lemma {:induction false} NullKeyStopsDelete(p: Plan, s: Row, target: Table, temp: Table)
    requires s in temp && forall k | k in p.keys :: Get(s, k) == Null
    ensures Delete(p, target, temp) == target
  {
    if target != [] {
      NotInMeaning(target[0], temp, p.keys);
      NullKeyStopsDelete(p, s, target[1..], temp);
    }
  }

  // ---- tables with proper keys ----

  ghost predicate ProperKeys(t: Table, keys: seq<Column>) {
    && (forall i, k | 0 <= i < |t| && k in keys :: Get(t[i], k) != Null)
    && (forall i, j | 0 <= i < j < |t| :: !SameKey(t[i], t[j], keys))
  }

  ghost predicate HasKey(t: Table, r: Row, keys: seq<Column>) { exists q | q in t :: SameKey(q, r, keys) }

  ghost predicate NonNullKey(r: Row, keys: seq<Column>) { forall k | k in keys :: Get(r, k) != Null }

  /** Without NULLs NOT IN is plain absence. */
  lemma NotInNonNull(r: Row, t: Table, keys: seq<Column>)
    requires NonNullKey(r, keys) && forall q | q in t :: NonNullKey(q, keys)
    ensures NotIn(r, t, keys) == True <==> !HasKey(t, r, keys)
  {
    NotInMeaning(r, t, keys);
    forall q | q in t
      ensures (exists k | k in keys :: SurelyApart(r, q, k)) <==> !SameKey(q, r, keys)
    {
      if !SameKey(q, r, keys) {
        var k :| k in keys && Get(q, k) != Get(r, k);
        assert SurelyApart(r, q, k);
      }
    }
  }

  lemma ApartKeys(a: Row, b: Row, c: Row, keys: seq<Column>)
    requires SameKey(a, b, keys)
    ensures SameKey(a, c, keys) <==> SameKey(b, c, keys)
    ensures SameKey(b, c, keys) <==> SameKey(c, b, keys)
  {
  }

  // ---- UPDATE ----

  /** Columns whose value is compared as it is. */
  predicate Plain(p: Plan, c: Column) { c !in p.geometry }

  lemma {:induction false} AnyDiffersTrue(st: PostGis, p: Plan, t: Row, s: Row, cols: seq<Column>)
    ensures AnyDiffers(st, p, t, s, cols) == True <==> exists c | c in cols :: Differs(st, p, t, s, c) == True
  {
    if cols != [] { AnyDiffersTrue(st, p, t, s, cols[1..]); }
  }

  /** The key of a row survives the update, even where key columns are among those written. */
  lemma {:induction false} UpdateRowKey(st: PostGis, p: Plan, t: Row, temp: Table)
    ensures SameKey(UpdateRow(st, p, t, temp), t, p.keys)
  {
    if temp != [] && !UpdateWhere(st, p, t, temp[0]) { UpdateRowKey(st, p, t, temp[1..]); }
  }

  lemma {:induction false} UpdateRowUnmatched(st: PostGis, p: Plan, t: Row, temp: Table)
    requires !IsUpdated(st, p, t, temp)
    ensures UpdateRow(st, p, t, temp) == t
  {
    if temp != [] {
      assert temp[0] in temp;
      UpdateRowUnmatched(st, p, t, temp[1..]);
    }
  }

  /** Only rows without a partner of the same key before i: the partner is used. */
  lemma {:induction false} UpdateRowMatched(st: PostGis, p: Plan, t: Row, temp: Table, i: nat)
    requires i < |temp| && UpdateWhere(st, p, t, temp[i])
    requires forall j | 0 <= j < i :: !SameKey(t, temp[j], p.keys)
    ensures UpdateRow(st, p, t, temp) == SetColumns(t, temp[i], p.updateColumns)
  {
    if i > 0 { UpdateRowMatched(st, p, t, temp[1..], i - 1); }
  }

  /** With proper temp keys, a row with partner temp[i] ends up as the partner wants it. */
  lemma UpdateRowResult(st: PostGis, p: Plan, t: Row, temp: Table, i: nat)
    requires ProperKeys(temp, p.keys) && i < |temp| && SameKey(t, temp[i], p.keys)
    ensures IsUpdated(st, p, t, temp) <==> UpdateWhere(st, p, t, temp[i])
    ensures UpdateRow(st, p, t, temp) == if UpdateWhere(st, p, t, temp[i])
                                         then SetColumns(t, temp[i], p.updateColumns) else t
  {
    forall j | 0 <= j < |temp| && j != i ensures !SameKey(t, temp[j], p.keys) {
      assert !SameKey(temp[if i < j then i else j], temp[if i < j then j else i], p.keys);
      ApartKeys(t, temp[i], temp[j], p.keys);
    }
    if UpdateWhere(st, p, t, temp[i]) {
      assert temp[i] in temp;
      UpdateRowMatched(st, p, t, temp, i);
    } else {
      UpdateRowUnmatched(st, p, t, temp);
    }
  }

  /** ... and so agrees with it on every plain column the update writes. */
  lemma UpdateAgrees(st: PostGis, p: Plan, t: Row, temp: Table, i: nat, c: Column)
    requires ProperKeys(temp, p.keys) && i < |temp| && SameKey(t, temp[i], p.keys)
    requires c in p.updateColumns && Plain(p, c)
    ensures Get(UpdateRow(st, p, t, temp), c) == Get(temp[i], c)
  {
    UpdateRowResult(st, p, t, temp, i);
    AnyDiffersTrue(st, p, t, temp[i], p.updateColumns);
  }

  lemma SameKeys(a: Table, b: Table, r: Row, keys: seq<Column>)
    requires |a| == |b| && forall i | 0 <= i < |a| :: SameKey(a[i], b[i], keys)
    ensures HasKey(a, r, keys) <==> HasKey(b, r, keys)
  {
    forall i | 0 <= i < |a| ensures SameKey(a[i], r, keys) <==> SameKey(b[i], r, keys) {
      ApartKeys(a[i], b[i], r, keys);
    }
    if HasKey(a, r, keys) {
      var i :| 0 <= i < |a| && SameKey(a[i], r, keys);
      assert b[i] in b;
    }
    if HasKey(b, r, keys) {
      var i :| 0 <= i < |b| && SameKey(b[i], r, keys);
      assert a[i] in a;
    }
  }

  lemma UpdateProper(st: PostGis, p: Plan, target: Table, temp: Table)
    requires ProperKeys(target, p.keys)
    ensures ProperKeys(Update(st, p, target, temp), p.keys)
    ensures forall r: Row :: HasKey(Update(st, p, target, temp), r, p.keys) <==> HasKey(target, r, p.keys)
  {
    var u := Update(st, p, target, temp);
    forall i | 0 <= i < |target| ensures SameKey(u[i], target[i], p.keys) {
      UpdateRowKey(st, p, target[i], temp);
    }
    forall i, j | 0 <= i < j < |u| ensures !SameKey(u[i], u[j], p.keys) {
      ApartKeys(u[i], target[i], u[j], p.keys);
      ApartKeys(u[j], target[j], target[i], p.keys);
    }
    forall r: Row ensures HasKey(u, r, p.keys) <==> HasKey(target, r, p.keys) {
      SameKeys(u, target, r, p.keys);
    }
  }

  // ---- INSERT ----

  lemma NewRowKey(p: Plan, defaults: Row, s: Row)
    requires forall k | k in p.keys :: k in p.insertColumns
    ensures SameKey(NewRow(p, defaults, s), s, p.keys)
  {
  }

  /** Missing keeps the order of temp, so proper keys stay proper. */
  lemma {:induction false} MissingProper(p: Plan, temp: Table, target: Table)
    requires ProperKeys(temp, p.keys)
    ensures ProperKeys(Missing(p, temp, target), p.keys)
  {
    if temp != [] {
      var rest := temp[1..];
      assert ProperKeys(rest, p.keys);
      MissingProper(p, rest, target);
      var m := Missing(p, rest, target);
      forall j | 0 <= j < |m| ensures !SameKey(temp[0], m[j], p.keys) {
        assert m[j] in rest;
        var i :| 0 <= i < |rest| && rest[i] == m[j];
        assert temp[i + 1] == m[j];
      }
    }
  }

  lemma InsertProper(p: Plan, defaults: Row, target: Table, temp: Table)
    requires ProperKeys(target, p.keys) && ProperKeys(temp, p.keys)
    requires forall k | k in p.keys :: k in p.insertColumns
    ensures ProperKeys(Insert(p, defaults, target, temp), p.keys)
    ensures forall r: Row :: HasKey(Insert(p, defaults, target, temp), r, p.keys)
                        <==> HasKey(target, r, p.keys) || HasKey(temp, r, p.keys)
  {
    var m := Missing(p, temp, target);
    var n := NewRows(p, defaults, m);
    var all := Insert(p, defaults, target, temp);
    MissingProper(p, temp, target);
    NonNullRows(target, p.keys);
    NonNullRows(temp, p.keys);
    forall i | 0 <= i < |m| ensures SameKey(n[i], m[i], p.keys) && m[i] in temp && !HasKey(target, m[i], p.keys) {
      NewRowKey(p, defaults, m[i]);
      assert m[i] in m;
      NotInNonNull(m[i], target, p.keys);
    }
    InsertDistinct(p, target, n, m);
    forall r: Row ensures HasKey(all, r, p.keys) <==> HasKey(target, r, p.keys) || HasKey(temp, r, p.keys) {
      InsertKeys(p, defaults, target, temp, r);
    }
  }

  lemma NonNullRows(t: Table, keys: seq<Column>)
    requires ProperKeys(t, keys)
    ensures forall q | q in t :: NonNullKey(q, keys)
  {
  }

  lemma InsertDistinct(p: Plan, target: Table, n: Table, m: Table)
    requires ProperKeys(target, p.keys) && ProperKeys(m, p.keys) && |n| == |m|
    requires forall i | 0 <= i < |m| :: SameKey(n[i], m[i], p.keys) && !HasKey(target, m[i], p.keys)
    ensures ProperKeys(target + n, p.keys)
  {
    var all := target + n;
    forall i, j | 0 <= i < j < |all| ensures !SameKey(all[i], all[j], p.keys) {
      if j >= |target| {
        var b := j - |target|;
        ApartKeys(n[b], m[b], all[i], p.keys);
        if i < |target| {
          assert target[i] in target && !SameKey(target[i], m[b], p.keys);
        } else {
          ApartKeys(n[i - |target|], m[i - |target|], m[b], p.keys);
        }
      }
    }
  }

  lemma HasKeyConcat(a: Table, b: Table, r: Row, keys: seq<Column>)
    ensures HasKey(a + b, r, keys) <==> HasKey(a, r, keys) || HasKey(b, r, keys)
  {
    forall q ensures q in a + b <==> q in a || q in b {}
  }

  lemma InsertKeys(p: Plan, defaults: Row, target: Table, temp: Table, r: Row)
    requires ProperKeys(target, p.keys) && ProperKeys(temp, p.keys)
    requires forall k | k in p.keys :: k in p.insertColumns
    ensures HasKey(Insert(p, defaults, target, temp), r, p.keys)
       <==> HasKey(target, r, p.keys) || HasKey(temp, r, p.keys)
  {
    var m := Missing(p, temp, target);
    var n := NewRows(p, defaults, m);
    HasKeyConcat(target, n, r, p.keys);
    forall i | 0 <= i < |m| ensures SameKey(n[i], m[i], p.keys) { NewRowKey(p, defaults, m[i]); }
    SameKeys(n, m, r, p.keys);
    if HasKey(m, r, p.keys) {
      var s :| s in m && SameKey(s, r, p.keys);
      assert s in temp;
    }
    if HasKey(temp, r, p.keys) && !HasKey(target, r, p.keys) {
      var s :| s in temp && SameKey(s, r, p.keys);
      MissingHas(p, temp, target, s, r);
    }
  }

  /** A temp row without a partner in the target is missing there. */
  lemma MissingHas(p: Plan, temp: Table, target: Table, s: Row, r: Row)
    requires ProperKeys(target, p.keys) && ProperKeys(temp, p.keys) && s in temp && SameKey(s, r, p.keys)
    requires !HasKey(target, r, p.keys)
    ensures s in Missing(p, temp, target) && HasKey(Missing(p, temp, target), r, p.keys)
  {
    NonNullRows(target, p.keys);
    NonNullRows(temp, p.keys);
    NotInNonNull(s, target, p.keys);
    assert !HasKey(target, s, p.keys) by {
      forall q | q in target ensures !SameKey(q, s, p.keys) {
        assert !SameKey(q, r, p.keys);
        ApartKeys(s, r, q, p.keys);
        ApartKeys(q, q, s, p.keys);
        ApartKeys(q, q, r, p.keys);
      }
    }
  }

  // ---- DELETE ----

  lemma {:induction false} DeleteProper(p: Plan, target: Table, temp: Table)
    requires ProperKeys(target, p.keys)
    ensures ProperKeys(Delete(p, target, temp), p.keys)
  {
    if target != [] {
      var rest := target[1..];
      assert ProperKeys(rest, p.keys);
      DeleteProper(p, rest, temp);
      var d := Delete(p, rest, temp);
      forall j | 0 <= j < |d| ensures !SameKey(target[0], d[j], p.keys) {
        assert d[j] in rest;
        var i :| 0 <= i < |rest| && rest[i] == d[j];
        assert target[i + 1] == d[j];
      }
    }
  }

  /** With proper keys DELETE keeps exactly the rows that have a partner. */
  lemma DeleteKeeps(p: Plan, target: Table, temp: Table, t: Row)
    requires ProperKeys(target, p.keys) && ProperKeys(temp, p.keys) && t in target
    ensures t in Delete(p, target, temp) <==> HasKey(temp, t, p.keys)
  {
    NonNullRows(target, p.keys);
    NonNullRows(temp, p.keys);
    NotInNonNull(t, temp, p.keys);
  }

  // ---- correctness ----

  /** Temp rows with one key are one row. */
  lemma SameRow(t: Table, a: Row, b: Row, keys: seq<Column>)
    requires ProperKeys(t, keys) && a in t && b in t && SameKey(a, b, keys)
    ensures a == b
  {
    var i :| 0 <= i < |t| && t[i] == a;
    var j :| 0 <= j < |t| && t[j] == b;
    ApartKeys(a, a, b, keys);
  }

  /** q and s agree on every plain column that both statements write. */
  predicate Agrees(p: Plan, q: Row, s: Row) {
    forall c | c in p.updateColumns && c in p.insertColumns && Plain(p, c) :: Get(q, c) == Get(s, c)
  }

  lemma UpdatedRowAgrees(st: PostGis, p: Plan, t: Row, temp: Table, s: Row)
    requires ProperKeys(temp, p.keys) && s in temp && SameKey(UpdateRow(st, p, t, temp), s, p.keys)
    ensures Agrees(p, UpdateRow(st, p, t, temp), s)
  {
    var i :| 0 <= i < |temp| && temp[i] == s;
    UpdateRowKey(st, p, t, temp);
    ApartKeys(UpdateRow(st, p, t, temp), t, s, p.keys);
    forall c | c in p.updateColumns && Plain(p, c) ensures Get(UpdateRow(st, p, t, temp), c) == Get(s, c) {
      UpdateAgrees(st, p, t, temp, i, c);
    }
  }

  lemma InsertedRowAgrees(p: Plan, defaults: Row, m: Row, temp: Table, s: Row)
    requires ProperKeys(temp, p.keys) && s in temp && m in temp
    requires forall k | k in p.keys :: k in p.insertColumns
    requires SameKey(NewRow(p, defaults, m), s, p.keys)
    ensures Agrees(p, NewRow(p, defaults, m), s)
  {
    NewRowKey(p, defaults, m);
    ApartKeys(NewRow(p, defaults, m), m, s, p.keys);
    SameRow(temp, m, s, p.keys);
  }

  /** UPDATE and INSERT leave, for every temp row, a partner that agrees with it. */
  lemma UpsertAgrees(st: PostGis, p: Plan, defaults: Row, target: Table, temp: Table, q: Row, s: Row)
    requires ProperKeys(target, p.keys) && ProperKeys(temp, p.keys)
    requires forall k | k in p.keys :: k in p.insertColumns
    requires var u := Update(st, p, target, temp); q in Insert(p, defaults, u, temp)
    requires s in temp && SameKey(q, s, p.keys)
    ensures Agrees(p, q, s)
  {
    var u := Update(st, p, target, temp);
    var m := Missing(p, temp, u);
    var n := NewRows(p, defaults, m);
    assert q in u + n;
    if q in u {
      var i :| 0 <= i < |u| && u[i] == q;
      UpdatedRowAgrees(st, p, target[i], temp, s);
    } else {
      var i :| 0 <= i < |n| && n[i] == q;
      assert m[i] in m;
      InsertedRowAgrees(p, defaults, m[i], temp, s);
    }
  }

  /** A row after UPDATE and INSERT has a partner or was there before, as it is. */
  lemma NoForeignRow(st: PostGis, p: Plan, defaults: Row, target: Table, temp: Table, q: Row)
    requires forall k | k in p.keys :: k in p.insertColumns
    requires q in Insert(p, defaults, Update(st, p, target, temp), temp)
    ensures HasKey(temp, q, p.keys) || q in target
  {
    var u := Update(st, p, target, temp);
    var m := Missing(p, temp, u);
    assert q in u + NewRows(p, defaults, m);
    if q in u {
      var i :| 0 <= i < |u| && u[i] == q;
      if IsUpdated(st, p, target[i], temp) {
        var s :| s in temp && UpdateWhere(st, p, target[i], s);
        UpdateRowKey(st, p, target[i], temp);
        ApartKeys(q, target[i], s, p.keys);
        ApartKeys(q, q, s, p.keys);
      } else {
        UpdateRowUnmatched(st, p, target[i], temp);
      }
    } else {
      CreatedHasPartner(p, defaults, m, temp, q);
    }
  }

  lemma UnmatchedSurvives(st: PostGis, p: Plan, defaults: Row, target: Table, temp: Table, t: Row)
    requires t in target && !HasKey(temp, t, p.keys)
    ensures t in Insert(p, defaults, Update(st, p, target, temp), temp)
  {
    var i :| 0 <= i < |target| && target[i] == t;
    assert !IsUpdated(st, p, t, temp) by {
      forall s | s in temp ensures !UpdateWhere(st, p, t, s) {
        assert !SameKey(s, t, p.keys);
        ApartKeys(s, s, t, p.keys);
      }
    }
    UpdateRowUnmatched(st, p, t, temp);
    var u := Update(st, p, target, temp);
    assert u[i] == t && t in u;
  }

  /** Sync correctness. Keys stay unique; every temp row has exactly one partner in the target,
      which agrees with it on all plain columns both statements write; with deletion nothing
      else is left, and without it the rest are exactly the rows that had no partner, unchanged. */
  lemma SyncCorrect(st: PostGis, p: Plan, defaults: Row, target: Table, temp: Table, allowDeletion: bool)
    requires ProperKeys(target, p.keys) && ProperKeys(temp, p.keys)
    requires forall k | k in p.keys :: k in p.insertColumns
    ensures var r := Sync(st, p, defaults, target, temp, allowDeletion).target;
            && ProperKeys(r, p.keys)
            && (forall s | s in temp :: HasKey(r, s, p.keys))
            && (forall q, s | q in r && s in temp && SameKey(q, s, p.keys) :: Agrees(p, q, s))
            && (allowDeletion ==> forall q | q in r :: HasKey(temp, q, p.keys))
            && (!allowDeletion ==> forall t | t in target && !HasKey(temp, t, p.keys) :: t in r)
            && (forall q | q in r :: HasKey(temp, q, p.keys) || q in target)
  {
    var u := Update(st, p, target, temp);
    var i := Insert(p, defaults, u, temp);
    var r := Sync(st, p, defaults, target, temp, allowDeletion).target;
    UpdateProper(st, p, target, temp);
    InsertProper(p, defaults, u, temp);
    DeleteProper(p, i, temp);
    forall s | s in temp ensures HasKey(r, s, p.keys) {
      assert HasKey(temp, s, p.keys) by { assert SameKey(s, s, p.keys); }
      var q :| q in i && SameKey(q, s, p.keys);
      ApartKeys(q, q, s, p.keys);
      assert HasKey(temp, q, p.keys);
      DeleteKeeps(p, i, temp, q);
    }
    forall q | q in r ensures HasKey(temp, q, p.keys) || q in target { NoForeignRow(st, p, defaults, target, temp, q); }
    forall q, s | q in r && s in temp && SameKey(q, s, p.keys) ensures Agrees(p, q, s) {
      UpsertAgrees(st, p, defaults, target, temp, q, s);
    }
    if allowDeletion {
      forall q | q in r ensures HasKey(temp, q, p.keys) { DeleteKeeps(p, i, temp, q); }
    } else {
      forall t | t in target && !HasKey(temp, t, p.keys) ensures t in r {
        UnmatchedSurvives(st, p, defaults, target, temp, t);
      }
    }
  }

  /** The statistics balance, in both modes and whatever the keys look like. */
  lemma StatsBalance(st: PostGis, p: Plan, defaults: Row, target: Table, temp: Table, allowDeletion: bool)
    requires p.keys != []
    ensures var r := Sync(st, p, defaults, target, temp, allowDeletion);
            |r.target| == |target| + r.stats.created - r.stats.deleted && r.stats.updated <= |target|
    ensures var b := Bulk(p, defaults, target, temp, false);
            |b.target| == b.stats.created == |temp| && b.stats.deleted == |target|
    ensures Bulk(p, defaults, target, temp, true).stats.deleted == |target|
       <==> forall t | t in target :: Get(t, p.keys[0]) != Null
  {
    CountUpdatedBound(st, p, target, temp);
    CountNonNullAll(target, p.keys[0]);
    DeleteCount(p, Insert(p, defaults, Update(st, p, target, temp), temp), temp);
  }

  /** DELETE removes as many rows as it touches. */
  lemma {:induction false} DeleteCount(p: Plan, target: Table, temp: Table)
    ensures |Delete(p, target, temp)| == |target| - CountDeleted(p, target, temp)
  {
    if target != [] { DeleteCount(p, target[1..], temp); }
  }

  /** Rows of one table without a partner in the other. */
  ghost function CountAbsent(a: Table, b: Table, keys: seq<Column>): nat {
    if a == [] then 0 else (if HasKey(b, a[0], keys) then 0 else 1) + CountAbsent(a[1..], b, keys)
  }

  lemma {:induction false} CountAbsentZero(a: Table, b: Table, keys: seq<Column>)
    ensures CountAbsent(a, b, keys) == 0 <==> forall r | r in a :: HasKey(b, r, keys)
  {
    if a != [] {
      CountAbsentZero(a[1..], b, keys);
      assert a[0] in a && forall r | r in a :: r == a[0] || r in a[1..];
    }
  }

  /** Only the keys on either side matter. */
  lemma {:induction false} CountAbsentSame(a: Table, b: Table, c: Table, d: Table, keys: seq<Column>)
    requires |a| == |c| && forall i | 0 <= i < |a| :: SameKey(a[i], c[i], keys)
    requires forall r: Row :: HasKey(b, r, keys) <==> HasKey(d, r, keys)
    ensures CountAbsent(a, b, keys) == CountAbsent(c, d, keys)
  {
    if a != [] {
      assert HasKey(d, a[0], keys) <==> HasKey(d, c[0], keys) by { PartnerOfKey(d, a[0], c[0], keys); }
      CountAbsentSame(a[1..], b, c[1..], d, keys);
    }
  }

  lemma PartnerOfKey(t: Table, a: Row, b: Row, keys: seq<Column>)
    requires SameKey(a, b, keys)
    ensures HasKey(t, a, keys) <==> HasKey(t, b, keys)
  {
    forall q | q in t ensures SameKey(q, a, keys) <==> SameKey(q, b, keys) {
      ApartKeys(a, b, q, keys);
      ApartKeys(q, q, a, keys);
      ApartKeys(q, q, b, keys);
    }
  }

  lemma {:induction false} MissingCount(p: Plan, temp: Table, target: Table)
    requires (forall r | r in temp :: NonNullKey(r, p.keys)) && forall r | r in target :: NonNullKey(r, p.keys)
    ensures |Missing(p, temp, target)| == CountAbsent(temp, target, p.keys)
  {
    if temp != [] {
      assert temp[0] in temp && forall r | r in temp[1..] :: r in temp;
      NotInNonNull(temp[0], target, p.keys);
      MissingCount(p, temp[1..], target);
    }
  }

  lemma {:induction false} DeletedCount(p: Plan, a: Table, b: Table, temp: Table)
    requires (forall r | r in temp :: NonNullKey(r, p.keys)) && forall r | r in a + b :: NonNullKey(r, p.keys)
    requires forall r | r in b :: HasKey(temp, r, p.keys)
    ensures CountDeleted(p, a + b, temp) == CountAbsent(a, temp, p.keys)
    decreases |a| + |b|
  {
    if a != [] {
      assert (a + b)[0] == a[0] && (a + b)[1..] == a[1..] + b && a[0] in a + b;
      NotInNonNull(a[0], temp, p.keys);
      DeletedCount(p, a[1..], b, temp);
    } else if b != [] {
      assert a + b == b && b[0] in b && b[0] in a + b && a + b[1..] == b[1..] && forall r | r in b[1..] :: r in b && r in a + b;
      NotInNonNull(b[0], temp, p.keys);
      DeletedCount(p, a, b[1..], temp);
    }
  }

  /** What the reported numbers count, on the tables as they were before: created the temp rows
      without a partner in the target, deleted the target rows without one in temp. */
  lemma StatsMeaning(st: PostGis, p: Plan, defaults: Row, target: Table, temp: Table, allowDeletion: bool)
    requires ProperKeys(target, p.keys) && ProperKeys(temp, p.keys)
    requires forall k | k in p.keys :: k in p.insertColumns
    ensures var stats := Sync(st, p, defaults, target, temp, allowDeletion).stats;
            && stats.created == CountAbsent(temp, target, p.keys)
            && stats.deleted == if allowDeletion then CountAbsent(target, temp, p.keys) else 0
  {
    var u := Update(st, p, target, temp);
    var m := Missing(p, temp, u);
    var n := NewRows(p, defaults, m);
    UpdateProper(st, p, target, temp);
    InsertProper(p, defaults, u, temp);
    NonNullRows(u, p.keys);
    NonNullRows(temp, p.keys);
    NonNullRows(u + n, p.keys);
    MissingCount(p, temp, u);
    CountAbsentSame(temp, u, temp, target, p.keys);
    forall r | r in n ensures HasKey(temp, r, p.keys) { CreatedHasPartner(p, defaults, m, temp, r); }
    DeletedCount(p, u, n, temp);
    forall i | 0 <= i < |u| ensures SameKey(u[i], target[i], p.keys) { UpdateRowKey(st, p, target[i], temp); }
    CountAbsentSame(u, temp, target, temp, p.keys);
  }

  lemma CreatedHasPartner(p: Plan, defaults: Row, m: Table, temp: Table, r: Row)
    requires (forall k | k in p.keys :: k in p.insertColumns) && (forall s | s in m :: s in temp)
    requires r in NewRows(p, defaults, m)
    ensures HasKey(temp, r, p.keys)
  {
    var i :| 0 <= i < |m| && r == NewRow(p, defaults, m[i]);
    assert m[i] in m;
    NewRowKey(p, defaults, m[i]);
    ApartKeys(r, r, m[i], p.keys);
  }

  lemma {:induction false} CountUpdatedBound(st: PostGis, p: Plan, target: Table, temp: Table)
    ensures CountUpdated(st, p, target, temp) <= |target|
    ensures CountUpdated(st, p, target, temp) == 0 <==> forall t | t in target :: !IsUpdated(st, p, t, temp)
  {
    if target != [] {
      CountUpdatedBound(st, p, target[1..], temp);
      assert target[0] in target && forall t | t in target :: t == target[0] || t in target[1..];
    }
  }

  lemma {:induction false} CountNonNullAll(t: Table, c: Column)
    ensures CountNonNull(t, c) <= |t|
    ensures CountNonNull(t, c) == |t| <==> forall r | r in t :: Get(r, c) != Null
  {
    if t != [] {
      CountNonNullAll(t[1..], c);
      assert t[0] in t && forall r | r in t :: r == t[0] || r in t[1..];
    }
  }

  // ---- the geometry column ----

  /** A column of a matched row takes its partner's value exactly if it had it or the row is updated. */
  lemma WrittenExactly(st: PostGis, p: Plan, t: Row, temp: Table, i: nat, c: Column)
    requires ProperKeys(temp, p.keys) && i < |temp| && SameKey(t, temp[i], p.keys) && c in p.updateColumns
    ensures Get(UpdateRow(st, p, t, temp), c) == Get(temp[i], c)
       <==> Get(t, c) == Get(temp[i], c) || UpdateWhere(st, p, t, temp[i])
  {
    UpdateRowResult(st, p, t, temp, i);
  }

  /** A geometry x on one side and NULL on the other: the update replaces it exactly if x is a
      collection, which is compared in binary form, or some other column differs. */
  lemma OneSidedGeometry(st: PostGis, p: Plan, t: Row, temp: Table, i: nat, g: Column, x: Geometry)
    requires ProperKeys(temp, p.keys) && i < |temp| && SameKey(t, temp[i], p.keys)
    requires g in p.updateColumns && g in p.geometry
    requires (Get(t, g) == Null && Get(temp[i], g) == Geom(x)) || (Get(t, g) == Geom(x) && Get(temp[i], g) == Null)
    ensures Get(UpdateRow(st, p, t, temp), g) == Get(temp[i], g)
       <==> st.isCollection(x) || exists c | c in p.updateColumns && c != g :: Differs(st, p, t, temp[i], c) == True
  {
    WrittenExactly(st, p, t, temp, i, g);
    AnyDiffersTrue(st, p, t, temp[i], p.updateColumns);
    assert Differs(st, p, t, temp[i], g) == True <==> st.isCollection(x);
  }

  // ---- idempotence ----

  ghost predicate ReflexiveEquals(st: PostGis) { forall g: Geometry :: st.equals(g, g) }

  /** The temp table has NULL in every column the source does not provide. */
  ghost predicate TempShape(p: Plan, temp: Table) {
    forall s, c | s in temp && c !in p.insertColumns :: Get(s, c) == Null
  }

  lemma EqualCellsDoNotDiffer(st: PostGis, p: Plan, t: Row, s: Row, c: Column)
    requires ReflexiveEquals(st) && Get(t, c) == Get(s, c)
    ensures Differs(st, p, t, s, c) != True
  {
  }

  /** Update is settled: what it wrote, or left alone, it would leave alone again. */
  lemma UpdatedRowSettled(st: PostGis, p: Plan, t: Row, temp: Table, s: Row)
    requires ReflexiveEquals(st) && ProperKeys(temp, p.keys) && s in temp
    ensures !UpdateWhere(st, p, UpdateRow(st, p, t, temp), s)
  {
    var q := UpdateRow(st, p, t, temp);
    UpdateRowKey(st, p, t, temp);
    ApartKeys(q, t, s, p.keys);
    if SameKey(q, s, p.keys) {
      var i :| 0 <= i < |temp| && temp[i] == s;
      UpdateRowResult(st, p, t, temp, i);
      AnyDiffersTrue(st, p, q, s, p.updateColumns);
      if UpdateWhere(st, p, t, s) {
        forall c | c in p.updateColumns ensures Differs(st, p, q, s, c) != True {
          EqualCellsDoNotDiffer(st, p, q, s, c);
        }
      }
    }
  }

  /** Defaults of the columns that UPDATE writes and INSERT does not. */
  predicate QuietDefaults(p: Plan, defaults: Row) {
    forall c | c in p.updateColumns && c !in p.insertColumns :: Get(defaults, c) == Null
  }

  ghost predicate PlanShape(p: Plan) {
    && (forall k | k in p.keys :: k in p.insertColumns)
    && (forall c | c in p.geometry :: c in p.insertColumns)
  }

  /** A created row is left alone by the next update exactly if the defaults are quiet. */
  lemma NewRowSettled(st: PostGis, p: Plan, defaults: Row, m: Row, temp: Table)
    requires ReflexiveEquals(st) && PlanShape(p) && ProperKeys(temp, p.keys) && TempShape(p, temp) && m in temp
    ensures IsUpdated(st, p, NewRow(p, defaults, m), temp) <==> !QuietDefaults(p, defaults)
  {
    var q := NewRow(p, defaults, m);
    NewRowKey(p, defaults, m);
    AnyDiffersTrue(st, p, q, m, p.updateColumns);
    forall c | c in p.updateColumns
      ensures Differs(st, p, q, m, c) == True <==> c !in p.insertColumns && Get(defaults, c) != Null
    {
      if c in p.insertColumns { EqualCellsDoNotDiffer(st, p, q, m, c); }
    }
    forall s | s in temp && UpdateWhere(st, p, q, s) ensures s == m {
      ApartKeys(q, m, s, p.keys);
      SameRow(temp, m, s, p.keys);
    }
  }

  /** Nothing is missing after the first run. */
  lemma NothingMissing(p: Plan, temp: Table, r: Table)
    requires ProperKeys(r, p.keys) && ProperKeys(temp, p.keys) && forall s | s in temp :: HasKey(r, s, p.keys)
    ensures Missing(p, temp, r) == []
  {
    var m := Missing(p, temp, r);
    if m != [] {
      assert m[0] in m && m[0] in temp;
      NonNullRows(r, p.keys);
      NonNullRows(temp, p.keys);
      NotInNonNull(m[0], r, p.keys);
      assert false;
    }
  }

  lemma {:induction false} NothingToDelete(p: Plan, r: Table, temp: Table)
    requires forall q | q in r :: NotIn(q, temp, p.keys) != True
    ensures Delete(p, r, temp) == r
  {
    if r != [] {
      assert r[0] in r && forall q | q in r[1..] :: q in r;
      NothingToDelete(p, r[1..], temp);
    }
  }

  lemma {:induction false} NothingToUpdate(st: PostGis, p: Plan, r: Table, temp: Table)
    requires forall q | q in r :: !IsUpdated(st, p, q, temp)
    ensures Update(st, p, r, temp) == r
  {
    forall i | 0 <= i < |r| ensures UpdateRow(st, p, r[i], temp) == r[i] {
      assert r[i] in r;
      UpdateRowUnmatched(st, p, r[i], temp);
    }
  }

  /** Rows of the result: updated old ones and created ones. */
  lemma ResultRow(st: PostGis, p: Plan, defaults: Row, target: Table, temp: Table, q: Row)
    requires ReflexiveEquals(st) && PlanShape(p) && ProperKeys(temp, p.keys) && TempShape(p, temp)
    requires q in Insert(p, defaults, Update(st, p, target, temp), temp)
    requires Missing(p, temp, Update(st, p, target, temp)) == [] || QuietDefaults(p, defaults)
    ensures !IsUpdated(st, p, q, temp)
  {
    var u := Update(st, p, target, temp);
    var m := Missing(p, temp, u);
    var n := NewRows(p, defaults, m);
    assert q in u + n;
    if q in u {
      var i :| 0 <= i < |u| && u[i] == q;
      forall s | s in temp ensures !UpdateWhere(st, p, q, s) { UpdatedRowSettled(st, p, target[i], temp, s); }
    } else {
      var i :| 0 <= i < |n| && n[i] == q;
      assert m[i] in m;
      NewRowSettled(st, p, defaults, m[i], temp);
    }
  }

  /** If something was created and a default is not quiet, the next update has work to do. */
  lemma RestlessRow(st: PostGis, p: Plan, defaults: Row, target: Table, temp: Table, allowDeletion: bool)
    requires ReflexiveEquals(st) && PlanShape(p) && TempShape(p, temp)
    requires ProperKeys(target, p.keys) && ProperKeys(temp, p.keys)
    requires Missing(p, temp, Update(st, p, target, temp)) != [] && !QuietDefaults(p, defaults)
    ensures var r := Sync(st, p, defaults, target, temp, allowDeletion).target;
            CountUpdated(st, p, r, temp) > 0
  {
    var u := Update(st, p, target, temp);
    var m := Missing(p, temp, u);
    var n := NewRows(p, defaults, m);
    var i := Insert(p, defaults, u, temp);
    var r := Sync(st, p, defaults, target, temp, allowDeletion).target;
    assert m[0] in m && n[0] in i;
    NewRowSettled(st, p, defaults, m[0], temp);
    NewRowKey(p, defaults, m[0]);
    ApartKeys(n[0], m[0], m[0], p.keys);
    assert HasKey(temp, n[0], p.keys);
    UpdateProper(st, p, target, temp);
    InsertProper(p, defaults, u, temp);
    DeleteKeeps(p, i, temp, n[0]);
    assert n[0] in r;
    CountUpdatedBound(st, p, r, temp);
  }

  /** Sync idempotence, exactly: a second run with the same source reports 0 updated, 0 created,
      0 deleted and changes nothing if and only if every temp row had a partner in the target to
      begin with or every column that is updated but not inserted defaults to NULL. */
  lemma SyncIdempotent(st: PostGis, p: Plan, defaults: Row, target: Table, temp: Table, allowDeletion: bool)
    requires ReflexiveEquals(st) && PlanShape(p) && TempShape(p, temp)
    requires ProperKeys(target, p.keys) && ProperKeys(temp, p.keys)
    ensures var first := Sync(st, p, defaults, target, temp, allowDeletion);
            var second := Sync(st, p, defaults, first.target, temp, allowDeletion);
            second == Synced(first.target, Stats(0, 0, 0))
            <==> ((forall s | s in temp :: HasKey(target, s, p.keys)) || QuietDefaults(p, defaults))
  {
    var u := Update(st, p, target, temp);
    var m := Missing(p, temp, u);
    var i := Insert(p, defaults, u, temp);
    var r := Sync(st, p, defaults, target, temp, allowDeletion).target;
    StatsMeaning(st, p, defaults, target, temp, allowDeletion);
    CountAbsentZero(temp, target, p.keys);
    if m != [] && !QuietDefaults(p, defaults) {
      RestlessRow(st, p, defaults, target, temp, allowDeletion);
    } else {
      forall q | q in r ensures !IsUpdated(st, p, q, temp) { ResultRow(st, p, defaults, target, temp, q); }
      SecondRun(st, p, defaults, target, temp, allowDeletion);
    }
  }

  lemma SecondRun(st: PostGis, p: Plan, defaults: Row, target: Table, temp: Table, allowDeletion: bool)
    requires PlanShape(p) && ProperKeys(target, p.keys) && ProperKeys(temp, p.keys)
    requires var r := Sync(st, p, defaults, target, temp, allowDeletion).target;
             forall q | q in r :: !IsUpdated(st, p, q, temp)
    ensures var r := Sync(st, p, defaults, target, temp, allowDeletion).target;
            Sync(st, p, defaults, r, temp, allowDeletion) == Synced(r, Stats(0, 0, 0))
  {
    var r := Sync(st, p, defaults, target, temp, allowDeletion).target;
    SyncCorrect(st, p, defaults, target, temp, allowDeletion);
    NothingMissing(p, temp, r);
    if allowDeletion {
      NonNullRows(r, p.keys);
      NonNullRows(temp, p.keys);
      forall q | q in r ensures NotIn(q, temp, p.keys) != True { NotInNonNull(q, temp, p.keys); }
    }
    NothingToDo(st, p, defaults, r, temp, allowDeletion);
  }

  lemma NothingToDo(st: PostGis, p: Plan, defaults: Row, r: Table, temp: Table, allowDeletion: bool)
    requires (forall q | q in r :: !IsUpdated(st, p, q, temp)) && Missing(p, temp, r) == []
    requires allowDeletion ==> forall q | q in r :: NotIn(q, temp, p.keys) != True
    ensures Sync(st, p, defaults, r, temp, allowDeletion) == Synced(r, Stats(0, 0, 0))
  {
    NothingToUpdate(st, p, r, temp);
    CountUpdatedBound(st, p, r, temp);
    assert Insert(p, defaults, r, temp) == r + [] == r;
    if allowDeletion {
      NothingToDelete(p, r, temp);
      DeleteCount(p, r, temp);
    }
  }

  /** What is left to differ: for every row and its partner, no column that both statements write,
      geometries included, would still count as different. */
  lemma SyncSettled(st: PostGis, p: Plan, defaults: Row, target: Table, temp: Table, allowDeletion: bool,
                    q: Row, s: Row, c: Column)
    requires ReflexiveEquals(st) && PlanShape(p) && ProperKeys(temp, p.keys)
    requires q in Sync(st, p, defaults, target, temp, allowDeletion).target && s in temp && SameKey(q, s, p.keys)
    requires c in p.updateColumns && c in p.insertColumns
    ensures Differs(st, p, q, s, c) != True
  {
    var u := Update(st, p, target, temp);
    var m := Missing(p, temp, u);
    var n := NewRows(p, defaults, m);
    assert q in u + n;
    if q in u {
      var i :| 0 <= i < |u| && u[i] == q;
      UpdatedRowSettled(st, p, target[i], temp, s);
      AnyDiffersTrue(st, p, q, s, p.updateColumns);
    } else {
      var i :| 0 <= i < |n| && n[i] == q;
      assert m[i] in m;
      NewRowKey(p, defaults, m[i]);
      ApartKeys(q, m[i], s, p.keys);
      SameRow(temp, m[i], s, p.keys);
      EqualCellsDoNotDiffer(st, p, q, s, c);
    }
  }

  // ---- a pull that is not quiet when repeated ----

  const RESTLESS: Plan := Plan(["id"], ["note"], ["id"], {})
  const NOTE_DEFAULT: Row := map["note" := Text("new")]
  const ONE_FEATURE: Table := [map["id" := Text("1")]]

  /** One key, one column that the source lacks and the table gives a default: pulled into an empty
      table, the row gets its default, and the same pull again finds it different from NULL. */
  lemma RepeatedPullUpdates(st: PostGis)
    requires ReflexiveEquals(st)
    ensures var first := Sync(st, RESTLESS, NOTE_DEFAULT, [], ONE_FEATURE, true);
            var second := Sync(st, RESTLESS, NOTE_DEFAULT, first.target, ONE_FEATURE, true);
            first.stats == Stats(0, 1, 0) && second.stats == Stats(1, 0, 0)
  {
    var first := Sync(st, RESTLESS, NOTE_DEFAULT, [], ONE_FEATURE, true);
    RestlessShape();
    StatsMeaning(st, RESTLESS, NOTE_DEFAULT, [], ONE_FEATURE, true);
    StatsBalance(st, RESTLESS, NOTE_DEFAULT, [], ONE_FEATURE, true);
    SyncCorrect(st, RESTLESS, NOTE_DEFAULT, [], ONE_FEATURE, true);
    RestlessRow(st, RESTLESS, NOTE_DEFAULT, [], ONE_FEATURE, true);
    CountUpdatedBound(st, RESTLESS, first.target, ONE_FEATURE);
    StatsMeaning(st, RESTLESS, NOTE_DEFAULT, first.target, ONE_FEATURE, true);
    CountAbsentZero(ONE_FEATURE, first.target, RESTLESS.keys);
    CountAbsentZero(first.target, ONE_FEATURE, RESTLESS.keys);
  }

  lemma {:induction false} RestlessShape()
    ensures PlanShape(RESTLESS) && TempShape(RESTLESS, ONE_FEATURE) && !QuietDefaults(RESTLESS, NOTE_DEFAULT)
    ensures ProperKeys([], RESTLESS.keys) && ProperKeys(ONE_FEATURE, RESTLESS.keys) && RESTLESS.keys != []
    ensures CountAbsent(ONE_FEATURE, [], RESTLESS.keys) == 1 && CountAbsent([], ONE_FEATURE, RESTLESS.keys) == 0
  {
    assert "note" in RESTLESS.updateColumns;
  }
}
