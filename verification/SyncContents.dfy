/** What a synchronisation leaves in the table, row by row and column by column, said without the
    statements that do it. */
module SyncContents {
  import opened Sql
  import opened SyncTheorems

  // ---- when two rows differ ----

  /** The comparison of two geometry cells: by binary form if the reference systems differ or a
      collection is involved, spatially otherwise; against anything but a geometry only a collection
      counts. */
  predicate GeometryToWrite(st: PostGis, target: Cell, temp: Cell) {
    if target.Geom? && temp.Geom? then
      if st.srid(target.g) != st.srid(temp.g) || st.isCollection(target.g) || st.isCollection(temp.g)
      then target.g != temp.g
      else !st.equals(target.g, temp.g)
    else (target.Geom? && st.isCollection(target.g)) || (temp.Geom? && st.isCollection(temp.g))
  }

  predicate CellToWrite(st: PostGis, p: Plan, t: Row, s: Row, c: Column) {
    if c in p.geometry then GeometryToWrite(st, Get(t, c), Get(s, c)) else Get(t, c) != Get(s, c)
  }

  /** Some column that UPDATE writes has to be written. */
  predicate RowToWrite(st: PostGis, p: Plan, t: Row, s: Row) {
    exists c | c in p.updateColumns :: CellToWrite(st, p, t, s, c)
  }

  lemma DiffersMeans(st: PostGis, p: Plan, t: Row, s: Row, c: Column)
    ensures Differs(st, p, t, s, c) == True <==> CellToWrite(st, p, t, s, c)
  {
  }

  lemma UpdateWhereMeans(st: PostGis, p: Plan, t: Row, s: Row)
    ensures UpdateWhere(st, p, t, s) <==> SameKey(t, s, p.keys) && RowToWrite(st, p, t, s)
  {
    AnyDiffersTrue(st, p, t, s, p.updateColumns);
    forall c | c in p.updateColumns ensures Differs(st, p, t, s, c) == True <==> CellToWrite(st, p, t, s, c) {
      DiffersMeans(st, p, t, s, c);
    }
  }

  /** Two geometries x and y in a matched pair: after the update the row holds y exactly if it did
      before, or x and y differ in the sense of their reference systems, of collections or of
      st_equals, or some other column has to be written. */
  lemma GeometryUpdated(st: PostGis, p: Plan, t: Row, temp: Table, i: nat, g: Column, x: Geometry, y: Geometry)
    requires ProperKeys(temp, p.keys) && i < |temp| && SameKey(t, temp[i], p.keys)
    requires g in p.updateColumns && g in p.geometry && Get(t, g) == Geom(x) && Get(temp[i], g) == Geom(y)
    ensures Get(UpdateRow(st, p, t, temp), g) == Geom(y) <==>
            || x == y
            || st.srid(x) != st.srid(y) || st.isCollection(x) || st.isCollection(y)
            || !st.equals(x, y)
            || exists c | c in p.updateColumns && c != g :: CellToWrite(st, p, t, temp[i], c)
  {
    WrittenExactly(st, p, t, temp, i, g);
    UpdateWhereMeans(st, p, t, temp[i]);
    if x != y && (st.srid(x) != st.srid(y) || st.isCollection(x) || st.isCollection(y) || !st.equals(x, y)) {
      assert CellToWrite(st, p, t, temp[i], g);
    }
  }

  // ---- rows ----

  ghost predicate Partnerless(r: Row, t: Table, keys: seq<Column>) { forall q | q in t :: !SameKey(q, r, keys) }

  /** What becomes of a target row t with partner s. */
  ghost predicate PairedRow(st: PostGis, p: Plan, t: Row, s: Row, q: Row) {
    if RowToWrite(st, p, t, s)
    then forall c: Column :: Get(q, c) == if c in p.updateColumns then Get(s, c) else Get(t, c)
    else q == t
  }

  /** What a temp row without partner becomes. */
  ghost predicate CreatedRow(p: Plan, defaults: Row, s: Row, q: Row) {
    forall c: Column :: Get(q, c) == if c in p.insertColumns then Get(s, c) else Get(defaults, c)
  }

  /** The table after a synchronisation, from the tables before it: where every row comes from, and
      that every row is there. */
  ghost predicate SyncedRows(st: PostGis, p: Plan, defaults: Row, before: Table, temp: Table, after: Table, allowDeletion: bool) {
    && (forall q | q in after :: FromBefore(st, p, before, temp, q, allowDeletion) || FromTemp(p, defaults, before, temp, q))
    && (forall t, s | t in before && s in temp && SameKey(t, s, p.keys) :: exists q | q in after :: PairedRow(st, p, t, s, q))
    && (forall s | s in temp && Partnerless(s, before, p.keys) :: exists q | q in after :: CreatedRow(p, defaults, s, q))
    && (!allowDeletion ==> forall t | t in before && Partnerless(t, temp, p.keys) :: t in after)
  }

  ghost predicate FromBefore(st: PostGis, p: Plan, before: Table, temp: Table, q: Row, allowDeletion: bool) {
    || (!allowDeletion && q in before && Partnerless(q, temp, p.keys))
    || (exists t, s | t in before && s in temp :: SameKey(t, s, p.keys) && PairedRow(st, p, t, s, q))
  }

  ghost predicate FromTemp(p: Plan, defaults: Row, before: Table, temp: Table, q: Row) {
    exists s | s in temp :: Partnerless(s, before, p.keys) && CreatedRow(p, defaults, s, q)
  }

  lemma PartnerlessMeans(r: Row, t: Table, keys: seq<Column>)
    ensures Partnerless(r, t, keys) <==> !HasKey(t, r, keys)
  {
  }

  lemma UpdatedRow(st: PostGis, p: Plan, t: Row, temp: Table, s: Row)
    requires ProperKeys(temp, p.keys) && s in temp && SameKey(t, s, p.keys)
    ensures PairedRow(st, p, t, s, UpdateRow(st, p, t, temp))
  {
    var i :| 0 <= i < |temp| && temp[i] == s;
    UpdateRowResult(st, p, t, temp, i);
    UpdateWhereMeans(st, p, t, s);
  }

  lemma UntouchedRow(st: PostGis, p: Plan, t: Row, temp: Table)
    requires Partnerless(t, temp, p.keys)
    ensures UpdateRow(st, p, t, temp) == t
  {
    forall s | s in temp ensures !UpdateWhere(st, p, t, s) {
      assert !SameKey(s, t, p.keys);
      ApartKeys(s, s, t, p.keys);
    }
    UpdateRowUnmatched(st, p, t, temp);
  }

  lemma NewRowMeans(p: Plan, defaults: Row, s: Row)
    ensures CreatedRow(p, defaults, s, NewRow(p, defaults, s))
  {
  }

  lemma OldRowOrigin(st: PostGis, p: Plan, defaults: Row, before: Table, temp: Table, allowDeletion: bool, i: nat)
    requires ProperKeys(before, p.keys) && ProperKeys(temp, p.keys) && i < |before|
    requires allowDeletion ==> HasKey(temp, UpdateRow(st, p, before[i], temp), p.keys)
    ensures FromBefore(st, p, before, temp, UpdateRow(st, p, before[i], temp), allowDeletion)
  {
    var t := before[i];
    var q := UpdateRow(st, p, t, temp);
    UpdateRowKey(st, p, t, temp);
    PartnerOfKey(temp, q, t, p.keys);
    if HasKey(temp, t, p.keys) {
      var s :| s in temp && SameKey(s, t, p.keys);
      ApartKeys(s, s, t, p.keys);
      UpdatedRow(st, p, t, temp, s);
    } else {
      PartnerlessMeans(t, temp, p.keys);
      UntouchedRow(st, p, t, temp);
    }
  }

  /** Where the rows of the result come from. */
  lemma RowOrigin(st: PostGis, p: Plan, defaults: Row, before: Table, temp: Table, allowDeletion: bool, q: Row)
    requires ProperKeys(before, p.keys) && ProperKeys(temp, p.keys) && forall k | k in p.keys :: k in p.insertColumns
    requires q in Sync(st, p, defaults, before, temp, allowDeletion).target
    ensures FromBefore(st, p, before, temp, q, allowDeletion) || FromTemp(p, defaults, before, temp, q)
  {
    var u := Update(st, p, before, temp);
    var m := Missing(p, temp, u);
    var n := NewRows(p, defaults, m);
    SyncCorrect(st, p, defaults, before, temp, allowDeletion);
    assert q in u + n;
    if q in u {
      var i :| 0 <= i < |u| && u[i] == q;
      OldRowOrigin(st, p, defaults, before, temp, allowDeletion, i);
    } else {
      var i :| 0 <= i < |n| && n[i] == q;
      assert m[i] in m;
      NewRowMeans(p, defaults, m[i]);
      MissingPartnerless(st, p, before, temp, m[i]);
    }
  }

  lemma MissingPartnerless(st: PostGis, p: Plan, before: Table, temp: Table, s: Row)
    requires ProperKeys(before, p.keys) && ProperKeys(temp, p.keys) && s in temp
    ensures s in Missing(p, temp, Update(st, p, before, temp)) <==> Partnerless(s, before, p.keys)
  {
    var u := Update(st, p, before, temp);
    UpdateProper(st, p, before, temp);
    NonNullRows(u, p.keys);
    NonNullRows(temp, p.keys);
    NotInNonNull(s, u, p.keys);
    PartnerlessMeans(s, before, p.keys);
  }

  /** A row of UPDATE and INSERT stays if it has a partner. */
  lemma StaysWithPartner(st: PostGis, p: Plan, defaults: Row, before: Table, temp: Table, allowDeletion: bool, q: Row)
    requires ProperKeys(before, p.keys) && ProperKeys(temp, p.keys) && forall k | k in p.keys :: k in p.insertColumns
    requires q in Insert(p, defaults, Update(st, p, before, temp), temp) && (allowDeletion ==> HasKey(temp, q, p.keys))
    ensures q in Sync(st, p, defaults, before, temp, allowDeletion).target
  {
    var u := Update(st, p, before, temp);
    UpdateProper(st, p, before, temp);
    InsertProper(p, defaults, u, temp);
    if allowDeletion { DeleteKeeps(p, Insert(p, defaults, u, temp), temp, q); }
  }

  lemma PairThere(st: PostGis, p: Plan, defaults: Row, before: Table, temp: Table, allowDeletion: bool, t: Row, s: Row)
    requires ProperKeys(before, p.keys) && ProperKeys(temp, p.keys) && forall k | k in p.keys :: k in p.insertColumns
    requires t in before && s in temp && SameKey(t, s, p.keys)
    ensures exists q | q in Sync(st, p, defaults, before, temp, allowDeletion).target :: PairedRow(st, p, t, s, q)
  {
    var i :| 0 <= i < |before| && before[i] == t;
    var u := Update(st, p, before, temp);
    var q := UpdateRow(st, p, t, temp);
    assert u[i] == q && q in u && q in Insert(p, defaults, u, temp);
    UpdatedRow(st, p, t, temp, s);
    UpdateRowKey(st, p, t, temp);
    ApartKeys(q, t, s, p.keys);
    ApartKeys(q, q, s, p.keys);
    assert HasKey(temp, q, p.keys);
    StaysWithPartner(st, p, defaults, before, temp, allowDeletion, q);
  }

  lemma NewThere(st: PostGis, p: Plan, defaults: Row, before: Table, temp: Table, allowDeletion: bool, s: Row)
    requires ProperKeys(before, p.keys) && ProperKeys(temp, p.keys) && forall k | k in p.keys :: k in p.insertColumns
    requires s in temp && Partnerless(s, before, p.keys)
    ensures exists q | q in Sync(st, p, defaults, before, temp, allowDeletion).target :: CreatedRow(p, defaults, s, q)
  {
    var u := Update(st, p, before, temp);
    var m := Missing(p, temp, u);
    var n := NewRows(p, defaults, m);
    MissingPartnerless(st, p, before, temp, s);
    var i :| 0 <= i < |m| && m[i] == s;
    var q := n[i];
    assert q in n && q in u + n;
    NewRowMeans(p, defaults, s);
    NewRowKey(p, defaults, s);
    ApartKeys(q, q, s, p.keys);
    assert HasKey(temp, q, p.keys);
    StaysWithPartner(st, p, defaults, before, temp, allowDeletion, q);
  }

  /** The contents of the table after a default-mode synchronisation, exactly. */
  lemma SyncContents(st: PostGis, p: Plan, defaults: Row, before: Table, temp: Table, allowDeletion: bool)
    requires ProperKeys(before, p.keys) && ProperKeys(temp, p.keys) && forall k | k in p.keys :: k in p.insertColumns
    ensures SyncedRows(st, p, defaults, before, temp, Sync(st, p, defaults, before, temp, allowDeletion).target, allowDeletion)
  {
    var after := Sync(st, p, defaults, before, temp, allowDeletion).target;
    forall q | q in after ensures FromBefore(st, p, before, temp, q, allowDeletion) || FromTemp(p, defaults, before, temp, q) {
      RowOrigin(st, p, defaults, before, temp, allowDeletion, q);
    }
    forall t, s | t in before && s in temp && SameKey(t, s, p.keys) ensures exists q | q in after :: PairedRow(st, p, t, s, q) {
      PairThere(st, p, defaults, before, temp, allowDeletion, t, s);
    }
    forall s | s in temp && Partnerless(s, before, p.keys) ensures exists q | q in after :: CreatedRow(p, defaults, s, q) {
      NewThere(st, p, defaults, before, temp, allowDeletion, s);
    }
    if !allowDeletion {
      forall t | t in before && Partnerless(t, temp, p.keys) ensures t in after {
        PartnerlessMeans(t, temp, p.keys);
        UnmatchedSurvives(st, p, defaults, before, temp, t);
      }
    }
  }

  // ---- counts ----

  /** Rows that are not what they were. */
  function CountChanged(before: Table, after: Table): nat
    requires |before| == |after|
  {
    if before == [] then 0 else (if before[0] != after[0] then 1 else 0) + CountChanged(before[1..], after[1..])
  }

  lemma ChangedExactly(st: PostGis, p: Plan, t: Row, temp: Table)
    requires ReflexiveEquals(st) && ProperKeys(temp, p.keys)
    ensures IsUpdated(st, p, t, temp) <==> UpdateRow(st, p, t, temp) != t
  {
    if IsUpdated(st, p, t, temp) {
      var s :| s in temp && UpdateWhere(st, p, t, s);
      var i :| 0 <= i < |temp| && temp[i] == s;
      UpdateRowResult(st, p, t, temp, i);
      UpdateWhereMeans(st, p, t, s);
      var c :| c in p.updateColumns && CellToWrite(st, p, t, s, c);
      assert Get(UpdateRow(st, p, t, temp), c) == Get(s, c) != Get(t, c);
    } else {
      UpdateRowUnmatched(st, p, t, temp);
    }
  }

  /** The number of updates reported is the number of rows that change. */
  lemma {:induction false} UpdatedCount(st: PostGis, p: Plan, target: Table, temp: Table)
    requires ReflexiveEquals(st) && ProperKeys(temp, p.keys)
    ensures CountUpdated(st, p, target, temp) == CountChanged(target, Update(st, p, target, temp))
  {
    if target != [] {
      ChangedExactly(st, p, target[0], temp);
      UpdatedCount(st, p, target[1..], temp);
    }
  }

  ghost predicate HasRowToWrite(st: PostGis, p: Plan, t: Row, temp: Table) {
    exists s | s in temp :: SameKey(t, s, p.keys) && RowToWrite(st, p, t, s)
  }

  /** Rows that have a partner from which they have to be written. */
  ghost function CountToWrite(st: PostGis, p: Plan, before: Table, temp: Table): nat {
    if before == [] then 0
    else (if HasRowToWrite(st, p, before[0], temp) then 1 else 0) + CountToWrite(st, p, before[1..], temp)
  }

  lemma UpdatedExactly(st: PostGis, p: Plan, t: Row, temp: Table)
    ensures IsUpdated(st, p, t, temp) <==> HasRowToWrite(st, p, t, temp)
  {
    forall s | s in temp ensures UpdateWhere(st, p, t, s) <==> SameKey(t, s, p.keys) && RowToWrite(st, p, t, s) {
      UpdateWhereMeans(st, p, t, s);
    }
  }

  lemma {:induction false} UpdatedToWrite(st: PostGis, p: Plan, target: Table, temp: Table)
    ensures CountUpdated(st, p, target, temp) == CountToWrite(st, p, target, temp)
  {
    if target != [] {
      UpdatedExactly(st, p, target[0], temp);
      UpdatedToWrite(st, p, target[1..], temp);
    }
  }

  /** The three numbers reported, from the tables before. */
  ghost predicate SyncedStats(st: PostGis, p: Plan, before: Table, temp: Table, stats: Stats, allowDeletion: bool) {
    && stats.updated == CountToWrite(st, p, before, temp)
    && stats.created == CountAbsent(temp, before, p.keys)
    && stats.deleted == if allowDeletion then CountAbsent(before, temp, p.keys) else 0
  }

  /** count(c) counts the rows with a value in c. */
  lemma {:induction false} CountNonNullMeans(t: Table, c: Column)
    ensures CountNonNull(t, c) == |set i | 0 <= i < |t| && Get(t[i], c) != Null|
  {
    var all := set i | 0 <= i < |t| && Get(t[i], c) != Null;
    if t == [] {
      assert all == {};
    } else {
      var n := |t| - 1;
      var front := set i | 0 <= i < n && Get(t[..n][i], c) != Null;
      CountNonNullMeans(t[..n], c);
      CountNonNullSnoc(t[..n], t[n], c);
      assert t == t[..n] + [t[n]];
      assert all == if Get(t[n], c) != Null then front + {n} else front;
    }
  }

  lemma {:induction false} CountNonNullSnoc(t: Table, r: Row, c: Column)
    ensures CountNonNull(t + [r], c) == CountNonNull(t, c) + if Get(r, c) != Null then 1 else 0
  {
    if t == [] {
      assert t + [r] == [r] && [r][1..] == [];
    } else {
      assert (t + [r])[0] == t[0] && (t + [r])[1..] == t[1..] + [r];
      CountNonNullSnoc(t[1..], r, c);
    }
  }
}
