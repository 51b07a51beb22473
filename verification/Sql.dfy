/** As much of SQL as the synchronisation uses: nullable cells, rows, three-valued comparison
    (section 8.4 of SQL-92 for NOT IN), and the UPDATE, INSERT and DELETE statements that
    Worker::pull generates (src/server/worker.cpp). */
module Sql {

  type Column = string
  type Geometry = string   // the binary representation

  datatype Cell = Null | Text(v: string) | Geom(g: Geometry)

  type Row = map<Column, Cell>
  type Table = seq<Row>

  /** A column a row does not mention is NULL. */
  function Get(r: Row, c: Column): Cell { if c in r then r[c] else Null }

  // ---- three-valued logic ----

  datatype Truth = True | False | Unknown

  function Not(a: Truth): Truth { match a case True => False case False => True case Unknown => Unknown }

  function And(a: Truth, b: Truth): Truth {
    if a == False || b == False then False else if a == True && b == True then True else Unknown
  }

  function Or(a: Truth, b: Truth): Truth { Not(And(Not(a), Not(b))) }

  function Is(b: bool): Truth { if b then True else False }

  /** a = b */
  function EqualCells(a: Cell, b: Cell): Truth {
    if a == Null || b == Null then Unknown else Is(a == b)
  }

  /** (k1, ..., kn) = (k1', ..., kn') */
  function KeyEqual(a: Row, b: Row, keys: seq<Column>): Truth {
    if keys == [] then True
    else And(EqualCells(Get(a, keys[0]), Get(b, keys[0])), KeyEqual(a, b, keys[1..]))
  }

  /** (k1, ..., kn) not in (select k1, ..., kn from t) */
  function NotIn(r: Row, t: Table, keys: seq<Column>): Truth {
    if t == [] then True else And(Not(KeyEqual(r, t[0], keys)), NotIn(r, t[1..], keys))
  }

  /** k1 is not distinct from k1' and ... */
  predicate SameKey(a: Row, b: Row, keys: seq<Column>) {
    forall k | k in keys :: Get(a, k) == Get(b, k)
  }

  // ---- PostGIS ----

  /** st_srid, st_iscollection (or its spelling before PostGIS 2.0) and st_equals. */
  datatype PostGis = PostGis(srid: Geometry -> int, isCollection: Geometry -> bool,
                             equals: (Geometry, Geometry) -> bool)

  function SridsDiffer(st: PostGis, a: Cell, b: Cell): Truth {
    if a.Geom? && b.Geom? then Is(st.srid(a.g) != st.srid(b.g)) else Unknown
  }

  function IsCollection(st: PostGis, a: Cell): Truth {
    if a.Geom? then Is(st.isCollection(a.g)) else Unknown
  }

  function StEquals(st: PostGis, a: Cell, b: Cell): Truth {
    if a.Geom? && b.Geom? then Is(st.equals(a.g, b.g)) else Unknown
  }

  /** The case expression that decides whether a geometry has to be written. */
  function GeometryDiffers(st: PostGis, target: Cell, temp: Cell): Truth {
    if Or(Or(SridsDiffer(st, target, temp), IsCollection(st, target)), IsCollection(st, temp)) == True
    then Is(target != temp)
    else Not(StEquals(st, target, temp))
  }

  // ---- the generated statements ----

  /** What pull derives from the table and the source before it touches the target. */
  datatype Plan = Plan(keys: seq<Column>, updateColumns: seq<Column>, insertColumns: seq<Column>,
                       geometry: set<Column>)

  function Differs(st: PostGis, p: Plan, target: Row, temp: Row, c: Column): Truth {
    if c in p.geometry then GeometryDiffers(st, Get(target, c), Get(temp, c))
    else Is(Get(target, c) != Get(temp, c))
  }

  /** differs(c1) or ... or differs(cn) */
  function AnyDiffers(st: PostGis, p: Plan, target: Row, temp: Row, cols: seq<Column>): Truth {
    if cols == [] then False
    else Or(Differs(st, p, target, temp, cols[0]), AnyDiffers(st, p, target, temp, cols[1..]))
  }

  /** The WHERE clause of the UPDATE. */
  predicate UpdateWhere(st: PostGis, p: Plan, target: Row, temp: Row) {
    SameKey(target, temp, p.keys) && AnyDiffers(st, p, target, temp, p.updateColumns) == True
  }

  /** set c1 = temp.c1, ..., cn = temp.cn */
  function SetColumns(target: Row, temp: Row, cols: seq<Column>): (r: Row)
    ensures forall c :: Get(r, c) == if c in cols then Get(temp, c) else Get(target, c)
  {
    if cols == [] then target
    else SetColumns(target, temp, cols[1..])[cols[0] := Get(temp, cols[0])]
  }

  /** One target row through UPDATE ... FROM temp. With several matching temp rows SQL leaves
      open which one is used; here it is the first. */
  function UpdateRow(st: PostGis, p: Plan, target: Row, temp: Table): Row {
    if temp == [] then target
    else if UpdateWhere(st, p, target, temp[0]) then SetColumns(target, temp[0], p.updateColumns)
    else UpdateRow(st, p, target, temp[1..])
  }

  predicate IsUpdated(st: PostGis, p: Plan, target: Row, temp: Table) {
    exists s | s in temp :: UpdateWhere(st, p, target, s)
  }

  function Update(st: PostGis, p: Plan, target: Table, temp: Table): (r: Table)
    ensures |r| == |target|
    ensures forall i | 0 <= i < |target| :: r[i] == UpdateRow(st, p, target[i], temp)
  {
    if target == [] then []
    else [UpdateRow(st, p, target[0], temp)] + Update(st, p, target[1..], temp)
  }

  function CountUpdated(st: PostGis, p: Plan, target: Table, temp: Table): nat {
    if target == [] then 0
    else (if IsUpdated(st, p, target[0], temp) then 1 else 0) + CountUpdated(st, p, target[1..], temp)
  }

  /** A row INSERT creates: the listed columns from temp, the others from their defaults. */
  function NewRow(p: Plan, defaults: Row, temp: Row): Row {
    SetColumns(defaults, temp, p.insertColumns)
  }

  /** The rows of temp whose key is, for certain, not in the target. */
  function Missing(p: Plan, temp: Table, target: Table): (r: Table)
    ensures forall s | s in r :: s in temp && NotIn(s, target, p.keys) == True
    ensures forall s | s in temp && NotIn(s, target, p.keys) == True :: s in r
  {
    if temp == [] then []
    else (if NotIn(temp[0], target, p.keys) == True then [temp[0]] else []) + Missing(p, temp[1..], target)
  }

  function NewRows(p: Plan, defaults: Row, temp: Table): (r: Table)
    ensures |r| == |temp| && forall i | 0 <= i < |temp| :: r[i] == NewRow(p, defaults, temp[i])
  {
    if temp == [] then [] else [NewRow(p, defaults, temp[0])] + NewRows(p, defaults, temp[1..])
  }

  function Insert(p: Plan, defaults: Row, target: Table, temp: Table): Table {
    target + NewRows(p, defaults, Missing(p, temp, target))
  }

  /** DELETE leaves the rows whose key may be in temp. */
  function Delete(p: Plan, target: Table, temp: Table): (r: Table)
    ensures |r| <= |target|
    ensures forall t | t in r :: t in target && NotIn(t, temp, p.keys) != True
    ensures forall t | t in target && NotIn(t, temp, p.keys) != True :: t in r
  {
    if target == [] then []
    else (if NotIn(target[0], temp, p.keys) == True then [] else [target[0]]) + Delete(p, target[1..], temp)
  }

  /** The rows DELETE touches: those whose key is, for certain, not in temp. */
  function CountDeleted(p: Plan, target: Table, temp: Table): nat {
    if target == [] then 0
    else (if NotIn(target[0], temp, p.keys) == True then 1 else 0) + CountDeleted(p, target[1..], temp)
  }

  /** Rows touched, as each statement reports them. */
  datatype Stats = Stats(updated: nat, created: nat, deleted: nat)
  datatype Synced = Synced(target: Table, stats: Stats)

  /** The default mode: UPDATE, INSERT and, where allowed, DELETE. */
  function Sync(st: PostGis, p: Plan, defaults: Row, target: Table, temp: Table, allowDeletion: bool): Synced {
    var updated := Update(st, p, target, temp);
    var inserted := Insert(p, defaults, updated, temp);
    var final := if allowDeletion then Delete(p, inserted, temp) else inserted;
    Synced(final, Stats(CountUpdated(st, p, target, temp), |Missing(p, temp, updated)|,
                        if allowDeletion then CountDeleted(p, inserted, temp) else 0))
  }

  /** Rows whose first key column is not NULL: what count(k) counts. */
  function CountNonNull(t: Table, c: Column): nat {
    if t == [] then 0 else (if Get(t[0], c) != Null then 1 else 0) + CountNonNull(t[1..], c)
  }

  /** The bulk mode: everything goes, everything comes. */
  function Bulk(p: Plan, defaults: Row, target: Table, temp: Table, truncate: bool): Synced
    requires p.keys != []
  {
    Synced(NewRows(p, defaults, temp),
           Stats(0, |temp|, if truncate then CountNonNull(target, p.keys[0]) else |target|))
  }
}
