/** How Worker::pull sorts the columns of the target table before it reads the source
    (src/server/worker.cpp), and how a feature becomes a row of the temp table. */
module PullPlan {
  import opened Sequences
  import opened Sql

  datatype Field = Field(name: Column, isPrimaryKey: bool, isGeometry: bool)

  /** The source: its lower-cased field names and its id column. */
  datatype SourceColumns = SourceColumns(fields: set<Column>, fid: Column)

  predicate InSource(c: Column, source: SourceColumns) { c in source.fields || source.fid == c }

  datatype PlanError = MultipleGeometries | UnknownKeyColumn | NoPrimaryKey | SourceMissesKey
  datatype PlanResult = Planned(plan: Plan) | Refused(error: PlanError)

  // ---- what the classification has to come to ----

  function Names(fields: seq<Field>): seq<Column> {
    if fields == [] then [] else Names(Most(fields)) + [Last(fields).name]
  }

  function KeyNames(fields: seq<Field>): seq<Column> {
    if fields == [] then []
    else KeyNames(Most(fields)) + if Last(fields).isPrimaryKey then [Last(fields).name] else []
  }

  function UpdateNames(fields: seq<Field>): seq<Column> {
    if fields == [] then []
    else UpdateNames(Most(fields)) + if Last(fields).isPrimaryKey then [] else [Last(fields).name]
  }

  /** A geometry column is listed once for itself and once more if the source has a field of
      its name. */
  function InsertNames(fields: seq<Field>, source: SourceColumns): seq<Column> {
    if fields == [] then []
    else InsertNames(Most(fields), source)
         + (if Last(fields).isGeometry then [Last(fields).name] else [])
         + (if InSource(Last(fields).name, source) then [Last(fields).name] else [])
  }

  function GeometryNames(fields: seq<Field>): seq<Column> {
    if fields == [] then []
    else GeometryNames(Most(fields)) + if Last(fields).isGeometry then [Last(fields).name] else []
  }

  function ChosenKeys(fields: seq<Field>, configured: seq<Column>): seq<Column> {
    if configured != [] then configured else KeyNames(fields)
  }

  function ColumnSet(cols: seq<Column>): set<Column> { set c | c in cols }

  /** The first requirement that fails, in the order they are tested. */
  function PlanSpec(fields: seq<Field>, source: SourceColumns, configured: seq<Column>): PlanResult {
    if |GeometryNames(fields)| > 1 then Refused(MultipleGeometries)
    else if exists k | k in configured :: k !in Names(fields) then Refused(UnknownKeyColumn)
    else
      var keys := ChosenKeys(fields, configured);
      if keys == [] then Refused(NoPrimaryKey)
      else if exists k | k in keys :: !InSource(k, source) then Refused(SourceMissesKey)
      else Planned(Plan(keys, UpdateNames(fields), InsertNames(fields, source), ColumnSet(GeometryNames(fields))))
  }

  // ---- what a plan guarantees ----

  lemma {:induction false} KeyNamesAreNames(fields: seq<Field>)
    ensures forall k | k in KeyNames(fields) :: k in Names(fields)
  {
    if fields != [] { KeyNamesAreNames(Most(fields)); }
  }

  lemma {:induction false} InsertHas(fields: seq<Field>, source: SourceColumns, c: Column)
    ensures c in Names(fields) && InSource(c, source) ==> c in InsertNames(fields, source)
    ensures c in GeometryNames(fields) ==> c in InsertNames(fields, source)
  {
    if fields != [] { InsertHas(Most(fields), source, c); }
  }

  /** Every accepted plan has a key, and inserts its key columns and its geometry. */
  lemma PlanGuarantee(fields: seq<Field>, source: SourceColumns, configured: seq<Column>)
    requires PlanSpec(fields, source, configured).Planned?
    ensures var p := PlanSpec(fields, source, configured).plan;
            && p.keys != []
            && (forall k | k in p.keys :: k in p.insertColumns && k in Names(fields))
            && (forall c | c in p.geometry :: c in p.insertColumns)
  {
    var p := PlanSpec(fields, source, configured).plan;
    KeyNamesAreNames(fields);
    forall k | k in p.keys ensures k in p.insertColumns && k in Names(fields) {
      InsertHas(fields, source, k);
    }
    forall c | c in p.geometry ensures c in p.insertColumns { InsertHas(fields, source, c); }
  }

  // ---- what a plan is ----

  lemma {:induction false} KeysMean(fields: seq<Field>, c: Column)
    ensures c in KeyNames(fields) <==> exists f | f in fields :: f.isPrimaryKey && f.name == c
    ensures c in UpdateNames(fields) <==> exists f | f in fields :: !f.isPrimaryKey && f.name == c
    ensures c in Names(fields) <==> exists f | f in fields :: f.name == c
  {
    if fields != [] {
      KeysMean(Most(fields), c);
      FieldsSplit(fields);
    }
  }

  lemma {:induction false} GeometryMeans(fields: seq<Field>, source: SourceColumns, c: Column)
    ensures c in GeometryNames(fields) <==> exists f | f in fields :: f.isGeometry && f.name == c
    ensures c in InsertNames(fields, source) <==>
            exists f | f in fields :: f.name == c && (f.isGeometry || c in source.fields || c == source.fid)
  {
    if fields != [] {
      GeometryMeans(Most(fields), source, c);
      FieldsSplit(fields);
    }
  }

  lemma FieldsSplit(fields: seq<Field>)
    requires fields != []
    ensures fields == Most(fields) + [Last(fields)]
    ensures forall f :: f in fields <==> f in Most(fields) || f == Last(fields)
  {
    assert fields == Most(fields) + [Last(fields)];
  }

  lemma {:induction false} GeometryCount(fields: seq<Field>)
    ensures |GeometryNames(fields)| > 1 <==> exists i, j | 0 <= i < j < |fields| :: fields[i].isGeometry && fields[j].isGeometry
    ensures |GeometryNames(fields)| > 0 <==> exists i | 0 <= i < |fields| :: fields[i].isGeometry
  {
    if fields != [] {
      var front, n := Most(fields), |fields| - 1;
      GeometryCount(front);
      if |GeometryNames(front)| > 1 {
        var i, j :| 0 <= i < j < n && front[i].isGeometry && front[j].isGeometry;
        assert fields[i].isGeometry && fields[j].isGeometry;
      }
      if |GeometryNames(front)| > 0 {
        var i :| 0 <= i < n && front[i].isGeometry;
        assert fields[i].isGeometry;
        if fields[n].isGeometry { assert fields[i].isGeometry && fields[n].isGeometry; }
      }
      if i, j :| 0 <= i < j < |fields| && fields[i].isGeometry && fields[j].isGeometry {
        assert front[i].isGeometry;
        if j < n { assert front[j].isGeometry; }
      }
      if i :| 0 <= i < |fields| && fields[i].isGeometry && i < n { assert front[i].isGeometry; }
    }
  }

  /** An accepted plan, from the table and the configuration: configured keys replace the primary
      key, which otherwise is the key; every other column is updated; the geometry and what the
      source has is inserted. */
  lemma PlanMeans(fields: seq<Field>, source: SourceColumns, configured: seq<Column>, c: Column)
    requires PlanSpec(fields, source, configured).Planned?
    ensures var p := PlanSpec(fields, source, configured).plan;
            && (configured != [] ==> p.keys == configured)
            && (configured == [] ==> (c in p.keys <==> exists f | f in fields :: f.isPrimaryKey && f.name == c))
            && (c in p.updateColumns <==> exists f | f in fields :: !f.isPrimaryKey && f.name == c)
            && (c in p.geometry <==> exists f | f in fields :: f.isGeometry && f.name == c)
            && (c in p.insertColumns <==>
                exists f | f in fields :: f.name == c && (f.isGeometry || c in source.fields || c == source.fid))
  {
    KeysMean(fields, c);
    GeometryMeans(fields, source, c);
  }

  predicate TwoGeometries(fields: seq<Field>) {
    exists i, j | 0 <= i < j < |fields| :: fields[i].isGeometry && fields[j].isGeometry
  }

  predicate UnknownKey(fields: seq<Field>, configured: seq<Column>) {
    exists k | k in configured :: forall f | f in fields :: f.name != k
  }

  predicate NoKey(fields: seq<Field>, configured: seq<Column>) {
    configured == [] && forall f | f in fields :: !f.isPrimaryKey
  }

  predicate KeyNotInSource(fields: seq<Field>, source: SourceColumns, configured: seq<Column>) {
    if configured != [] then exists k | k in configured :: k !in source.fields && k != source.fid
    else exists f | f in fields :: f.isPrimaryKey && f.name !in source.fields && f.name != source.fid
  }

  lemma UnknownKeyMeans(fields: seq<Field>, configured: seq<Column>)
    ensures UnknownKey(fields, configured) <==> exists k | k in configured :: k !in Names(fields)
  {
    if UnknownKey(fields, configured) {
      var k :| k in configured && forall f | f in fields :: f.name != k;
      KeysMean(fields, k);
    }
    if k :| k in configured && k !in Names(fields) { KeysMean(fields, k); }
  }

  lemma NoKeyMeans(fields: seq<Field>, configured: seq<Column>)
    ensures NoKey(fields, configured) <==> ChosenKeys(fields, configured) == []
  {
    forall f | f in fields && f.isPrimaryKey ensures f.name in KeyNames(fields) { KeysMean(fields, f.name); }
    if KeyNames(fields) != [] { KeysMean(fields, KeyNames(fields)[0]); }
  }

  lemma KeyNotInSourceMeans(fields: seq<Field>, source: SourceColumns, configured: seq<Column>)
    ensures KeyNotInSource(fields, source, configured)
       <==> exists k | k in ChosenKeys(fields, configured) :: !InSource(k, source)
  {
    if configured == [] {
      if KeyNotInSource(fields, source, configured) {
        var f :| f in fields && f.isPrimaryKey && f.name !in source.fields && f.name != source.fid;
        KeysMean(fields, f.name);
      }
      if k :| k in KeyNames(fields) && !InSource(k, source) { KeysMean(fields, k); }
    } else {
      if k :| k in configured && k !in source.fields && k != source.fid { assert !InSource(k, source); }
    }
  }

  /** Which layers are refused, and for which reason first. */
  lemma PlanRefused(fields: seq<Field>, source: SourceColumns, configured: seq<Column>)
    ensures PlanSpec(fields, source, configured) == Refused(MultipleGeometries) <==> TwoGeometries(fields)
    ensures PlanSpec(fields, source, configured) == Refused(UnknownKeyColumn)
       <==> !TwoGeometries(fields) && UnknownKey(fields, configured)
    ensures PlanSpec(fields, source, configured) == Refused(NoPrimaryKey)
       <==> !TwoGeometries(fields) && NoKey(fields, configured)
    ensures PlanSpec(fields, source, configured) == Refused(SourceMissesKey)
       <==> !TwoGeometries(fields) && !UnknownKey(fields, configured) && KeyNotInSource(fields, source, configured)
  {
    GeometryCount(fields);
    UnknownKeyMeans(fields, configured);
    NoKeyMeans(fields, configured);
    KeyNotInSourceMeans(fields, source, configured);
  }

  // ---- the loops ----

  lemma Prefix<T>(xs: seq<T>, i: nat)
    requires i < |xs|
    ensures xs[..i + 1] != [] && Most(xs[..i + 1]) == xs[..i] && Last(xs[..i + 1]) == xs[i]
  {
  }

  lemma {:induction false} GeometryGrows(fields: seq<Field>, k: nat)
    requires k <= |fields|
    ensures |GeometryNames(fields[..k])| <= |GeometryNames(fields)|
    decreases |fields| - k
  {
    if k < |fields| {
      Prefix(fields, k);
      GeometryGrows(fields, k + 1);
    } else {
      assert fields[..k] == fields;
    }
  }

  /** The first loop over the table fields. */
  method SortColumns(fields: seq<Field>, source: SourceColumns)
    returns (ok: bool, keys: seq<Column>, update: seq<Column>, insert: seq<Column>, geometry: seq<Column>)
    ensures ok <==> |GeometryNames(fields)| <= 1
    ensures ok ==> keys == KeyNames(fields) && update == UpdateNames(fields)
                   && insert == InsertNames(fields, source) && geometry == GeometryNames(fields)
  {
    keys, update, insert, geometry := [], [], [], [];
    var i := 0;
    while i < |fields|
      invariant 0 <= i <= |fields|
      invariant keys == KeyNames(fields[..i]) && update == UpdateNames(fields[..i])
      invariant insert == InsertNames(fields[..i], source)
      invariant geometry == GeometryNames(fields[..i]) && |geometry| <= 1
    {
      var f := fields[i];
      Prefix(fields, i);
      if f.isPrimaryKey { keys := keys + [f.name]; } else { update := update + [f.name]; }
      if f.isGeometry {
        if geometry != [] {
          GeometryGrows(fields, i + 1);
          return false, keys, update, insert, geometry;
        }
        geometry := [f.name];
        insert := insert + [f.name];
      }
      if InSource(f.name, source) { insert := insert + [f.name]; }
      i := i + 1;
    }
    assert fields[..|fields|] == fields;
    ok := true;
  }

  method AllKnown(cols: seq<Column>, known: seq<Column>) returns (ok: bool)
    ensures ok <==> forall c | c in cols :: c in known
  {
    var i := 0;
    while i < |cols|
      invariant 0 <= i <= |cols| && forall j | 0 <= j < i :: cols[j] in known
    {
      if cols[i] !in known { return false; }
      i := i + 1;
    }
    ok := true;
  }

  method MissingInSource(keys: seq<Column>, source: SourceColumns) returns (missing: seq<Column>)
    ensures missing == [] <==> forall k | k in keys :: InSource(k, source)
  {
    missing := [];
    var i := 0;
    while i < |keys|
      invariant 0 <= i <= |keys|
      invariant missing == [] <==> forall j | 0 <= j < i :: InSource(keys[j], source)
    {
      if !InSource(keys[i], source) { missing := missing + [keys[i]]; }
      i := i + 1;
    }
  }

  method MakePlan(fields: seq<Field>, source: SourceColumns, configured: seq<Column>) returns (r: PlanResult)
    ensures r == PlanSpec(fields, source, configured)
  {
    var ok, keys, update, insert, geometry := SortColumns(fields, source);
    if !ok { return Refused(MultipleGeometries); }
    if configured != [] {
      var known := AllKnown(configured, Names(fields));
      if !known { return Refused(UnknownKeyColumn); }
      keys := configured;
    }
    if keys == [] { return Refused(NoPrimaryKey); }
    var missing := MissingInSource(keys, source);
    if missing != [] { return Refused(SourceMissesKey); }
    r := Planned(Plan(keys, update, insert, ColumnSet(geometry)));
  }

  // ---- features ----

  /** A source feature; converting a column in broken raises a WorkerError. */
  datatype Feature = Feature(values: Row, broken: set<Column>)

  predicate Convertible(f: Feature, cols: seq<Column>) { forall c | c in cols :: c !in f.broken }

  /** Placeholder i of the prepared insert belongs to column i. */
  function Bind(cols: seq<Column>, values: seq<Cell>): Row
    requires |cols| == |values|
  {
    if cols == [] then map[] else Bind(cols[1..], values[1..])[cols[0] := values[0]]
  }

  /** The temp row a feature should become: its values in the inserted columns, NULL elsewhere. */
  function TempRow(f: Feature, cols: seq<Column>): Row {
    map c | c in ColumnSet(cols) :: Get(f.values, c)
  }

  lemma {:induction false} BindRow(cols: seq<Column>, values: seq<Cell>, f: Feature)
    requires |cols| == |values| && forall i | 0 <= i < |cols| :: values[i] == Get(f.values, cols[i])
    ensures Bind(cols, values) == TempRow(f, cols)
  {
    if cols != [] {
      BindRow(cols[1..], values[1..], f);
      assert ColumnSet(cols) == ColumnSet(cols[1..]) + {cols[0]};
    }
  }

  /** The loop that collects the parameters of one feature, in column order. */
  method Convert(f: Feature, cols: seq<Column>) returns (ok: bool, row: Row)
    ensures ok <==> Convertible(f, cols)
    ensures ok ==> row == TempRow(f, cols)
  {
    var values: seq<Cell> := [];
    var i := 0;
    row := map[];
    while i < |cols|
      invariant 0 <= i <= |cols| && |values| == i
      invariant forall j | 0 <= j < i :: cols[j] !in f.broken && values[j] == Get(f.values, cols[j])
    {
      if cols[i] in f.broken { return false, row; }
      values := values + [Get(f.values, cols[i])];
      i := i + 1;
    }
    BindRow(cols, values, f);
    row := Bind(cols, values);
    ok := true;
  }

  function TempRows(fs: seq<Feature>, cols: seq<Column>): (t: Table)
    ensures |t| == |fs|
  {
    if fs == [] then [] else TempRows(Most(fs), cols) + [TempRow(Last(fs), cols)]
  }
}
