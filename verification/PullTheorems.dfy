/** The synchronisation laws, for the plans and temp tables that a pull actually produces. */
module PullTheorems {
  import opened Sequences
  import opened Sql
  import opened SyncTheorems
  import opened SyncContents
  import opened Database
  import opened PullPlan
  import opened Pull

  /** Accepted plans have the shape the laws ask for. */
  lemma AcceptedPlanShape(l: Layer)
    requires PlanOf(l).Planned?
    ensures PlanShape(PlanOf(l).plan) && PlanOf(l).plan.keys != []
  {
    PlanGuarantee(l.fields, l.source, l.configuredKeys);
  }

  /** Loaded rows are NULL outside the inserted columns. */
  lemma {:induction false} LoadedShape(p: Plan, fs: seq<Feature>)
    ensures TempShape(p, TempRows(fs, p.insertColumns))
  {
    if fs != [] { LoadedShape(p, Most(fs)); }
  }

  // ---- which layers can be pulled ----

  lemma {:induction false} InsertedAreNames(fields: seq<Field>, source: SourceColumns)
    ensures forall c | c in InsertNames(fields, source) :: c in Names(fields)
  {
    if fields != [] { InsertedAreNames(Most(fields), source); }
  }

  predicate Clash(f: Field, source: SourceColumns) { f.isGeometry && InSource(f.name, source) }

  lemma NoDuplicatesFront(cols: seq<Column>, more: seq<Column>)
    requires NoDuplicates(cols + more)
    ensures NoDuplicates(cols)
  {
    forall i, j | 0 <= i < j < |cols| ensures cols[i] != cols[j] {
      assert (cols + more)[i] == cols[i] && (cols + more)[j] == cols[j];
    }
  }

  /** A column is listed twice exactly if it is a geometry column of which the source has a field
      of the same name. */
  lemma {:induction false} ListedTwice(fields: seq<Field>, source: SourceColumns)
    requires NoDuplicates(Names(fields))
    ensures NoDuplicates(InsertNames(fields, source)) <==> forall f | f in fields :: !Clash(f, source)
  {
    if fields != [] {
      var front, last := Most(fields), Last(fields);
      var more := (if last.isGeometry then [last.name] else []) + (if InSource(last.name, source) then [last.name] else []);
      NoDuplicatesFront(Names(front), [last.name]);
      ListedTwice(front, source);
      InsertedAreNames(front, source);
      assert fields == front + [last];
      LastName(front, last);
      InsertSplit(fields, source);
      MoreNames(InsertNames(front, source), last.name, more);
      assert Clash(last, source) <==> more == [last.name, last.name];
      assert (forall f | f in fields :: !Clash(f, source)) <==> (forall f | f in front :: !Clash(f, source)) && !Clash(last, source);
    }
  }

  lemma InsertSplit(fields: seq<Field>, source: SourceColumns)
    requires fields != []
    ensures var last := Last(fields);
            InsertNames(fields, source) == InsertNames(Most(fields), source)
              + ((if last.isGeometry then [last.name] else []) + (if InSource(last.name, source) then [last.name] else []))
  {
  }

  lemma LastName(front: seq<Field>, last: Field)
    requires NoDuplicates(Names(front) + [last.name])
    ensures last.name !in Names(front)
  {
    var all := Names(front) + [last.name];
    forall i | 0 <= i < |Names(front)| ensures Names(front)[i] != last.name { assert all[i] != all[|all| - 1]; }
  }

  lemma MoreNames(cols: seq<Column>, c: Column, more: seq<Column>)
    requires c !in cols && (more == [] || more == [c] || more == [c, c])
    ensures NoDuplicates(cols + more) <==> NoDuplicates(cols) && more != [c, c]
  {
    if NoDuplicates(cols + more) { NoDuplicatesFront(cols, more); }
    if more == [c, c] { assert (cols + more)[|cols|] == (cols + more)[|cols| + 1]; }
  }

  lemma {:induction false} NothingToSet(fields: seq<Field>)
    ensures UpdateNames(fields) == [] <==> forall f | f in fields :: f.isPrimaryKey
  {
    if fields != [] {
      NothingToSet(Most(fields));
      assert fields == Most(fields) + [Last(fields)];
    }
  }

  /** When a pull can finish, in terms of the table and the source: besides an accepted plan,
      quotable names and convertible features, no geometry column may share its name with a source
      field, and in default mode the table needs a column outside its primary key. */
  lemma CleanExactly(l: Layer, q: Quoting, fs: seq<Feature>)
    requires NoDuplicates(Names(l.fields))
    ensures Clean(l, q, fs) <==>
            && PlanOf(l).Planned?
            && (forall f | f in l.fields :: !Clash(f, l.source))
            && (l.bulkMode || exists f | f in l.fields :: !f.isPrimaryKey)
            && AllConvertible(fs, PlanOf(l).plan.insertColumns)
            && CanQuote(q, [l.schema, l.table, l.tempTable]) && CanQuote(q, PlanOf(l).plan.insertColumns)
            && (l.bulkMode || CanQuote(q, PlanOf(l).plan.updateColumns))
  {
    ListedTwice(l.fields, l.source);
    NothingToSet(l.fields);
    if PlanOf(l).Planned? { PlanGuarantee(l.fields, l.source, l.configuredKeys); }
  }

  const KEY: Field := Field("id", true, false)
  const SHAPE: Field := Field("geom", false, true)

  /** Layers whose plan is accepted and whose pull fails all the same, whatever the names: a shape
      file with a field "geom" for a table with such a geometry column, and a table of keys. */
  lemma AcceptedButNotClean(q: Quoting, l: Layer)
    requires !l.bulkMode && l.configuredKeys == []
    requires || (l.fields == [KEY, SHAPE] && l.source == SourceColumns({"id", "geom"}, ""))
             || (l.fields == [KEY] && l.source == SourceColumns({"id"}, ""))
    ensures PlanOf(l).Planned? && !Clean(l, q, [])
  {
    OneMoreField([], KEY);
    assert [] + [KEY] == [KEY];
    if l.fields == [KEY, SHAPE] {
      OneMoreField([KEY], SHAPE);
      assert [KEY] + [SHAPE] == l.fields;
      assert SHAPE in l.fields && Clash(SHAPE, l.source);
      ListedTwice(l.fields, l.source);
    }
  }

  lemma OneMoreField(front: seq<Field>, f: Field)
    ensures Names(front + [f]) == Names(front) + [f.name]
    ensures KeyNames(front + [f]) == KeyNames(front) + if f.isPrimaryKey then [f.name] else []
    ensures UpdateNames(front + [f]) == UpdateNames(front) + if f.isPrimaryKey then [] else [f.name]
    ensures GeometryNames(front + [f]) == GeometryNames(front) + if f.isGeometry then [f.name] else []
  {
    assert Most(front + [f]) == front && Last(front + [f]) == f;
  }

  /** The committed target of a finished default-mode pull that ignored nothing: every feature has
      exactly one row, agreeing with it on the plain columns of the source and not differing on its
      geometry; nothing else is left if deletion is allowed and no filter set, and otherwise the
      other rows are exactly the unmatched ones, as they were. */
  ghost predicate InSync(st: PostGis, l: Layer, p: Plan, before: Table, after: Table, temp: Table) {
    && ProperKeys(after, p.keys)
    && (forall s | s in temp :: HasKey(after, s, p.keys))
    && (forall q, s | q in after && s in temp && SameKey(q, s, p.keys) :: Agrees(p, q, s) && (ReflexiveEquals(st) ==> Settled(st, p, q, s)))
    && (if l.allowDeletion && !l.filtered then forall q | q in after :: HasKey(temp, q, p.keys)
        else forall t | t in before && !HasKey(temp, t, p.keys) :: t in after)
    && (forall q | q in after :: HasKey(temp, q, p.keys) || q in before)
  }

  /** No column that both statements write would still count as different. */
  ghost predicate Settled(st: PostGis, p: Plan, q: Row, s: Row) {
    forall c | c in p.updateColumns && c in p.insertColumns :: Differs(st, p, q, s, c) != True
  }

  /** What a feature is in the temp table: its value in every inserted column, NULL in the others. */
  lemma {:induction false} TempRowsMean(fs: seq<Feature>, cols: seq<Column>)
    ensures forall i, c: Column | 0 <= i < |fs| ::
              Get(TempRows(fs, cols)[i], c) == if c in cols then Get(fs[i].values, c) else Null
  {
    if fs != [] { TempRowsMean(Most(fs), cols); }
  }

  /** One pull from the first statement to the commit: failed pulls change nothing, finished ones
      bring the target into agreement with the source, row by row, and report what they did, or were
      rolled back for an ignored feature. */
  method PullOnce(conn: Connection, st: PostGis, l: Layer, features: seq<Feature>, q: Quoting) returns (o: Outcome)
    requires conn.session.status == Idle && conn.session.current == conn.session.committed && !l.bulkMode
    requires PlanOf(l).Planned? ==>
               && ProperKeys(conn.session.committed.target, PlanOf(l).plan.keys)
               && ProperKeys(TempRows(features, PlanOf(l).plan.insertColumns), PlanOf(l).plan.keys)
    modifies conn
    ensures !o.Finished? || o.ignored > 0 ==> conn.session.committed.target == old(conn.session.committed.target)
    ensures o.Finished? && o.ignored == 0 ==>
              && PlanOf(l).Planned?
              && var p := PlanOf(l).plan;
                 var after := conn.session.committed.target;
                 var temp := TempRows(features, p.insertColumns);
                 var allow := l.allowDeletion && !l.filtered;
                 && InSync(st, l, p, old(conn.session.committed.target), after, temp)
                 && SyncedRows(st, p, l.defaults, old(conn.session.committed.target), temp, after, allow)
                 && SyncedStats(st, p, old(conn.session.committed.target), temp, o.stats, allow)
                 && |after| == |old(conn.session.committed.target)| + o.stats.created - o.stats.deleted
    ensures OnlyDataFaults(conn.faults) && Clean(l, q, features) && Tolerated(l, features, conn.faults) ==> o.Finished?
  {
    o := PullJob(conn, st, l, features, q);
    if o.Finished? && o.ignored == 0 {
      ghost var p := PlanOf(l).plan;
      ghost var before := old(conn.session.committed.target);
      ghost var temp := TempRows(features, p.insertColumns);
      ghost var allow := l.allowDeletion && !l.filtered;
      AcceptedPlanShape(l);
      SyncCorrect(st, p, l.defaults, before, temp, allow);
      SyncContents.SyncContents(st, p, l.defaults, before, temp, allow);
      StatsBalance(st, p, l.defaults, before, temp, allow);
      StatsMeaning(st, p, l.defaults, before, temp, allow);
      UpdatedToWrite(st, p, before, temp);
      ghost var after := conn.session.committed.target;
      forall r, s | r in after && s in temp && SameKey(r, s, p.keys) && ReflexiveEquals(st) ensures Settled(st, p, r, s) {
        forall c | c in p.updateColumns && c in p.insertColumns ensures Differs(st, p, r, s, c) != True {
          SyncSettled(st, p, l.defaults, before, temp, allow, r, s, c);
        }
      }
    }
  }

  /** One bulk pull, by DELETE or by TRUNCATE: the committed table holds one row for each feature, in
      order, with the feature's value in every inserted column and the default in the others,
      whatever was there before and whatever the filter and the deletion setting. */
  method PullBulk(conn: Connection, st: PostGis, l: Layer, features: seq<Feature>, q: Quoting) returns (o: Outcome)
    requires conn.session.status == Idle && conn.session.current == conn.session.committed && l.bulkMode
    modifies conn
    ensures !o.Finished? || o.ignored > 0 ==> conn.session.committed.target == old(conn.session.committed.target)
    ensures o.Finished? && o.ignored == 0 ==>
              && PlanOf(l).Planned? && PlanOf(l).plan.keys != []
              && var after := conn.session.committed.target;
                 && |after| == |features|
                 && (forall i, c: Column | 0 <= i < |features| ::
                       Get(after[i], c) == if c in PlanOf(l).plan.insertColumns then Get(features[i].values, c)
                                           else Get(l.defaults, c))
                 && o.stats.updated == 0 && o.stats.created == |features|
                 && o.stats.deleted == if l.truncate then CountNonNull(old(conn.session.committed.target), PlanOf(l).plan.keys[0])
                                       else |old(conn.session.committed.target)|
    ensures OnlyDataFaults(conn.faults) && Clean(l, q, features) && Tolerated(l, features, conn.faults) ==> o.Finished?
  {
    o := PullJob(conn, st, l, features, q);
    if o.Finished? && o.ignored == 0 { TempRowsMean(features, PlanOf(l).plan.insertColumns); }
  }

  ghost predicate HasAllKeys(target: Table, temp: Table, keys: seq<Column>) {
    forall s | s in temp :: HasKey(target, s, keys)
  }

  /** Two pulls of one source in a row, the second one being quiet: with proper keys in the target
      and in the source, exactly if the target already had every key or no default is in the way. */
  method PullTwice(conn: Connection, st: PostGis, l: Layer, features: seq<Feature>, q: Quoting)
    returns (first: Outcome, second: Outcome)
    requires conn.session.status == Idle && conn.session.current == conn.session.committed
    requires ReflexiveEquals(st) && !l.bulkMode
    requires PlanOf(l).Planned? ==>
               && ProperKeys(conn.session.committed.target, PlanOf(l).plan.keys)
               && ProperKeys(TempRows(features, PlanOf(l).plan.insertColumns), PlanOf(l).plan.keys)
    modifies conn
    ensures OnlyDataFaults(conn.faults) && Clean(l, q, features) && Tolerated(l, features, conn.faults) ==>
              first.Finished? && second.Finished? && first.ignored == second.ignored
    ensures first.Finished? && second.Finished? && first.ignored == 0 && second.ignored == 0 ==>
              && PlanOf(l).Planned?
              && (second.stats == Stats(0, 0, 0) <==>
                  || HasAllKeys(old(conn.session.committed.target), TempRows(features, PlanOf(l).plan.insertColumns), PlanOf(l).plan.keys)
                  || QuietDefaults(PlanOf(l).plan, l.defaults))
              && (second.stats == Stats(0, 0, 0) ==>
                  var p := PlanOf(l).plan;
                  p.keys != [] && conn.session.committed.target ==
                  Target(st, l, p, old(conn.session.committed.target), TempRows(features, p.insertColumns)).target)
  {
    first := PullJob(conn, st, l, features, q);
    second := DbFailed;
    if !first.Finished? { return; }
    var p := PlanOf(l).plan;
    ghost var temp := TempRows(features, p.insertColumns);
    ghost var target := old(conn.session.committed.target);
    ghost var allow := l.allowDeletion && !l.filtered;
    second := PullJob(conn, st, l, features, q);
    if second.Finished? && first.ignored == 0 && second.ignored == 0 {
      AcceptedPlanShape(l);
      LoadedShape(p, features);
      SyncIdempotent(st, p, l.defaults, target, temp, allow);
      QuietMeansUnchanged(st, p, l.defaults, target, temp, allow);
    }
  }

  /** A second run whose counters are all zero has changed nothing. */
  lemma QuietMeansUnchanged(st: PostGis, p: Plan, defaults: Row, target: Table, temp: Table, allow: bool)
    requires PlanShape(p) && ProperKeys(target, p.keys) && ProperKeys(temp, p.keys)
    ensures var r := Sync(st, p, defaults, target, temp, allow).target;
            var second := Sync(st, p, defaults, r, temp, allow);
            second.stats == Stats(0, 0, 0) ==> second.target == r
  {
    var r := Sync(st, p, defaults, target, temp, allow).target;
    if Sync(st, p, defaults, r, temp, allow).stats == Stats(0, 0, 0) {
      CountUpdatedBound(st, p, r, temp);
      SecondRun(st, p, defaults, target, temp, allow);
    }
  }

  // ---- a pull that reports success and is rolled back ----

  const ROADS: Layer := Layer("public", "roads", "batyr_1",
                              [Field("id", true, false), Field("name", false, false)], map[],
                              SourceColumns({"id", "name"}, ""), [], true, false, true, false, false)
  const TOO_LONG: Row := map["id" := Text("1"), "name" := Text("LONG")]
  const FITTING: Row := map["id" := Text("2"), "name" := Text("A1")]
  const TWO_ROADS: seq<Feature> := [Feature(TOO_LONG, {}), Feature(FITTING, {})]

  /** The name column does not take the first road's name; nothing else fails. */
  function NameTooLong(n: nat, s: Statement): Fault {
    if s.InsertTemp? && Get(s.row, "name") == Text("LONG") then DataFault else NoFault
  }

  lemma RoadsPlan()
    ensures PlanOf(ROADS) == Planned(Plan(["id"], ["name"], ["id", "name"], {}))
  {
    var id, name := ROADS.fields[0], ROADS.fields[1];
    assert Most(ROADS.fields) == [id] && Last(ROADS.fields) == name && Most([id]) == [];
    assert KeyNames([id]) == ["id"] && UpdateNames([id]) == [] && GeometryNames([id]) == [];
    assert InsertNames([id], ROADS.source) == ["id"];
  }

  lemma TwoRows(a: Feature, b: Feature, cols: seq<Column>)
    ensures TempRows([a, b], cols) == [TempRow(a, cols), TempRow(b, cols)]
  {
    assert Most([a, b]) == [a] && Most([a]) == [];
    assert TempRows([a], cols) == [TempRow(a, cols)];
  }

  lemma OneOfTwoBad(faults: Faults, x: Row, y: Row)
    requires Bad(faults, x) && !Bad(faults, y)
    ensures CountBad(faults, [x, y]) == 1 && GoodRows(faults, [x, y]) == [y]
  {
    assert Most([x, y]) == [x] && Most([x]) == [];
    assert CountBad(faults, [x]) == 1 && GoodRows(faults, [x]) == [];
  }

  lemma RoadsRows()
    ensures TempRow(TWO_ROADS[0], ["id", "name"]) == TOO_LONG && TempRow(TWO_ROADS[1], ["id", "name"]) == FITTING
  {
  }

  lemma OnlyNames()
    ensures OnlyDataFaults(NameTooLong) && Bad(NameTooLong, TOO_LONG) && !Bad(NameTooLong, FITTING)
  {
  }

  lemma RoadsClean()
    ensures Clean(ROADS, _ => true, TWO_ROADS)
  {
    RoadsPlan();
  }

  /** A pull of two roads, the first of which cannot be inserted, with ignore_failures set: the job
      is FINISHED, reports one row created and one ignored, and the table is still empty. */
  method IgnoredFeatureUndoesPull(st: PostGis) returns (o: Outcome, committed: Table)
    ensures o.Finished? && o.pulled == 2 && o.ignored == 1 && o.stats.created == 1
    ensures committed == []
  {
    RoadsPlan();
    RoadsClean();
    RoadsRows();
    OnlyNames();
    TwoRows(TWO_ROADS[0], TWO_ROADS[1], ["id", "name"]);
    OneOfTwoBad(NameTooLong, TOO_LONG, FITTING);
    OneCreated(st);
    var conn := new Connection(Content([], []), NameTooLong);
    o := PullJob(conn, st, ROADS, TWO_ROADS, _ => true);
    committed := conn.session.committed.target;
  }

  lemma OneCreated(st: PostGis)
    ensures Sync(st, Plan(["id"], ["name"], ["id", "name"], {}), map[], [], [FITTING], true).stats.created == 1
  {
    var p := Plan(["id"], ["name"], ["id", "name"], {});
    StatsMeaning(st, p, map[], [], [FITTING], true);
    assert CountAbsent([FITTING], [], p.keys) == 1;
  }
}
