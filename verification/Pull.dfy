/** Worker::pull inside its transaction (src/server/worker.cpp): every statement may fail, every
    feature may be unconvertible, identifiers may be unquotable, and still the target is either
    what the whole sequence makes of it or what it was before. */
module Pull {
  import opened Sequences
  import opened Sql
  import opened Database
  import opened PullPlan

  /** What the configuration and the job say about a layer. */
  datatype Layer = Layer(
    schema: Column, table: Column, tempTable: Column,
    fields: seq<Field>, defaults: Row, source: SourceColumns, configuredKeys: seq<Column>,
    allowDeletion: bool, filtered: bool, ignoreFailures: bool, bulkMode: bool, truncate: bool)

  datatype Outcome =
    | Finished(pulled: nat, ignored: nat, stats: Stats)
    | DbFailed
    | WorkerFailed
    | Crashed               // an error escaped the destructor

  /** Which identifiers PQescapeIdentifier can quote; the answer depends on nothing else. */
  type Quoting = Column -> bool

  predicate CanQuote(q: Quoting, names: seq<Column>) { forall n | n in names :: q(n) }

  function PlanOf(l: Layer): PlanResult { PlanSpec(l.fields, l.source, l.configuredKeys) }

  /** The target and the statistics a complete run comes to. Bulk mode looks neither at the
      deletion setting nor at the filter. */
  function Target(st: PostGis, l: Layer, p: Plan, target: Table, temp: Table): Synced
    requires p.keys != []
  {
    if l.bulkMode then Bulk(p, l.defaults, target, temp, l.truncate)
    else Sync(st, p, l.defaults, target, temp, l.allowDeletion && !l.filtered)
  }

  // ---- what a pull needs in order to finish ----

  predicate AllConvertible(fs: seq<Feature>, cols: seq<Column>) { forall f | f in fs :: Convertible(f, cols) }

  /** Known before the first statement: the plan is accepted and its statements are well formed,
      every identifier can be quoted and every feature converted. */
  predicate Clean(l: Layer, q: Quoting, fs: seq<Feature>) {
    && PlanOf(l).Planned?
    && var p := PlanOf(l).plan;
       && Insertable(l, q) && AllConvertible(fs, p.insertColumns)
       && (l.bulkMode || Updatable(p, q))
  }

  /** The insert into the temp table can be prepared. */
  predicate Insertable(l: Layer, q: Quoting) {
    && PlanOf(l).Planned? && NoDuplicates(PlanOf(l).plan.insertColumns)
    && CanQuote(q, [l.schema, l.table, l.tempTable]) && CanQuote(q, PlanOf(l).plan.insertColumns)
  }

  /** "set" is followed by something. */
  predicate Updatable(p: Plan, q: Quoting) {
    p.updateColumns != [] && CanQuote(q, p.updateColumns) && CanQuote(q, p.keys)
  }

  function CountBad(faults: Faults, t: Table): nat {
    if t == [] then 0 else CountBad(faults, Most(t)) + if Bad(faults, Last(t)) then 1 else 0
  }

  function GoodRows(faults: Faults, t: Table): (r: Table)
    ensures |r| == |t| - CountBad(faults, t)
  {
    if t == [] then [] else GoodRows(faults, Most(t)) + if Bad(faults, Last(t)) then [] else [Last(t)]
  }

  /** No bad row, or bad rows are to be ignored. */
  predicate Tolerated(l: Layer, fs: seq<Feature>, faults: Faults)
    requires PlanOf(l).Planned?
  {
    l.ignoreFailures || CountBad(faults, TempRows(fs, PlanOf(l).plan.insertColumns)) == 0
  }

  lemma NextTempRow(fs: seq<Feature>, k: nat, cols: seq<Column>)
    requires k < |fs|
    ensures var t := TempRows(fs[..k + 1], cols);
            t != [] && Most(t) == TempRows(fs[..k], cols) && Last(t) == TempRow(fs[k], cols)
  {
    Prefix(fs, k);
  }

  lemma {:induction false} BadGrows(faults: Faults, fs: seq<Feature>, k: nat, cols: seq<Column>)
    requires k <= |fs|
    ensures CountBad(faults, TempRows(fs[..k], cols)) <= CountBad(faults, TempRows(fs, cols))
    decreases |fs| - k
  {
    if k < |fs| {
      NextTempRow(fs, k, cols);
      BadGrows(faults, fs, k + 1, cols);
    } else {
      assert fs[..k] == fs;
    }
  }

  // ---- up to the prepared insert ----

  predicate ExitOnly(ss: seq<Statement>) { forall s | s in ss :: s.DropTemp? || s.Deallocate? }

  datatype Setup = Ready(plan: Plan) | SetupDbError | SetupWorkerError

  method SetUp(tx: Transaction, l: Layer, q: Quoting) returns (r: Setup)
    requires tx.conn.session.status == InTransaction && tx.conn.session.savepoints == []
    requires !tx.rollback && ExitOnly(tx.exitSqls)
    modifies tx, tx.conn
    ensures tx.conn.session.committed == old(tx.conn.session.committed) && tx.conn.session.status != Idle
    ensures tx.conn.session.current.target == old(tx.conn.session.current.target) && ExitOnly(tx.exitSqls)
    ensures OnlyDataFaults(tx.conn.faults) ==> (r.Ready? <==> Insertable(l, q))
    ensures r.Ready? ==>
              && PlanOf(l) == Planned(r.plan) && Insertable(l, q)
              && !tx.rollback && tx.conn.session.status == InTransaction
              && tx.conn.session.current.temp == [] && tx.conn.session.savepoints == []
    ensures r.SetupWorkerError? ==> PlanOf(l).Refused?
  {
    var ok := Ask(tx);                                       // set DateStyle
    if !ok { return SetupDbError; }
    ok := Ask(tx);                                           // postgis version
    if !ok { return SetupDbError; }
    if !CanQuote(q, [l.tempTable]) { return SetupDbError; }
    if !CanQuote(q, [l.schema, l.table]) { return SetupDbError; }
    tx.exitSqls := tx.exitSqls + [DropTemp];
    var reply := tx.Exec(CreateTemp);
    if reply.Error? { return SetupDbError; }
    ok := Ask(tx);                                           // table fields
    if !ok { return SetupDbError; }
    var plan := MakePlan(l.fields, l.source, l.configuredKeys);
    if plan.Refused? { return SetupWorkerError; }
    r := PrepareInsert(tx, plan.plan, q);
  }

  method PrepareInsert(tx: Transaction, plan: Plan, q: Quoting) returns (r: Setup)
    requires tx.conn.session.status == InTransaction && !tx.rollback && ExitOnly(tx.exitSqls)
    modifies tx, tx.conn
    ensures tx.conn.session.committed == old(tx.conn.session.committed) && tx.conn.session.status != Idle
    ensures tx.conn.session.current == old(tx.conn.session.current) && ExitOnly(tx.exitSqls)
    ensures tx.conn.session.savepoints == old(tx.conn.session.savepoints)
    ensures !r.SetupWorkerError?
    ensures OnlyDataFaults(tx.conn.faults) ==>
              (r.Ready? <==> NoDuplicates(plan.insertColumns) && CanQuote(q, plan.insertColumns))
    ensures r.Ready? ==> r.plan == plan && NoDuplicates(plan.insertColumns) && CanQuote(q, plan.insertColumns)
                         && !tx.rollback && tx.conn.session.status == InTransaction
  {
    if plan.geometry != {} {
      var ok := Ask(tx);                                     // SRID of the geometry column
      if !ok { return SetupDbError; }
    }
    if !CanQuote(q, plan.insertColumns) { return SetupDbError; }
    var reply := tx.Exec(Prepare(plan.insertColumns));
    if reply.Error? { return SetupDbError; }
    tx.exitSqls := tx.exitSqls + [Deallocate];
    r := Ready(plan);
  }

  // ---- the feature loop ----

  datatype Load = Loaded | Ignored | LoadError

  /** One feature: with ignore_failures inside a savepoint, which an error in the data rolls back. */
  method LoadFeature(tx: Transaction, row: Row, ignoreFailures: bool) returns (r: Load)
    requires tx.conn.session.status == InTransaction
    modifies tx`rollback, tx.conn
    ensures tx.conn.session.committed == old(tx.conn.session.committed) && tx.conn.session.status != Idle
    ensures tx.conn.session.current.target == old(tx.conn.session.current.target)
    ensures r.Loaded? ==> tx.rollback == old(tx.rollback) && tx.conn.session.status == InTransaction
                          && tx.conn.session.current.temp == old(tx.conn.session.current.temp) + [row]
    ensures r.Ignored? ==> ignoreFailures && tx.rollback && tx.conn.session.status == InTransaction
                           && tx.conn.session.current == old(tx.conn.session.current)
    ensures r.LoadError? ==> tx.rollback
    ensures OnlyDataFaults(tx.conn.faults) ==>
              r == if !Bad(tx.conn.faults, row) then Loaded else if ignoreFailures then Ignored else LoadError
  {
    var reply;
    if ignoreFailures {
      reply := tx.Exec(Savepoint);
      if reply.Done? { reply := tx.Exec(InsertTemp(row)); }
      if reply.Done? { reply := tx.Exec(Release); }
      if reply.Error? {
        if !reply.isDataException { return LoadError; }
        reply := tx.Exec(RollbackToSavepoint);
        if reply.Error? { return LoadError; }
        return Ignored;
      }
    } else {
      reply := tx.Exec(InsertTemp(row));
      if reply.Error? { return LoadError; }
    }
    r := Loaded;
  }

  datatype LoadAll = AllLoaded(pulled: nat, ignored: nat) | LoadDbError | LoadWorkerError

  /** After k features: what the temp table holds and how many were ignored. */
  ghost predicate LoadedSoFar(faults: Faults, fs: seq<Feature>, k: nat, cols: seq<Column>, temp: Table, ignored: nat) {
    && k <= |fs| && |temp| == k - ignored && AllConvertible(fs[..k], cols)
    && (ignored == 0 ==> temp == TempRows(fs[..k], cols))
    && (OnlyDataFaults(faults) ==> ignored == CountBad(faults, TempRows(fs[..k], cols))
                                   && temp == GoodRows(faults, TempRows(fs[..k], cols)))
  }

  lemma LoadedNext(faults: Faults, fs: seq<Feature>, k: nat, cols: seq<Column>, temp: Table, ignored: nat, ignore: bool)
    requires LoadedSoFar(faults, fs, k, cols, temp, ignored) && k < |fs| && Convertible(fs[k], cols)
    requires OnlyDataFaults(faults) ==> ignore == Bad(faults, TempRow(fs[k], cols))
    ensures if ignore then LoadedSoFar(faults, fs, k + 1, cols, temp, ignored + 1)
            else LoadedSoFar(faults, fs, k + 1, cols, temp + [TempRow(fs[k], cols)], ignored)
  {
    NextTempRow(fs, k, cols);
    assert fs[..k + 1] == fs[..k] + [fs[k]];
  }

  lemma EmptyLoad(faults: Faults, fs: seq<Feature>, cols: seq<Column>)
    ensures LoadedSoFar(faults, fs, 0, cols, [], 0)
  {
  }

  lemma WholeLoad(faults: Faults, fs: seq<Feature>, cols: seq<Column>, temp: Table, ignored: nat)
    requires LoadedSoFar(faults, fs, |fs|, cols, temp, ignored)
    ensures |temp| == |fs| - ignored && AllConvertible(fs, cols)
    ensures ignored == 0 ==> temp == TempRows(fs, cols)
    ensures OnlyDataFaults(faults) ==> ignored == CountBad(faults, TempRows(fs, cols))
                                       && temp == GoodRows(faults, TempRows(fs, cols))
  {
    assert fs[..|fs|] == fs;
  }

  lemma BadStops(faults: Faults, fs: seq<Feature>, k: nat, cols: seq<Column>)
    requires k < |fs| && Bad(faults, TempRow(fs[k], cols))
    ensures CountBad(faults, TempRows(fs, cols)) > 0
  {
    NextTempRow(fs, k, cols);
    BadGrows(faults, fs, k + 1, cols);
  }

  /** The statements for a feature that can be converted. */
  method NextFeature(tx: Transaction, row: Row, ignoreFailures: bool, ghost features: seq<Feature>, ghost k: nat,
                     ghost cols: seq<Column>, ghost ignored: nat) returns (r: Load)
    requires tx.conn.session.status == InTransaction && k < |features|
    requires Convertible(features[k], cols) && row == TempRow(features[k], cols)
    requires LoadedSoFar(tx.conn.faults, features, k, cols, tx.conn.session.current.temp, ignored)
    modifies tx`rollback, tx.conn
    ensures tx.conn.session.committed == old(tx.conn.session.committed) && tx.conn.session.status != Idle
    ensures tx.conn.session.current.target == old(tx.conn.session.current.target)
    ensures !r.LoadError? ==>
              && tx.conn.session.status == InTransaction && tx.rollback == (old(tx.rollback) || r.Ignored?)
              && (r.Ignored? ==> ignoreFailures)
              && LoadedSoFar(tx.conn.faults, features, k + 1, cols, tx.conn.session.current.temp,
                             if r.Ignored? then ignored + 1 else ignored)
    ensures r.LoadError? ==> tx.rollback
    ensures OnlyDataFaults(tx.conn.faults) && r.LoadError? ==>
              !ignoreFailures && CountBad(tx.conn.faults, TempRows(features, cols)) > 0
  {
    ghost var temp := tx.conn.session.current.temp;
    r := LoadFeature(tx, row, ignoreFailures);
    if r.LoadError? {
      if OnlyDataFaults(tx.conn.faults) { BadStops(tx.conn.faults, features, k, cols); }
    } else {
      LoadedNext(tx.conn.faults, features, k, cols, temp, ignored, r.Ignored?);
    }
  }

  /** One turn of the loop. False if the feature cannot be converted. */
  method ConvertAndLoad(tx: Transaction, features: seq<Feature>, k: nat, cols: seq<Column>, ignoreFailures: bool,
                        ghost ignored: nat) returns (ok: bool, r: Load)
    requires tx.conn.session.status == InTransaction && k < |features|
    requires LoadedSoFar(tx.conn.faults, features, k, cols, tx.conn.session.current.temp, ignored)
    modifies tx`rollback, tx.conn
    ensures tx.conn.session.committed == old(tx.conn.session.committed) && tx.conn.session.status != Idle
    ensures tx.conn.session.current.target == old(tx.conn.session.current.target)
    ensures !ok ==> !AllConvertible(features, cols)
    ensures ok && !r.LoadError? ==>
              && tx.conn.session.status == InTransaction && tx.rollback == (old(tx.rollback) || r.Ignored?)
              && (r.Ignored? ==> ignoreFailures)
              && LoadedSoFar(tx.conn.faults, features, k + 1, cols, tx.conn.session.current.temp,
                             if r.Ignored? then ignored + 1 else ignored)
    ensures ok && r.LoadError? ==> tx.rollback
    ensures OnlyDataFaults(tx.conn.faults) && ok && r.LoadError? ==>
              !ignoreFailures && CountBad(tx.conn.faults, TempRows(features, cols)) > 0
  {
    var row;
    r := LoadError;
    ok, row := Convert(features[k], cols);
    if ok { r := NextFeature(tx, row, ignoreFailures, features, k, cols, ignored); }
  }

  /** The loop over the features. The temp table holds the features pulled and not ignored; the
      transaction is doomed as soon as one was ignored. */
  method LoadFeatures(tx: Transaction, features: seq<Feature>, cols: seq<Column>, ignoreFailures: bool) returns (r: LoadAll)
    requires tx.conn.session.status == InTransaction && !tx.rollback && tx.conn.session.current.temp == []
    modifies tx`rollback, tx.conn
    ensures tx.conn.session.committed == old(tx.conn.session.committed) && tx.conn.session.status != Idle
    ensures tx.conn.session.current.target == old(tx.conn.session.current.target)
    ensures r.AllLoaded? ==>
              && r.pulled == |features| && |tx.conn.session.current.temp| == r.pulled - r.ignored
              && tx.conn.session.status == InTransaction && tx.rollback == (r.ignored > 0)
              && (r.ignored > 0 ==> ignoreFailures)
              && (r.ignored == 0 ==> tx.conn.session.current.temp == TempRows(features, cols))
              && AllConvertible(features, cols)
    ensures r.LoadDbError? ==> tx.rollback
    ensures r.LoadWorkerError? ==> !AllConvertible(features, cols)
    ensures OnlyDataFaults(tx.conn.faults) ==>
              var bad := CountBad(tx.conn.faults, TempRows(features, cols));
              && (r.AllLoaded? <==> AllConvertible(features, cols) && (ignoreFailures || bad == 0))
              && (r.AllLoaded? ==> r.ignored == bad
                                   && tx.conn.session.current.temp == GoodRows(tx.conn.faults, TempRows(features, cols)))
  {
    var numPulled, numIgnored := 0, 0;
    EmptyLoad(tx.conn.faults, features, cols);
    while numPulled < |features|
      invariant tx.conn.session.committed == old(tx.conn.session.committed) && tx.conn.session.status == InTransaction
      invariant tx.conn.session.current.target == old(tx.conn.session.current.target)
      invariant LoadedSoFar(tx.conn.faults, features, numPulled, cols, tx.conn.session.current.temp, numIgnored)
      invariant tx.rollback == (numIgnored > 0) && (numIgnored > 0 ==> ignoreFailures)
      decreases |features| - numPulled
    {
      var ok, load := ConvertAndLoad(tx, features, numPulled, cols, ignoreFailures, numIgnored);
      if !ok { return LoadWorkerError; }
      if load.LoadError? { return LoadDbError; }
      if load.Ignored? { numIgnored := numIgnored + 1; }
      numPulled := numPulled + 1;
    }
    WholeLoad(tx.conn.faults, features, cols, tx.conn.session.current.temp, numIgnored);
    r := AllLoaded(numPulled, numIgnored);
  }

  // ---- the statements against the target ----

  datatype Applied = Changed(stats: Stats) | ChangeError

  /** Everything a later statement quotes has been quoted before the first write. */
  method ApplyBulk(tx: Transaction, l: Layer, p: Plan, q: Quoting) returns (r: Applied)
    requires tx.conn.session.status == InTransaction && p.keys != []
    requires CanQuote(q, [l.schema, l.table, l.tempTable]) && CanQuote(q, p.insertColumns)
    modifies tx`rollback, tx.conn
    ensures tx.conn.session.committed == old(tx.conn.session.committed) && tx.conn.session.status != Idle
    ensures r.ChangeError? ==> tx.rollback
    ensures OnlyDataFaults(tx.conn.faults) ==> r.Changed?
    ensures r.Changed? ==>
              var done := Bulk(p, l.defaults, old(tx.conn.session.current.target), old(tx.conn.session.current.temp), l.truncate);
              && tx.conn.session.current.target == done.target && r.stats == done.stats
              && tx.rollback == old(tx.rollback) && tx.conn.session.status == InTransaction
  {
    var target, temp := tx.conn.session.current.target, tx.conn.session.current.temp;
    var numDeleted := |target|;
    if !CanQuote(q, [l.schema, l.table]) { return ChangeError; }
    if l.truncate {
      var counted := Ask(tx);                                // select count(key)
      if !counted { return ChangeError; }
      numDeleted := CountNonNull(target, p.keys[0]);
    }
    var ok := Change(tx, [], true);                          // truncate or delete
    if !ok { return ChangeError; }
    if !CanQuote(q, [l.schema, l.table, l.tempTable]) || !CanQuote(q, p.insertColumns) { return ChangeError; }
    var rows := NewRows(p, l.defaults, temp);
    ok := Change(tx, rows, true);
    if !ok { return ChangeError; }
    r := Changed(Stats(0, |rows|, numDeleted));
  }

  method ApplyDefault(tx: Transaction, st: PostGis, l: Layer, p: Plan, q: Quoting) returns (r: Applied)
    requires tx.conn.session.status == InTransaction
    requires CanQuote(q, [l.schema, l.table, l.tempTable]) && CanQuote(q, p.insertColumns)
    modifies tx`rollback, tx.conn
    ensures tx.conn.session.committed == old(tx.conn.session.committed) && tx.conn.session.status != Idle
    ensures r.ChangeError? ==>
              tx.rollback || tx.conn.session.current.target == old(tx.conn.session.current.target)
    ensures OnlyDataFaults(tx.conn.faults) ==> (r.Changed? <==> Updatable(p, q))
    ensures r.Changed? ==>
              var done := Sync(st, p, l.defaults, old(tx.conn.session.current.target), old(tx.conn.session.current.temp),
                               l.allowDeletion && !l.filtered);
              && tx.conn.session.current.target == done.target && r.stats == done.stats
              && tx.rollback == old(tx.rollback) && tx.conn.session.status == InTransaction
              && Updatable(p, q)
  {
    var target, temp := tx.conn.session.current.target, tx.conn.session.current.temp;
    if !CanQuote(q, [l.schema, l.table, l.tempTable]) || !CanQuote(q, p.updateColumns) || !CanQuote(q, p.keys) {
      return ChangeError;
    }
    // "set" followed by nothing is a syntax error
    var updated := Update(st, p, target, temp);
    var ok := Change(tx, updated, p.updateColumns != []);
    if !ok { return ChangeError; }
    var numUpdated := CountUpdated(st, p, target, temp);

    if !CanQuote(q, [l.schema, l.table, l.tempTable]) || !CanQuote(q, p.insertColumns) || !CanQuote(q, p.keys) {
      return ChangeError;
    }
    var inserted := Insert(p, l.defaults, updated, temp);
    ok := Change(tx, inserted, true);
    if !ok { return ChangeError; }
    var numCreated := |Missing(p, temp, updated)|;

    var numDeleted := 0;
    if l.allowDeletion && !l.filtered {
      if !CanQuote(q, [l.schema, l.table, l.tempTable]) || !CanQuote(q, p.keys) { return ChangeError; }
      ok := Change(tx, Delete(p, inserted, temp), true);
      if !ok { return ChangeError; }
      numDeleted := CountDeleted(p, inserted, temp);
    }
    r := Changed(Stats(numUpdated, numCreated, numDeleted));
  }

  // ---- the whole ----

  method PullBody(tx: Transaction, st: PostGis, l: Layer, features: seq<Feature>, q: Quoting) returns (o: Outcome)
    requires tx.conn.session.status == InTransaction && tx.conn.session.savepoints == []
    requires !tx.rollback && ExitOnly(tx.exitSqls)
    modifies tx, tx.conn
    ensures tx.conn.session.committed == old(tx.conn.session.committed) && tx.conn.session.status != Idle
    ensures ExitOnly(tx.exitSqls) && !o.Crashed?
    ensures !o.Finished? ==>
              tx.rollback || tx.conn.session.current.target == old(tx.conn.session.current.target)
    ensures o.WorkerFailed? ==>
              PlanOf(l).Refused? || !AllConvertible(features, PlanOf(l).plan.insertColumns)
    ensures o.Finished? ==> Clean(l, q, features) && PlanOf(l).plan.keys != []
    ensures OnlyDataFaults(tx.conn.faults) ==> (o.Finished? <==> Clean(l, q, features) && Tolerated(l, features, tx.conn.faults))
    ensures OnlyDataFaults(tx.conn.faults) && o.Finished? ==>
              var p := PlanOf(l).plan;
              var rows := TempRows(features, p.insertColumns);
              && o.ignored == CountBad(tx.conn.faults, rows)
              && o.stats == Target(st, l, p, old(tx.conn.session.current.target), GoodRows(tx.conn.faults, rows)).stats
    ensures o.Finished? ==>
              && o.pulled == |features| && tx.rollback == (o.ignored > 0)
              && tx.conn.session.status == InTransaction
              && (o.ignored > 0 ==> l.ignoreFailures)
              && (o.ignored == 0 ==>
                  var p := PlanOf(l).plan;
                  var done := Target(st, l, p, old(tx.conn.session.current.target), TempRows(features, p.insertColumns));
                  tx.conn.session.current.target == done.target && o.stats == done.stats)
  {
    var setup := SetUp(tx, l, q);
    if setup.SetupDbError? { return DbFailed; }
    if setup.SetupWorkerError? { return WorkerFailed; }
    var p := setup.plan;
    PlanGuarantee(l.fields, l.source, l.configuredKeys);
    var load := LoadFeatures(tx, features, p.insertColumns, l.ignoreFailures);
    if load.LoadDbError? { return DbFailed; }
    if load.LoadWorkerError? { return WorkerFailed; }
    var change;
    if l.bulkMode {
      change := ApplyBulk(tx, l, p, q);
    } else {
      change := ApplyDefault(tx, st, l, p, q);
    }
    if change.ChangeError? { return DbFailed; }
    o := Finished(load.pulled, load.ignored, change.stats);
  }

  /** All or nothing. Whatever fails, and wherever, the committed target is the old one; a pull
      that reports FINISHED has committed the result of the whole sequence exactly if it ignored
      no feature, and otherwise has been rolled back although it reports success. Only a clean
      pull can finish, and if nothing fails but the insert of bad rows, a clean one does finish
      exactly if there are none or they are to be ignored, and ignores just those. */
  method PullJob(conn: Connection, st: PostGis, l: Layer, features: seq<Feature>, q: Quoting) returns (o: Outcome)
    requires conn.session.status == Idle && conn.session.current == conn.session.committed
    modifies conn
    ensures !o.Finished? ==> conn.session.committed.target == old(conn.session.committed.target)
    ensures !o.Crashed? ==> conn.session.status == Idle && conn.session.current == conn.session.committed
    ensures o.WorkerFailed? ==>
              PlanOf(l).Refused? || !AllConvertible(features, PlanOf(l).plan.insertColumns)
    ensures o.Finished? ==> Clean(l, q, features) && PlanOf(l).plan.keys != []
    ensures OnlyDataFaults(conn.faults) ==>
              !o.Crashed? && (o.Finished? <==> Clean(l, q, features) && Tolerated(l, features, conn.faults))
    ensures OnlyDataFaults(conn.faults) && o.Finished? ==>
              var p := PlanOf(l).plan;
              var rows := TempRows(features, p.insertColumns);
              && o.ignored == CountBad(conn.faults, rows)
              && o.stats == Target(st, l, p, old(conn.session.committed.target), GoodRows(conn.faults, rows)).stats
    ensures o.Finished? ==>
              && o.pulled == |features|
              && (o.ignored > 0 ==> l.ignoreFailures
                                    && conn.session.committed.target == old(conn.session.committed.target))
              && (o.ignored == 0 ==>
                  var p := PlanOf(l).plan;
                  var done := Target(st, l, p, old(conn.session.committed.target), TempRows(features, p.insertColumns));
                  conn.session.committed.target == done.target && o.stats == done.stats)
  {
    var tx := GetTransaction(conn);
    if tx == null { return DbFailed; }
    o := PullBody(tx, st, l, features, q);
    var ok := tx.Close();
    if !ok { return Crashed; }
  }
}
