/** Worker::removeByAttributes inside its transaction (src/server/worker.cpp). */
module RemoveJob {
  import opened Sql
  import opened Database
  import opened AttributeDelete

  datatype Removal =
    | Removed(numDeleted: nat)
    | NotAllowed            // the layer does not allow deletion: failed without a transaction
    | UnknownField          // WorkerError
    | DbFailed              // DbError
    | Crashed               // an error escaped the destructor

  ghost predicate AllFieldsKnown(sets: seq<AttributeSet>, fields: set<Column>) {
    forall i, j | 0 <= i < |sets| && 0 <= j < |sets[i]| :: sets[i][j].0 in fields
  }

  /** Build the statement and execute it if it has any condition. */
  method Remove(tx: Transaction, sets: seq<AttributeSet>, fields: set<Column>) returns (r: Removal)
    requires tx.conn.session.status == InTransaction && !tx.rollback
    modifies tx`rollback, tx.conn
    ensures tx.conn.session.committed == old(tx.conn.session.committed) && tx.conn.session.status != Idle
    ensures r.Removed? || r.UnknownField? || r.DbFailed?
    ensures r.Removed? ==>
              && AllFieldsKnown(sets, fields) && !tx.rollback && tx.conn.session.status == InTransaction
              && tx.conn.session.current.target == Without(old(tx.conn.session.current.target), sets)
              && r.numDeleted == CountMatching(old(tx.conn.session.current.target), sets)
    ensures r.UnknownField? ==> !AllFieldsKnown(sets, fields)
                                && tx.conn.session.current.target == old(tx.conn.session.current.target)
    ensures r.DbFailed? ==> tx.rollback
    ensures OnlyDataFaults(tx.conn.faults) ==> r.Removed? || r.UnknownField?
  {
    var ok := Ask(tx);                                       // set DateStyle
    if !ok { return DbFailed; }
    ok := Ask(tx);                                           // table fields
    if !ok { return DbFailed; }
    var stmt := new DeleteStatement();
    var known := stmt.AddSets(sets, fields);
    if !known { return UnknownField; }
    var table := tx.conn.session.current.target;
    if stmt.attrValues == [] {
      NothingMatches(table, sets);
      return Removed(0);
    }
    DeleteWhereMeans(table, sets);
    SelectedMatch(table, sets);
    var left := DeleteWhere(table, stmt.tokens, stmt.attrValues);
    ok := Change(tx, left, true);
    if !ok { return DbFailed; }
    r := Removed(CountSelected(table, stmt.tokens, stmt.attrValues));
  }

  /** The whole job: exactly the rows matching some non-empty attribute set go and are counted, or
      none at all goes. A layer that does not allow deletion is refused before the first statement.
      If no statement fails, an allowed job removes, unless a field is unknown. */
  method RemoveByAttributes(conn: Connection, allowDeletion: bool, sets: seq<AttributeSet>, fields: set<Column>)
    returns (r: Removal)
    requires conn.session.status == Idle && conn.session.current == conn.session.committed
    modifies conn
    ensures r.NotAllowed? <==> !allowDeletion
    ensures r.NotAllowed? ==> conn.session == old(conn.session) && conn.clock == old(conn.clock)
    ensures r.Removed? ==>
              && AllFieldsKnown(sets, fields)
              && conn.session.committed.target == Without(old(conn.session.committed.target), sets)
              && (forall row: Row :: multiset(conn.session.committed.target)[row] ==
                                     if Matches(sets, row) then 0 else multiset(old(conn.session.committed.target))[row])
              && r.numDeleted == CountMatching(old(conn.session.committed.target), sets)
              && |conn.session.committed.target| + r.numDeleted == |old(conn.session.committed.target)|
    ensures !r.Removed? ==> conn.session.committed.target == old(conn.session.committed.target)
    ensures r.UnknownField? ==> !AllFieldsKnown(sets, fields)
    ensures OnlyDataFaults(conn.faults) && allowDeletion ==>
              if AllFieldsKnown(sets, fields) then r.Removed? else r.UnknownField?
    ensures !r.Crashed? ==> conn.session.status == Idle && conn.session.current == conn.session.committed
  {
    if !allowDeletion { return NotAllowed; }
    var tx := GetTransaction(conn);
    if tx == null { return DbFailed; }
    ghost var table := conn.session.committed.target;
    MatchingBalance(table, sets);
    forall row: Row
      ensures multiset(Without(table, sets))[row] == if Matches(sets, row) then 0 else multiset(table)[row]
    {
      WithoutMeans(table, sets, row);
    }
    r := Remove(tx, sets, fields);
    var ok := tx.Close();
    if !ok { return Crashed; }
  }
}
