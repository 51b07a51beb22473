/** A PostgreSQL session and the Transaction object around it
    (src/server/db/transaction.cpp, connection.cpp). */
module Database {
  import opened Sql

  /** What the session can see: the target table and its temporary table. */
  datatype Content = Content(target: Table, temp: Table)

  datatype TxStatus = Idle | InTransaction | InError

  /** What the environment does to a statement: nothing, an error in the data (SQLSTATE class 22)
      or any other error. */
  datatype Fault = NoFault | DataFault | OtherFault

  datatype Statement =
    | Begin | Commit | Rollback
    | Savepoint | Release | RollbackToSavepoint
    | Query                                   // changes no table
    | CreateTemp | DropTemp | Deallocate
    | Prepare(columns: seq<Column>)           // insert into temp (columns)
    | InsertTemp(row: Row)
    | Write(target: Table, wellFormed: bool)  // a statement that leaves the target like this

  datatype Reply = Done | Error(isDataException: bool)

  predicate NoDuplicates(cols: seq<Column>) { forall i, j | 0 <= i < j < |cols| :: cols[i] != cols[j] }

  /** Statements the server rejects as they stand. */
  predicate Malformed(s: Statement) {
    match s
    case Prepare(cols) => !NoDuplicates(cols)
    case Write(_, wellFormed) => !wellFormed
    case _ => false
  }

  function Effect(c: Content, s: Statement): Content {
    match s
    case CreateTemp => c.(temp := [])
    case DropTemp => c.(temp := [])
    case InsertTemp(row) => c.(temp := c.temp + [row])
    case Write(t, _) => c.(target := t)
    case _ => c
  }

  /** The server side of a connection. */
  datatype Session = Session(committed: Content, current: Content, status: TxStatus, savepoints: seq<Content>)

  datatype Served = Served(session: Session, reply: Reply)

  /** Inside a failed transaction only the ways out are served. */
  predicate Refused(c: Session, s: Statement) {
    || (c.status == InError && !s.Commit? && !s.Rollback? && !s.RollbackToSavepoint?)
    || ((s.Release? || s.RollbackToSavepoint?) && (c.savepoints == [] || c.status == Idle))
    || Malformed(s)
  }

  /** One statement. Only an insert carries data that can be at fault. */
  function Serve(c: Session, s: Statement, f: Fault): Served {
    if Refused(c, s) || f != NoFault then
      Served(if c.status == Idle then c else c.(status := InError),
             Error(f == DataFault && s.InsertTemp? && !Refused(c, s)))
    else
      Served(match s
             case Begin => c.(status := InTransaction, savepoints := [])
             case Commit =>
               var final := if c.status == InTransaction then c.current else c.committed;
               Session(final, final, Idle, [])
             case Rollback => Session(c.committed, c.committed, Idle, [])
             case Savepoint => c.(savepoints := c.savepoints + [c.current])
             case Release => c.(savepoints := c.savepoints[..|c.savepoints| - 1])
             case RollbackToSavepoint =>
               c.(current := c.savepoints[|c.savepoints| - 1], status := InTransaction)
             case _ =>
               var after := Effect(c.current, s);
               c.(current := after, committed := if c.status == Idle then after else c.committed),
             Done)
  }

  /** The fate of each statement, by its number in the session and what it says. */
  type Faults = (nat, Statement) -> Fault

  /** A row that the temp table cannot take. */
  predicate Bad(faults: Faults, row: Row) { faults(0, InsertTemp(row)) != NoFault }

  /** Nothing fails but the insert of bad rows; with no bad row, nothing fails. */
  ghost predicate OnlyDataFaults(faults: Faults) {
    forall n: nat, s: Statement :: faults(n, s) == if s.InsertTemp? && Bad(faults, s.row) then DataFault else NoFault
  }

  class Connection {
    var session: Session
    const faults: Faults
    var clock: nat

    constructor (content: Content, faults: Faults)
      ensures session == Session(content, content, Idle, []) && this.faults == faults && clock == 0
    {
      session, clock := Session(content, content, Idle, []), 0;
      this.faults := faults;
    }

    /** PQexec and its relatives. */
    method Execute(s: Statement) returns (r: Reply)
      modifies this
      ensures Served(session, r) == Serve(old(session), s, faults(old(clock), s)) && clock == old(clock) + 1
    {
      var served := Serve(session, s, faults(clock, s));
      session, clock := served.session, clock + 1;
      r := served.reply;
    }
  }

  /** The sticky rollback flag: set by any failed statement, never reset. */
  class Transaction {
    const conn: Connection
    var rollback: bool
    var exitSqls: seq<Statement>

    constructor (conn: Connection)
      ensures this.conn == conn && !rollback && exitSqls == []
    {
      this.conn, rollback, exitSqls := conn, false, [];
    }

    /** exec, execParams, execPrepared: the statement, then checkResult. */
    method Exec(s: Statement) returns (r: Reply)
      modifies conn, this`rollback
      ensures Served(conn.session, r) == Serve(old(conn.session), s, conn.faults(old(conn.clock), s))
      ensures conn.clock == old(conn.clock) + 1
      ensures rollback == (old(rollback) || r.Error?)
    {
      r := conn.Execute(s);
      if r.Error? { rollback := true; }
    }

    /** The destructor. Commits only if no statement ever failed; an error here escapes a
        destructor and ends the process. Exit statements run afterwards, their errors ignored. */
    method Close() returns (ok: bool)
      requires conn.session.status != Idle
      requires forall s | s in exitSqls :: s.DropTemp? || s.Deallocate?
      modifies conn, this
      ensures ok <==> conn.faults(old(conn.clock), if old(rollback) || old(conn.session.status) == InError
                                                   then Rollback else Commit) == NoFault
      ensures ok ==> conn.session.committed.target ==
                     if old(rollback) || old(conn.session.status) == InError then old(conn.session.committed.target)
                     else old(conn.session.current.target)
      ensures !ok ==> conn.session.committed.target == old(conn.session.committed.target)
      ensures ok ==> exitSqls == [] && conn.session.status == Idle && conn.session.current == conn.session.committed
    {
      var r;
      if rollback || conn.session.status == InError {
        r := Exec(Rollback);
      } else {
        r := Exec(Commit);
      }
      if r.Error? { return false; }
      ghost var target := conn.session.committed.target;
      var i := 0;
      while i < |exitSqls|
        invariant 0 <= i <= |exitSqls| && exitSqls == old(exitSqls)
        invariant conn.session.status == Idle && conn.session.current == conn.session.committed
        invariant conn.session.committed.target == target
      {
        assert exitSqls[i] in exitSqls;
        var _ := Exec(exitSqls[i]);
        i := i + 1;
      }
      exitSqls := [];
      ok := true;
    }
  }

  /** A statement that changes no table. */
  method Ask(tx: Transaction) returns (ok: bool)
    requires tx.conn.session.status == InTransaction
    modifies tx`rollback, tx.conn
    ensures tx.conn.session == if ok then old(tx.conn.session) else old(tx.conn.session).(status := InError)
    ensures tx.rollback == (old(tx.rollback) || !ok)
    ensures OnlyDataFaults(tx.conn.faults) ==> ok
  {
    var reply := tx.Exec(Query);
    ok := reply.Done?;
  }

  /** A statement that leaves the target as given. */
  method Change(tx: Transaction, target: Table, wellFormed: bool) returns (ok: bool)
    requires tx.conn.session.status == InTransaction
    modifies tx`rollback, tx.conn
    ensures tx.conn.session.committed == old(tx.conn.session.committed)
    ensures tx.conn.session.status == if ok then InTransaction else InError
    ensures tx.conn.session.current.temp == old(tx.conn.session.current.temp)
    ensures tx.rollback == (old(tx.rollback) || !ok)
    ensures ok ==> wellFormed && tx.conn.session.current.target == target
    ensures OnlyDataFaults(tx.conn.faults) && wellFormed ==> ok
  {
    var reply := tx.Exec(Write(target, wellFormed));
    ok := reply.Done?;
  }

  /** getTransaction: the constructor sends BEGIN, and without a transaction there is no object
      whose destructor could end it. */
  method GetTransaction(conn: Connection) returns (tx: Transaction?)
    requires conn.session.status == Idle
    modifies conn
    ensures tx == null <==> conn.faults(old(conn.clock), Begin) != NoFault
    ensures tx == null ==> conn.session == old(conn.session)
    ensures tx != null ==>
              && fresh(tx) && tx.conn == conn && !tx.rollback && tx.exitSqls == []
              && conn.session == old(conn.session).(status := InTransaction, savepoints := [])
  {
    var candidate := new Transaction(conn);
    var reply := candidate.Exec(Begin);
    tx := if reply.Error? then null else candidate;
  }
}
