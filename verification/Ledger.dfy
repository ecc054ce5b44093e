/** The migration ledger of db/sqlite/driver.go: SetVersion replaces the rows of schema_migrations in a
    transaction, any statement of which may fail; Version reads one row. */
module Ledger {
  import opened Options

  const NIL_VERSION := -1

  datatype Row = Row(version: int, dirty: bool)

  datatype Statement = DeleteStatement | InsertStatement

  /** Which statement of a transaction fails, and whether a rollback after it fails too. A failed commit
      leaves the table as it was, and so does a rollback, failed or not. */
  datatype Fault = NoFault | BeginFails | DeleteFails | InsertFails | CommitFails

  /** The errors that SetVersion returns. */
  datatype Error = StartError | StatementError(statement: Statement, rollbackFailed: bool) | CommitError

  predicate Inserts(version: int, dirty: bool) {
    0 <= version || (version == NIL_VERSION && dirty)
  }

  /** INSERT under the unique index on version. */
  function Insert(rows: seq<Row>, r: Row): Option<seq<Row>> {
    if exists k :: 0 <= k < |rows| && rows[k].version == r.version then None else Some(rows + [r])
  }

  /** rollbackWithError. */
  function RollbackWithError(statement: Statement, rollbackFails: bool): Error {
    StatementError(statement, rollbackFails)
  }

  class Driver {
    var rows: seq<Row>

    method SetVersion(version: int, dirty: bool, fault: Fault, rollbackFails: bool) returns (err: Option<Error>)
      modifies this
      ensures (rows, err) == Apply(old(rows), Call(version, dirty, fault, rollbackFails))
      ensures err.None? <==> fault.NoFault? || (fault.InsertFails? && (version < -1 || (version == -1 && !dirty)))
      ensures err.Some? ==> rows == old(rows)
      ensures err.None? ==> rows == if version < -1 || (version == -1 && !dirty) then [] else [Row(version, dirty)]
    {
      if fault.BeginFails? {
        return Some(StartError);
      }
      var transaction := rows;
      if fault.DeleteFails? {
        return Some(RollbackWithError(DeleteStatement, rollbackFails));
      }
      transaction := [];
      if Inserts(version, dirty) {
        if fault.InsertFails? {
          return Some(RollbackWithError(InsertStatement, rollbackFails));
        }
        var inserted := Insert(transaction, Row(version, dirty));
        assert inserted.Some?;   // the delete keeps the unique index quiet
        assert inserted.value == [Row(version, dirty)];
        transaction := inserted.value;
      }
      if fault.CommitFails? {
        return Some(CommitError);
      }
      rows := transaction;
      return None;
    }

    /** A failing query reads as clean NilVersion, with an error. */
    method Version(queryFails: bool) returns (version: int, dirty: bool, failed: bool)
      ensures failed == queryFails
      ensures failed || rows == [] ==> version == -1 && !dirty
      ensures !failed && rows != [] ==> Row(version, dirty) == rows[0]
    {
      if queryFails {
        return NIL_VERSION, false, true;
      }
      if rows == [] {
        return NIL_VERSION, false, false;
      }
      return rows[0].version, rows[0].dirty, false;
    }
  }

  // ----- a register

  datatype Call = Call(version: int, dirty: bool, fault: Fault, rollbackFails: bool)

  /** The error of a call: every fault shows but a failing INSERT that is not run. */
  function ErrorOf(c: Call): Option<Error> {
    match c.fault
    case NoFault => None
    case BeginFails => Some(StartError)
    case DeleteFails => Some(StatementError(DeleteStatement, c.rollbackFails))
    case InsertFails =>
      if Inserts(c.version, c.dirty) then Some(StatementError(InsertStatement, c.rollbackFails)) else None
    case CommitFails => Some(CommitError)
  }

  function Apply(rows: seq<Row>, c: Call): (seq<Row>, Option<Error>) {
    var after := if Inserts(c.version, c.dirty) then [Row(c.version, c.dirty)] else [];
    (if ErrorOf(c).Some? then rows else after, ErrorOf(c))
  }

  /** Every statement that the call runs succeeds: a clean NilVersion, or one below, runs no INSERT. */
  predicate Commits(c: Call) {
    c.fault.NoFault? || (c.fault.InsertFails? && (c.version < -1 || (c.version == -1 && !c.dirty)))
  }

  /** A call that commits replaces the rows, and any other leaves them and returns the error of the
      statement that failed. */
  lemma ApplyIsExact(rows: seq<Row>, c: Call)
    ensures var (after, err) := Apply(rows, c);
            && (err.None? <==> Commits(c))
            && (!Commits(c) ==> after == rows)
            && (Commits(c) && (c.version < -1 || (c.version == -1 && !c.dirty)) ==> after == [])
            && (Commits(c) && (0 <= c.version || (c.version == -1 && c.dirty)) ==> after == [Row(c.version, c.dirty)])
            && (c.fault.BeginFails? ==> err == Some(StartError))
            && (c.fault.DeleteFails? ==> err == Some(StatementError(DeleteStatement, c.rollbackFails)))
            && (c.fault.InsertFails? && err.Some? ==> err == Some(StatementError(InsertStatement, c.rollbackFails)))
            && (c.fault.CommitFails? ==> err == Some(CommitError))
  {
  }

  function ReadBack(rows: seq<Row>): Row {
    if rows == [] then Row(NIL_VERSION, false) else rows[0]
  }

  function Run(rows: seq<Row>, calls: seq<Call>): seq<Row> {
    if calls == [] then rows else Apply(Run(rows, calls[..|calls| - 1]), calls[|calls| - 1]).0
  }

  /** What a version set reads back as: versions below NilVersion, and clean NilVersion, leave no row. */
  function Canonical(version: int, dirty: bool): Row {
    if version < NIL_VERSION then Row(NIL_VERSION, false) else Row(version, dirty)
  }

  /** The last call that committed. */
  function LastCommitted(calls: seq<Call>): Option<Call> {
    if calls == [] then None
    else if Commits(calls[|calls| - 1]) then Some(calls[|calls| - 1])
    else LastCommitted(calls[..|calls| - 1])
  }

  /** Over every run with failures anywhere, the ledger is a register of the last committed pair, and
      it never holds more than one row unless it started so and nothing has committed since. */
  lemma {:induction false} LedgerIsRegister(rows: seq<Row>, calls: seq<Call>)
    ensures var after, last := Run(rows, calls), LastCommitted(calls);
            && (last.None? ==> after == rows)
            && (last.Some? ==> |after| <= 1 && ReadBack(after) == Canonical(last.value.version, last.value.dirty))
  {
    if calls != [] {
      LedgerIsRegister(rows, calls[..|calls| - 1]);
    }
  }

  /** A committed pair reads back unchanged exactly when its version is not below NilVersion. */
  lemma ReadsBackExactly(rows: seq<Row>, c: Call)
    requires Commits(c)
    ensures ReadBack(Apply(rows, c).0) == Row(c.version, c.dirty) <==> NIL_VERSION <= c.version
  {
  }
}
