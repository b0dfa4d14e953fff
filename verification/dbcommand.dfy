/** The command object of the storage wrapper (NetService/src/DBCommand.cpp):
    it holds a prepared statement, the position of the next parameter to
    bind, and the rows of the last query with a cursor over them. */
module NetService {
  import opened DBDefine
  import opened SQLite
  import opened Records

  /** A model helper: an optional value (`selectedRow` before any row was
      selected is `None`). */
  datatype Option<T> = None | Some(value: T)

  /** What a throwing bind overload does: it either binds the value, or
      throws the message string it names. */
  datatype BindOutcome = Bound | Thrown(message: string)

  class DBCommand {
    var conn: Handle
    var stmt: Handle
    var isResultSet: bool
    var rowCursor: nat
    var bindPos: nat
    var commandText: string
    var recordset: seq<Record>
    /** The row the recordset's own cursor designates (the value last handed
        to `DBRecordset::setRowCursor`); `None` before any was handed over. */
    var selectedRow: Option<nat>

    /** The cursor points at a row of the recordset or just past its end. */
    predicate CursorInRange()
      reads this
    {
      rowCursor <= |recordset|
    }

    /** The default constructor: an empty command text and the state that
        `cleanup` establishes. */
    constructor ()
      ensures conn == Null && stmt == Null && !isResultSet
      ensures rowCursor == DEFAULT_ROW_CURSOR && recordset == [] && bindPos == PARAM_BIND_START
      ensures commandText == [] && selectedRow == None
    {
      commandText := [];
      selectedRow := None;
      new;
      Cleanup();
    }

    /** Drops the connection and statement, forgets the rows and resets the
        cursor and the bind position. The cursor it installs lies past the
        end of the (empty) recordset. */
    method Cleanup()
      modifies this`conn, this`stmt, this`isResultSet, this`rowCursor, this`recordset, this`bindPos
      ensures conn == Null && stmt == Null && !isResultSet
      ensures rowCursor == DEFAULT_ROW_CURSOR && recordset == [] && bindPos == PARAM_BIND_START
      ensures !CursorInRange()
    {
      conn := Null;
      stmt := Null;
      isResultSet := false;
      rowCursor := DEFAULT_ROW_CURSOR;
      recordset := [];
      bindPos := PARAM_BIND_START;
    }

    method SetConnection(c: Handle)
      modifies this`conn
      ensures conn == c
    {
      conn := c;
    }

    /** Prepares `text`. The statement pointer is whatever the engine wrote
        back; the text and the bind position change only on success. */
    method SetCommandText(text: string, prepared: Prepared) returns (ok: bool)
      modifies this`stmt, this`bindPos, this`commandText
      ensures stmt == prepared.stmt
      ensures ok <==> prepared.code == SQLITE_OK
      ensures ok ==> commandText == text && bindPos == PARAM_BIND_START
      ensures !ok ==> commandText == old(commandText) && bindPos == old(bindPos)
    {
      stmt := prepared.stmt;
      if prepared.code != SQLITE_OK {
        return false;
      }
      bindPos := PARAM_BIND_START;
      commandText := text;
      return true;
    }

    /** Selects the row under the cursor and moves past it, when there is one. */
    method FetchNext() returns (ok: bool)
      modifies this`rowCursor, this`selectedRow
      ensures ok <==> old(rowCursor) < |recordset|
      ensures ok ==> rowCursor == old(rowCursor) + 1 && selectedRow == Some(old(rowCursor))
      ensures ok ==> selectedRow.value < |recordset|
      ensures !ok ==> rowCursor == old(rowCursor) && selectedRow == old(selectedRow)
      ensures old(CursorInRange()) ==> CursorInRange()
    {
      if rowCursor < |recordset| {
        selectedRow := Some(rowCursor);
        rowCursor := rowCursor + 1;
        return true;
      }
      return false;
    }

    /** Steps the cursor back by one and selects the row it then designates. */
    method FetchPrev() returns (ok: bool)
      modifies this`rowCursor, this`selectedRow
      ensures ok <==> old(rowCursor) > 0
      ensures ok ==> rowCursor == old(rowCursor) - 1 && selectedRow == Some(rowCursor)
      ensures ok && old(CursorInRange()) ==> selectedRow.value < |recordset|
      ensures !ok ==> rowCursor == old(rowCursor) && selectedRow == old(selectedRow)
      ensures old(CursorInRange()) ==> CursorInRange()
    {
      if rowCursor > 0 {
        rowCursor := rowCursor - 1;
        selectedRow := Some(rowCursor);
        return true;
      }
      return false;
    }

    /** Always succeeds: installs and selects DEFAULT_ROW_CURSOR whatever the
        size of the recordset, so the cursor stays in range only when the
        recordset holds at least that many rows. */
    method FetchFirst() returns (ok: bool)
      modifies this`rowCursor, this`selectedRow
      ensures ok
      ensures rowCursor == DEFAULT_ROW_CURSOR && selectedRow == Some(DEFAULT_ROW_CURSOR)
      ensures CursorInRange() <==> |recordset| >= DEFAULT_ROW_CURSOR
    {
      rowCursor := DEFAULT_ROW_CURSOR;
      selectedRow := Some(rowCursor);
      return true;
    }

    /** Always succeeds and moves nothing. */
    method FetchLast() returns (ok: bool)
      ensures ok
    {
      return true;
    }

    /** Binds a text parameter. A failed bind is only reported, so the bind
        position advances whatever the engine answers. */
    method BindText(value: string, result: ResultCode)
      modifies this`bindPos
      ensures bindPos == old(bindPos) + 1
    {
      bindPos := bindPos + 1;
    }

    /** The shared body of the throwing bind overloads: advance on success,
        throw `message` and stay put on failure. */
    method BindOrThrow(result: ResultCode, message: string) returns (outcome: BindOutcome)
      modifies this`bindPos
      ensures outcome == if result == SQLITE_OK then Bound else Thrown(message)
      ensures bindPos == if result == SQLITE_OK then old(bindPos) + 1 else old(bindPos)
    {
      if result != SQLITE_OK {
        return Thrown(message);
      }
      bindPos := bindPos + 1;
      return Bound;
    }

    method BindInt32(value: Int32, result: ResultCode) returns (outcome: BindOutcome)
      modifies this`bindPos
      ensures outcome == if result == SQLITE_OK then Bound else Thrown("sqlite3_bind_int failed.")
      ensures bindPos == if result == SQLITE_OK then old(bindPos) + 1 else old(bindPos)
    {
      outcome := BindOrThrow(result, "sqlite3_bind_int failed.");
    }

    method BindInt64(value: Int64, result: ResultCode) returns (outcome: BindOutcome)
      modifies this`bindPos
      ensures outcome == if result == SQLITE_OK then Bound else Thrown("sqlite3_bind_int64 failed.")
      ensures bindPos == if result == SQLITE_OK then old(bindPos) + 1 else old(bindPos)
    {
      outcome := BindOrThrow(result, "sqlite3_bind_int64 failed.");
    }

    method BindUInt32(value: UInt32, result: ResultCode) returns (outcome: BindOutcome)
      modifies this`bindPos
      ensures outcome == if result == SQLITE_OK then Bound else Thrown("sqlite3_bind_int failed.")
      ensures bindPos == if result == SQLITE_OK then old(bindPos) + 1 else old(bindPos)
    {
      outcome := BindOrThrow(result, "sqlite3_bind_int failed.");
    }

    method BindUInt64(value: UInt64, result: ResultCode) returns (outcome: BindOutcome)
      modifies this`bindPos
      ensures outcome == if result == SQLITE_OK then Bound else Thrown("sqlite3_bind_int64 failed.")
      ensures bindPos == if result == SQLITE_OK then old(bindPos) + 1 else old(bindPos)
    {
      outcome := BindOrThrow(result, "sqlite3_bind_int64 failed.");
    }

    /** The floating-point value itself is not modelled; only its bind. */
    method BindDouble(result: ResultCode) returns (outcome: BindOutcome)
      modifies this`bindPos
      ensures outcome == if result == SQLITE_OK then Bound else Thrown("sqlite3_bind_double failed.")
      ensures bindPos == if result == SQLITE_OK then old(bindPos) + 1 else old(bindPos)
    {
      outcome := BindOrThrow(result, "sqlite3_bind_double failed.");
    }

    method BindBlob(blob: Blob, result: ResultCode) returns (outcome: BindOutcome)
      modifies this`bindPos
      ensures outcome == if result == SQLITE_OK then Bound else Thrown("sqlite3_bind_blob failed.")
      ensures bindPos == if result == SQLITE_OK then old(bindPos) + 1 else old(bindPos)
    {
      outcome := BindOrThrow(result, "sqlite3_bind_blob failed.");
    }

    /** Runs the prepared statement, replacing the recordset with one record
        per row it yields; afterwards the rows are a result set and the
        cursor is at the first of them. The closing log line asks the
        connection for the number of changed rows, so a connection must be
        set. */
    method Query(steps: seq<Step>) returns (ok: bool)
      requires Terminates(steps)
      requires conn != Null
      modifies this`recordset, this`isResultSet, this`rowCursor
      ensures ok && isResultSet && rowCursor == 0
      ensures recordset == RecordsetOf(stmt, steps)
      ensures CursorInRange()
    {
      ghost var stop :| 0 <= stop < |steps| && steps[stop].code != SQLITE_ROW;
      recordset := [];
      var i := 0;
      while steps[i].code == SQLITE_ROW
        invariant i <= stop
        invariant recordset + RecordsetOf(stmt, steps[i..]) == RecordsetOf(stmt, steps)
        decreases stop - i
      {
        var record := ReadRecord(stmt, steps[i].columns);
        RecordsetOfAdvance(stmt, steps, i, recordset);
        recordset := recordset + [record];
        i := i + 1;
      }
      isResultSet := true;
      rowCursor := 0;
      return true;
    }

    /** Prepares `text` and, only if that succeeded, runs it as a query. */
    method QueryText(text: string, prepared: Prepared, steps: seq<Step>) returns (ok: bool)
      requires prepared.code == SQLITE_OK ==> Terminates(steps) && conn != Null
      modifies this`stmt, this`bindPos, this`commandText, this`recordset, this`isResultSet, this`rowCursor
      ensures stmt == prepared.stmt
      ensures ok <==> prepared.code == SQLITE_OK
      ensures ok ==> commandText == text && bindPos == PARAM_BIND_START
      ensures ok ==> recordset == RecordsetOf(prepared.stmt, steps) && isResultSet && rowCursor == 0
      ensures !ok ==> commandText == old(commandText) && bindPos == old(bindPos)
      ensures !ok ==> recordset == old(recordset) && isResultSet == old(isResultSet) && rowCursor == old(rowCursor)
    {
      ok := SetCommandText(text, prepared);
      if !ok {
        return false;
      }
      ok := Query(steps);
    }

    /** Runs the prepared statement once for its effect. Only a step that
        reports SQLITE_OK counts as success; then the command stops being a
        result set, the cursor goes to 0, and the outcome is the statement's
        finalisation. */
    method Execute(step: ResultCode, finalize: ResultCode) returns (ok: bool)
      modifies this`isResultSet, this`rowCursor
      ensures step != SQLITE_OK ==> !ok && isResultSet == old(isResultSet) && rowCursor == old(rowCursor)
      ensures step == SQLITE_OK ==> !isResultSet && rowCursor == 0 && (ok <==> finalize == SQLITE_OK)
    {
      if step != SQLITE_OK {
        return false;
      }
      isResultSet := false;
      rowCursor := 0;
      ok := finalize == SQLITE_OK;
    }

    /** Prepares `text` and, only if that succeeded, executes it. */
    method ExecuteText(text: string, prepared: Prepared, step: ResultCode, finalize: ResultCode)
      returns (ok: bool)
      modifies this`stmt, this`bindPos, this`commandText, this`isResultSet, this`rowCursor
      ensures stmt == prepared.stmt
      ensures ok ==> prepared.code == SQLITE_OK && step == SQLITE_OK && finalize == SQLITE_OK
      ensures prepared.code == SQLITE_OK ==> commandText == text && bindPos == PARAM_BIND_START
      ensures prepared.code != SQLITE_OK ==> commandText == old(commandText) && bindPos == old(bindPos)
      ensures prepared.code == SQLITE_OK && step == SQLITE_OK ==>
        !isResultSet && rowCursor == 0 && (ok <==> finalize == SQLITE_OK)
      ensures prepared.code != SQLITE_OK || step != SQLITE_OK ==>
        !ok && isResultSet == old(isResultSet) && rowCursor == old(rowCursor)
    {
      ok := SetCommandText(text, prepared);
      if !ok {
        return false;
      }
      ok := Execute(step, finalize);
    }

    method IsResultSet() returns (b: bool)
      ensures b == isResultSet
    {
      return isResultSet;
    }
  }

  /** A successful fetchNext followed by fetchPrev always succeeds, brings
      the cursor back where it was and leaves that row selected. */
  method NextThenPrev(cmd: DBCommand) returns (next: bool, prev: bool)
    modifies cmd`rowCursor, cmd`selectedRow
    ensures next <==> old(cmd.rowCursor) < |old(cmd.recordset)|
    ensures next ==> prev && cmd.rowCursor == old(cmd.rowCursor)
    ensures next ==> cmd.selectedRow == Some(old(cmd.rowCursor)) && old(cmd.rowCursor) < |cmd.recordset|
    ensures cmd.recordset == old(cmd.recordset)
  {
    next := cmd.FetchNext();
    if next {
      prev := cmd.FetchPrev();
    } else {
      prev := false;
    }
  }

  /** After a query, fetchNext visits the collected rows in order: the k-th
      call succeeds exactly while k is below the row count and selects row k
      (`selections` lists the rows the successful calls selected). */
  method FetchAllAfterQuery(cmd: DBCommand, steps: seq<Step>) returns (fetched: nat, ghost selections: seq<nat>)
    requires Terminates(steps)
    requires cmd.conn != Null
    modifies cmd`recordset, cmd`isResultSet, cmd`rowCursor, cmd`selectedRow
    ensures fetched == |RecordsetOf(cmd.stmt, steps)| && cmd.recordset == RecordsetOf(cmd.stmt, steps)
    ensures fetched < |steps| && steps[fetched].code != SQLITE_ROW
    ensures forall i :: 0 <= i < fetched ==> steps[i].code == SQLITE_ROW
    ensures cmd.rowCursor == fetched
    ensures fetched > 0 ==> cmd.selectedRow == Some(fetched - 1)
    ensures |selections| == fetched && forall k :: 0 <= k < fetched ==> selections[k] == k
  {
    var _ := cmd.Query(steps);
    fetched := 0;
    selections := [];
    var more := cmd.FetchNext();
    while more
      invariant cmd.recordset == RecordsetOf(cmd.stmt, steps)
      invariant more ==> fetched < |cmd.recordset| && cmd.rowCursor == fetched + 1 && cmd.selectedRow == Some(fetched)
      invariant !more ==> cmd.rowCursor == fetched == |cmd.recordset|
      invariant !more && fetched > 0 ==> cmd.selectedRow == Some(fetched - 1)
      invariant |selections| == fetched && forall k :: 0 <= k < fetched ==> selections[k] == k
      decreases |cmd.recordset| - fetched
    {
      selections := selections + [cmd.selectedRow.value];
      fetched := fetched + 1;
      more := cmd.FetchNext();
    }
    RecordsetOfRows(cmd.stmt, steps);
    RecordsetOfStops(cmd.stmt, steps);
  }
}
