/** What the storage wrapper sees of the embedded SQL engine. The engine is
    not modelled: its calls become values handed to the wrapper's methods,
    so every outcome the engine could produce is covered. */
module SQLite {

  /** An engine result code. Only the codes the wrapper compares against are
      named; their values are the engine's own. */
  type ResultCode = int
  const SQLITE_OK: ResultCode := 0
  const SQLITE_ROW: ResultCode := 100
  const SQLITE_DONE: ResultCode := 101

  /** An opaque engine pointer (connection or prepared statement); `Null`
      stands for the null pointer. */
  datatype Handle = Null | Handle(id: nat)

  /** What a prepare call reports: its result code and the statement pointer
      it writes back, whether or not it succeeded. */
  datatype Prepared = Prepared(code: ResultCode, stmt: Handle)

  /** What one step of a prepared statement reports: its result code and,
      when that code is a row, the names of the row's columns in column order
      (the column count is their number). */
  datatype Step = Step(code: ResultCode, columns: seq<string>)

  /** Stepping the statement eventually reports something other than a row,
      so a loop that steps until then stops. */
  predicate Terminates(steps: seq<Step>)
  {
    exists k :: 0 <= k < |steps| && steps[k].code != SQLITE_ROW
  }
}
