# DBCommand: the command object of the VNOC storage wrapper

The VNOC server keeps its data in an embedded SQLite database through a thin
wrapper. Its command object, `DBCommand` (NetService/src/DBCommand.cpp),
holds one prepared statement. It keeps the position of the next parameter
to bind. It also holds the rows of the last query, an in-memory recordset
with a row cursor over it. This project models that object as a Dafny
class whose fields its methods update in place:

| field | source member | meaning |
|---|---|---|
| `conn`, `stmt` | `_conn`, `_stmt` | engine connection and statement pointers (`Null` is the null pointer) |
| `isResultSet` | `_isResultSet` | the last run was a query |
| `rowCursor` | `_rowCursor` | the next row `fetchNext` selects |
| `bindPos` | `_paramBindPos` | the position of the next parameter to bind |
| `commandText` | `_commandText` | the text last prepared successfully |
| `recordset` | `_dbRecordset.recordset()` | the rows collected by the last query |
| `selectedRow` | the recordset's own cursor | the row last handed to `setRowCursor` |

The SQLite engine is not modelled. Each of its answers is a parameter of the
method that asks for it, so every contract holds whatever the engine answers:

- a prepare is a `Prepared(code, stmt)` value;
- a bind, a step for `execute` and a finalisation are `ResultCode` values;
- the steps of a query are a sequence of `Step(code, columns)` values, with
  the column names of each row.

The modules follow the source:

- `DBDefine` (db_define.dfy): the constants of NetService/src/DBDefine.h and
  the fixed-width integer types of the bind overloads.
- `SQLite` (sqlite.dfy): the engine's result codes and the shapes of its answers.
- `Records` (records.dfy): how `query` turns one row into a record. It also
  defines `RecordsetOf`, the specification of the rows a query collects.
- `NetService` (dbcommand.dfy): the `DBCommand` class, plus two client
  methods that prove properties of call sequences from the contracts alone.

The model follows the code where it behaves oddly:

- `fetchFirst` moves the cursor to `DEFAULT_ROW_CURSOR` (1), while `query` and
  `execute` move it to 0. It does so without looking at the recordset, so
  after `fetchFirst` on an empty recordset the cursor lies past its end.
  `cleanup` leaves the cursor past the end of its empty recordset too.
- The text bind advances the bind position even when the engine refuses the
  bind. Every other bind throws and leaves the position where it was.
- `execute` counts only a step that reports `SQLITE_OK` as success.
  SQLite's step reports `SQLITE_ROW`, `SQLITE_DONE` or an error code, never
  `SQLITE_OK`, so with a real engine `execute()` returns false for every
  statement, including one that completes. The model keeps the code's test.
- The type of a record's two key maps is declared in a header that is not
  part of this model. They are taken to be unique-key maps whose `insert`
  ignores a key that is already present, so a record keyed by name keeps
  the FIRST column of a repeated name.
- The body of `resetParamBindPos` is in DBCommand.h, which is not part of
  this model. The position it installs is the constant `PARAM_BIND_START`,
  declared without a value, so no contract depends on what it is.

## Model

| member | source | states |
|---|---|---|
| NetService.DBCommand.constructor | NetService/src/DBCommand.cpp:9-12 | the default constructor leaves an empty command text, no selected row, and the state `cleanup` establishes |
| NetService.DBCommand.Cleanup | NetService/src/DBCommand.cpp:30-38 | connection and statement null, not a result set, cursor `DEFAULT_ROW_CURSOR`, empty recordset, bind position reset; nothing else changes; the cursor is then out of range |
| NetService.DBCommand.SetConnection | NetService/src/DBCommand.cpp:40-43 | only the connection changes, to the given one |
| NetService.DBCommand.SetCommandText | NetService/src/DBCommand.cpp:45-61 | succeeds iff prepare answers `SQLITE_OK`; the statement is what prepare wrote back; on success the text is stored and the bind position reset; on failure both keep their old values |
| NetService.DBCommand.FetchNext | NetService/src/DBCommand.cpp:63-76 | succeeds iff the cursor is below the row count; on success selects the row at the old cursor and advances the cursor by one; on failure nothing changes; keeps the cursor in range |
| NetService.DBCommand.FetchPrev | NetService/src/DBCommand.cpp:78-88 | succeeds iff the cursor is positive; on success steps the cursor back and selects the new cursor's row; on failure nothing changes; keeps the cursor in range |
| NetService.DBCommand.FetchFirst | NetService/src/DBCommand.cpp:90-95 | always succeeds; cursor and selection become `DEFAULT_ROW_CURSOR`; the cursor is in range iff the recordset has at least that many rows |
| NetService.DBCommand.FetchLast | NetService/src/DBCommand.cpp:97-100 | always succeeds and changes nothing |
| NetService.DBCommand.BindText | NetService/src/DBCommand.cpp:102-117 | the bind position advances by exactly one whatever the engine answers |
| NetService.DBCommand.BindOrThrow | NetService/src/DBCommand.cpp:119-129 | shared shape of the throwing binds: advance by one on `SQLITE_OK`, otherwise throw the given message and keep the position |
| NetService.DBCommand.BindInt32 | NetService/src/DBCommand.cpp:119-129 | advances by one on success; otherwise throws "sqlite3_bind_int failed." without advancing |
| NetService.DBCommand.BindInt64 | NetService/src/DBCommand.cpp:131-141 | advances by one on success; otherwise throws "sqlite3_bind_int64 failed." without advancing |
| NetService.DBCommand.BindUInt32 | NetService/src/DBCommand.cpp:143-153 | advances by one on success; otherwise throws "sqlite3_bind_int failed." without advancing |
| NetService.DBCommand.BindUInt64 | NetService/src/DBCommand.cpp:155-165 | advances by one on success; otherwise throws "sqlite3_bind_int64 failed." without advancing |
| NetService.DBCommand.BindDouble | NetService/src/DBCommand.cpp:167-177 | advances by one on success; otherwise throws "sqlite3_bind_double failed." without advancing |
| NetService.DBCommand.BindBlob | NetService/src/DBCommand.cpp:179-189 | advances by one on success; otherwise throws "sqlite3_bind_blob failed." without advancing |
| NetService.DBCommand.Query | NetService/src/DBCommand.cpp:201-242 | needs a connection (the closing log line asks it for the changed-row count); always succeeds; the recordset becomes `RecordsetOf(stmt, steps)` (the old rows are gone); afterwards it is a result set with the cursor at 0 |
| NetService.DBCommand.QueryText | NetService/src/DBCommand.cpp:244-252 | succeeds iff prepare succeeds; on failure nothing but the statement pointer changes and no step is taken; on success (which needs a connection) the text is stored, the bind position reset and the query run |
| NetService.DBCommand.Execute | NetService/src/DBCommand.cpp:254-265 | a step other than `SQLITE_OK` fails and changes nothing; otherwise not a result set, cursor 0, and success iff finalisation answers `SQLITE_OK` |
| NetService.DBCommand.ExecuteText | NetService/src/DBCommand.cpp:267-275 | succeeds only when prepare, step and finalisation all answer `SQLITE_OK`; a failed prepare takes no step and keeps text, bind position, result-set flag and cursor |
| NetService.DBCommand.IsResultSet | NetService/src/DBCommand.cpp:282-285 | reports the result-set flag |
| NetService.NextThenPrev | NetService/src/DBCommand.cpp:63-88 | a successful `fetchNext` followed by `fetchPrev` always succeeds, restores the cursor and leaves the original cursor's row selected |
| NetService.FetchAllAfterQuery | NetService/src/DBCommand.cpp:201-242 | after `query`, repeated `fetchNext` succeeds exactly once per leading row step, the k-th success selecting row k, and stops with the cursor at the row count; only the cursor, the selection and the query's fields change |
| Records.InsertNew | NetService/src/DBCommand.cpp:226-227 | map insertion adds the key, but keeps the old value when the key is already present |
| Records.ReadRecord | NetService/src/DBCommand.cpp:209-228 | the inner loop builds exactly `RecordOf(stmt, columns)` |
| Records.RecordOfByIndex | NetService/src/DBCommand.cpp:212-227 | keyed by index, a record holds exactly the indices `0..colCount-1`, index `i` mapping to column `i`'s field |
| Records.RecordOfByName | NetService/src/DBCommand.cpp:212-226 | keyed by name, a record holds exactly the column names, each mapping to the field of the first column with that name |
| Records.RecordsetOfRows | NetService/src/DBCommand.cpp:203-236 | the collected rows are one record per consecutive `SQLITE_ROW` step, in order, and the step after them is not a row |
| Records.RecordsetOfStops | NetService/src/DBCommand.cpp:204-236 | when stepping eventually reports a non-row result, collection stops before the steps run out |

## Left out

- The SQLite calls themselves (prepare, bind, step, column count and name, finalize). They are foreign code, and the model takes their answers as parameters.
- `rowsAffected` (NetService/src/DBCommand.cpp:277-280) only forwards to `sqlite3_changes`, which is foreign code.
- NetService.DBCommand.Query: requires that stepping eventually reports a non-row result. The source's `while(true)` loop stops only then, and a query that never stops has no final state to describe.
- The log line of the text bind is output only. The log line of `query` is output too, but it first calls `rowsAffected`, which dereferences the connection pointer (NetService/src/DBCommand.cpp:238, 279); `Query` therefore requires a connection, and the null-pointer dereference of a `query` on a freshly constructed or cleaned-up command is not modelled.
- Records.InsertNew: models a unique-key map insert. Were the record's name map a multimap (its declaration is not part of this model), every column of a repeated name would be kept, and Records.RecordOfByName would not describe it.
- `operator[]` by name and by index (NetService/src/DBCommand.cpp:191-199) forwards to DBRecordset, whose code is not part of this model. So do `setRowCursor` and the DBField class; `setRowCursor` is modelled as assigning `selectedRow`.
- Each field is one heap-allocated DBField shared by both key maps. It is not freed anywhere in NetService/src/DBCommand.cpp; whether `Record` frees it is not part of this model. The model stores values, so the sharing and the ownership are not represented.
- The constructors taking a connection (NetService/src/DBCommand.cpp:14-23) are not modelled. `_commandText` and `_dbRecordset` are default-constructed there. `_isResultSet`, `_rowCursor` and `_paramBindPos` stay uninitialised in the two-argument one, as does `_stmt`. The three-argument one's prepare writes `_stmt`, and only a successful prepare sets `_paramBindPos` and `_commandText`. `_isResultSet` and `_rowCursor` stay uninitialised in both. Reading them is undefined behaviour. The destructor only calls `cleanup`.
- Which parameter position a bind uses is not modelled, only the bookkeeping of `bindPos`. The UTF-16 text bind passes a member `_curIndex` declared in DBCommand.h, which is not part of this model.
- The bound values are not modelled. The double of `operator<<(double)` is floating point. The unsigned overloads pass their value to the signed bind calls through an implicit C++ conversion (NetService/src/DBCommand.cpp:145, 157), which turns values above the signed range into negative numbers.
- Statement lifetime: a new prepare overwrites the old statement pointer without finalising it, and `execute` finalises the statement but keeps the dangling pointer. The model keeps only the pointer value.
- Text is an abstract string. The UTF-16 encoding of `DBString` is not modelled.
- The widths of `_rowCursor` and `_paramBindPos` are declared in DBCommand.h, which is not part of this model. They are unbounded naturals here, so neither overflow of these counters nor the `(uint32)` cast in `fetchPrev` (NetService/src/DBCommand.cpp:80) is modelled.
- The message codec, dispatcher and connection layer have no implementation among these files; only the read/write interface NMessage/IBaseMessage.h is present, and it has no logic. The TCP server stub (NetService/src/AsioTcpServer.cpp) is networking plumbing; the login dialog headers are user interface.
