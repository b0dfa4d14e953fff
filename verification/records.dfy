/** The rows `DBCommand::query` collects (NetService/src/DBCommand.cpp:206-231):
    each row becomes a Record whose fields are reachable both by column name
    and by column index. */
module Records {
  import opened SQLite

  /** One column of one row: its name, its index and the statement it was
      read from (the field reads its value from that statement later). */
  datatype Field = Field(name: string, index: nat, stmt: Handle)

  /** A row: the same fields keyed by name and keyed by index. */
  datatype Record = Record(byName: map<string, Field>, byIndex: map<nat, Field>)

  const EmptyRecord := Record(map[], map[])

  /** Insertion into an ordered map that keeps an existing entry: a key that
      is already present keeps its old value. */
  function InsertNew<K, V>(m: map<K, V>, k: K, v: V): (r: map<K, V>)
    ensures r.Keys == m.Keys + {k}
    ensures k in m ==> r == m
    ensures k !in m ==> r[k] == v && forall j :: j in m ==> r[j] == m[j]
  {
    if k in m then m else m[k := v]
  }

  /** The record after inserting `f` under its name and under its index. */
  function AddField(r: Record, f: Field): Record
  {
    Record(InsertNew(r.byName, f.name, f), InsertNew(r.byIndex, f.index, f))
  }

  /** The record built from the columns named `names`, inserted in column
      order, each field bound to statement `stmt`. */
  function RecordOf(stmt: Handle, names: seq<string>): Record
    decreases |names|
  {
    if names == [] then EmptyRecord
    else
      var i := |names| - 1;
      AddField(RecordOf(stmt, names[..i]), Field(names[i], i, stmt))
  }

  /** Keyed by index, a record holds exactly the indices 0 .. colCount-1,
      each mapped to the field of that column. */
  lemma {:induction false} RecordOfByIndex(stmt: Handle, names: seq<string>)
    ensures forall i: nat :: i in RecordOf(stmt, names).byIndex <==> i < |names|
    ensures forall i :: 0 <= i < |names| ==>
      RecordOf(stmt, names).byIndex[i] == Field(names[i], i, stmt)
    decreases |names|
  {
    if names != [] {
      var n := |names| - 1;
      RecordOfByIndex(stmt, names[..n]);
      var keys := RecordOf(stmt, names).byIndex.Keys;
      assert keys == RecordOf(stmt, names[..n]).byIndex.Keys + {n};
      forall i: nat ensures i in keys <==> i < |names| {
        if i < n { assert i in RecordOf(stmt, names[..n]).byIndex; }
      }
      forall i | 0 <= i < n ensures names[..n][i] == names[i] { }
    }
  }

  /** Keyed by name, a record holds exactly the column names; a name shared
      by several columns maps to the field of its FIRST column, because a
      later insertion under the same name is ignored. */
  lemma {:induction false} RecordOfByName(stmt: Handle, names: seq<string>)
    ensures forall s :: s in RecordOf(stmt, names).byName <==> s in names
    ensures forall s :: s in RecordOf(stmt, names).byName ==>
      var f := RecordOf(stmt, names).byName[s];
      f.name == s && f.stmt == stmt && f.index < |names| && names[f.index] == s &&
      forall j :: 0 <= j < f.index ==> names[j] != s
    decreases |names|
  {
    if names != [] {
      var n := |names| - 1;
      var prefix := names[..n];
      RecordOfByName(stmt, prefix);
      assert names == prefix + [names[n]];
      forall s | s in RecordOf(stmt, names).byName
        ensures var f := RecordOf(stmt, names).byName[s];
          f.name == s && f.stmt == stmt && f.index < |names| && names[f.index] == s &&
          forall j :: 0 <= j < f.index ==> names[j] != s
      {
        var f := RecordOf(stmt, names).byName[s];
        if s in RecordOf(stmt, prefix).byName {
          assert f == RecordOf(stmt, prefix).byName[s];
          assert prefix[f.index] == s;
          forall j | 0 <= j < f.index ensures names[j] != s {
            assert prefix[j] != s;
          }
        } else {
          assert s == names[n] && f == Field(names[n], n, stmt);
          forall j | 0 <= j < n ensures names[j] != s {
            assert prefix[j] != s;
          }
        }
      }
    }
  }

  /** The inner loop of `query`: one field per column, inserted under its
      name and under its index. */
  method ReadRecord(stmt: Handle, names: seq<string>) returns (record: Record)
    ensures record == RecordOf(stmt, names)
  {
    record := EmptyRecord;
    for i := 0 to |names|
      invariant record == RecordOf(stmt, names[..i])
    {
      assert names[..i + 1][..i] == names[..i];
      record := AddField(record, Field(names[i], i, stmt));
    }
    assert names[..|names|] == names;
  }

  /** The records `query` collects from `steps`: one per consecutive row
      step, stopping at the first step that is not a row. */
  function RecordsetOf(stmt: Handle, steps: seq<Step>): seq<Record>
    decreases |steps|
  {
    if steps == [] || steps[0].code != SQLITE_ROW then []
    else [RecordOf(stmt, steps[0].columns)] + RecordsetOf(stmt, steps[1..])
  }

  /** Collecting the records of the steps from `i` on, after the records
      `done` of the steps before it: a row step at `i` moves its record to
      the end of `done`. */
  lemma RecordsetOfAdvance(stmt: Handle, steps: seq<Step>, i: nat, done: seq<Record>)
    requires i < |steps| && steps[i].code == SQLITE_ROW
    requires done + RecordsetOf(stmt, steps[i..]) == RecordsetOf(stmt, steps)
    ensures (done + [RecordOf(stmt, steps[i].columns)]) + RecordsetOf(stmt, steps[i + 1..]) == RecordsetOf(stmt, steps)
  {
  }

  /** The recordset holds exactly one record per leading row step, in step
      order, and the step after them (if any) is not a row. */
  lemma {:induction false} RecordsetOfRows(stmt: Handle, steps: seq<Step>)
    ensures |RecordsetOf(stmt, steps)| <= |steps|
    ensures forall i :: 0 <= i < |RecordsetOf(stmt, steps)| ==>
      steps[i].code == SQLITE_ROW && RecordsetOf(stmt, steps)[i] == RecordOf(stmt, steps[i].columns)
    ensures |RecordsetOf(stmt, steps)| < |steps| ==>
      steps[|RecordsetOf(stmt, steps)|].code != SQLITE_ROW
    decreases |steps|
  {
    if steps != [] && steps[0].code == SQLITE_ROW {
      RecordsetOfRows(stmt, steps[1..]);
    }
  }

  /** When the steps end in a non-row result, that result comes right after
      the last collected row. */
  lemma {:induction false} RecordsetOfStops(stmt: Handle, steps: seq<Step>)
    requires Terminates(steps)
    ensures |RecordsetOf(stmt, steps)| < |steps|
    decreases |steps|
  {
    if steps[0].code == SQLITE_ROW {
      var k :| 0 <= k < |steps| && steps[k].code != SQLITE_ROW;
      assert steps[1..][k - 1].code != SQLITE_ROW;
      RecordsetOfStops(stmt, steps[1..]);
    }
  }
}
