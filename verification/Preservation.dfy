/** Data preservation: what the rows of a table keep over a run of migrations. */
module Preservation {
  import opened Schema
  import opened Engine
  import opened Ddl
  import opened Commutation

  /** The operation drops the table for good. */
  predicate Deletes(op: Operation, s: State, table: string) {
    op.DeleteModel? && op.name in s.models && s.models[op.name].table == table
  }

  /** The operation rebuilds the table with no column in common, so that the
      INSERT .. SELECT is left out. */
  predicate LosesRows(op: Operation, s: State, table: string) {
    match op
    case RemoveField(model, name) =>
      model in s.models && s.models[model].table == table &&
      CommonColumns(s.models[model].fields, Without(s.models[model].fields, name)) == []
    case AlterField(model, field) =>
      model in s.models && s.models[model].table == table &&
      CommonColumns(s.models[model].fields, ReplaceFirst(s.models[model].fields, field)) == []
    case _ => false
  }

  function ColumnNames(t: Table): set<string> {
    set c | c in t.columns :: c.name
  }

  /** Same rows in the same order, with the same values in the given columns. */
  ghost predicate KeepsRows(before: Table, after: Table, columns: set<string>) {
    && |after.rows| == |before.rows|
    && forall i, c :: 0 <= i < |before.rows| && c in columns ==> Cell(after.rows[i], c) == Cell(before.rows[i], c)
  }

  lemma CopyRowKeeps(row: Row, names: seq<string>, columns: seq<ColumnDef>, c: string)
    requires c in names && HasColumn(columns, c) && DistinctColumns(columns)
    ensures Cell(CopyRow(row, names, columns), c) == Cell(row, c)
  {
    var i :| 0 <= i < |columns| && columns[i].name == c;
    assert columns[i].name in CopyRow(row, names, columns);
  }

  lemma NamesOfDefs(d: Dialect, t: Table, fields: seq<FieldState>, c: string)
    requires t.columns == Defs(d, fields)
    ensures c in ColumnNames(t) <==> HasColumnNamed(fields, c)
    ensures c in ColumnNames(t) <==> HasColumn(t.columns, c)
  {
    ColumnsOfDefs(d, fields);
    if c in ColumnNames(t) {
      var def :| def in t.columns && def.name == c;
      var i :| 0 <= i < |t.columns| && t.columns[i] == def;
    }
    if HasColumn(t.columns, c) {
      var i :| 0 <= i < |t.columns| && t.columns[i].name == c;
      assert t.columns[i] in t.columns;
    }
  }

  lemma RebuildKeepsRows(d: Dialect, before: Table, after: Table, oldFields: seq<FieldState>,
                         newFields: seq<FieldState>)
    requires before.columns == Defs(d, oldFields) && after.columns == Defs(d, newFields)
    requires DistinctColumns(after.columns)
    requires after.rows == RebuiltRows(d, before.rows, oldFields, newFields)
    ensures CommonColumns(oldFields, newFields) == [] ==> after.rows == []
    ensures CommonColumns(oldFields, newFields) != [] ==>
              KeepsRows(before, after, ColumnNames(before) * ColumnNames(after))
  {
    var common := CommonColumns(oldFields, newFields);
    if common != [] {
      forall i, c | 0 <= i < |before.rows| && c in ColumnNames(before) * ColumnNames(after)
        ensures Cell(after.rows[i], c) == Cell(before.rows[i], c)
      {
        NamesOfDefs(d, before, oldFields, c);
        NamesOfDefs(d, after, newFields, c);
        CopyRowKeeps(before.rows[i], common, after.columns, c);
      }
    }
  }

  /** An accepted rebuild of a model's table, seen from any table. */
  lemma RebuildPreserves(d: Dialect, r: Run, ms: ModelState, fields: seq<FieldState>, table: string)
    requires ms.table in r.tables && r.tables[ms.table].columns == Defs(d, ms.fields) && table in r.tables
    requires ExecAll(d, RebuildTableSql(d, ms.table, ms.fields, fields), r.tables).Some?
    ensures var tables := r.tables[ms.table := Rebuilt(d, r.tables[ms.table].rows, ms.fields, fields)];
            if table == ms.table && CommonColumns(ms.fields, fields) == [] then tables[table].rows == []
            else KeepsRows(r.tables[table], tables[table], ColumnNames(r.tables[table]) * ColumnNames(tables[table]))
  {
    RebuildEffect(d, ms.table, ms.fields, fields, r.tables);
    if table == ms.table {
      RebuildKeepsRows(d, r.tables[table], Rebuilt(d, r.tables[table].rows, ms.fields, fields), ms.fields, fields);
    }
  }

  /** One operation, seen from any table it does not drop: the rows stay, in order,
      with their values in every column that stays, unless it is a rebuild with no
      common column, which empties the table. */
  lemma StepPreserves(d: Dialect, op: Operation, r: Run, table: string)
    requires Tracks(d, r) && StepOp(d, op, r).Some?
    requires table in r.tables && !Deletes(op, r.state, table)
    ensures var tables := StepOp(d, op, r).value.tables;
            && table in tables
            && if LosesRows(op, r.state, table) then tables[table].rows == []
               else KeepsRows(r.tables[table], tables[table], ColumnNames(r.tables[table]) * ColumnNames(tables[table]))
  {
    StepEffect(d, op, r);
    match op
    case CreateModel(_, _, _) =>
    case DeleteModel(_) =>
    case AddField(model, field) =>
      if table == r.state.models[model].table {
        NamesOfDefs(d, r.tables[table], r.state.models[model].fields, field.column);
      }
    case RemoveField(model, name) =>
      var ms := r.state.models[model];
      RebuildPreserves(d, r, ms, Without(ms.fields, name), table);
    case AlterField(model, field) =>
      var ms := r.state.models[model];
      RebuildPreserves(d, r, ms, ReplaceFirst(ms.fields, field), table);
  }

  /** No operation of the run drops or empties the table. */
  predicate NeverLost(d: Dialect, ops: seq<Operation>, r: Run, table: string) {
    ops == [] ||
    (!Deletes(ops[0], r.state, table) && !LosesRows(ops[0], r.state, table) &&
     (StepOp(d, ops[0], r).Some? ==> NeverLost(d, ops[1..], StepOp(d, ops[0], r).value, table)))
  }

  /** The columns the table has before, between and after all operations of the run. */
  function PresentThroughout(d: Dialect, ops: seq<Operation>, r: Run, table: string): set<string> {
    var here := if table in r.tables then ColumnNames(r.tables[table]) else {};
    if ops == [] || StepOp(d, ops[0], r).None? then here
    else here * PresentThroughout(d, ops[1..], StepOp(d, ops[0], r).value, table)
  }

  // ----- The same, said of every state on the way -----

  /** The run behind the first k operations. */
  function Behind(d: Dialect, ops: seq<Operation>, r: Run, k: nat): Option<Run>
    requires k <= |ops|
  {
    RunOps(d, ops[..k], r)
  }

  lemma BehindNext(d: Dialect, ops: seq<Operation>, r: Run, k: nat)
    requires k < |ops|
    ensures Behind(d, ops, r, k + 1)
            == match StepOp(d, ops[0], r) case None => None case Some(r') => Behind(d, ops[1..], r', k)
  {
    assert ops[..k + 1][0] == ops[0] && ops[..k + 1][1..] == ops[1..][..k];
  }

  predicate KeptAt(d: Dialect, ops: seq<Operation>, r: Run, table: string, k: nat)
    requires k < |ops|
  {
    var before := Behind(d, ops, r, k);
    before.Some? ==> !Deletes(ops[k], before.value.state, table) && !LosesRows(ops[k], before.value.state, table)
  }

  predicate ColumnAt(d: Dialect, ops: seq<Operation>, r: Run, table: string, c: string, k: nat)
    requires k <= |ops|
  {
    var now := Behind(d, ops, r, k);
    now.Some? ==> table in now.value.tables && c in ColumnNames(now.value.tables[table])
  }

  lemma FirstBehind(d: Dialect, ops: seq<Operation>, r: Run)
    ensures Behind(d, ops, r, 0) == Some(r)
  {
  }

  lemma KeptNext(d: Dialect, ops: seq<Operation>, r: Run, table: string, k: nat)
    requires k + 1 < |ops|
    ensures KeptAt(d, ops, r, table, k + 1) <==>
            (StepOp(d, ops[0], r).Some? ==> KeptAt(d, ops[1..], StepOp(d, ops[0], r).value, table, k))
  {
    BehindNext(d, ops, r, k);
  }

  lemma ColumnNext(d: Dialect, ops: seq<Operation>, r: Run, table: string, c: string, k: nat)
    requires k < |ops|
    ensures ColumnAt(d, ops, r, table, c, k + 1) <==>
            (StepOp(d, ops[0], r).Some? ==> ColumnAt(d, ops[1..], StepOp(d, ops[0], r).value, table, c, k))
  {
    BehindNext(d, ops, r, k);
  }

  predicate AlwaysKept(d: Dialect, ops: seq<Operation>, r: Run, table: string) {
    forall k :: 0 <= k < |ops| ==> KeptAt(d, ops, r, table, k)
  }

  predicate AlwaysColumn(d: Dialect, ops: seq<Operation>, r: Run, table: string, c: string) {
    forall k :: 0 <= k <= |ops| ==> ColumnAt(d, ops, r, table, c, k)
  }

  lemma AlwaysKeptCons(d: Dialect, ops: seq<Operation>, r: Run, table: string)
    requires ops != []
    ensures AlwaysKept(d, ops, r, table) <==>
            && KeptAt(d, ops, r, table, 0)
            && (StepOp(d, ops[0], r).Some? ==> AlwaysKept(d, ops[1..], StepOp(d, ops[0], r).value, table))
  {
    if AlwaysKept(d, ops, r, table) && StepOp(d, ops[0], r).Some? {
      forall k | 0 <= k < |ops| - 1
        ensures KeptAt(d, ops[1..], StepOp(d, ops[0], r).value, table, k)
      {
        KeptNext(d, ops, r, table, k);
      }
    }
    if StepOp(d, ops[0], r).Some? ==> AlwaysKept(d, ops[1..], StepOp(d, ops[0], r).value, table) {
      forall k | 0 < k < |ops| ensures KeptAt(d, ops, r, table, k) {
        KeptNext(d, ops, r, table, k - 1);
      }
    }
  }

  lemma AlwaysColumnTail(d: Dialect, ops: seq<Operation>, r: Run, table: string, c: string)
    requires ops != [] && AlwaysColumn(d, ops, r, table, c) && StepOp(d, ops[0], r).Some?
    ensures AlwaysColumn(d, ops[1..], StepOp(d, ops[0], r).value, table, c)
  {
    forall k | 0 <= k <= |ops| - 1
      ensures ColumnAt(d, ops[1..], StepOp(d, ops[0], r).value, table, c, k)
    {
      ColumnNext(d, ops, r, table, c, k);
    }
  }

  lemma AlwaysColumnHead(d: Dialect, ops: seq<Operation>, r: Run, table: string, c: string)
    requires ops != [] && ColumnAt(d, ops, r, table, c, 0)
    requires StepOp(d, ops[0], r).Some? ==> AlwaysColumn(d, ops[1..], StepOp(d, ops[0], r).value, table, c)
    ensures AlwaysColumn(d, ops, r, table, c)
  {
    forall k | 0 < k <= |ops| ensures ColumnAt(d, ops, r, table, c, k) {
      ColumnNext(d, ops, r, table, c, k - 1);
    }
  }

  /** A table is never lost exactly when no operation that is reached deletes or empties it. */
  lemma {:induction false} NeverLostIff(d: Dialect, ops: seq<Operation>, r: Run, table: string)
    ensures NeverLost(d, ops, r, table) <==> AlwaysKept(d, ops, r, table)
    decreases |ops|
  {
    if ops != [] {
      AlwaysKeptCons(d, ops, r, table);
      FirstBehind(d, ops, r);
      if StepOp(d, ops[0], r).Some? {
        NeverLostIff(d, ops[1..], StepOp(d, ops[0], r).value, table);
      }
    }
  }

  /** A column is present throughout exactly when the table has it at every point reached. */
  lemma {:induction false} PresentIff(d: Dialect, ops: seq<Operation>, r: Run, table: string, c: string)
    ensures c in PresentThroughout(d, ops, r, table) <==> AlwaysColumn(d, ops, r, table, c)
    decreases |ops|
  {
    FirstBehind(d, ops, r);
    assert ColumnAt(d, ops, r, table, c, 0) <==> table in r.tables && c in ColumnNames(r.tables[table]);
    if ops != [] {
      if StepOp(d, ops[0], r).Some? {
        PresentIff(d, ops[1..], StepOp(d, ops[0], r).value, table, c);
      }
      if AlwaysColumn(d, ops, r, table, c) {
        if StepOp(d, ops[0], r).Some? { AlwaysColumnTail(d, ops, r, table, c); }
      } else if c in PresentThroughout(d, ops, r, table) {
        AlwaysColumnHead(d, ops, r, table, c);
      }
    }
  }

  lemma PresentNow(d: Dialect, ops: seq<Operation>, r: Run, table: string)
    requires table in r.tables
    ensures PresentThroughout(d, ops, r, table) <= ColumnNames(r.tables[table])
  {
  }

  lemma KeepsRowsTransitive(a: Table, b: Table, c: Table, first: set<string>, second: set<string>)
    requires KeepsRows(a, b, first) && KeepsRows(b, c, second)
    ensures KeepsRows(a, c, first * second)
  {
  }

  lemma KeepsFewer(a: Table, b: Table, columns: set<string>, fewer: set<string>)
    requires KeepsRows(a, b, columns) && fewer <= columns
    ensures KeepsRows(a, b, fewer)
  {
  }

  lemma RunPreservesCons(d: Dialect, ops: seq<Operation>, r: Run, r': Run, after: Table, table: string)
    requires ops != [] && table in r.tables && StepOp(d, ops[0], r) == Some(r') && table in r'.tables
    requires KeepsRows(r.tables[table], r'.tables[table], ColumnNames(r.tables[table]) * ColumnNames(r'.tables[table]))
    requires KeepsRows(r'.tables[table], after, PresentThroughout(d, ops[1..], r', table))
    ensures KeepsRows(r.tables[table], after, PresentThroughout(d, ops, r, table))
  {
    var rest := PresentThroughout(d, ops[1..], r', table);
    var here, there := ColumnNames(r.tables[table]), ColumnNames(r'.tables[table]);
    PresentNow(d, ops[1..], r', table);
    KeepsRowsTransitive(r.tables[table], r'.tables[table], after, here * there, rest);
    assert PresentThroughout(d, ops, r, table) == here * rest;
    KeepsFewer(r.tables[table], after, here * there * rest, here * rest);
  }

  /** Over any accepted run a table that is never dropped nor emptied keeps its
      rows, and every row its value in every column present throughout. */
  lemma {:induction false} RunPreserves(d: Dialect, ops: seq<Operation>, r: Run, table: string)
    requires Tracks(d, r) && FieldsUnique(r.state) && AddsNoDuplicates(ops, r.state)
    requires RunOps(d, ops, r).Some?
    requires table in r.tables && NeverLost(d, ops, r, table)
    ensures var tables := RunOps(d, ops, r).value.tables;
            table in tables && KeepsRows(r.tables[table], tables[table], PresentThroughout(d, ops, r, table))
  {
    if ops != [] {
      var r' := StepOp(d, ops[0], r).value;
      StepCommutes(d, ops[0], r);
      StepPreserves(d, ops[0], r, table);
      RunPreserves(d, ops[1..], r', table);
      var after := RunOps(d, ops[1..], r').value.tables[table];
      RunPreservesCons(d, ops, r, r', after, table);
    }
  }
}
