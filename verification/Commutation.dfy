/** The two faces of a migration operation agree: running its SQL on a database
    that matches a project state gives a database that matches the applied state,
    and loses no data of the columns that stay. */
module Commutation {
  import opened Schema
  import opened Engine
  import opened Ddl

  /** Every model has its own table, whose ordered column names and definitions
      are the ones its fields render to. */
  ghost predicate Tracks(d: Dialect, r: Run) {
    && (forall m :: m in r.state.models ==> TrackedBy(d, r.state.models[m], r.tables))
    && (forall m, n :: m in r.state.models && n in r.state.models && m != n ==>
          r.state.models[m].table != r.state.models[n].table)
  }

  ghost predicate TrackedBy(d: Dialect, ms: ModelState, tables: Tables) {
    ms.table in tables && tables[ms.table].columns == Defs(d, ms.fields)
  }

  // ----- The temp-table rebuild -----

  function RebuiltRows(d: Dialect, rows: seq<Row>, oldFields: seq<FieldState>,
                       newFields: seq<FieldState>): (r: seq<Row>) {
    var common := CommonColumns(oldFields, newFields);
    if |common| == 0 then []
    else CopyRows(rows, common, Defs(d, newFields))
  }

  lemma ColumnsOfDefs(d: Dialect, fields: seq<FieldState>)
    ensures forall c :: HasColumn(Defs(d, fields), c) <==> HasColumnNamed(fields, c)
  {
    forall c
      ensures HasColumn(Defs(d, fields), c) <==> HasColumnNamed(fields, c)
    {
      if HasColumnNamed(fields, c) {
        var i :| 0 <= i < |fields| && fields[i].column == c;
        assert Defs(d, fields)[i].name == c;
      }
      if HasColumn(Defs(d, fields), c) {
        var i :| 0 <= i < |fields| && Defs(d, fields)[i].name == c;
        assert fields[i].column == c;
      }
    }
  }

  /** The new table under its temporary name, empty and with the copied rows. */
  function EmptyTable(d: Dialect, fields: seq<FieldState>): Table {
    Table(Defs(d, fields), ForeignKeys(fields), [])
  }

  function Rebuilt(d: Dialect, rows: seq<Row>, oldFields: seq<FieldState>, newFields: seq<FieldState>): Table {
    Table(Defs(d, newFields), ForeignKeys(newFields), RebuiltRows(d, rows, oldFields, newFields))
  }

  lemma CreateTemp(d: Dialect, table: string, fields: seq<FieldState>, rest: seq<Stmt>, tables: Tables)
    ensures ExecAll(d, [CreateTableSql(d, table, fields)] + rest, tables) ==
            if table in tables || !Creatable(d, table, Defs(d, fields), ForeignKeys(fields), tables) then None
            else ExecAll(d, rest, tables[table := EmptyTable(d, fields)])
  {
    var create := CreateTableSql(d, table, fields);
    ExecAllConcat(d, [create], rest, tables);
    ExecAllOne(d, create, tables);
  }

  lemma InsertIntoTemp(d: Dialect, table: string, oldFields: seq<FieldState>, newFields: seq<FieldState>,
                       tables: Tables)
    requires table in tables && tables[table].columns == Defs(d, oldFields)
    requires TempName(table) in tables && TempName(table) != table
    requires tables[TempName(table)] == EmptyTable(d, newFields)
    ensures var names := CommonColumns(oldFields, newFields);
            Exec(d, InsertSelect(TempName(table), names, table), tables)
            == if !Copyable(d, names, Defs(d, oldFields), Defs(d, newFields)) then None
              else Some(tables[TempName(table) := Table(Defs(d, newFields), ForeignKeys(newFields),
                                                  CopyRows(tables[table].rows, names, Defs(d, newFields)))])
  {
    var copies := CopyRows(tables[table].rows, CommonColumns(oldFields, newFields), Defs(d, newFields));
    assert [] + copies == copies;
    ColumnsOfDefs(d, oldFields);
    ColumnsOfDefs(d, newFields);
  }

  function InsertSql(table: string, common: seq<string>): seq<Stmt> {
    if |common| > 0 then [InsertSelect(TempName(table), common, table)] else []
  }

  lemma UpdateTwice(tables: Tables, name: string, a: Table, b: Table)
    ensures tables[name := a][name := b] == tables[name := b]
  {
  }

  lemma FillTemp(d: Dialect, table: string, oldFields: seq<FieldState>, newFields: seq<FieldState>, rest: seq<Stmt>,
                 tables: Tables)
    requires table in tables && tables[table].columns == Defs(d, oldFields) && TempName(table) != table
    ensures ExecAll(d, InsertSql(table, CommonColumns(oldFields, newFields)) + rest,
                    tables[TempName(table) := EmptyTable(d, newFields)])
            == if !Copyable(d, CommonColumns(oldFields, newFields), Defs(d, oldFields), Defs(d, newFields)) then None
               else ExecAll(d, rest, tables[TempName(table) := Rebuilt(d, tables[table].rows, oldFields, newFields)])
  {
    var common, empty := CommonColumns(oldFields, newFields), tables[TempName(table) := EmptyTable(d, newFields)];
    if |common| > 0 {
      var insert := InsertSelect(TempName(table), common, table);
      ExecAllConcat(d, [insert], rest, empty);
      ExecAllOne(d, insert, empty);
      InsertIntoTemp(d, table, oldFields, newFields, empty);
      UpdateTwice(tables, TempName(table), EmptyTable(d, newFields),
                  Rebuilt(d, tables[table].rows, oldFields, newFields));
    } else {
      assert [] + rest == rest;
    }
  }

  /** Behind the copy the old table is still referred to if it was, or if its successor
      refers to it. */
  lemma ReferredBesideTemp(table: string, temp: string, t: Table, tables: Tables)
    requires temp !in tables && temp != table
    ensures Referred(table, tables[temp := t]) <==> Referred(table, tables) || Targets(t.foreignKeys, table)
  {
    var more := tables[temp := t];
    if Targets(t.foreignKeys, table) {
      assert temp in more && Targets(more[temp].foreignKeys, table);
    }
    if Referred(table, tables) {
      var u :| u in tables && u != table && Targets(tables[u].foreignKeys, table);
      assert u in more && Targets(more[u].foreignKeys, table);
    }
  }

  lemma TempTakesOver(d: Dialect, tables: Tables, table: string, temp: string, t: Table)
    requires table in tables && temp !in tables
    ensures ExecAll(d, [DropTable(table), RenameTable(temp, table)], tables[temp := t]) ==
            if ChecksKeys(d) && (Referred(table, tables) || Targets(t.foreignKeys, table)) then None
              else Some(tables[table := t])
  {
    var all := tables[temp := t];
    var left := all - {table};
    ReferredBesideTemp(table, temp, t, tables);
    assert [DropTable(table), RenameTable(temp, table)] == [DropTable(table)] + [RenameTable(temp, table)];
    ExecAllConcat(d, [DropTable(table)], [RenameTable(temp, table)], all);
    ExecAllOne(d, DropTable(table), all);
    ExecAllOne(d, RenameTable(temp, table), left);
    assert (left - {temp})[table := t] == tables[table := t];
  }

  /** When the statements of a rebuild are accepted: the temporary name is free, the new
      table can be created under it and takes what is copied, and on PostgreSQL nothing
      refers to the old table, which its successor does when the model has a foreign key
      to itself. */
  predicate RebuildAccepted(d: Dialect, table: string, was: seq<FieldState>, fields: seq<FieldState>, tables: Tables) {
    && TempName(table) !in tables
    && Creatable(d, TempName(table), Defs(d, fields), ForeignKeys(fields), tables)
    && Copyable(d, CommonColumns(was, fields), Defs(d, was), Defs(d, fields))
    && (ChecksKeys(d) ==> !Referred(table, tables) && !Targets(ForeignKeys(fields), table))
  }

  /** What CREATE, INSERT, DROP, RENAME amount to: where they are accepted only the one
      table changes, to the new columns and the copied rows. */
  lemma RebuildEffect(d: Dialect, table: string, oldFields: seq<FieldState>, newFields: seq<FieldState>, tables: Tables)
    requires table in tables && tables[table].columns == Defs(d, oldFields)
    ensures ExecAll(d, RebuildTableSql(d, table, oldFields, newFields), tables) ==
            if !RebuildAccepted(d, table, oldFields, newFields, tables) then None
            else Some(tables[table := Rebuilt(d, tables[table].rows, oldFields, newFields)])
  {
    var temp, common := TempName(table), CommonColumns(oldFields, newFields);
    assert |temp| != |table|;
    var tail := [DropTable(table), RenameTable(temp, table)];
    var rest := InsertSql(table, common) + tail;
    assert RebuildTableSql(d, table, oldFields, newFields) == [CreateTableSql(d, temp, newFields)] + rest;
    CreateTemp(d, temp, newFields, rest, tables);
    if temp !in tables {
      FillTemp(d, table, oldFields, newFields, tail, tables);
      TempTakesOver(d, tables, table, temp, Rebuilt(d, tables[table].rows, oldFields, newFields));
    }
  }

  // ----- RemoveField: SQL drops every match, Apply only the first -----

  function Count(fields: seq<FieldState>, name: string): nat {
    if fields == [] then 0 else (if fields[0].name == name then 1 else 0) + Count(fields[1..], name)
  }

  lemma {:induction false} CountUnique(fields: seq<FieldState>, name: string)
    requires UniqueNames(fields)
    ensures Count(fields, name) == if HasField(fields, name) then 1 else 0
  {
    if fields != [] {
      CountUnique(fields[1..], name);
      var i := IndexOf(fields[1..], name);
      assert i < |fields[1..]| ==> fields[1..][i] == fields[i + 1];
    }
  }

  lemma RemoveFirstCons(fields: seq<FieldState>, name: string)
    requires fields != []
    ensures RemoveFirst(fields, name) ==
            if fields[0].name == name then fields[1..] else [fields[0]] + RemoveFirst(fields[1..], name)
  {
    if fields[0].name != name {
      var i := IndexOf(fields[1..], name);
      if i < |fields[1..]| {
        assert fields[..i + 1] + fields[i + 2..] == [fields[0]] + (fields[1..][..i] + fields[1..][i + 1..]);
      }
    }
  }

  lemma {:induction false} WithoutLength(fields: seq<FieldState>, name: string)
    ensures |Without(fields, name)| == |fields| - Count(fields, name)
    ensures Count(fields, name) == 0 ==> Without(fields, name) == fields
  {
    if fields != [] {
      WithoutLength(fields[1..], name);
    }
  }

  lemma {:induction false} CountPositive(fields: seq<FieldState>, name: string)
    ensures Count(fields, name) > 0 <==> HasField(fields, name)
  {
    if fields != [] {
      CountPositive(fields[1..], name);
    }
  }

  /** The rebuilt column list and the applied field list of a RemoveField agree
      exactly when the name occurs at most once. */
  lemma {:induction false} WithoutIsRemoveFirst(fields: seq<FieldState>, name: string)
    ensures Without(fields, name) == RemoveFirst(fields, name) <==> Count(fields, name) <= 1
  {
    WithoutLength(fields, name);
    CountPositive(fields, name);
    if Count(fields, name) <= 1 && fields != [] {
      WithoutIsRemoveFirst(fields[1..], name);
      WithoutLength(fields[1..], name);
      RemoveFirstCons(fields, name);
    }
  }

  // ----- One operation -----

  /** What one operation does to the tables of a matching database, when its SQL
      is accepted: only the model's own table changes. */
  lemma StepEffect(d: Dialect, op: Operation, r: Run)
    requires Tracks(d, r) && StepOp(d, op, r).Some?
    ensures var tables := StepOp(d, op, r).value.tables;
            match op
            case CreateModel(_, table, fields) =>
              table !in r.tables && tables == r.tables[table := Table(Defs(d, fields), ForeignKeys(fields), [])]
            case DeleteModel(name) => tables == r.tables - {r.state.models[name].table}
            case AddField(model, field) =>
              var table := r.state.models[model].table;
              var t := r.tables[table];
              && !HasColumn(t.columns, field.column) && Addable(d, Def(d, field))
              && tables == r.tables[table := Table(t.columns + [Def(d, field)], t.foreignKeys,
                                                   AddNull(t.rows, field.column))]
            case RemoveField(model, name) =>
              var ms := r.state.models[model];
              var fields := Without(ms.fields, name);
              tables == r.tables[ms.table := Rebuilt(d, r.tables[ms.table].rows, ms.fields, fields)]
            case AlterField(model, field) =>
              var ms := r.state.models[model];
              var fields := ReplaceFirst(ms.fields, field);
              tables == r.tables[ms.table := Rebuilt(d, r.tables[ms.table].rows, ms.fields, fields)]
  {
    var stmts := OpSql(d, op, r.state).stmts;
    match op
    case CreateModel(_, _, _) => ExecAllOne(d, stmts[0], r.tables);
    case DeleteModel(_) => ExecAllOne(d, stmts[0], r.tables);
    case AddField(_, _) => ExecAllOne(d, stmts[0], r.tables);
    case RemoveField(model, name) =>
      var ms := r.state.models[model];
      RebuildEffect(d, ms.table, ms.fields, Without(ms.fields, name), r.tables);
    case AlterField(model, field) =>
      var ms := r.state.models[model];
      RebuildEffect(d, ms.table, ms.fields, ReplaceFirst(ms.fields, field), r.tables);
  }

  lemma ModelChanged(d: Dialect, r: Run, model: string, fields: seq<FieldState>, t: Table)
    requires Tracks(d, r) && model in r.state.models && t.columns == Defs(d, fields)
    ensures var ms := r.state.models[model].(fields := fields);
            Tracks(d, Run(r.state.(models := r.state.models[model := ms]), r.tables[ms.table := t]))
  {
  }

  lemma RebuildCommutes(d: Dialect, r: Run, model: string, fields: seq<FieldState>)
    requires Tracks(d, r) && model in r.state.models
    ensures var ms := r.state.models[model];
            Tracks(d, Run(r.state.(models := r.state.models[model := ms.(fields := fields)]),
                          r.tables[ms.table := Rebuilt(d, r.tables[ms.table].rows, ms.fields, fields)]))
  {
    var ms := r.state.models[model];
    ModelChanged(d, r, model, fields, Rebuilt(d, r.tables[ms.table].rows, ms.fields, fields));
  }

  lemma CreateCommutes(d: Dialect, r: Run, ms: ModelState, order: seq<string>, t: Table)
    requires Tracks(d, r) && ms.table !in r.tables && t.columns == Defs(d, ms.fields)
    ensures Tracks(d, Run(State(r.state.models[ms.name := ms], order), r.tables[ms.table := t]))
  {
  }

  lemma DeleteCommutes(d: Dialect, r: Run, name: string, order: seq<string>)
    requires Tracks(d, r) && name in r.state.models
    ensures Tracks(d, Run(State(r.state.models - {name}, order), r.tables - {r.state.models[name].table}))
  {
  }

  /** Running op.SQL against the pre-op state and then op.Apply keeps database and
      state in agreement, for each of the five operations. */
  lemma StepCommutes(d: Dialect, op: Operation, r: Run)
    requires Tracks(d, r) && StepOp(d, op, r).Some?
    requires FieldsUnique(r.state) && AddsNoDuplicate(op, r.state)
    ensures Tracks(d, StepOp(d, op, r).value)
    ensures FieldsUnique(StepOp(d, op, r).value.state)
  {
    ApplyKeepsFieldsUnique(op, r.state);
    StepEffect(d, op, r);
    var r' := StepOp(d, op, r).value;
    match op
    case CreateModel(name, table, fields) =>
      CreateCommutes(d, r, ModelState(name, table, fields), r'.state.order, r'.tables[table]);
    case DeleteModel(name) =>
      DeleteCommutes(d, r, name, r'.state.order);
    case AddField(model, field) =>
      var fields := r.state.models[model].fields;
      assert Defs(d, fields + [field]) == Defs(d, fields) + [Def(d, field)];
      ModelChanged(d, r, model, fields + [field], r'.tables[r.state.models[model].table]);
    case RemoveField(model, name) =>
      var fields := r.state.models[model].fields;
      CountUnique(fields, name);
      WithoutIsRemoveFirst(fields, name);
      RebuildCommutes(d, r, model, Without(fields, name));
    case AlterField(model, field) =>
      RebuildCommutes(d, r, model, ReplaceFirst(r.state.models[model].fields, field));
  }

  /** Without the hypothesis on names RemoveField breaks the agreement: it keeps it
      exactly when the model has the name once. */
  lemma RemoveFieldCommutesIff(d: Dialect, model: string, name: string, r: Run)
    requires Tracks(d, r) && StepOp(d, RemoveField(model, name), r).Some?
    ensures Tracks(d, StepOp(d, RemoveField(model, name), r).value)
            <==> Count(r.state.models[model].fields, name) == 1
  {
    var op := RemoveField(model, name);
    StepEffect(d, op, r);
    var fields := r.state.models[model].fields;
    var r' := StepOp(d, op, r).value;
    CountPositive(fields, name);
    WithoutIsRemoveFirst(fields, name);
    if Count(fields, name) == 1 {
      RebuildCommutes(d, r, model, Without(fields, name));
    } else {
      WithoutLength(fields, name);
      assert |RemoveFirst(fields, name)| == |fields| - 1;
      assert r'.state.models[model].fields == RemoveFirst(fields, name);
      assert !TrackedBy(d, r'.state.models[model], r'.tables);
    }
  }

  /** A database that matches a state of the one model M. */
  function OneModelRun(d: Dialect, fields: seq<FieldState>): Run {
    Run(State(map["M" := ModelState("M", "m", fields)], ["M"]),
      map["m" := Table(Defs(d, fields), ForeignKeys(fields), [])])
  }

  /** A lone table that nothing refers to can be rebuilt to one column without a key. */
  lemma OneFieldAccepted(d: Dialect, table: string, was: seq<FieldState>, f: FieldState, tables: Tables)
    requires forall u :: u in tables ==> u == table
    requires !HasClause(f) && TypeFits(d, Def(d, f)) && IsText(TypeOf(f))
    ensures RebuildAccepted(d, table, was, [f], tables)
  {
    assert |TempName(table)| != |table|;
    assert ForeignKeys([f]) == KeyOf(f) + ForeignKeys([]);
  }

  lemma RemoveStep(d: Dialect, model: string, name: string, r: Run)
    requires Tracks(d, r) && model in r.state.models && HasField(r.state.models[model].fields, name)
    requires var ms := r.state.models[model];
             RebuildAccepted(d, ms.table, ms.fields, Without(ms.fields, name), r.tables)
    ensures StepOp(d, RemoveField(model, name), r).Some?
  {
    var ms := r.state.models[model];
    RebuildEffect(d, ms.table, ms.fields, Without(ms.fields, name), r.tables);
  }

  lemma RemoveAccepted(d: Dialect, fields: seq<FieldState>)
    requires HasField(fields, "B") && Without(fields, "B") == [TextField("A", "a")]
    ensures StepOp(d, RemoveField("M", "B"), OneModelRun(d, fields)).Some?
  {
    var r := OneModelRun(d, fields);
    OneFieldAccepted(d, "m", fields, TextField("A", "a"), r.tables);
    RemoveStep(d, "M", "B", r);
  }

  /** Columns b and c under one field name: the SQL drops both, Apply drops b only. */
  lemma RepeatedNameBreaks(d: Dialect)
    ensures var r := OneModelRun(d, [TextField("A", "a"), TextField("B", "b"), TextField("B", "c")]);
            var next := StepOp(d, RemoveField("M", "B"), r);
            Tracks(d, r) && next.Some? && !Tracks(d, next.value)
  {
    var fields := [TextField("A", "a"), TextField("B", "b"), TextField("B", "c")];
    var r := OneModelRun(d, fields);
    assert fields[1..] == [TextField("B", "b"), TextField("B", "c")] && fields[2..] == [TextField("B", "c")];
    assert fields[1..][1..] == fields[2..] && fields[2..][1..] == [];
    assert Count(fields, "B") == 2 && Without(fields[1..], "B") == [] && Without(fields, "B") == [TextField("A", "a")];
    RemoveAccepted(d, fields);
    RemoveFieldCommutesIff(d, "M", "B", r);
  }

  // ----- Foreign keys -----

  ghost predicate KeysMatch(ms: ModelState, tables: Tables) {
    ms.table in tables && tables[ms.table].foreignKeys == ForeignKeys(ms.fields)
  }

  lemma {:induction false} ForeignKeysSnoc(fields: seq<FieldState>, f: FieldState)
    ensures ForeignKeys(fields + [f]) == ForeignKeys(fields) + KeyOf(f)
  {
    if fields == [] {
      assert [f][1..] == [];
    } else {
      assert (fields + [f])[1..] == fields[1..] + [f];
      ForeignKeysSnoc(fields[1..], f);
    }
  }

  /** Agreement does not extend to FOREIGN KEY clauses: a model that matched keeps
      matching exactly unless the operation adds a foreign-key field, since ADD
      COLUMN renders no clause. A rebuild restores them. */
  lemma ForeignKeysMatchIff(d: Dialect, op: Operation, r: Run)
    requires Tracks(d, r) && StepOp(d, op, r).Some? && !op.DeleteModel?
    requires FieldsUnique(r.state) && AddsNoDuplicate(op, r.state)
    requires op.AddField? ==> KeysMatch(r.state.models[ModelOf(op)], r.tables)
    ensures var r' := StepOp(d, op, r).value;
            ModelOf(op) in r'.state.models
            && (KeysMatch(r'.state.models[ModelOf(op)], r'.tables) <==> !(op.AddField? && HasClause(op.field)))
  {
    StepEffect(d, op, r);
    match op
    case AddField(model, field) => ForeignKeysSnoc(r.state.models[model].fields, field);
    case RemoveField(model, name) =>
      CountUnique(r.state.models[model].fields, name);
      WithoutIsRemoveFirst(r.state.models[model].fields, name);
    case _ =>
  }

  /** A nullable foreign key added to a model: the state has a clause for it, the table
      does not. */
  lemma AddedKeyHasNoClause(d: Dialect)
    ensures var r := OneModelRun(d, [TextField("A", "a")]);
            var key := KeyField("author").(nullable := true);
            var next := StepOp(d, AddField("M", key), r);
            && KeysMatch(r.state.models["M"], r.tables) && next.Some?
            && !KeysMatch(next.value.state.models["M"], next.value.tables)
  {
    var r := OneModelRun(d, [TextField("A", "a")]);
    var key := KeyField("author").(nullable := true);
    var stmt := AddColumn("m", Def(d, key));
    ExecAllOne(d, stmt, r.tables);
    assert !HasColumn(r.tables["m"].columns, "target_id");
    assert Exec(d, stmt, r.tables).Some?;
    ForeignKeysMatchIff(d, AddField("M", key), r);
  }

  // ----- Whole runs -----

  /** Every operation, in the state it is applied to, adds no duplicate field name. */
  predicate AddsNoDuplicates(ops: seq<Operation>, s: State) {
    ops == [] || (AddsNoDuplicate(ops[0], s) &&
                  (ApplyOp(ops[0], s).Some? ==> AddsNoDuplicates(ops[1..], ApplyOp(ops[0], s).value)))
  }

  /** After any accepted sequence of operations the ordered columns of every
      tracked table are those of the replayed project state. */
  lemma {:induction false} RunCommutes(d: Dialect, ops: seq<Operation>, r: Run)
    requires Tracks(d, r) && FieldsUnique(r.state) && AddsNoDuplicates(ops, r.state)
    requires RunOps(d, ops, r).Some?
    ensures var r' := RunOps(d, ops, r).value;
            Tracks(d, r') && FieldsUnique(r'.state) && ApplyAll(ops, r.state) == Some(r'.state)
  {
    if ops != [] {
      StepCommutes(d, ops[0], r);
      RunCommutes(d, ops[1..], StepOp(d, ops[0], r).value);
    }
  }
}
