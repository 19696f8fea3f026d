/** A migration of one app reads and writes only the part of the project state and
    of the schema that belongs to the app. */
module Locality {
  import opened Schema
  import opened Engine
  import opened Ddl

  /** Which app each model name and each table name belongs to. */
  datatype Owners = Owners(models: string -> string, tables: string -> string)

  /** Where foreign keys are checked these fields refer to tables of the app only. */
  predicate TargetsLocal(d: Dialect, o: Owners, fields: seq<FieldState>, app: string) {
    ChecksKeys(d) ==> forall f :: f in fields && HasClause(f) ==> o.tables(f.relTargetTable) == app
  }

  function FieldsOf(op: Operation): seq<FieldState> {
    match op
    case CreateModel(_, _, fields) => fields
    case AddField(_, field) => [field]
    case AlterField(_, field) => [field]
    case _ => []
  }

  /** The operation names only a model, for CREATE a table, and where foreign keys are
      checked targets, of the app. */
  predicate LocalOp(d: Dialect, o: Owners, op: Operation, app: string) {
    && o.models(ModelOf(op)) == app
    && (op.CreateModel? ==> o.tables(op.table) == app && o.tables(TempName(op.table)) == app)
    && TargetsLocal(d, o, FieldsOf(op), app)
  }

  predicate LocalOps(d: Dialect, o: Owners, ops: seq<Operation>, app: string) {
    forall op :: op in ops ==> LocalOp(d, o, op, app)
  }

  /** Models have tables, and targets, of their own app. */
  ghost predicate TablesOwned(d: Dialect, o: Owners, s: State) {
    forall m :: m in s.models ==>
      && o.tables(s.models[m].table) == o.models(m) && o.tables(TempName(s.models[m].table)) == o.models(m)
      && TargetsLocal(d, o, s.models[m].fields, o.models(m))
  }

  predicate KeysLocal(o: Owners, keys: seq<ForeignKey>, app: string) {
    forall key :: key in keys ==> o.tables(key.targetTable) == app
  }

  /** Where foreign keys are checked every table refers to tables of its app only. */
  ghost predicate KeysOwned(d: Dialect, o: Owners, tables: Tables) {
    ChecksKeys(d) ==> forall t :: t in tables ==> KeysLocal(o, tables[t].foreignKeys, o.tables(t))
  }

  /** A table without its rows. */
  datatype Shape = Shape(columns: seq<ColumnDef>, foreignKeys: seq<ForeignKey>)

  function ShapeOf(t: Table): Shape {
    Shape(t.columns, t.foreignKeys)
  }

  ghost predicate SameModels(o: Owners, app: string, s: State, t: State) {
    forall m :: o.models(m) == app ==>
      (m in s.models <==> m in t.models) && (m in s.models ==> s.models[m] == t.models[m])
  }

  ghost predicate SameShapes(o: Owners, app: string, a: Tables, b: Tables) {
    forall t :: o.tables(t) == app ==> (t in a <==> t in b) && (t in a ==> ShapeOf(a[t]) == ShapeOf(b[t]))
  }

  // ----- Statements -----

  predicate LocalStmt(d: Dialect, o: Owners, s: Stmt, app: string) {
    match s
    case CreateTable(table, _, keys) => o.tables(table) == app && (ChecksKeys(d) ==> KeysLocal(o, keys, app))
    case AddColumn(table, _) => o.tables(table) == app
    case InsertSelect(into, _, source) => o.tables(into) == app && o.tables(source) == app
    case DropTable(table) => o.tables(table) == app
    case RenameTable(table, newName) => o.tables(table) == app && o.tables(newName) == app
  }

  lemma RefersLocal(o: Owners, keys: seq<ForeignKey>, table: string, columns: seq<ColumnDef>, app: string, a: Tables,
                    b: Tables)
    requires KeysLocal(o, keys, app) && SameShapes(o, app, a, b)
    ensures KeysRefer(keys, table, columns, a) <==> KeysRefer(keys, table, columns, b)
  {
    forall key | key in keys ensures TargetColumns(key, table, columns, a) == TargetColumns(key, table, columns, b) {
      assert o.tables(key.targetTable) == app;
      if key.targetTable in a { assert ShapeOf(a[key.targetTable]) == ShapeOf(b[key.targetTable]); }
    }
  }

  lemma ReferredLocal(o: Owners, table: string, app: string, a: Tables, b: Tables)
    requires o.tables(table) == app && SameShapes(o, app, a, b) && Referred(table, a)
    requires forall t :: t in a ==> KeysLocal(o, a[t].foreignKeys, o.tables(t))
    ensures Referred(table, b)
  {
    var u :| u in a && u != table && Targets(a[u].foreignKeys, table);
    assert o.tables(u) == app;
    assert u in b && ShapeOf(a[u]) == ShapeOf(b[u]);
  }

  lemma SameShapesTurn(o: Owners, app: string, a: Tables, b: Tables)
    requires SameShapes(o, app, a, b)
    ensures SameShapes(o, app, b, a)
  {
  }

  lemma AcceptedLocal(d: Dialect, o: Owners, s: Stmt, app: string, a: Tables, b: Tables)
    requires LocalStmt(d, o, s, app) && SameShapes(o, app, a, b) && KeysOwned(d, o, a) && KeysOwned(d, o, b)
    ensures Exec(d, s, a).Some? <==> Exec(d, s, b).Some?
  {
    SameShapesTurn(o, app, a, b);
    match s
    case CreateTable(table, columns, keys) => if ChecksKeys(d) { RefersLocal(o, keys, table, columns, app, a, b); }
    case DropTable(table) =>
      if ChecksKeys(d) {
        if Referred(table, a) { ReferredLocal(o, table, app, a, b); }
        if Referred(table, b) { ReferredLocal(o, table, app, b, a); }
      }
    case _ =>
  }

  lemma ExecKeepsKeys(d: Dialect, o: Owners, s: Stmt, app: string, a: Tables)
    requires LocalStmt(d, o, s, app) && KeysOwned(d, o, a) && Exec(d, s, a).Some?
    ensures KeysOwned(d, o, Exec(d, s, a).value)
  {
  }

  lemma EffectLocal(d: Dialect, o: Owners, s: Stmt, app: string, a: Tables, b: Tables)
    requires LocalStmt(d, o, s, app) && SameShapes(o, app, a, b) && Exec(d, s, a).Some? && Exec(d, s, b).Some?
    ensures SameShapes(o, app, Exec(d, s, a).value, Exec(d, s, b).value)
  {
  }

  lemma ExecElsewhere(d: Dialect, o: Owners, s: Stmt, app: string, a: Tables, other: string)
    requires LocalStmt(d, o, s, app) && Exec(d, s, a).Some? && other != app
    ensures SameShapes(o, other, a, Exec(d, s, a).value)
  {
  }

  /** Both parts of what is needed of the tables. */
  ghost predicate SameOwned(d: Dialect, o: Owners, app: string, a: Tables, b: Tables) {
    SameShapes(o, app, a, b) && KeysOwned(d, o, a) && KeysOwned(d, o, b)
  }

  lemma {:induction false} ExecAllLocal(d: Dialect, o: Owners, stmts: seq<Stmt>, app: string, a: Tables, b: Tables)
    requires (forall s :: s in stmts ==> LocalStmt(d, o, s, app)) && SameOwned(d, o, app, a, b)
    ensures ExecAll(d, stmts, a).Some? <==> ExecAll(d, stmts, b).Some?
    ensures ExecAll(d, stmts, a).Some? ==> SameOwned(d, o, app, ExecAll(d, stmts, a).value, ExecAll(d, stmts, b).value)
    decreases |stmts|
  {
    if stmts != [] {
      assert stmts[0] in stmts;
      AcceptedLocal(d, o, stmts[0], app, a, b);
      if Exec(d, stmts[0], a).Some? {
        EffectLocal(d, o, stmts[0], app, a, b);
        ExecKeepsKeys(d, o, stmts[0], app, a);
        ExecKeepsKeys(d, o, stmts[0], app, b);
        ExecAllLocal(d, o, stmts[1..], app, Exec(d, stmts[0], a).value, Exec(d, stmts[0], b).value);
      }
    }
  }

  lemma {:induction false} ExecAllElsewhere(d: Dialect, o: Owners, stmts: seq<Stmt>, app: string, a: Tables,
                                            other: string)
    requires (forall s :: s in stmts ==> LocalStmt(d, o, s, app)) && ExecAll(d, stmts, a).Some? && other != app
    ensures SameShapes(o, other, a, ExecAll(d, stmts, a).value)
    decreases |stmts|
  {
    if stmts != [] {
      assert stmts[0] in stmts;
      ExecElsewhere(d, o, stmts[0], app, a, other);
      ExecAllElsewhere(d, o, stmts[1..], app, Exec(d, stmts[0], a).value, other);
    }
  }

  // ----- Operations -----

  lemma KeysOfLocal(d: Dialect, o: Owners, fields: seq<FieldState>, app: string)
    requires TargetsLocal(d, o, fields, app) && ChecksKeys(d)
    ensures KeysLocal(o, ForeignKeys(fields), app)
  {
    forall key | key in ForeignKeys(fields) ensures o.tables(key.targetTable) == app {
      KeysAre(fields, key);
    }
  }

  lemma SqlLocal(d: Dialect, o: Owners, op: Operation, app: string, s: State, t: State)
    requires LocalOp(d, o, op, app) && TablesOwned(d, o, s) && SameModels(o, app, s, t)
    ensures OpSql(d, op, s) == OpSql(d, op, t)
    ensures OpSql(d, op, s).Stmts? ==> forall stmt :: stmt in OpSql(d, op, s).stmts ==> LocalStmt(d, o, stmt, app)
  {
    match op
    case CreateModel(_, _, fields) => if ChecksKeys(d) { KeysOfLocal(d, o, fields, app); }
    case RemoveField(model, name) =>
      if model in s.models {
        WithoutMembers(s.models[model].fields, name);
        RebuildLocal(d, o, s.models[model].table, s.models[model].fields, Without(s.models[model].fields, name), app);
      }
    case AlterField(model, field) =>
      if model in s.models {
        var ms := s.models[model];
        RebuildLocal(d, o, ms.table, ms.fields, ReplaceFirst(ms.fields, field), app);
      }
    case _ =>
  }

  lemma {:induction false} WithoutMembers(fields: seq<FieldState>, name: string)
    ensures forall f :: f in Without(fields, name) ==> f in fields
  {
    if fields != [] {
      WithoutMembers(fields[1..], name);
    }
  }

  lemma RebuildLocal(d: Dialect, o: Owners, table: string, oldFields: seq<FieldState>, newFields: seq<FieldState>,
                     app: string)
    requires o.tables(table) == app && o.tables(TempName(table)) == app && TargetsLocal(d, o, newFields, app)
    ensures forall stmt :: stmt in RebuildTableSql(d, table, oldFields, newFields) ==> LocalStmt(d, o, stmt, app)
  {
    if ChecksKeys(d) { KeysOfLocal(d, o, newFields, app); }
  }

  lemma ApplyLocal(d: Dialect, o: Owners, op: Operation, app: string, s: State, t: State)
    requires LocalOp(d, o, op, app) && SameModels(o, app, s, t)
    ensures ApplyOp(op, s).Some? <==> ApplyOp(op, t).Some?
    ensures ApplyOp(op, s).Some? ==> SameModels(o, app, ApplyOp(op, s).value, ApplyOp(op, t).value)
  {
  }

  lemma ApplyElsewhere(d: Dialect, o: Owners, op: Operation, app: string, s: State, other: string)
    requires LocalOp(d, o, op, app) && ApplyOp(op, s).Some? && other != app
    ensures SameModels(o, other, s, ApplyOp(op, s).value)
  {
  }

  lemma ApplyKeepsOwned(d: Dialect, o: Owners, op: Operation, app: string, s: State)
    requires LocalOp(d, o, op, app) && TablesOwned(d, o, s) && ApplyOp(op, s).Some?
    ensures TablesOwned(d, o, ApplyOp(op, s).value)
  {
  }

  ghost predicate SameView(o: Owners, app: string, r: Run, q: Run) {
    SameModels(o, app, r.state, q.state) && SameShapes(o, app, r.tables, q.tables)
  }

  ghost predicate Owned(d: Dialect, o: Owners, r: Run) {
    TablesOwned(d, o, r.state) && KeysOwned(d, o, r.tables)
  }

  lemma StepLocal(d: Dialect, o: Owners, op: Operation, app: string, r: Run, q: Run)
    requires LocalOp(d, o, op, app) && Owned(d, o, r) && SameView(o, app, r, q) && KeysOwned(d, o, q.tables)
    ensures StepOp(d, op, r).Some? <==> StepOp(d, op, q).Some?
    ensures StepOp(d, op, r).Some? ==> SameView(o, app, StepOp(d, op, r).value, StepOp(d, op, q).value)
    ensures StepOp(d, op, r).Some? ==>
              Owned(d, o, StepOp(d, op, r).value) && KeysOwned(d, o, StepOp(d, op, q).value.tables)
  {
    SqlLocal(d, o, op, app, r.state, q.state);
    if OpSql(d, op, r.state).Stmts? {
      ExecAllLocal(d, o, OpSql(d, op, r.state).stmts, app, r.tables, q.tables);
      ApplyLocal(d, o, op, app, r.state, q.state);
      RenderedOpApplies(d, op, r.state);
      ApplyKeepsOwned(d, o, op, app, r.state);
    }
  }

  lemma StepElsewhere(d: Dialect, o: Owners, op: Operation, app: string, r: Run, other: string)
    requires LocalOp(d, o, op, app) && Owned(d, o, r) && StepOp(d, op, r).Some? && other != app
    ensures SameView(o, other, r, StepOp(d, op, r).value)
  {
    SqlLocal(d, o, op, app, r.state, r.state);
    ExecAllElsewhere(d, o, OpSql(d, op, r.state).stmts, app, r.tables, other);
    ApplyElsewhere(d, o, op, app, r.state, other);
  }

  /** Operations of an app do the same wherever the app's part is the same. */
  lemma {:induction false} RunOpsLocal(d: Dialect, o: Owners, ops: seq<Operation>, app: string, r: Run, q: Run)
    requires LocalOps(d, o, ops, app) && Owned(d, o, r) && SameView(o, app, r, q) && KeysOwned(d, o, q.tables)
    ensures RunOps(d, ops, r).Some? <==> RunOps(d, ops, q).Some?
    ensures RunOps(d, ops, r).Some? ==>
              && SameView(o, app, RunOps(d, ops, r).value, RunOps(d, ops, q).value)
              && Owned(d, o, RunOps(d, ops, r).value) && KeysOwned(d, o, RunOps(d, ops, q).value.tables)
    decreases |ops|
  {
    if ops != [] {
      assert ops[0] in ops;
      StepLocal(d, o, ops[0], app, r, q);
      if StepOp(d, ops[0], r).Some? {
        RunOpsLocal(d, o, ops[1..], app, StepOp(d, ops[0], r).value, StepOp(d, ops[0], q).value);
      }
    }
  }

  /** .. and leave the other apps' parts alone. */
  lemma {:induction false} RunOpsElsewhere(d: Dialect, o: Owners, ops: seq<Operation>, app: string, r: Run,
                                           other: string)
    requires LocalOps(d, o, ops, app) && Owned(d, o, r) && RunOps(d, ops, r).Some? && other != app
    ensures SameView(o, other, r, RunOps(d, ops, r).value)
    decreases |ops|
  {
    if ops != [] {
      assert ops[0] in ops;
      StepLocal(d, o, ops[0], app, r, r);
      StepElsewhere(d, o, ops[0], app, r, other);
      RunOpsElsewhere(d, o, ops[1..], app, StepOp(d, ops[0], r).value, other);
    }
  }

  lemma {:induction false} ApplyAllLocal(d: Dialect, o: Owners, ops: seq<Operation>, app: string, s: State, t: State)
    requires LocalOps(d, o, ops, app) && TablesOwned(d, o, s) && SameModels(o, app, s, t)
    ensures ApplyAll(ops, s).Some? <==> ApplyAll(ops, t).Some?
    ensures ApplyAll(ops, s).Some? ==>
              SameModels(o, app, ApplyAll(ops, s).value, ApplyAll(ops, t).value)
                && TablesOwned(d, o, ApplyAll(ops, s).value)
    decreases |ops|
  {
    if ops != [] {
      assert ops[0] in ops;
      ApplyLocal(d, o, ops[0], app, s, t);
      if ApplyOp(ops[0], s).Some? {
        ApplyKeepsOwned(d, o, ops[0], app, s);
        ApplyAllLocal(d, o, ops[1..], app, ApplyOp(ops[0], s).value, ApplyOp(ops[0], t).value);
      }
    }
  }

  lemma {:induction false} ApplyAllElsewhere(d: Dialect, o: Owners, ops: seq<Operation>, app: string, s: State,
                                             other: string)
    requires LocalOps(d, o, ops, app) && ApplyAll(ops, s).Some? && other != app
    ensures SameModels(o, other, s, ApplyAll(ops, s).value)
    decreases |ops|
  {
    if ops != [] {
      assert ops[0] in ops;
      ApplyElsewhere(d, o, ops[0], app, s, other);
      ApplyAllElsewhere(d, o, ops[1..], app, ApplyOp(ops[0], s).value, other);
    }
  }
}
