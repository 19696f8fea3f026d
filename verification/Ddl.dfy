/** The SQL face of migration operations: the dialects' column definitions, the
    CREATE TABLE and temp-table rebuild renderers, and the SQL methods
    (migrations/ddl.go, migrations/operations.go, orm/backends). */
module Ddl {
  import opened Schema
  import opened Engine
  import Decimal

  datatype SqlError = ModelNotFound | FieldNotFound | MustBeNullable

  datatype Rendered = Stmts(stmts: seq<Stmt>) | Refused(error: SqlError)

  /** What a dialect looks at of an orm field. */
  datatype OrmField = OrmField(
    column: string, kind: Kind, primaryKey: bool, nullable: bool, unique: bool, maxLength: int)

  function ToOrmField(f: FieldState): OrmField {
    OrmField(f.column, f.kind, f.primaryKey, f.nullable, f.unique, f.maxLength)
  }

  function TypeOf(f: FieldState): SqlType {
    KindType(f.kind, f.maxLength)
  }

  /** The type of a field's column; a kind that is none is shown as text. */
  function KindType(kind: Kind, maxLength: int): SqlType {
    match kind
    case Auto => IntegerType
    case Int => IntegerType
    case Char => VarcharType(maxLength)
    case Text => TextType
    case Bool => BooleanType
    case DateTime => TimestampType
    case Unknown(_) => TextType
  }

  function TypeText(d: Dialect, t: SqlType): string {
    match t
    case IntegerType => if d.Sqlite? then "INTEGER" else "BIGINT"
    case VarcharType(length) => "VARCHAR(" + Decimal.IntText(length) + ")"
    case TextType => "TEXT"
    case BooleanType => "BOOLEAN"
    case TimestampType => if d.Sqlite? then "DATETIME" else "TIMESTAMPTZ"
  }

  function ColumnKeyOf(f: FieldState): ColumnKey {
    if f.kind.Auto? || f.primaryKey then PrimaryKey else if f.unique then UniqueKey else NoKey
  }

  function ColumnType(d: Dialect, f: OrmField): string {
    if f.kind.Auto? then
      if d.Sqlite? then "INTEGER PRIMARY KEY AUTOINCREMENT" else "BIGSERIAL PRIMARY KEY"
    else
      TypeText(d, KindType(f.kind, f.maxLength))
      + (if !f.nullable then " NOT NULL" else "")
      + (if f.primaryKey then " PRIMARY KEY" else if f.unique then " UNIQUE" else "")
  }

  function Clause(od: OnDelete): string {
    match od
    case Cascade => " ON DELETE CASCADE"
    case SetNull => " ON DELETE SET NULL"
    case Restrict => " ON DELETE RESTRICT"
    case DoNothing => ""
  }

  function Def(d: Dialect, f: FieldState): ColumnDef {
    ColumnDef(f.column, ColumnType(d, ToOrmField(f)), TypeOf(f), ColumnKeyOf(f))
  }

  function Defs(d: Dialect, fields: seq<FieldState>): (defs: seq<ColumnDef>)
    ensures |defs| == |fields|
    ensures forall i :: 0 <= i < |fields| ==> defs[i] == Def(d, fields[i])
  {
    seq(|fields|, i requires 0 <= i < |fields| => Def(d, fields[i]))
  }

  predicate HasClause(f: FieldState) {
    f.relKind.RelFK? && f.relTargetTable != ""
  }

  function KeyOf(f: FieldState): seq<ForeignKey> {
    if HasClause(f) then [ForeignKey(f.column, f.relTargetTable, f.relTargetColumn, Clause(f.relOnDelete))] else []
  }

  function ForeignKeys(fields: seq<FieldState>): seq<ForeignKey> {
    if fields == [] then [] else KeyOf(fields[0]) + ForeignKeys(fields[1..])
  }

  lemma {:induction false} KeysAre(fields: seq<FieldState>, key: ForeignKey)
    ensures key in ForeignKeys(fields) <==> exists f :: f in fields && HasClause(f) && key in KeyOf(f)
  {
    if fields != [] {
      KeysAre(fields[1..], key);
      assert forall f :: f in fields <==> f == fields[0] || f in fields[1..];
    }
  }

  function CreateTableSql(d: Dialect, table: string, fields: seq<FieldState>): Stmt {
    CreateTable(table, Defs(d, fields), ForeignKeys(fields))
  }

  predicate HasColumnNamed(fields: seq<FieldState>, column: string) {
    exists i :: 0 <= i < |fields| && fields[i].column == column
  }

  /** Columns of the new fields that the old fields have too, in new order. */
  function CommonColumns(oldFields: seq<FieldState>, newFields: seq<FieldState>): (cols: seq<string>)
    ensures forall c :: c in cols <==> HasColumnNamed(oldFields, c) && HasColumnNamed(newFields, c)
  {
    if newFields == [] then []
    else
      assert forall c :: HasColumnNamed(newFields, c) <==>
             newFields[0].column == c || HasColumnNamed(newFields[1..], c) by {
        HasColumnNamedCons(newFields);
      }
      (if HasColumnNamed(oldFields, newFields[0].column) then [newFields[0].column] else [])
      + CommonColumns(oldFields, newFields[1..])
  }

  lemma HasColumnNamedCons(fields: seq<FieldState>)
    requires fields != []
    ensures forall c :: HasColumnNamed(fields, c) <==> fields[0].column == c || HasColumnNamed(fields[1..], c)
  {
    forall c
      ensures HasColumnNamed(fields, c) <==> fields[0].column == c || HasColumnNamed(fields[1..], c)
    {
      if HasColumnNamed(fields[1..], c) {
        var i :| 0 <= i < |fields[1..]| && fields[1..][i].column == c;
        assert fields[i + 1].column == c;
      }
      if HasColumnNamed(fields, c) && fields[0].column != c {
        var i :| 0 <= i < |fields| && fields[i].column == c;
        assert fields[1..][i - 1].column == c;
      }
    }
  }

  function TempName(table: string): string {
    table + "__new"
  }

  function RebuildTableSql(d: Dialect, table: string, oldFields: seq<FieldState>,
                           newFields: seq<FieldState>): seq<Stmt> {
    var common := CommonColumns(oldFields, newFields);
    [CreateTableSql(d, TempName(table), newFields)]
    + (if |common| > 0 then [InsertSelect(TempName(table), common, table)] else [])
    + [DropTable(table), RenameTable(TempName(table), table)]
  }

  /** The fields other than those with the given name. */
  function Without(fields: seq<FieldState>, name: string): seq<FieldState> {
    if fields == [] then []
    else (if fields[0].name == name then [] else [fields[0]]) + Without(fields[1..], name)
  }

  function OpSql(d: Dialect, op: Operation, s: State): Rendered {
    match op
    case CreateModel(_, table, fields) =>
      Stmts([CreateTableSql(d, table, fields)])
    case DeleteModel(name) =>
      if name !in s.models then Refused(ModelNotFound)
      else Stmts([DropTable(s.models[name].table)])
    case AddField(model, field) =>
      if model !in s.models then Refused(ModelNotFound)
      else if !field.nullable then Refused(MustBeNullable)
      else Stmts([AddColumn(s.models[model].table, Def(d, field))])
    case RemoveField(model, name) =>
      if model !in s.models then Refused(ModelNotFound)
      else
        var ms := s.models[model];
        if !HasField(ms.fields, name) then Refused(FieldNotFound)
        else Stmts(RebuildTableSql(d, ms.table, ms.fields, Without(ms.fields, name)))
    case AlterField(model, field) =>
      if model !in s.models then Refused(ModelNotFound)
      else
        var ms := s.models[model];
        if !HasField(ms.fields, field.name) then Refused(FieldNotFound)
        else Stmts(RebuildTableSql(d, ms.table, ms.fields, ReplaceFirst(ms.fields, field)))
  }

  /** Rendering an operation checks everything its Apply dereferences. */
  lemma RenderedOpApplies(d: Dialect, op: Operation, s: State)
    requires OpSql(d, op, s).Stmts?
    ensures ApplyOp(op, s).Some?
  {
  }

  // ----- Running operations: SQL against the pre-op state, then Apply -----

  datatype Run = Run(state: State, tables: Tables)

  function StepOp(d: Dialect, op: Operation, r: Run): Option<Run> {
    match OpSql(d, op, r.state)
    case Refused(_) => None
    case Stmts(stmts) =>
      match ExecAll(d, stmts, r.tables)
      case None => None
      case Some(tables) =>
        RenderedOpApplies(d, op, r.state);
        Some(Run(ApplyOp(op, r.state).value, tables))
  }

  function RunOps(d: Dialect, ops: seq<Operation>, r: Run): Option<Run> {
    if ops == [] then Some(r)
    else match StepOp(d, ops[0], r)
      case None => None
      case Some(r') => RunOps(d, ops[1..], r')
  }

  lemma {:induction false} RunOpsConcat(d: Dialect, a: seq<Operation>, b: seq<Operation>, r: Run)
    ensures RunOps(d, a + b, r) ==
            match RunOps(d, a, r) case None => None case Some(r') => RunOps(d, b, r')
  {
    if a == [] {
      assert a + b == b;
    } else {
      assert (a + b)[0] == a[0] && (a + b)[1..] == a[1..] + b;
      match StepOp(d, a[0], r)
      case None =>
      case Some(r') => RunOpsConcat(d, a[1..], b, r');
    }
  }

  lemma {:induction false} RunOpsApplies(d: Dialect, ops: seq<Operation>, r: Run)
    requires RunOps(d, ops, r).Some?
    ensures ApplyAll(ops, r.state) == Some(RunOps(d, ops, r).value.state)
  {
    if ops != [] {
      RunOpsApplies(d, ops[1..], StepOp(d, ops[0], r).value);
    }
  }

  // ----- Without the checks of foreign keys -----

  lemma DefsUnchecked(d: Dialect, fields: seq<FieldState>)
    ensures Defs(Unchecked(d), fields) == Defs(d, fields)
  {
  }

  lemma SqlUnchecked(d: Dialect, op: Operation, s: State)
    ensures OpSql(Unchecked(d), op, s) == OpSql(d, op, s)
  {
    match op
    case CreateModel(_, _, fields) => DefsUnchecked(d, fields);
    case RemoveField(model, name) => if model in s.models { DefsUnchecked(d, Without(s.models[model].fields, name)); }
    case AlterField(model, field) =>
      if model in s.models { DefsUnchecked(d, ReplaceFirst(s.models[model].fields, field)); }
    case _ =>
  }

  lemma {:induction false} OpsUnchecked(d: Dialect, ops: seq<Operation>, r: Run)
    requires RunOps(d, ops, r).Some?
    ensures RunOps(Unchecked(d), ops, r) == RunOps(d, ops, r)
  {
    if ops != [] {
      SqlUnchecked(d, ops[0], r.state);
      ExecUnchecked(d, OpSql(d, ops[0], r.state).stmts, r.tables);
      OpsUnchecked(d, ops[1..], StepOp(d, ops[0], r).value);
    }
  }
}
