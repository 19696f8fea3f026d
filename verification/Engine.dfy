/** The abstract databases the migrations run against: what the DDL statements of
    the renderer do to named tables of ordered columns and rows. */
module Engine {
  import opened Schema

  /** SQLite, with the foreign-key checks off that it has by default, or PostgreSQL.
      PostgreSQL checks foreign keys; checksKeys off is the same database without these
      checks, to compare runs with. */
  datatype Dialect = Sqlite | Postgres(checksKeys: bool)

  const POSTGRES := Postgres(true)

  predicate ChecksKeys(d: Dialect) {
    d.Postgres? && d.checksKeys
  }

  datatype Value = Null | Data(content: string)

  type Row = map<string, Value>

  datatype SqlType = IntegerType | VarcharType(length: int) | TextType | BooleanType | TimestampType

  datatype ColumnKey = NoKey | UniqueKey | PrimaryKey

  /** A column: its definition, and the type and the constraint the database reads in it. */
  datatype ColumnDef = ColumnDef(name: string, definition: string, sqlType: SqlType, key: ColumnKey)

  datatype ForeignKey = ForeignKey(column: string, targetTable: string, targetColumn: string, onDelete: string)

  datatype Table = Table(columns: seq<ColumnDef>, foreignKeys: seq<ForeignKey>, rows: seq<Row>)

  type Tables = map<string, Table>

  datatype Stmt =
    | CreateTable(table: string, columns: seq<ColumnDef>, foreignKeys: seq<ForeignKey>)
    | AddColumn(table: string, column: ColumnDef)
    | InsertSelect(into: string, names: seq<string>, source: string)
    | DropTable(table: string)
    | RenameTable(table: string, newName: string)

  function Cell(row: Row, name: string): Value {
    if name in row then row[name] else Null
  }

  predicate HasColumn(columns: seq<ColumnDef>, name: string) {
    exists i :: 0 <= i < |columns| && columns[i].name == name
  }

  predicate DistinctColumns(columns: seq<ColumnDef>) {
    forall i, j :: 0 <= i < j < |columns| ==> columns[i].name != columns[j].name
  }

  /** INSERT INTO .. SELECT: one new row for each row of the source, with the named
      columns copied and the remaining columns of the target NULL. */
  function CopyRow(row: Row, names: seq<string>, columns: seq<ColumnDef>): Row {
    map i | 0 <= i < |columns| ::
      columns[i].name := if columns[i].name in names then Cell(row, columns[i].name) else Null
  }

  function CopyRows(rows: seq<Row>, names: seq<string>, columns: seq<ColumnDef>): (copies: seq<Row>)
    ensures |copies| == |rows|
    ensures forall i :: 0 <= i < |rows| ==> copies[i] == CopyRow(rows[i], names, columns)
  {
    seq(|rows|, i requires 0 <= i < |rows| => CopyRow(rows[i], names, columns))
  }

  /** ADD COLUMN of a nullable column without a default. */
  function AddNull(rows: seq<Row>, name: string): (wider: seq<Row>)
    ensures |wider| == |rows|
    ensures forall i :: 0 <= i < |rows| ==> wider[i] == rows[i][name := Null]
  {
    seq(|rows|, i requires 0 <= i < |rows| => rows[i][name := Null])
  }

  // ----- What a database refuses -----

  const MAX_VARCHAR := 10485760

  predicate TypeFits(d: Dialect, c: ColumnDef) {
    d.Postgres? && c.sqlType.VarcharType? ==> 1 <= c.sqlType.length <= MAX_VARCHAR
  }

  predicate TypesFit(d: Dialect, columns: seq<ColumnDef>) {
    forall c :: c in columns ==> TypeFits(d, c)
  }

  predicate AtMostOnePrimaryKey(columns: seq<ColumnDef>) {
    forall i, j :: 0 <= i < j < |columns| ==> !(columns[i].key.PrimaryKey? && columns[j].key.PrimaryKey?)
  }

  /** The columns a new table may have: SQLite wants at least one, PostgreSQL bounds the
      length of a VARCHAR. */
  predicate WellDefined(d: Dialect, columns: seq<ColumnDef>) {
    && DistinctColumns(columns) && AtMostOnePrimaryKey(columns)
    && (d.Sqlite? ==> columns != [])
    && TypesFit(d, columns)
  }

  predicate IsText(t: SqlType) {
    t.VarcharType? || t.TextType?
  }

  predicate Comparable(a: SqlType, b: SqlType) {
    a == b || (IsText(a) && IsText(b))
  }

  /** What an INSERT takes into a column: SQLite anything, PostgreSQL its own type, or any
      type where the column holds text. */
  predicate Assignable(d: Dialect, a: SqlType, into: SqlType) {
    d.Sqlite? || a == into || IsText(into)
  }

  predicate Copyable(d: Dialect, names: seq<string>, source: seq<ColumnDef>, target: seq<ColumnDef>) {
    forall a, b :: a in source && b in target && a.name == b.name && a.name in names ==>
      Assignable(d, a.sqlType, b.sqlType)
  }

  /** A foreign key may refer to a unique column of a comparable type. */
  predicate Matches(key: ForeignKey, column: ColumnDef, target: ColumnDef) {
    && column.name == key.column && target.name == key.targetColumn
    && !target.key.NoKey? && Comparable(column.sqlType, target.sqlType)
  }

  predicate RefersTo(key: ForeignKey, columns: seq<ColumnDef>, targets: seq<ColumnDef>) {
    exists c, t :: c in columns && t in targets && Matches(key, c, t)
  }

  function TargetColumns(key: ForeignKey, table: string, columns: seq<ColumnDef>, tables: Tables): seq<ColumnDef> {
    if key.targetTable == table then columns
    else if key.targetTable in tables then tables[key.targetTable].columns
    else []
  }

  /** Every foreign key of a new table refers to a column of the table itself or of a
      table that is there. */
  predicate KeysRefer(foreignKeys: seq<ForeignKey>, table: string, columns: seq<ColumnDef>, tables: Tables) {
    forall key :: key in foreignKeys ==> RefersTo(key, columns, TargetColumns(key, table, columns, tables))
  }

  predicate Creatable(d: Dialect, table: string, columns: seq<ColumnDef>, foreignKeys: seq<ForeignKey>,
                      tables: Tables) {
    && WellDefined(d, columns)
    && (ChecksKeys(d) ==> KeysRefer(foreignKeys, table, columns, tables))
  }

  predicate Targets(foreignKeys: seq<ForeignKey>, table: string) {
    exists key :: key in foreignKeys && key.targetTable == table
  }

  /** Another table has a foreign key to the table. */
  predicate Referred(table: string, tables: Tables) {
    exists u :: u in tables && u != table && Targets(tables[u].foreignKeys, table)
  }

  predicate Droppable(d: Dialect, table: string, tables: Tables) {
    ChecksKeys(d) ==> !Referred(table, tables)
  }

  /** A column added to a table is no primary key, and not unique on SQLite. */
  predicate Addable(d: Dialect, c: ColumnDef) {
    !c.key.PrimaryKey? && (d.Sqlite? ==> c.key.NoKey?) && TypeFits(d, c)
  }

  // ----- Statements -----

  /** The effect of a statement that the database accepts; None when it refuses it. */
  function Exec(d: Dialect, stmt: Stmt, tables: Tables): Option<Tables> {
    match stmt
    case CreateTable(table, columns, foreignKeys) =>
      if table in tables || !Creatable(d, table, columns, foreignKeys, tables) then None
      else Some(tables[table := Table(columns, foreignKeys, [])])
    case AddColumn(table, column) =>
      if table !in tables || HasColumn(tables[table].columns, column.name) || !Addable(d, column) then None
      else
        var t := tables[table];
        Some(tables[table := t.(columns := t.columns + [column], rows := AddNull(t.rows, column.name))])
    case InsertSelect(into, names, source) =>
      if into !in tables || source !in tables
         || (exists n :: n in names && (!HasColumn(tables[into].columns, n) || !HasColumn(tables[source].columns, n)))
         || !Copyable(d, names, tables[source].columns, tables[into].columns) then None
      else
        var src, dst := tables[source], tables[into];
        Some(tables[into := dst.(rows := dst.rows + CopyRows(src.rows, names, dst.columns))])
    case DropTable(table) =>
      if table !in tables || !Droppable(d, table, tables) then None else Some(tables - {table})
    case RenameTable(table, newName) =>
      if table !in tables || newName in tables then None
      else Some((tables - {table})[newName := tables[table]])
  }

  function ExecAll(d: Dialect, stmts: seq<Stmt>, tables: Tables): Option<Tables> {
    if stmts == [] then Some(tables)
    else match Exec(d, stmts[0], tables)
      case None => None
      case Some(t) => ExecAll(d, stmts[1..], t)
  }

  lemma ExecAllOne(d: Dialect, s: Stmt, tables: Tables)
    ensures ExecAll(d, [s], tables) == Exec(d, s, tables)
  {
    assert [s][1..] == [];
  }

  lemma {:induction false} ExecAllConcat(d: Dialect, a: seq<Stmt>, b: seq<Stmt>, tables: Tables)
    ensures ExecAll(d, a + b, tables) ==
            match ExecAll(d, a, tables) case None => None case Some(t) => ExecAll(d, b, t)
  {
    if a == [] {
      assert a + b == b;
    } else {
      assert (a + b)[0] == a[0] && (a + b)[1..] == a[1..] + b;
      match Exec(d, a[0], tables)
      case None =>
      case Some(t) => ExecAllConcat(d, a[1..], b, t);
    }
  }

  // ----- Without the checks of foreign keys -----

  /** The same database, not checking foreign keys. */
  function Unchecked(d: Dialect): Dialect {
    if d.Postgres? then Postgres(false) else d
  }

  lemma {:induction false} ExecUnchecked(d: Dialect, stmts: seq<Stmt>, tables: Tables)
    requires ExecAll(d, stmts, tables).Some?
    ensures ExecAll(Unchecked(d), stmts, tables) == ExecAll(d, stmts, tables)
  {
    if stmts != [] {
      UncheckedOne(d, stmts[0], tables);
      ExecUnchecked(d, stmts[1..], Exec(d, stmts[0], tables).value);
    }
  }

  lemma UncheckedOne(d: Dialect, s: Stmt, tables: Tables)
    requires Exec(d, s, tables).Some?
    ensures Exec(Unchecked(d), s, tables) == Exec(d, s, tables)
  {
  }
}
