/** The mutable project state of the migration engine and the renderers that read
    it (migrations/state.go, migrations/operations.go, migrations/ddl.go). */
module ProjectStates {
  import opened Schema
  import opened Engine
  import opened Ddl
  import Definitions

  lemma KeysStep(fields: seq<FieldState>, i: nat, keys: seq<ForeignKey>)
    requires i < |fields|
    ensures keys + ForeignKeys(fields[i..]) == (keys + KeyOf(fields[i])) + ForeignKeys(fields[i + 1..])
    ensures keys + [] == keys
  {
    assert fields[i..][1..] == fields[i + 1..];
  }

  method RenderCreateTable(d: Dialect, table: string, fields: seq<FieldState>) returns (stmt: Stmt)
    ensures stmt == CreateTableSql(d, table, fields) && Definitions.Creates(d, stmt, table, fields)
  {
    var defs: seq<ColumnDef> := [];
    for i := 0 to |fields|
      invariant |defs| == i && forall k :: 0 <= k < i ==> defs[k] == Def(d, fields[k])
    {
      defs := defs + [Def(d, fields[i])];
    }
    var keys: seq<ForeignKey> := [];
    for i := 0 to |fields|
      invariant keys + ForeignKeys(fields[i..]) == ForeignKeys(fields)
    {
      var f := fields[i];
      KeysStep(fields, i, keys);
      if f.relKind == RelFK && f.relTargetTable != "" {
        keys := keys + [ForeignKey(f.column, f.relTargetTable, f.relTargetColumn, Clause(f.relOnDelete))];
      }
    }
    assert defs == Defs(d, fields);
    stmt := Stmt.CreateTable(table, defs, keys);
    Definitions.CreateTableDefines(d, table, fields);
  }

  lemma ColumnsSnoc(fields: seq<FieldState>, i: nat, c: string)
    requires i < |fields|
    ensures HasColumnNamed(fields[..i + 1], c) <==> HasColumnNamed(fields[..i], c) || c == fields[i].column
  {
    if HasColumnNamed(fields[..i], c) {
      var k :| 0 <= k < i && fields[..i][k].column == c;
      assert fields[..i + 1][k].column == c;
    }
    assert fields[..i + 1][i].column == fields[i].column;
  }

  method ColumnSet(fields: seq<FieldState>) returns (cols: set<string>)
    ensures forall c :: c in cols <==> HasColumnNamed(fields, c)
  {
    cols := {};
    for i := 0 to |fields|
      invariant forall c :: c in cols <==> HasColumnNamed(fields[..i], c)
    {
      cols := cols + {fields[i].column};
      forall c
        ensures HasColumnNamed(fields[..i + 1], c) <==> HasColumnNamed(fields[..i], c) || c == fields[i].column
      {
        ColumnsSnoc(fields, i, c);
      }
    }
    assert fields[..|fields|] == fields;
  }

  lemma CommonOnto(oldFields: seq<FieldState>, newFields: seq<FieldState>, i: nat, common: seq<string>)
    requires i < |newFields|
    ensures common + CommonColumns(oldFields, newFields[i..]) ==
            (if HasColumnNamed(oldFields, newFields[i].column) then common + [newFields[i].column] else common)
            + CommonColumns(oldFields, newFields[i + 1..])
  {
    assert newFields[i..][1..] == newFields[i + 1..];
  }

  method CommonOf(oldFields: seq<FieldState>, newFields: seq<FieldState>) returns (common: seq<string>)
    ensures common == CommonColumns(oldFields, newFields)
  {
    var oldCols := ColumnSet(oldFields);
    common := [];
    for i := 0 to |newFields|
      invariant common + CommonColumns(oldFields, newFields[i..]) == CommonColumns(oldFields, newFields)
    {
      CommonOnto(oldFields, newFields, i, common);
      if newFields[i].column in oldCols {
        common := common + [newFields[i].column];
      }
    }
  }

  method RenderRebuild(d: Dialect, table: string, oldFields: seq<FieldState>, newFields: seq<FieldState>)
      returns (stmts: seq<Stmt>)
    ensures stmts == RebuildTableSql(d, table, oldFields, newFields)
  {
    var temp := table + "__new";
    var common := CommonOf(oldFields, newFields);
    var create := RenderCreateTable(d, temp, newFields);
    stmts := [create];
    if |common| > 0 {
      stmts := stmts + [InsertSelect(temp, common, table)];
    }
    stmts := stmts + [DropTable(table)];
    stmts := stmts + [RenameTable(temp, table)];
  }

  lemma WithoutOnto(fields: seq<FieldState>, i: nat, name: string, kept: seq<FieldState>)
    requires i < |fields|
    ensures kept + Without(fields[i..], name) ==
            (if fields[i].name == name then kept else kept + [fields[i]]) + Without(fields[i + 1..], name)
  {
    assert fields[i..][1..] == fields[i + 1..];
  }

  /** The loop of RemoveField.SQL. */
  method FieldsWithout(fields: seq<FieldState>, name: string) returns (kept: seq<FieldState>, found: bool)
    ensures kept == Without(fields, name) && (found <==> HasField(fields, name))
  {
    kept, found := [], false;
    for i := 0 to |fields|
      invariant kept + Without(fields[i..], name) == Without(fields, name)
      invariant found <==> exists k :: 0 <= k < i && fields[k].name == name
    {
      WithoutOnto(fields, i, name, kept);
      if fields[i].name == name {
        found := true;
      } else {
        kept := kept + [fields[i]];
      }
    }
    assert kept == Without(fields, name);
  }

  /** The loop of AlterField.SQL. */
  method FieldsWith(fields: seq<FieldState>, field: FieldState) returns (changed: seq<FieldState>, found: bool)
    ensures changed == ReplaceFirst(fields, field) && (found <==> HasField(fields, field.name))
  {
    changed, found := fields, false;
    for i := 0 to |fields|
      invariant changed == fields && forall k :: 0 <= k < i ==> fields[k].name != field.name
    {
      if changed[i].name == field.name {
        IndexOfIs(fields, field.name, i);
        changed := changed[i := field];
        found := true;
        return;
      }
    }
  }

  class ProjectState {
    var models: map<string, ModelState>
    var order: seq<string>

    function View(): State
      reads this
    {
      State(models, order)
    }

    constructor ()
      ensures View() == EMPTY
    {
      models, order := map[], [];
    }

    method SetFields(model: string, fields: seq<FieldState>)
      requires model in models
      modifies this`models
      ensures models == old(models)[model := old(models)[model].(fields := fields)]
    {
      models := models[model := models[model].(fields := fields)];
    }

    /** Advances the state; ok is false when the original panics on a missing model. */
    method Apply(op: Operation) returns (ok: bool)
      modifies this
      ensures match ApplyOp(op, old(View()))
              case None => !ok && View() == old(View())
              case Some(s) => ok && View() == s
    {
      match op
      case CreateModel(name, table, fields) =>
        models := models[name := ModelState(name, table, fields)];
        var i := 0;
        while i < |order|
          invariant 0 <= i <= |order|
          invariant forall k :: 0 <= k < i ==> order[k] != name
        {
          if order[i] == name { return true; }
          i := i + 1;
        }
        order := order + [name];
        ok := true;
      case DeleteModel(name) =>
        models := models - {name};
        var i := 0;
        while i < |order|
          invariant 0 <= i <= |order|
          invariant forall k :: 0 <= k < i ==> order[k] != name
        {
          if order[i] == name {
            OrderIndexIs(order, name, i);
            order := order[..i] + order[i + 1..];
            return true;
          }
          i := i + 1;
        }
        ok := true;
      case AddField(model, field) =>
        if model !in models { return false; }
        SetFields(model, models[model].fields + [field]);
        ok := true;
      case RemoveField(model, name) =>
        if model !in models { return false; }
        var fields := models[model].fields;
        var i := 0;
        while i < |fields|
          invariant 0 <= i <= |fields|
          invariant forall k :: 0 <= k < i ==> fields[k].name != name
        {
          if fields[i].name == name {
            IndexOfIs(fields, name, i);
            SetFields(model, fields[..i] + fields[i + 1..]);
            return true;
          }
          i := i + 1;
        }
        assert models == models[model := models[model].(fields := fields)];
        ok := true;
      case AlterField(model, field) =>
        if model !in models { return false; }
        var fields := models[model].fields;
        var i := 0;
        while i < |fields|
          invariant 0 <= i <= |fields|
          invariant forall k :: 0 <= k < i ==> fields[k].name != field.name
        {
          if fields[i].name == field.name {
            IndexOfIs(fields, field.name, i);
            SetFields(model, fields[i := field]);
            return true;
          }
          i := i + 1;
        }
        assert models == models[model := models[model].(fields := fields)];
        ok := true;
    }

    /** Renders the operation against the state before it. */
    method Sql(d: Dialect, op: Operation) returns (r: Rendered)
      ensures r == OpSql(d, op, View())
      ensures r.Stmts? ==> (!op.CreateModel? ==> ModelOf(op) in models) && Definitions.Declares(d, op, View(), r.stmts)
    {
      if OpSql(d, op, View()).Stmts? { Definitions.OpDeclares(d, op, View()); }
      match op
      case CreateModel(_, table, fields) =>
        var stmt := RenderCreateTable(d, table, fields);
        r := Stmts([stmt]);
      case DeleteModel(name) =>
        if name !in models { return Refused(ModelNotFound); }
        r := Stmts([DropTable(models[name].table)]);
      case AddField(model, field) =>
        if model !in models { return Refused(ModelNotFound); }
        if !field.nullable { return Refused(MustBeNullable); }
        r := Stmts([AddColumn(models[model].table, Def(d, field))]);
      case RemoveField(model, name) =>
        if model !in models { return Refused(ModelNotFound); }
        var oldFields := models[model].fields;
        var newFields, found := FieldsWithout(oldFields, name);
        if !found { return Refused(FieldNotFound); }
        var stmts := RenderRebuild(d, models[model].table, oldFields, newFields);
        r := Stmts(stmts);
      case AlterField(model, field) =>
        if model !in models { return Refused(ModelNotFound); }
        var oldFields := models[model].fields;
        var newFields, found := FieldsWith(oldFields, field);
        if !found { return Refused(FieldNotFound); }
        var stmts := RenderRebuild(d, models[model].table, oldFields, newFields);
        r := Stmts(stmts);
    }
  }
}
