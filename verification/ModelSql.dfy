/** CREATE TABLE rendered from a registered model by the dialects' CreateTableSQL
    (orm/backends), against the one the migration engine renders from the model's state. */
module ModelSql {
  import opened Schema
  import opened Engine
  import opened Ddl
  import opened ModelRegistry

  function OrmOf(s: FieldSpec): OrmField {
    OrmField(s.column, s.kind, s.primaryKey, s.nullable, s.unique, s.maxLength)
  }

  function ModelColumn(d: Dialect, f: Field): (string, string) {
    (f.spec.column, ColumnType(d, OrmOf(f.spec)))
  }

  function ModelColumns(d: Dialect, m: Model): (r: seq<(string, string)>)
    ensures |r| == |m.fields| && forall i :: 0 <= i < |r| ==> r[i] == ModelColumn(d, m.fields[i])
  {
    seq(|m.fields|, i requires 0 <= i < |m.fields| => ModelColumn(d, m.fields[i]))
  }

  predicate IsLinked(f: Field) {
    f.spec.rel.Some? && f.target.Some?
  }

  predicate Follows(models: seq<Model>, f: Field) {
    f.target.Some? ==> f.target.value < |models| && models[f.target.value].pk < |models[f.target.value].fields|
  }

  function ModelKey(models: seq<Model>, f: Field): ForeignKey
    requires IsLinked(f) && Follows(models, f)
  {
    var t := models[f.target.value];
    ForeignKey(f.spec.column, t.table, t.fields[t.pk].spec.column, Clause(f.spec.rel.value.onDelete))
  }

  function ModelKeys(models: seq<Model>, fields: seq<Field>): seq<ForeignKey>
    requires forall f :: f in fields ==> Follows(models, f)
  {
    if fields == [] then []
    else (if IsLinked(fields[0]) then [ModelKey(models, fields[0])] else []) + ModelKeys(models, fields[1..])
  }

  lemma KeysOnto(models: seq<Model>, fields: seq<Field>, i: nat, keys: seq<ForeignKey>)
    requires i < |fields| && forall f :: f in fields ==> Follows(models, f)
    ensures fields[i] in fields && Follows(models, fields[i])
    ensures keys + ModelKeys(models, fields[i..])
            == (if IsLinked(fields[i]) then keys + [ModelKey(models, fields[i])] else keys)
               + ModelKeys(models, fields[i + 1..])
  {
    assert fields[i..][0] == fields[i] && fields[i..][1..] == fields[i + 1..];
    var rest := ModelKeys(models, fields[i + 1..]);
    assert keys + ([] + rest) == keys + rest;
    if IsLinked(fields[i]) {
      assert keys + ([ModelKey(models, fields[i])] + rest) == keys + [ModelKey(models, fields[i])] + rest;
    }
  }

  /** The two loops of CreateTableSQL: column definitions, then a clause for every
      resolved foreign key. */
  method CreateTableSQL(d: Dialect, models: seq<Model>, m: Model)
    returns (defs: seq<(string, string)>, keys: seq<ForeignKey>)
    requires forall f :: f in m.fields ==> Follows(models, f)
    ensures defs == ModelColumns(d, m) && keys == ModelKeys(models, m.fields)
  {
    defs, keys := [], [];
    for i := 0 to |m.fields|
      invariant |defs| == i && forall k :: 0 <= k < i ==> defs[k] == ModelColumn(d, m.fields[k])
    {
      defs := defs + [ModelColumn(d, m.fields[i])];
    }
    for i := 0 to |m.fields|
      invariant keys + ModelKeys(models, m.fields[i..]) == ModelKeys(models, m.fields)
    {
      var f := m.fields[i];
      KeysOnto(models, m.fields, i, keys);
      if f.spec.rel.Some? && f.target.Some? {
        var target := models[f.target.value];
        keys := keys + [ForeignKey(f.spec.column, target.table, target.fields[target.pk].spec.column,
                                   Clause(f.spec.rel.value.onDelete))];
      }
    }
    assert keys + [] == keys;
  }

  // ----- Against the migration engine -----

  predicate KeyKept(models: seq<Model>, f: Field)
    requires Follows(models, f)
  {
    IsLinked(f) ==> f.spec.rel.value.kind == RelFK && models[f.target.value].table != ""
  }

  /** Every resolved relation is a foreign key to a table with a name. */
  predicate KeysKept(models: seq<Model>, fields: seq<Field>)
    requires forall f :: f in fields ==> Follows(models, f)
  {
    forall i :: 0 <= i < |fields| ==> Follows(models, fields[i]) && KeyKept(models, fields[i])
  }

  ghost predicate AllCarry(models: seq<Model>, fields: seq<Field>, states: seq<FieldState>) {
    && |states| == |fields|
    && forall i :: 0 <= i < |fields| ==> Follows(models, fields[i]) && Carries(models, fields[i], states[i])
  }

  lemma FirstKey(models: seq<Model>, f: Field, fs: FieldState)
    requires Follows(models, f) && Carries(models, f, fs)
    ensures KeyOf(fs) == if IsLinked(f) && KeyKept(models, f) then [ModelKey(models, f)] else []
  {
  }

  lemma TailCarries(models: seq<Model>, fields: seq<Field>, states: seq<FieldState>)
    requires fields != [] && (forall f :: f in fields ==> Follows(models, f)) && AllCarry(models, fields, states)
    ensures states != [] && fields[0] in fields && Carries(models, fields[0], states[0])
    ensures AllCarry(models, fields[1..], states[1..])
    ensures KeysKept(models, fields) <==> KeyKept(models, fields[0]) && KeysKept(models, fields[1..])
  {
    assert forall i :: 0 <= i < |fields| - 1 ==> fields[1..][i] == fields[i + 1] && states[1..][i] == states[i + 1];
    assert forall i :: 0 < i < |fields| ==> fields[i] == fields[1..][i - 1];
  }

  lemma {:induction false} KeysAgreeIff(models: seq<Model>, fields: seq<Field>, states: seq<FieldState>)
    requires (forall f :: f in fields ==> Follows(models, f)) && AllCarry(models, fields, states)
    ensures |ForeignKeys(states)| <= |ModelKeys(models, fields)|
    ensures ForeignKeys(states) == ModelKeys(models, fields) <==> KeysKept(models, fields)
    decreases |fields|
  {
    if fields != [] {
      TailCarries(models, fields, states);
      FirstKey(models, fields[0], states[0]);
      KeysAgreeIff(models, fields[1..], states[1..]);
      PrependIff(KeyOf(states[0]), ForeignKeys(states[1..]), ModelKeys(models, fields[1..]));
    }
  }

  lemma PrependIff(first: seq<ForeignKey>, a: seq<ForeignKey>, b: seq<ForeignKey>)
    ensures first + a == first + b <==> a == b
  {
    assert (first + a)[|first|..] == a && (first + b)[|first|..] == b;
  }

  function ColumnTexts(columns: seq<ColumnDef>): (r: seq<(string, string)>)
    ensures |r| == |columns| && forall i :: 0 <= i < |r| ==> r[i] == (columns[i].name, columns[i].definition)
  {
    seq(|columns|, i requires 0 <= i < |columns| => (columns[i].name, columns[i].definition))
  }

  /** The CREATE TABLE of a model's snapshot has the columns of the model's own, and its
      foreign keys exactly when every resolved relation is a foreign key to a table with
      a name. */
  lemma SnapshotSqlIff(d: Dialect, models: seq<Model>, m: Model, ms: ModelState)
    requires InRange(models) && m in models && Shows(models, m, ms)
    ensures forall f :: f in m.fields ==> Follows(models, f)
    ensures var stmt := CreateTableSql(d, ms.table, ms.fields);
            && stmt.table == m.table && ColumnTexts(stmt.columns) == ModelColumns(d, m)
            && (stmt.foreignKeys == ModelKeys(models, m.fields) <==> KeysKept(models, m.fields))
  {
    assert forall i :: 0 <= i < |m.fields| ==> m.fields[i] in m.fields;
    forall i | 0 <= i < |m.fields|
      ensures ColumnTexts(Defs(d, ms.fields))[i] == ModelColumns(d, m)[i]
    {
      assert Carries(models, m.fields[i], ms.fields[i]) && OrmOf(m.fields[i].spec) == ToOrmField(ms.fields[i]);
    }
    KeysAgreeIff(models, m.fields, ms.fields);
  }
}
