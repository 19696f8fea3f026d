/** The first migration of a registry: what registering guarantees about running it,
    and what it leaves to the caller. */
module InitialRun {
  import opened Schema
  import opened Engine
  import opened Ddl
  import opened Autodetect
  import opened ModelRegistry

  const TRACKING := "djangogo_migrations"

  /** The tracking table, which the runner creates before the first migration. */
  function TrackingTable(d: Dialect): Table {
    Table([Def(d, TextField("", "id").(kind := Auto, primaryKey := true)), Def(d, TextField("", "app")),
           Def(d, TextField("", "name")), Def(d, TextField("", "applied_at").(kind := DateTime))], [], [])
  }

  function StartTables(d: Dialect): Tables {
    map[TRACKING := TrackingTable(d)]
  }

  // ----- Creating the tables of a state in order -----

  function ModelAt(s: State, i: nat): ModelState
    requires WellFormed(s) && i < |s.order|
  {
    s.models[s.order[i]]
  }

  function Created(d: Dialect, ms: ModelState): Table {
    Table(Defs(d, ms.fields), ForeignKeys(ms.fields), [])
  }

  /** The tables once those of the first i models have been created. */
  function TablesAfter(d: Dialect, s: State, i: nat): Tables
    requires WellFormed(s) && i <= |s.order|
  {
    if i == 0 then StartTables(d)
    else TablesAfter(d, s, i - 1)[ModelAt(s, i - 1).table := Created(d, ModelAt(s, i - 1))]
  }

  predicate CreatableIn(d: Dialect, ms: ModelState, tables: Tables) {
    Creatable(d, ms.table, Defs(d, ms.fields), ForeignKeys(ms.fields), tables)
  }

  /** The name of the i-th model's table is free when it comes to it. */
  predicate NameFree(d: Dialect, s: State, i: nat)
    requires WellFormed(s) && i < |s.order|
  {
    ModelAt(s, i).table !in TablesAfter(d, s, i)
  }

  /** The database accepts the CREATE TABLE of the i-th model. */
  predicate CreatesAt(d: Dialect, s: State, i: nat)
    requires WellFormed(s) && i < |s.order|
  {
    NameFree(d, s, i) && CreatableIn(d, ModelAt(s, i), TablesAfter(d, s, i))
  }

  lemma CreateStep(d: Dialect, s: State, i: nat, state: State)
    requires WellFormed(s) && i < |s.order|
    ensures var ms := ModelAt(s, i);
            var next := StepOp(d, CreateModel(ms.name, ms.table, ms.fields), Run(state, TablesAfter(d, s, i)));
            && (next.Some? <==> CreatesAt(d, s, i))
            && (next.Some? ==> next.value.tables == TablesAfter(d, s, i + 1))
  {
    ExecAllOne(d, CreateTableSql(d, ModelAt(s, i).table, ModelAt(s, i).fields), TablesAfter(d, s, i));
  }

  lemma CreatedFrom(s: State, i: nat)
    requires WellFormed(s) && i < |s.order|
    ensures var ms := ModelAt(s, i);
            CreatedOps(s.order[i..], EMPTY, s) ==
            [CreateModel(ms.name, ms.table, ms.fields)] + CreatedOps(s.order[i + 1..], EMPTY, s)
  {
    assert s.order[i..][0] == s.order[i] && s.order[i..][1..] == s.order[i + 1..];
    assert s.order[i] !in EMPTY.models;
  }

  lemma RunCons(d: Dialect, op: Operation, rest: seq<Operation>, r: Run)
    ensures RunOps(d, [op] + rest, r) ==
            match StepOp(d, op, r) case None => None case Some(next) => RunOps(d, rest, next)
  {
    assert ([op] + rest)[0] == op && ([op] + rest)[1..] == rest;
  }

  /** The run from the i-th model on, one model further. */
  lemma CreateOne(d: Dialect, s: State, i: nat, state: State) returns (next: State)
    requires WellFormed(s) && i < |s.order|
    ensures RunFrom(d, s, i, state) == if CreatesAt(d, s, i) then RunFrom(d, s, i + 1, next) else None
  {
    var ms, r := ModelAt(s, i), Run(state, TablesAfter(d, s, i));
    var op := CreateModel(ms.name, ms.table, ms.fields);
    CreatedFrom(s, i);
    RunCons(d, op, CreatedOps(s.order[i + 1..], EMPTY, s), r);
    CreateStep(d, s, i, state);
    next := if StepOp(d, op, r).Some? then StepOp(d, op, r).value.state else state;
  }

  function RunFrom(d: Dialect, s: State, i: nat, state: State): Option<Run>
    requires WellFormed(s) && i <= |s.order|
  {
    RunOps(d, CreatedOps(s.order[i..], EMPTY, s), Run(state, TablesAfter(d, s, i)))
  }

  /** The run from the i-th model on succeeds exactly when every model from it on can be
      created. */
  predicate CreatesRun(d: Dialect, s: State, i: nat, state: State)
    requires WellFormed(s) && i <= |s.order|
  {
    RunFrom(d, s, i, state).Some? <==> CreatesFrom(d, s, i)
  }

  lemma {:induction false} CreatesRunIff(d: Dialect, s: State, i: nat, state: State)
    requires WellFormed(s) && i <= |s.order|
    ensures CreatesRun(d, s, i, state)
    decreases |s.order| - i
  {
    if i == |s.order| {
      NothingToCreate(d, s, i, state);
    } else {
      var next := CreatesRunBack(d, s, i, state);
      CreatesRunIff(d, s, i + 1, next);
      assert CreatesRun(d, s, i + 1, next);
    }
  }

  lemma CreatesRunBack(d: Dialect, s: State, i: nat, state: State) returns (next: State)
    requires WellFormed(s) && i < |s.order|
    ensures CreatesRun(d, s, i + 1, next) ==> CreatesRun(d, s, i, state)
  {
    next := CreateOne(d, s, i, state);
    if CreatesRun(d, s, i + 1, next) {
      CreatesRunStep(d, s, i, state, next);
    }
  }

  lemma CreatesRunStep(d: Dialect, s: State, i: nat, state: State, next: State)
    requires WellFormed(s) && i < |s.order|
    requires RunFrom(d, s, i, state) == if CreatesAt(d, s, i) then RunFrom(d, s, i + 1, next) else None
    requires CreatesRun(d, s, i + 1, next)
    ensures CreatesRun(d, s, i, state)
  {
    CreatesFromStep(d, s, i);
  }

  lemma NothingToCreate(d: Dialect, s: State, i: nat, state: State)
    requires WellFormed(s) && i == |s.order|
    ensures CreatesRun(d, s, i, state)
  {
    assert s.order[i..] == [];
  }

  predicate CreatesFrom(d: Dialect, s: State, i: nat)
    requires WellFormed(s) && i <= |s.order|
  {
    forall k :: i <= k < |s.order| ==> CreatesAt(d, s, k)
  }

  lemma CreatesFromStep(d: Dialect, s: State, i: nat)
    requires WellFormed(s) && i < |s.order|
    ensures CreatesFrom(d, s, i) <==> CreatesAt(d, s, i) && CreatesFrom(d, s, i + 1)
  {
  }

  lemma {:induction false} NothingChanged(names: seq<string>, now: State)
    requires forall n :: n in names ==> n in now.models
    ensures ChangedOps(names, EMPTY, now) == []
  {
    if names != [] {
      assert names[0] !in EMPTY.models;
      NothingChanged(names[1..], now);
    }
  }

  // ----- Free names -----

  ghost predicate TablesDiffer(s: State) {
    forall m, n :: m in s.models && n in s.models && m != n ==> s.models[m].table != s.models[n].table
  }

  ghost predicate NoneIsTracking(s: State) {
    forall m :: m in s.models ==> s.models[m].table != TRACKING
  }

  lemma {:induction false} TablesAfterAre(d: Dialect, s: State, i: nat, t: string)
    requires WellFormed(s) && i <= |s.order|
    ensures Explained(d, s, i, t)
  {
    if i == 0 {
      assert !UsedBefore(s, 0, t);
    } else {
      TablesAfterAre(d, s, i - 1, t);
      ExplainedStep(d, s, i - 1, t);
    }
  }

  /** A table that is there is the tracking table or that of an earlier model. */
  predicate Explained(d: Dialect, s: State, i: nat, t: string)
    requires WellFormed(s) && i <= |s.order|
  {
    t in TablesAfter(d, s, i) <==> t == TRACKING || UsedBefore(s, i, t)
  }

  lemma ExplainedStep(d: Dialect, s: State, i: nat, t: string)
    requires WellFormed(s) && i < |s.order| && Explained(d, s, i, t)
    ensures Explained(d, s, i + 1, t)
  {
    UsedStep(s, i, t);
  }

  /** One of the first i models has the table. */
  predicate UsedBefore(s: State, i: nat, t: string)
    requires WellFormed(s) && i <= |s.order|
  {
    exists k :: 0 <= k < i && ModelAt(s, k).table == t
  }

  lemma UsedStep(s: State, i: nat, t: string)
    requires WellFormed(s) && i < |s.order|
    ensures UsedBefore(s, i + 1, t) <==> UsedBefore(s, i, t) || ModelAt(s, i).table == t
  {
  }

  /** With distinct tables the one of an earlier model is as it was created. */
  lemma {:induction false} CreatedStays(d: Dialect, s: State, i: nat, k: nat)
    requires WellFormed(s) && TablesDiffer(s) && k < i <= |s.order|
    ensures HasCreated(d, s, i, k)
    decreases i
  {
    if i == k + 1 {
      CreatedNow(d, s, k);
    } else {
      CreatedStays(d, s, i - 1, k);
      StaysBesideNext(d, s, i - 1, k);
    }
  }

  lemma CreatedNow(d: Dialect, s: State, k: nat)
    requires WellFormed(s) && k < |s.order|
    ensures HasCreated(d, s, k + 1, k)
  {
  }

  predicate HasCreated(d: Dialect, s: State, i: nat, k: nat)
    requires WellFormed(s) && k < i <= |s.order|
  {
    var table, tables := ModelAt(s, k).table, TablesAfter(d, s, i);
    table in tables && tables[table] == Created(d, ModelAt(s, k))
  }

  lemma StaysBesideNext(d: Dialect, s: State, i: nat, k: nat)
    requires WellFormed(s) && TablesDiffer(s) && k < i < |s.order| && HasCreated(d, s, i, k)
    ensures HasCreated(d, s, i + 1, k)
  {
    assert s.order[k] != s.order[i];
    assert ModelAt(s, k).table != ModelAt(s, i).table;
  }

  lemma NameFreeIff(d: Dialect, s: State, i: nat)
    requires WellFormed(s) && i < |s.order|
    ensures NameFree(d, s, i) <==>
            ModelAt(s, i).table != TRACKING && forall j :: 0 <= j < i ==> ModelAt(s, j).table != ModelAt(s, i).table
  {
    TablesAfterAre(d, s, i, ModelAt(s, i).table);
  }

  lemma FreeNamesDiffer(d: Dialect, s: State)
    requires WellFormed(s) && forall k :: 0 <= k < |s.order| ==> NameFree(d, s, k)
    ensures TablesDiffer(s) && NoneIsTracking(s)
  {
    forall k | 0 <= k < |s.order|
      ensures ModelAt(s, k).table != TRACKING && forall j :: 0 <= j < k ==> ModelAt(s, j).table != ModelAt(s, k).table
    {
      NameFreeIff(d, s, k);
    }
    forall m | m in s.models ensures s.models[m].table != TRACKING {
      var i :| 0 <= i < |s.order| && s.order[i] == m;
      assert ModelAt(s, i).table != TRACKING;
    }
    forall m, n | m in s.models && n in s.models && m != n ensures s.models[m].table != s.models[n].table {
      var i :| 0 <= i < |s.order| && s.order[i] == m;
      var j :| 0 <= j < |s.order| && s.order[j] == n;
      assert ModelAt(s, i).table != ModelAt(s, j).table;
    }
  }

  lemma DifferentNamesFree(d: Dialect, s: State, k: nat)
    requires WellFormed(s) && TablesDiffer(s) && NoneIsTracking(s) && k < |s.order|
    ensures NameFree(d, s, k)
  {
    forall j | 0 <= j < k ensures ModelAt(s, j).table != ModelAt(s, k).table {
      assert s.order[j] != s.order[k];
    }
    NameFreeIff(d, s, k);
  }

  // ----- Columns -----

  predicate LengthFits(f: FieldState) {
    f.kind.Char? ==> f.maxLength <= MAX_VARCHAR
  }

  /** No string of the model is longer than PostgreSQL allows. */
  predicate ModelLengthsFit(ms: ModelState) {
    forall f :: f in ms.fields ==> LengthFits(f)
  }

  ghost predicate LengthsFit(s: State) {
    forall m :: m in s.models ==> ModelLengthsFit(s.models[m])
  }

  lemma TypesFitIff(d: Dialect, ms: ModelState, name: string)
    requires ModelSound(ms, name)
    ensures TypesFit(d, Defs(d, ms.fields)) <==> (d.Postgres? ==> ModelLengthsFit(ms))
  {
    var defs := Defs(d, ms.fields);
    forall i | 0 <= i < |defs|
      ensures defs[i] in defs && (TypeFits(d, defs[i]) <==> (d.Postgres? ==> LengthFits(ms.fields[i])))
    {
      assert ms.fields[i] in ms.fields && FieldSound(ms.fields[i]);
    }
    if TypesFit(d, defs) && d.Postgres? {
      forall f | f in ms.fields ensures LengthFits(f) {
        var i :| 0 <= i < |ms.fields| && ms.fields[i] == f;
        assert TypeFits(d, defs[i]);
      }
    }
  }

  lemma WellDefinedIff(d: Dialect, ms: ModelState, name: string)
    requires ModelSound(ms, name)
    ensures WellDefined(d, Defs(d, ms.fields)) <==> (d.Postgres? ==> ModelLengthsFit(ms))
  {
    TypesFitIff(d, ms, name);
    var defs := Defs(d, ms.fields);
    var pk: nat :| IsKey(ms.fields, pk);
    forall i | 0 <= i < |defs| ensures defs[i].key.PrimaryKey? <==> i == pk {
      assert FieldSound(ms.fields[i]);
    }
  }

  // ----- Foreign keys -----

  predicate TargetEarlier(s: State, i: nat, f: FieldState)
    requires WellFormed(s) && i < |s.order|
  {
    exists j :: 0 <= j <= i && ModelAt(s, j).table == f.relTargetTable
  }

  /** Every foreign key refers to its own model or to one registered earlier. */
  ghost predicate TargetsFirst(s: State)
    requires WellFormed(s)
  {
    forall i, f :: 0 <= i < |s.order| && f in ModelAt(s, i).fields && HasClause(f) ==> TargetEarlier(s, i, f)
  }

  predicate IntegerKey(ms: ModelState) {
    forall k :: k in ms.fields && k.primaryKey ==> TypeOf(k) == IntegerType
  }

  /** The model the field refers to has an integer key. */
  ghost predicate RefersToInteger(s: State, f: FieldState) {
    forall t :: t in s.models && s.models[t].table == f.relTargetTable ==> IntegerKey(s.models[t])
  }

  ghost predicate KeysInteger(s: State) {
    forall m, f :: m in s.models && f in s.models[m].fields && HasClause(f) ==> RefersToInteger(s, f)
  }

  /** The columns a key of the i-th model is checked against are those of the j-th. */
  lemma TargetColumnsAre(d: Dialect, s: State, i: nat, j: nat, f: FieldState)
    requires WellFormed(s) && TablesDiffer(s) && j <= i < |s.order| && HasClause(f)
    requires ModelAt(s, j).table == f.relTargetTable
    ensures TargetColumns(KeyOf(f)[0], ModelAt(s, i).table, Defs(d, ModelAt(s, i).fields), TablesAfter(d, s, i))
            == Defs(d, ModelAt(s, j).fields)
  {
    if j < i {
      CreatedStays(d, s, i, j);
      assert HasCreated(d, s, i, j) && s.order[j] != s.order[i];
    }
  }

  lemma DefOf(d: Dialect, fields: seq<FieldState>, c: ColumnDef) returns (f: FieldState)
    requires c in Defs(d, fields)
    ensures f in fields && c == Def(d, f)
  {
    var i :| 0 <= i < |fields| && Defs(d, fields)[i] == c;
    f := fields[i];
  }

  lemma SameColumn(fields: seq<FieldState>, f: FieldState, g: FieldState)
    requires DistinctFieldColumns(fields) && f in fields && g in fields && f.column == g.column
    ensures f == g
  {
  }

  /** A foreign key to a sound model's key column is accepted exactly when that key is an
      integer. */
  lemma RefersToIff(d: Dialect, own: ModelState, target: ModelState, f: FieldState)
    requires ModelSound(own, own.name) && ModelSound(target, target.name)
    requires f in own.fields && HasClause(f) && IsTarget(target, f)
    ensures RefersTo(KeyOf(f)[0], Defs(d, own.fields), Defs(d, target.fields)) <==> IntegerKey(target)
  {
    var key, defs, targets := KeyOf(f)[0], Defs(d, own.fields), Defs(d, target.fields);
    assert FieldSound(f);
    var n :| 0 <= n < |own.fields| && own.fields[n] == f;
    var k :| 0 <= k < |target.fields| && target.fields[k].column == f.relTargetColumn && target.fields[k].primaryKey;
    var g := target.fields[k];
    assert defs[n] == Def(d, f) && defs[n] in defs && targets[k] == Def(d, g) && targets[k] in targets;
    OnlyKey(target, g);
    if TypeOf(g) == IntegerType {
      assert Matches(key, defs[n], targets[k]);
    }
    if c, t :| c in defs && t in targets && Matches(key, c, t) {
      var f' := DefOf(d, own.fields, c);
      var g' := DefOf(d, target.fields, t);
      SameColumn(own.fields, f, f');
      SameColumn(target.fields, g, g');
    }
  }

  lemma OnlyKey(ms: ModelState, g: FieldState)
    requires ModelSound(ms, ms.name) && g in ms.fields && g.primaryKey
    ensures IntegerKey(ms) <==> TypeOf(g) == IntegerType
  {
    var pk: nat :| IsKey(ms.fields, pk);
    assert g == ms.fields[pk];
  }

  lemma KeyAcceptedIff(d: Dialect, s: State, i: nat, f: FieldState)
    requires Sound(s) && TargetsKnown(s) && TablesDiffer(s) && NoneIsTracking(s) && i < |s.order|
    requires f in ModelAt(s, i).fields && HasClause(f)
    ensures var ms := ModelAt(s, i);
            RefersTo(KeyOf(f)[0], Defs(d, ms.fields),
              TargetColumns(KeyOf(f)[0], ms.table, Defs(d, ms.fields), TablesAfter(d, s, i)))
            <==> TargetEarlier(s, i, f) && RefersToInteger(s, f)
  {
    assert s.order[i] in s.models;
    var t :| t in s.models && IsTarget(s.models[t], f);
    assert RefersToInteger(s, f) <==> IntegerKey(s.models[t]);
    if j :| 0 <= j <= i && ModelAt(s, j).table == f.relTargetTable {
      assert s.order[j] == t;
      TargetColumnsAre(d, s, i, j, f);
      RefersToIff(d, ModelAt(s, i), s.models[t], f);
    } else {
      TablesAfterAre(d, s, i, f.relTargetTable);
    }
  }

  predicate EachRefers(d: Dialect, ms: ModelState, tables: Tables) {
    forall f :: f in ms.fields && HasClause(f) ==>
      RefersTo(KeyOf(f)[0], Defs(d, ms.fields), TargetColumns(KeyOf(f)[0], ms.table, Defs(d, ms.fields), tables))
  }

  lemma KeysReferIff(d: Dialect, ms: ModelState, tables: Tables)
    ensures KeysRefer(ForeignKeys(ms.fields), ms.table, Defs(d, ms.fields), tables) <==> EachRefers(d, ms, tables)
  {
    forall key
      ensures key in ForeignKeys(ms.fields) <==> exists f :: f in ms.fields && HasClause(f) && key in KeyOf(f)
    {
      KeysAre(ms.fields, key);
    }
    forall f | f in ms.fields && HasClause(f) ensures KeyOf(f)[0] in ForeignKeys(ms.fields) {
      KeysAre(ms.fields, KeyOf(f)[0]);
    }
  }

  /** Every key of the i-th model finds its target, which has an integer key. */
  ghost predicate KeysFit(s: State, i: nat)
    requires WellFormed(s) && i < |s.order|
  {
    forall f :: f in ModelAt(s, i).fields && HasClause(f) ==> TargetEarlier(s, i, f) && RefersToInteger(s, f)
  }

  lemma CreatesAtIff(d: Dialect, s: State, i: nat)
    requires Sound(s) && TargetsKnown(s) && TablesDiffer(s) && NoneIsTracking(s) && i < |s.order|
    ensures CreatesAt(d, s, i) <==>
            (d.Postgres? ==> ModelLengthsFit(ModelAt(s, i))) && (ChecksKeys(d) ==> KeysFit(s, i))
  {
    var ms := ModelAt(s, i);
    DifferentNamesFree(d, s, i);
    WellDefinedIff(d, ms, s.order[i]);
    KeysReferIff(d, ms, TablesAfter(d, s, i));
    forall f | f in ms.fields && HasClause(f)
      ensures RefersTo(KeyOf(f)[0], Defs(d, ms.fields),
              TargetColumns(KeyOf(f)[0], ms.table, Defs(d, ms.fields), TablesAfter(d, s, i)))
              <==> TargetEarlier(s, i, f) && RefersToInteger(s, f)
    {
      KeyAcceptedIff(d, s, i, f);
    }
  }

  // ----- The first migration -----

  /** What registering leaves to the caller. */
  ghost predicate FirstRuns(d: Dialect, s: State)
    requires WellFormed(s)
  {
    && TablesDiffer(s) && NoneIsTracking(s)
    && (d.Postgres? ==> LengthsFit(s))
    && (ChecksKeys(d) ==> TargetsFirst(s) && KeysInteger(s))
  }

  /** The conditions on all models are those on each. */
  lemma LengthsOfEach(s: State)
    requires WellFormed(s)
    ensures LengthsFit(s) <==> forall i :: 0 <= i < |s.order| ==> ModelLengthsFit(ModelAt(s, i))
  {
    if forall i :: 0 <= i < |s.order| ==> ModelLengthsFit(ModelAt(s, i)) {
      forall m | m in s.models ensures ModelLengthsFit(s.models[m]) {
        var i :| 0 <= i < |s.order| && s.order[i] == m;
        assert ModelLengthsFit(ModelAt(s, i));
      }
    }
  }

  lemma KeysOfEach(s: State)
    requires WellFormed(s)
    ensures TargetsFirst(s) && KeysInteger(s) <==> forall i :: 0 <= i < |s.order| ==> KeysFit(s, i)
  {
    if TargetsFirst(s) && KeysInteger(s) {
      forall i | 0 <= i < |s.order| ensures KeysFit(s, i) {
        assert s.order[i] in s.models;
      }
    }
    if forall i :: 0 <= i < |s.order| ==> KeysFit(s, i) {
      forall i, f | 0 <= i < |s.order| && f in ModelAt(s, i).fields && HasClause(f) ensures TargetEarlier(s, i, f) {
        assert KeysFit(s, i);
      }
      forall m, f | m in s.models && f in s.models[m].fields && HasClause(f) ensures RefersToInteger(s, f) {
        var i :| 0 <= i < |s.order| && s.order[i] == m;
        assert KeysFit(s, i) && f in ModelAt(s, i).fields;
      }
    }
  }

  lemma CreatesAllIff(d: Dialect, s: State)
    requires Sound(s) && TargetsKnown(s)
    ensures CreatesFrom(d, s, 0) <==> FirstRuns(d, s)
  {
    if TablesDiffer(s) && NoneIsTracking(s) {
      LengthsOfEach(s);
      KeysOfEach(s);
      forall k | 0 <= k < |s.order|
        ensures CreatesAt(d, s, k) <==>
                (d.Postgres? ==> ModelLengthsFit(ModelAt(s, k))) && (ChecksKeys(d) ==> KeysFit(s, k))
      {
        CreatesAtIff(d, s, k);
      }
    } else if CreatesFrom(d, s, 0) {
      assert forall k :: 0 <= k < |s.order| ==> CreatesAt(d, s, k) ==> NameFree(d, s, k);
      FreeNamesDiffer(d, s);
    }
  }

  /** Behind the runner's tracking table the first migration generated for a registry
      runs if and only if no two registered models share a table, none uses the tracking
      table's name and, on PostgreSQL, no string is over-long and every foreign key refers
      to its own model or to one registered earlier, with an integer key. */
  lemma InitialRunIff(d: Dialect, s: State)
    requires Sound(s) && TargetsKnown(s)
    ensures RunOps(d, Diff(EMPTY, s), Run(EMPTY, StartTables(d))).Some? <==> FirstRuns(d, s)
  {
    NothingChanged(s.order, s);
    assert s.order[0..] == s.order && Diff(EMPTY, s) == CreatedOps(s.order, EMPTY, s);
    CreatesRunIff(d, s, 0, EMPTY);
    CreatesAllIff(d, s);
  }

  // ----- Registries whose first migration fails -----

  /** The models A and B, in this order, on tables a and b with the given fields. */
  function TwoModels(a: string, own: seq<FieldState>, b: string, bs: seq<FieldState>): State {
    State(map["A" := ModelState("A", a, own), "B" := ModelState("B", b, bs)], ["A", "B"])
  }

  /** A key field in front, perhaps one more. */
  predicate Plain(fields: seq<FieldState>) {
    && 1 <= |fields| <= 2 && fields[0].primaryKey && fields[0].relTargetTable == ""
    && (forall f :: f in fields ==> FieldSound(f))
    && (|fields| == 2 ==>
          !fields[1].primaryKey && fields[1].name != fields[0].name && fields[1].column != fields[0].column)
  }

  lemma PlainSound(ms: ModelState)
    requires Plain(ms.fields)
    ensures ModelSound(ms, ms.name)
  {
    assert IsKey(ms.fields, 0);
  }

  lemma TwoModelsSound(a: string, own: seq<FieldState>, b: string, bs: seq<FieldState>)
    requires Plain(own) && Plain(bs)
    requires |own| == 2 ==>
               own[1].relTargetTable == "" || (own[1].relTargetTable == b && own[1].relTargetColumn == bs[0].column)
    requires |bs| == 2 ==>
               bs[1].relTargetTable == "" || (bs[1].relTargetTable == a && bs[1].relTargetColumn == own[0].column)
    ensures Sound(TwoModels(a, own, b, bs)) && TargetsKnown(TwoModels(a, own, b, bs))
  {
    var s := TwoModels(a, own, b, bs);
    PlainSound(s.models["A"]);
    PlainSound(s.models["B"]);
    forall m, f | m in s.models && f in s.models[m].fields && f.relTargetTable != ""
      ensures exists t :: t in s.models && IsTarget(s.models[t], f)
    {
      if m == "A" {
        assert f == own[1] && IsTarget(s.models["B"], f);
      } else {
        assert f == bs[1] && IsTarget(s.models["A"], f);
      }
    }
  }

  /** The registry accepts the models, the database refuses their first migration. */
  ghost predicate Fails(d: Dialect, s: State) {
    Sound(s) && TargetsKnown(s) && RunOps(d, Diff(EMPTY, s), Run(EMPTY, StartTables(d))).None?
  }

  lemma FailsIf(d: Dialect, s: State)
    requires Sound(s) && TargetsKnown(s) && !FirstRuns(d, s)
    ensures Fails(d, s)
  {
    InitialRunIff(d, s);
  }

  lemma SharedTableFails(d: Dialect)
    ensures Fails(d, TwoModels("t", [IdField()], "t", [IdField()]))
  {
    var s := TwoModels("t", [IdField()], "t", [IdField()]);
    TwoModelsSound("t", [IdField()], "t", [IdField()]);
    assert "A" in s.models && "B" in s.models && s.models["A"].table == s.models["B"].table;
    FailsIf(d, s);
  }

  lemma TrackingTableFails(d: Dialect)
    ensures Fails(d, TwoModels("t", [IdField()], TRACKING, [IdField()]))
  {
    var s := TwoModels("t", [IdField()], TRACKING, [IdField()]);
    TwoModelsSound("t", [IdField()], TRACKING, [IdField()]);
    assert "B" in s.models && s.models["B"].table == TRACKING;
    FailsIf(d, s);
  }

  /** Two models on one table, and a model on the tracking table. */
  lemma TakenTableFails(d: Dialect)
    ensures Fails(d, TwoModels("t", [IdField()], "t", [IdField()]))
    ensures Fails(d, TwoModels("t", [IdField()], TRACKING, [IdField()]))
  {
    SharedTableFails(d);
    TrackingTableFails(d);
  }

  /** On PostgreSQL, a model registered before the one its foreign key refers to. */
  lemma ForwardKeyFails()
    ensures Fails(POSTGRES, TwoModels("a", [IdField(), KeyField("b")], "b", [IdField()]))
  {
    var s := TwoModels("a", [IdField(), KeyField("b")], "b", [IdField()]);
    TwoModelsSound("a", [IdField(), KeyField("b")], "b", [IdField()]);
    assert ModelAt(s, 0).fields[1] == KeyField("b");
    assert !TargetEarlier(s, 0, KeyField("b"));
    FailsIf(POSTGRES, s);
  }

  /** On PostgreSQL, a foreign key, which is an integer, to a model with a string key. */
  lemma StringKeyFails()
    ensures var code := TextField("Code", "id").(primaryKey := true);
            Fails(POSTGRES, TwoModels("a", [code], "b", [IdField(), KeyField("a")]))
  {
    var code := TextField("Code", "id").(primaryKey := true);
    var s := TwoModels("a", [code], "b", [IdField(), KeyField("a")]);
    TwoModelsSound("a", [code], "b", [IdField(), KeyField("a")]);
    assert "B" in s.models && s.models["B"].fields[1] == KeyField("a");
    assert "A" in s.models && s.models["A"].fields[0] == code;
    assert !RefersToInteger(s, KeyField("a"));
    FailsIf(POSTGRES, s);
  }

  /** On PostgreSQL, a max_length beyond that of a VARCHAR. */
  lemma LongStringFails()
    ensures var long := TextField("Body", "body").(maxLength := 20000000);
            Fails(POSTGRES, TwoModels("a", [IdField(), long], "b", [IdField()]))
  {
    var long := TextField("Body", "body").(maxLength := 20000000);
    var s := TwoModels("a", [IdField(), long], "b", [IdField()]);
    TwoModelsSound("a", [IdField(), long], "b", [IdField()]);
    assert "A" in s.models && s.models["A"].fields[1] == long && !LengthFits(long);
    FailsIf(POSTGRES, s);
  }
}
