/** Whether the operations of Diff run on a database that matches the old state. */
module DiffRun {
  import opened Schema
  import opened Engine
  import opened Ddl
  import opened Commutation
  import opened Autodetect

  // ----- What a generated migration needs -----

  /** ADD COLUMN wants a nullable field, which is no key, and a column not yet there. */
  predicate AddFits(d: Dialect, have: seq<FieldState>, f: FieldState) {
    f.nullable && Addable(d, Def(d, f)) && !HasColumnNamed(have, f.column)
  }

  predicate AddsFit(d: Dialect, have: seq<FieldState>, fields: seq<FieldState>)
    decreases |fields|
  {
    fields == [] || (AddFits(d, have, fields[0]) && AddsFit(d, have + [fields[0]], fields[1..]))
  }

  /** The next fields make a table, which takes the values of the columns that stay. */
  predicate Rebuildable(d: Dialect, have: seq<FieldState>, next: seq<FieldState>) {
    WellDefined(d, Defs(d, next)) && Copyable(d, CommonColumns(have, next), Defs(d, have), Defs(d, next))
  }

  /** Each alteration leaves fields that the table can be rebuilt to. */
  predicate AltersFit(d: Dialect, have: seq<FieldState>, fields: seq<FieldState>)
    decreases |fields|
  {
    fields == [] ||
    (Rebuildable(d, have, ReplaceFirst(have, fields[0])) && AltersFit(d, ReplaceFirst(have, fields[0]), fields[1..]))
  }

  predicate RemovesFit(d: Dialect, have: seq<FieldState>, gone: seq<FieldState>)
    decreases |gone|
  {
    gone == [] ||
    (Rebuildable(d, have, RemoveFirst(have, gone[0].name)) && RemovesFit(d, RemoveFirst(have, gone[0].name), gone[1..]))
  }

  /** The new fields of a surviving model can be reached one column at a time. */
  predicate ChangesFit(d: Dialect, was: seq<FieldState>, now: seq<FieldState>) {
    var added, altered := AddedFields(was, now), AlteredFields(was, now);
    && AddsFit(d, was, added)
    && AltersFit(d, was + added, altered)
    && RemovesFit(d, ReplaceAll(was + added, altered), RemovedFields(was, now))
  }

  predicate Rebuilds(was: seq<FieldState>, now: seq<FieldState>) {
    AlteredFields(was, now) != [] || RemovedFields(was, now) != []
  }

  // ----- One operation -----

  ghost predicate Sound(d: Dialect, r: Run) {
    Tracks(d, r) && FieldsUnique(r.state)
  }

  /** The run goes on with new fields of one model and the same tables. */
  ghost predicate Next(d: Dialect, r: Run, model: string, fields: seq<FieldState>, r': Run) {
    && model in r.state.models && Sound(d, r')
    && r'.tables.Keys == r.tables.Keys && r'.state == SetFields(r.state, model, fields)
  }

  lemma StepSound(d: Dialect, op: Operation, r: Run)
    requires Sound(d, r) && AddsNoDuplicate(op, r.state) && StepOp(d, op, r).Some?
    ensures Sound(d, StepOp(d, op, r).value)
  {
    StepCommutes(d, op, r);
  }

  lemma AddOneIff(d: Dialect, r: Run, model: string, f: FieldState)
    requires !ChecksKeys(d) && Sound(d, r) && model in r.state.models && !HasField(r.state.models[model].fields, f.name)
    ensures var have, next := r.state.models[model].fields, StepOp(d, AddField(model, f), r);
            && (next.Some? <==> AddFits(d, have, f))
            && (next.Some? ==> Next(d, r, model, have + [f], next.value))
  {
    var table := r.state.models[model].table;
    ColumnsOfDefs(d, r.state.models[model].fields);
    ExecAllOne(d, AddColumn(table, Def(d, f)), r.tables);
    if StepOp(d, AddField(model, f), r).Some? {
      StepSound(d, AddField(model, f), r);
    }
  }

  /** A rebuild of a model's table, keys unchecked. */
  lemma RebuildRunsIff(d: Dialect, r: Run, ms: ModelState, fields: seq<FieldState>)
    requires !ChecksKeys(d) && TrackedBy(d, ms, r.tables)
    ensures ExecAll(d, RebuildTableSql(d, ms.table, ms.fields, fields), r.tables).Some? <==>
            TempName(ms.table) !in r.tables && Rebuildable(d, ms.fields, fields)
    ensures ExecAll(d, RebuildTableSql(d, ms.table, ms.fields, fields), r.tables).Some? ==>
            ExecAll(d, RebuildTableSql(d, ms.table, ms.fields, fields), r.tables).value.Keys == r.tables.Keys
  {
    RebuildEffect(d, ms.table, ms.fields, fields, r.tables);
  }

  lemma AlterSqlIs(d: Dialect, s: State, model: string, f: FieldState)
    requires model in s.models && HasField(s.models[model].fields, f.name)
    ensures var ms := s.models[model];
            && OpSql(d, AlterField(model, f), s)
               == Stmts(RebuildTableSql(d, ms.table, ms.fields, ReplaceFirst(ms.fields, f)))
            && ApplyOp(AlterField(model, f), s) == Some(SetFields(s, model, ReplaceFirst(ms.fields, f)))
  {
  }

  lemma WithoutUnique(fields: seq<FieldState>, name: string)
    requires UniqueNames(fields)
    ensures Without(fields, name) == RemoveFirst(fields, name)
  {
    CountUnique(fields, name);
    WithoutIsRemoveFirst(fields, name);
  }

  lemma RemoveSqlIs(d: Dialect, s: State, model: string, name: string)
    requires model in s.models && HasField(s.models[model].fields, name) && UniqueNames(s.models[model].fields)
    ensures var ms := s.models[model];
            && OpSql(d, RemoveField(model, name), s)
               == Stmts(RebuildTableSql(d, ms.table, ms.fields, RemoveFirst(ms.fields, name)))
            && ApplyOp(RemoveField(model, name), s) == Some(SetFields(s, model, RemoveFirst(ms.fields, name)))
  {
    WithoutUnique(s.models[model].fields, name);
  }

  /** An operation that rebuilds the table of a model. */
  lemma RebuildStep(d: Dialect, op: Operation, r: Run, model: string, fields: seq<FieldState>)
    requires !ChecksKeys(d) && Sound(d, r) && model in r.state.models && AddsNoDuplicate(op, r.state)
    requires var ms := r.state.models[model];
             && OpSql(d, op, r.state) == Stmts(RebuildTableSql(d, ms.table, ms.fields, fields))
             && ApplyOp(op, r.state) == Some(SetFields(r.state, model, fields))
    ensures var ms, next := r.state.models[model], StepOp(d, op, r);
            && (next.Some? <==> TempName(ms.table) !in r.tables && Rebuildable(d, ms.fields, fields))
            && (next.Some? ==> Next(d, r, model, fields, next.value))
  {
    RebuildRunsIff(d, r, r.state.models[model], fields);
    if StepOp(d, op, r).Some? {
      StepSound(d, op, r);
    }
  }

  lemma AlterOneIff(d: Dialect, r: Run, model: string, f: FieldState)
    requires !ChecksKeys(d) && Sound(d, r) && model in r.state.models && HasField(r.state.models[model].fields, f.name)
    ensures var ms, next := r.state.models[model], StepOp(d, AlterField(model, f), r);
            var fields := ReplaceFirst(ms.fields, f);
            && (next.Some? <==> TempName(ms.table) !in r.tables && Rebuildable(d, ms.fields, fields))
            && (next.Some? ==> Next(d, r, model, fields, next.value))
  {
    AlterSqlIs(d, r.state, model, f);
    RebuildStep(d, AlterField(model, f), r, model, ReplaceFirst(r.state.models[model].fields, f));
  }

  lemma RemoveOneIff(d: Dialect, r: Run, model: string, name: string)
    requires !ChecksKeys(d) && Sound(d, r) && model in r.state.models && HasField(r.state.models[model].fields, name)
    ensures var ms, next := r.state.models[model], StepOp(d, RemoveField(model, name), r);
            var fields := RemoveFirst(ms.fields, name);
            && (next.Some? <==> TempName(ms.table) !in r.tables && Rebuildable(d, ms.fields, fields))
            && (next.Some? ==> Next(d, r, model, fields, next.value))
  {
    RemoveSqlIs(d, r.state, model, name);
    RebuildStep(d, RemoveField(model, name), r, model, RemoveFirst(r.state.models[model].fields, name));
  }

  // ----- The operations on one model -----

  lemma RunFirst(d: Dialect, op: Operation, rest: seq<Operation>, r: Run)
    ensures RunOps(d, [op] + rest, r) ==
            match StepOp(d, op, r) case None => None case Some(next) => RunOps(d, rest, next)
  {
    assert ([op] + rest)[0] == op && ([op] + rest)[1..] == rest;
  }

  lemma NextTwice(d: Dialect, r: Run, model: string, fields: seq<FieldState>, r1: Run, more: seq<FieldState>, r2: Run)
    requires model in r.state.models && Next(d, r, model, fields, r1) && Next(d, r1, model, more, r2)
    ensures Next(d, r, model, more, r2)
  {
    SetFieldsTwice(r.state, model, fields, more);
  }

  lemma NextSame(d: Dialect, r: Run, model: string)
    requires Sound(d, r) && model in r.state.models
    ensures Next(d, r, model, r.state.models[model].fields, r)
  {
  }

  /** What AddsIff says of one list of fields. */
  ghost predicate Adds(d: Dialect, r: Run, model: string, fields: seq<FieldState>)
    requires model in r.state.models
  {
    var have, next := r.state.models[model].fields, RunOps(d, AddOps(model, fields), r);
    && (next.Some? <==> AddsFit(d, have, fields))
    && (next.Some? ==> Next(d, r, model, have + fields, next.value))
  }

  lemma AddOpsCons(model: string, f: FieldState, rest: seq<FieldState>)
    ensures AddOps(model, [f] + rest) == [AddField(model, f)] + AddOps(model, rest)
  {
  }

  lemma FieldsCons(have: seq<FieldState>, f: FieldState, rest: seq<FieldState>)
    ensures ([f] + rest)[0] == f && ([f] + rest)[1..] == rest && (have + [f]) + rest == have + ([f] + rest)
  {
  }

  lemma AddsCons(d: Dialect, r: Run, model: string, f: FieldState, rest: seq<FieldState>, r1: Run)
    requires Sound(d, r) && model in r.state.models && StepOp(d, AddField(model, f), r) == Some(r1)
    requires AddFits(d, r.state.models[model].fields, f)
    requires Next(d, r, model, r.state.models[model].fields + [f], r1) && Adds(d, r1, model, rest)
    ensures Adds(d, r, model, [f] + rest)
  {
    var have := r.state.models[model].fields;
    AddOpsCons(model, f, rest);
    RunFirst(d, AddField(model, f), AddOps(model, rest), r);
    FieldsCons(have, f, rest);
    if next :| RunOps(d, AddOps(model, rest), r1) == Some(next) {
      NextTwice(d, r, model, have + [f], r1, have + ([f] + rest), next);
    }
  }

  lemma AddsStop(d: Dialect, r: Run, model: string, f: FieldState, rest: seq<FieldState>)
    requires model in r.state.models && StepOp(d, AddField(model, f), r).None?
    requires !AddFits(d, r.state.models[model].fields, f)
    ensures Adds(d, r, model, [f] + rest)
  {
    AddOpsCons(model, f, rest);
    RunFirst(d, AddField(model, f), AddOps(model, rest), r);
    FieldsCons([], f, rest);
  }

  lemma {:induction false} AddsIff(d: Dialect, r: Run, model: string, fields: seq<FieldState>)
    requires !ChecksKeys(d) && Sound(d, r) && model in r.state.models && UniqueNames(fields)
    requires forall f :: f in fields ==> !HasField(r.state.models[model].fields, f.name)
    ensures Adds(d, r, model, fields)
    decreases |fields|
  {
    var have := r.state.models[model].fields;
    if fields == [] {
      assert have + fields == have;
      NextSame(d, r, model);
    } else {
      var f, rest := fields[0], fields[1..];
      assert f in fields && fields == [f] + rest;
      AddOneIff(d, r, model, f);
      match StepOp(d, AddField(model, f), r)
      case None => AddsStop(d, r, model, f, rest);
      case Some(r1) =>
        StillAbsent(have, fields);
        AddsIff(d, r1, model, rest);
        AddsCons(d, r, model, f, rest, r1);
    }
  }

  lemma StillNamed(have: seq<FieldState>, fields: seq<FieldState>)
    requires fields != [] && forall f :: f in fields ==> HasField(have, f.name)
    ensures forall f :: f in fields[1..] ==> HasField(ReplaceFirst(have, fields[0]), f.name)
  {
    forall f | f in fields[1..] ensures HasField(ReplaceFirst(have, fields[0]), f.name) {
      assert f in fields;
      LookupReplaceFirst(have, fields[0], f.name);
    }
  }

  /** What AltersIff says of one list of fields. */
  ghost predicate Alters(d: Dialect, r: Run, model: string, fields: seq<FieldState>)
    requires model in r.state.models
  {
    var ms, next := r.state.models[model], RunOps(d, AlterOps(model, fields), r);
    && (next.Some? <==> (fields != [] ==> TempName(ms.table) !in r.tables) && AltersFit(d, ms.fields, fields))
    && (next.Some? ==> Next(d, r, model, ReplaceAll(ms.fields, fields), next.value))
  }

  lemma AlterOpsCons(model: string, f: FieldState, rest: seq<FieldState>)
    ensures AlterOps(model, [f] + rest) == [AlterField(model, f)] + AlterOps(model, rest)
  {
  }

  lemma AltersCons(d: Dialect, r: Run, model: string, f: FieldState, rest: seq<FieldState>, r1: Run)
    requires model in r.state.models && StepOp(d, AlterField(model, f), r) == Some(r1)
    requires var ms := r.state.models[model];
             && TempName(ms.table) !in r.tables && Rebuildable(d, ms.fields, ReplaceFirst(ms.fields, f))
             && Next(d, r, model, ReplaceFirst(ms.fields, f), r1)
    requires Alters(d, r1, model, rest)
    ensures Alters(d, r, model, [f] + rest)
  {
    var next := ReplaceFirst(r.state.models[model].fields, f);
    AlterOpsCons(model, f, rest);
    RunFirst(d, AlterField(model, f), AlterOps(model, rest), r);
    FieldsCons([], f, rest);
    if end :| RunOps(d, AlterOps(model, rest), r1) == Some(end) {
      NextTwice(d, r, model, next, r1, ReplaceAll(next, rest), end);
    }
  }

  lemma AltersStop(d: Dialect, r: Run, model: string, f: FieldState, rest: seq<FieldState>)
    requires model in r.state.models && StepOp(d, AlterField(model, f), r).None?
    requires var ms := r.state.models[model];
             !(TempName(ms.table) !in r.tables && Rebuildable(d, ms.fields, ReplaceFirst(ms.fields, f)))
    ensures Alters(d, r, model, [f] + rest)
  {
    AlterOpsCons(model, f, rest);
    RunFirst(d, AlterField(model, f), AlterOps(model, rest), r);
    FieldsCons([], f, rest);
  }

  lemma AltersNone(d: Dialect, r: Run, model: string)
    requires Sound(d, r) && model in r.state.models
    ensures Alters(d, r, model, [])
  {
    NextSame(d, r, model);
  }

  lemma {:induction false} AltersIff(d: Dialect, r: Run, model: string, fields: seq<FieldState>)
    requires !ChecksKeys(d) && Sound(d, r) && model in r.state.models
    requires forall f :: f in fields ==> HasField(r.state.models[model].fields, f.name)
    ensures Alters(d, r, model, fields)
    decreases |fields|
  {
    if fields == [] {
      AltersNone(d, r, model);
    } else {
      var f, rest := fields[0], fields[1..];
      assert f in fields && fields == [f] + rest;
      AlterOneIff(d, r, model, f);
      StillNamed(r.state.models[model].fields, fields);
      var r1 := StepOp(d, AlterField(model, f), r);
      if r1.Some? {
        AltersIff(d, r1.value, model, rest);
        AltersCons(d, r, model, f, rest, r1.value);
      } else {
        AltersStop(d, r, model, f, rest);
      }
    }
  }

  /** What RemovesIff says of one list of fields. */
  ghost predicate Removes(d: Dialect, r: Run, model: string, fields: seq<FieldState>)
    requires model in r.state.models
  {
    var ms, next := r.state.models[model], RunOps(d, RemoveOps(model, fields), r);
    && (next.Some? <==> (fields != [] ==> TempName(ms.table) !in r.tables) && RemovesFit(d, ms.fields, fields))
    && (next.Some? ==> Next(d, r, model, RemoveAll(ms.fields, fields), next.value))
  }

  lemma RemoveOpsCons(model: string, f: FieldState, rest: seq<FieldState>)
    ensures RemoveOps(model, [f] + rest) == [RemoveField(model, f.name)] + RemoveOps(model, rest)
  {
  }

  lemma RemovesCons(d: Dialect, r: Run, model: string, f: FieldState, rest: seq<FieldState>, r1: Run)
    requires model in r.state.models && StepOp(d, RemoveField(model, f.name), r) == Some(r1)
    requires var ms := r.state.models[model];
             && TempName(ms.table) !in r.tables && Rebuildable(d, ms.fields, RemoveFirst(ms.fields, f.name))
             && Next(d, r, model, RemoveFirst(ms.fields, f.name), r1)
    requires Removes(d, r1, model, rest)
    ensures Removes(d, r, model, [f] + rest)
  {
    var next := RemoveFirst(r.state.models[model].fields, f.name);
    RemoveOpsCons(model, f, rest);
    RunFirst(d, RemoveField(model, f.name), RemoveOps(model, rest), r);
    FieldsCons([], f, rest);
    if end :| RunOps(d, RemoveOps(model, rest), r1) == Some(end) {
      NextTwice(d, r, model, next, r1, RemoveAll(next, rest), end);
    }
  }

  lemma RemovesStop(d: Dialect, r: Run, model: string, f: FieldState, rest: seq<FieldState>)
    requires model in r.state.models && StepOp(d, RemoveField(model, f.name), r).None?
    requires var ms := r.state.models[model];
             !(TempName(ms.table) !in r.tables && Rebuildable(d, ms.fields, RemoveFirst(ms.fields, f.name)))
    ensures Removes(d, r, model, [f] + rest)
  {
    RemoveOpsCons(model, f, rest);
    RunFirst(d, RemoveField(model, f.name), RemoveOps(model, rest), r);
    FieldsCons([], f, rest);
  }

  lemma RemovesNone(d: Dialect, r: Run, model: string)
    requires Sound(d, r) && model in r.state.models
    ensures Removes(d, r, model, [])
  {
    NextSame(d, r, model);
  }

  lemma {:induction false} RemovesIff(d: Dialect, r: Run, model: string, fields: seq<FieldState>)
    requires !ChecksKeys(d) && Sound(d, r) && model in r.state.models && UniqueNames(fields)
    requires forall f :: f in fields ==> HasField(r.state.models[model].fields, f.name)
    ensures Removes(d, r, model, fields)
    decreases |fields|
  {
    if fields == [] {
      RemovesNone(d, r, model);
    } else {
      var f, rest := fields[0], fields[1..];
      assert f in fields && fields == [f] + rest;
      RemoveOneIff(d, r, model, f.name);
      StillThere(r.state.models[model].fields, fields);
      var r1 := StepOp(d, RemoveField(model, f.name), r);
      if r1.Some? {
        RemovesIff(d, r1.value, model, rest);
        RemovesCons(d, r, model, f, rest, r1.value);
      } else {
        RemovesStop(d, r, model, f, rest);
      }
    }
  }

  /** The names the three parts of the field operations are about. */
  lemma PartsNamed(was: seq<FieldState>, now: seq<FieldState>)
    requires UniqueNames(was) && UniqueNames(now)
    ensures var added, altered, removed := AddedFields(was, now), AlteredFields(was, now), RemovedFields(was, now);
            && UniqueNames(added) && UniqueNames(removed)
            && (forall f :: f in altered ==> HasField(was + added, f.name))
            && (forall f :: f in removed ==> HasField(ReplaceAll(was + added, altered), f.name))
  {
    var added, altered, removed := AddedFields(was, now), AlteredFields(was, now), RemovedFields(was, now);
    FilterUnique(now, NotIn(was));
    FilterUnique(now, DiffersFrom(was));
    FilterUnique(was, NotIn(now));
    HasFieldIffNamed(was);
    forall f | f in altered || f in removed ensures HasField(was + added, f.name) {
      LookupConcat(was, added, f.name);
    }
    forall f | f in removed ensures HasField(ReplaceAll(was + added, altered), f.name) {
      LookupReplaceAll(was + added, altered, f.name);
    }
  }

  /** The rebuilding part of the field operations. */
  lemma RebuildsIff(d: Dialect, r: Run, model: string, altered: seq<FieldState>, removed: seq<FieldState>)
    requires !ChecksKeys(d) && Sound(d, r) && model in r.state.models && UniqueNames(removed)
    requires forall f :: f in altered ==> HasField(r.state.models[model].fields, f.name)
    requires forall f :: f in removed ==> HasField(ReplaceAll(r.state.models[model].fields, altered), f.name)
    ensures var ms, next := r.state.models[model], RunOps(d, AlterOps(model, altered) + RemoveOps(model, removed), r);
            var left := ReplaceAll(ms.fields, altered);
            && (next.Some? <==> (altered != [] || removed != [] ==> TempName(ms.table) !in r.tables)
                                && AltersFit(d, ms.fields, altered) && RemovesFit(d, left, removed))
            && (next.Some? ==> Next(d, r, model, RemoveAll(left, removed), next.value))
  {
    var ms := r.state.models[model];
    var left := ReplaceAll(ms.fields, altered);
    RunOpsConcat(d, AlterOps(model, altered), RemoveOps(model, removed), r);
    AltersIff(d, r, model, altered);
    match RunOps(d, AlterOps(model, altered), r)
    case None =>
    case Some(r1) =>
      RemovesIff(d, r1, model, removed);
      if next :| RunOps(d, RemoveOps(model, removed), r1) == Some(next) {
        NextTwice(d, r, model, left, r1, RemoveAll(left, removed), next);
      }
  }

  predicate ModelFits(d: Dialect, ms: ModelState, now: seq<FieldState>, names: set<string>) {
    ChangesFit(d, ms.fields, now) && (Rebuilds(ms.fields, now) ==> TempName(ms.table) !in names)
  }

  lemma ModelIff(d: Dialect, r: Run, model: string, now: seq<FieldState>)
    requires !ChecksKeys(d) && Sound(d, r) && model in r.state.models && UniqueNames(now)
    ensures var ms := r.state.models[model];
            var next := RunOps(d, FieldOps(model, ms.fields, now), r);
            && (next.Some? <==> ModelFits(d, ms, now, r.tables.Keys))
            && (next.Some? ==> Next(d, r, model, FinalFields(ms.fields, now), next.value))
  {
    var was := r.state.models[model].fields;
    var added, altered, removed := AddedFields(was, now), AlteredFields(was, now), RemovedFields(was, now);
    PartsNamed(was, now);
    RunOpsConcat(d, AddOps(model, added), AlterOps(model, altered) + RemoveOps(model, removed), r);
    AddsIff(d, r, model, added);
    match RunOps(d, AddOps(model, added), r)
    case None =>
    case Some(r1) =>
      RebuildsIff(d, r1, model, altered, removed);
      if next :| RunOps(d, AlterOps(model, altered) + RemoveOps(model, removed), r1) == Some(next) {
        NextTwice(d, r, model, was + added, r1, FinalFields(was, now), next);
      }
  }

  // ----- The surviving models -----

  predicate Survives(was: State, now: State, m: string) {
    m in was.models && m in now.models
  }

  predicate SurvivorsFit(d: Dialect, ms: seq<string>, was: State, now: State, names: set<string>) {
    forall m :: m in ms && Survives(was, now, m) ==> ModelFits(d, was.models[m], now.models[m].fields, names)
  }

  /** What ChangedIff says of one list of models. */
  ghost predicate Changes(d: Dialect, ms: seq<string>, was: State, now: State, r: Run)
    requires forall n :: n in ms ==> n in now.models
  {
    var next := RunOps(d, ChangedOps(ms, was, now), r);
    && (next.Some? <==> SurvivorsFit(d, ms, was, now, r.tables.Keys))
    && (next.Some? ==> Sound(d, next.value) && next.value.state.models.Keys == r.state.models.Keys)
  }

  lemma SurvivorsCons(d: Dialect, m: string, rest: seq<string>, was: State, now: State, names: set<string>)
    requires Survives(was, now, m)
    ensures SurvivorsFit(d, [m] + rest, was, now, names) <==>
            ModelFits(d, was.models[m], now.models[m].fields, names) && SurvivorsFit(d, rest, was, now, names)
  {
    assert m in [m] + rest && forall n :: n in [m] + rest <==> n == m || n in rest;
  }

  lemma ChangedOpsCons(m: string, rest: seq<string>, was: State, now: State)
    requires Survives(was, now, m) && forall n :: n in [m] + rest ==> n in now.models
    ensures (forall n :: n in rest ==> n in now.models)
            && ChangedOps([m] + rest, was, now)
               == FieldOps(m, was.models[m].fields, now.models[m].fields) + ChangedOps(rest, was, now)
  {
    assert ([m] + rest)[0] == m && ([m] + rest)[1..] == rest && forall n :: n in rest ==> n in [m] + rest;
  }

  lemma ChangesCons(d: Dialect, m: string, rest: seq<string>, was: State, now: State, r: Run)
    requires Survives(was, now, m) && m in r.state.models && forall n :: n in [m] + rest ==> n in now.models
    requires !ChecksKeys(d) && Sound(d, r) && UniqueNames(now.models[m].fields) && r.state.models[m] == was.models[m]
    requires forall n :: n in rest ==> n in now.models
    requires var next := RunOps(d, FieldOps(m, was.models[m].fields, now.models[m].fields), r);
             next.Some? ==> Changes(d, rest, was, now, next.value)
    ensures Changes(d, [m] + rest, was, now, r)
  {
    var ops := FieldOps(m, was.models[m].fields, now.models[m].fields);
    ChangedOpsCons(m, rest, was, now);
    RunOpsConcat(d, ops, ChangedOps(rest, was, now), r);
    ModelIff(d, r, m, now.models[m].fields);
    SurvivorsCons(d, m, rest, was, now, r.tables.Keys);
  }

  lemma ChangesSkip(d: Dialect, m: string, rest: seq<string>, was: State, now: State, r: Run)
    requires m !in was.models && (forall n :: n in [m] + rest ==> n in now.models) && Changes(d, rest, was, now, r)
    ensures Changes(d, [m] + rest, was, now, r)
  {
    assert ([m] + rest)[0] == m && ([m] + rest)[1..] == rest;
    assert forall n :: n in [m] + rest <==> n == m || n in rest;
    assert ChangedOps([m] + rest, was, now) == ChangedOps(rest, was, now);
  }

  /** The listed models are as in the old state. */
  ghost predicate StillOld(ms: seq<string>, was: State, s: State) {
    forall n :: n in ms && n in was.models ==> n in s.models && s.models[n] == was.models[n]
  }

  ghost predicate ReadyToChange(d: Dialect, ms: seq<string>, was: State, now: State, r: Run) {
    && !ChecksKeys(d) && Sound(d, r) && Distinct(ms) && FieldsUnique(now)
    && (forall n :: n in ms ==> n in now.models) && StillOld(ms, was, r.state)
  }

  lemma ReadyForRest(d: Dialect, m: string, rest: seq<string>, was: State, now: State, r: Run)
    requires ReadyToChange(d, [m] + rest, was, now, r)
    ensures m in now.models && m !in rest && ReadyToChange(d, rest, was, now, r)
    ensures m in was.models ==> m in r.state.models && r.state.models[m] == was.models[m]
  {
    var ms := [m] + rest;
    assert ms[0] == m && ms[1..] == rest && forall n :: n in ms <==> n == m || n in rest;
  }

  lemma ReadyAfter(d: Dialect, m: string, rest: seq<string>, was: State, now: State, r: Run, fields: seq<FieldState>,
                   r1: Run)
    requires ReadyToChange(d, rest, was, now, r) && m !in rest && Next(d, r, m, fields, r1)
    ensures ReadyToChange(d, rest, was, now, r1)
  {
  }

  lemma {:induction false} ChangedIff(d: Dialect, ms: seq<string>, was: State, now: State, r: Run)
    requires ReadyToChange(d, ms, was, now, r)
    ensures Changes(d, ms, was, now, r)
    decreases |ms|
  {
    if ms == [] {
    } else {
      var m, rest := ms[0], ms[1..];
      assert ms == [m] + rest;
      ReadyForRest(d, m, rest, was, now, r);
      if m in was.models {
        ModelIff(d, r, m, now.models[m].fields);
        var next := RunOps(d, FieldOps(m, was.models[m].fields, now.models[m].fields), r);
        if next.Some? {
          ReadyAfter(d, m, rest, was, now, r, FinalFields(was.models[m].fields, now.models[m].fields), next.value);
          ChangedIff(d, rest, was, now, next.value);
        }
        ChangesCons(d, m, rest, was, now, r);
      } else {
        ChangedIff(d, rest, was, now, r);
        ChangesSkip(d, m, rest, was, now, r);
      }
    }
  }

  // ----- The new models -----

  predicate Appears(was: State, now: State, m: string) {
    m in now.models && m !in was.models
  }

  /** The tables of the new models among the named ones. */
  function NewTables(ms: seq<string>, was: State, now: State): set<string> {
    set m | m in ms && Appears(was, now, m) :: now.models[m].table
  }

  predicate AppearsFree(d: Dialect, ms: seq<string>, was: State, now: State, names: set<string>) {
    && (forall m :: m in ms && Appears(was, now, m) ==>
          now.models[m].table !in names && WellDefined(d, Defs(d, now.models[m].fields)))
    && (forall m, n :: m in ms && n in ms && m != n && Appears(was, now, m) && Appears(was, now, n) ==>
          now.models[m].table != now.models[n].table)
  }

  lemma CreateOneIff(d: Dialect, r: Run, name: string, table: string, fields: seq<FieldState>)
    requires !ChecksKeys(d) && Sound(d, r) && UniqueNames(fields) && name !in r.state.models
    ensures var next := StepOp(d, CreateModel(name, table, fields), r);
            && (next.Some? <==> table !in r.tables && WellDefined(d, Defs(d, fields)))
            && (next.Some? ==> && Sound(d, next.value) && next.value.tables.Keys == r.tables.Keys + {table}
                               && next.value.state.models == r.state.models[name := ModelState(name, table, fields)])
  {
    ExecAllOne(d, CreateTableSql(d, table, fields), r.tables);
    if StepOp(d, CreateModel(name, table, fields), r).Some? {
      StepSound(d, CreateModel(name, table, fields), r);
    }
  }

  lemma NewTablesCons(m: string, rest: seq<string>, was: State, now: State)
    ensures NewTables([m] + rest, was, now) ==
            (if Appears(was, now, m) then {now.models[m].table} else {}) + NewTables(rest, was, now)
  {
  }

  lemma AppearsCons(d: Dialect, m: string, rest: seq<string>, was: State, now: State, names: set<string>)
    requires Appears(was, now, m) && m !in rest
    ensures var table := now.models[m].table;
            AppearsFree(d, [m] + rest, was, now, names) <==>
            table !in names && WellDefined(d, Defs(d, now.models[m].fields))
              && AppearsFree(d, rest, was, now, names + {table})
  {
    assert m in [m] + rest && forall n :: n in [m] + rest <==> n == m || n in rest;
  }

  /** The models of the old state stay as they are. */
  ghost predicate KeepsOld(was: State, s: State, s': State) {
    forall m :: m in was.models && m in s.models ==> m in s'.models && s'.models[m] == s.models[m]
  }

  /** What CreatedIff says of one list of models. */
  ghost predicate Creates(d: Dialect, ms: seq<string>, was: State, now: State, r: Run)
    requires forall n :: n in ms ==> n in now.models
  {
    var next := RunOps(d, CreatedOps(ms, was, now), r);
    && (next.Some? <==> AppearsFree(d, ms, was, now, r.tables.Keys))
    && (next.Some? ==> && Sound(d, next.value)
                       && next.value.tables.Keys == r.tables.Keys + NewTables(ms, was, now)
                       && KeepsOld(was, r.state, next.value.state))
  }

  lemma CreatesCons(d: Dialect, m: string, rest: seq<string>, was: State, now: State, r: Run, r1: Run)
    requires Appears(was, now, m) && m !in rest && (forall n :: n in [m] + rest ==> n in now.models)
    requires StepOp(d, CreateModel(m, now.models[m].table, now.models[m].fields), r) == Some(r1)
    requires var table := now.models[m].table;
             && table !in r.tables && WellDefined(d, Defs(d, now.models[m].fields))
             && r1.tables.Keys == r.tables.Keys + {table}
    requires KeepsOld(was, r.state, r1.state) && Creates(d, rest, was, now, r1)
    ensures Creates(d, [m] + rest, was, now, r)
  {
    var table, fields := now.models[m].table, now.models[m].fields;
    assert ([m] + rest)[0] == m && ([m] + rest)[1..] == rest;
    RunFirst(d, CreateModel(m, table, fields), CreatedOps(rest, was, now), r);
    AppearsCons(d, m, rest, was, now, r.tables.Keys);
    NewTablesCons(m, rest, was, now);
  }

  lemma CreatesStop(d: Dialect, m: string, rest: seq<string>, was: State, now: State, r: Run)
    requires Appears(was, now, m) && m !in rest && (forall n :: n in [m] + rest ==> n in now.models)
    requires StepOp(d, CreateModel(m, now.models[m].table, now.models[m].fields), r).None?
    requires now.models[m].table in r.tables || !WellDefined(d, Defs(d, now.models[m].fields))
    ensures Creates(d, [m] + rest, was, now, r)
  {
    assert ([m] + rest)[0] == m && ([m] + rest)[1..] == rest;
    RunFirst(d, CreateModel(m, now.models[m].table, now.models[m].fields), CreatedOps(rest, was, now), r);
    AppearsCons(d, m, rest, was, now, r.tables.Keys);
  }

  lemma CreatesNext(d: Dialect, m: string, rest: seq<string>, was: State, now: State, r: Run)
    requires Appears(was, now, m) && m !in rest && (forall n :: n in [m] + rest ==> n in now.models)
    requires !ChecksKeys(d) && Sound(d, r) && UniqueNames(now.models[m].fields) && m !in r.state.models
    requires var next := StepOp(d, CreateModel(m, now.models[m].table, now.models[m].fields), r);
             next.Some? ==> Creates(d, rest, was, now, next.value)
    ensures Creates(d, [m] + rest, was, now, r)
  {
    CreateOneIff(d, r, m, now.models[m].table, now.models[m].fields);
    match StepOp(d, CreateModel(m, now.models[m].table, now.models[m].fields), r)
    case None => CreatesStop(d, m, rest, was, now, r);
    case Some(r1) => CreatesCons(d, m, rest, was, now, r, r1);
  }

  lemma CreatedOpsSkip(m: string, rest: seq<string>, was: State, now: State)
    requires m in was.models && forall n :: n in [m] + rest ==> n in now.models
    ensures (forall n :: n in rest ==> n in now.models)
            && CreatedOps([m] + rest, was, now) == CreatedOps(rest, was, now)
  {
    assert ([m] + rest)[0] == m && ([m] + rest)[1..] == rest && forall n :: n in rest ==> n in [m] + rest;
  }

  lemma AppearsSkip(d: Dialect, m: string, rest: seq<string>, was: State, now: State, names: set<string>)
    requires m in was.models
    ensures AppearsFree(d, [m] + rest, was, now, names) <==> AppearsFree(d, rest, was, now, names)
  {
    assert forall n :: n in [m] + rest <==> n == m || n in rest;
  }

  lemma CreatesSkip(d: Dialect, m: string, rest: seq<string>, was: State, now: State, r: Run)
    requires m in was.models && (forall n :: n in [m] + rest ==> n in now.models)
    requires (forall n :: n in rest ==> n in now.models) && Creates(d, rest, was, now, r)
    ensures Creates(d, [m] + rest, was, now, r)
  {
    CreatedOpsSkip(m, rest, was, now);
    AppearsSkip(d, m, rest, was, now, r.tables.Keys);
    NewTablesCons(m, rest, was, now);
  }

  ghost predicate ReadyToCreate(d: Dialect, ms: seq<string>, was: State, now: State, r: Run) {
    && !ChecksKeys(d) && Sound(d, r) && Distinct(ms) && FieldsUnique(now)
    && (forall n :: n in ms ==> n in now.models && (n in r.state.models ==> n in was.models))
  }

  lemma ReadyForOthers(d: Dialect, m: string, rest: seq<string>, was: State, now: State, r: Run)
    requires ReadyToCreate(d, [m] + rest, was, now, r)
    ensures m in now.models && m !in rest && ReadyToCreate(d, rest, was, now, r)
    ensures m !in was.models ==> m !in r.state.models
    ensures UniqueNames(now.models[m].fields) && forall n :: n in [m] + rest ==> n in now.models
  {
    var ms := [m] + rest;
    assert ms[0] == m && ms[1..] == rest && forall n :: n in ms <==> n == m || n in rest;
  }

  lemma {:induction false} CreatedIff(d: Dialect, ms: seq<string>, was: State, now: State, r: Run)
    requires ReadyToCreate(d, ms, was, now, r)
    ensures Creates(d, ms, was, now, r)
    decreases |ms|
  {
    if ms == [] {
    } else {
      var m, rest := ms[0], ms[1..];
      assert ms == [m] + rest;
      ReadyForOthers(d, m, rest, was, now, r);
      if m in was.models {
        CreatedIff(d, rest, was, now, r);
        CreatesSkip(d, m, rest, was, now, r);
      } else {
        CreateOneIff(d, r, m, now.models[m].table, now.models[m].fields);
        var next := StepOp(d, CreateModel(m, now.models[m].table, now.models[m].fields), r);
        if next.Some? {
          CreatedIff(d, rest, was, now, next.value);
        }
        CreatesNext(d, m, rest, was, now, r);
      }
    }
  }

  // ----- The models that go -----

  lemma {:induction false} DeletedRun(d: Dialect, ms: seq<string>, now: State, r: Run)
    requires !ChecksKeys(d) && Sound(d, r) && Distinct(ms)
    requires forall n :: n in ms && n !in now.models ==> n in r.state.models
    ensures RunOps(d, DeletedOps(ms, now), r).Some?
    decreases |ms|
  {
    if ms != [] {
      var m, rest := ms[0], ms[1..];
      assert m in ms && m !in rest && forall n :: n in rest ==> n in ms;
      if m in now.models {
        assert DeletedOps(ms, now) == DeletedOps(rest, now);
        DeletedRun(d, rest, now, r);
      } else {
        RunFirst(d, DeleteModel(m), DeletedOps(rest, now), r);
        ExecAllOne(d, DropTable(r.state.models[m].table), r.tables);
        StepSound(d, DeleteModel(m), r);
        DeletedRun(d, rest, now, StepOp(d, DeleteModel(m), r).value);
      }
    }
  }

  // ----- The whole migration -----

  /** What a generated migration needs of the database: free names and well-defined
      columns for the new models, and surviving models whose fields can be changed one
      column at a time, with the temporary name free where that takes a rebuild. */
  predicate DiffFits(d: Dialect, was: State, now: State, tables: Tables) {
    && AppearsFree(d, now.order, was, now, tables.Keys)
    && SurvivorsFit(d, now.order, was, now, tables.Keys + NewTables(now.order, was, now))
  }

  lemma DiffRunsUnchecked(d: Dialect, was: State, now: State, tables: Tables)
    requires !ChecksKeys(d) && WellFormed(was) && WellFormed(now) && Tracks(d, Run(was, tables))
    ensures RunOps(d, Diff(was, now), Run(was, tables)).Some? <==> DiffFits(d, was, now, tables)
  {
    var r := Run(was, tables);
    var created, changed := CreatedOps(now.order, was, now), ChangedOps(now.order, was, now);
    var deleted := DeletedOps(was.order, now);
    RunOpsConcat(d, created, changed + deleted, r);
    CreatedIff(d, now.order, was, now, r);
    match RunOps(d, created, r)
    case None =>
    case Some(r1) =>
      RunOpsConcat(d, changed, deleted, r1);
      ChangedIff(d, now.order, was, now, r1);
      match RunOps(d, changed, r1)
      case None =>
      case Some(r2) => DeletedRun(d, was.order, now, r2);
  }

  // ----- The condition does not depend on the checks of foreign keys -----

  lemma WellDefinedUnchecked(d: Dialect, fields: seq<FieldState>)
    ensures WellDefined(Unchecked(d), Defs(Unchecked(d), fields)) <==> WellDefined(d, Defs(d, fields))
  {
    DefsUnchecked(d, fields);
    assert forall c :: TypeFits(Unchecked(d), c) <==> TypeFits(d, c);
  }

  lemma RebuildableUnchecked(d: Dialect, have: seq<FieldState>, next: seq<FieldState>)
    ensures Rebuildable(Unchecked(d), have, next) <==> Rebuildable(d, have, next)
  {
    WellDefinedUnchecked(d, next);
    DefsUnchecked(d, have);
    DefsUnchecked(d, next);
  }

  lemma {:induction false} AddsUnchecked(d: Dialect, have: seq<FieldState>, fields: seq<FieldState>)
    ensures AddsFit(Unchecked(d), have, fields) <==> AddsFit(d, have, fields)
    decreases |fields|
  {
    if fields != [] {
      AddsUnchecked(d, have + [fields[0]], fields[1..]);
    }
  }

  lemma {:induction false} AltersUnchecked(d: Dialect, have: seq<FieldState>, fields: seq<FieldState>)
    ensures AltersFit(Unchecked(d), have, fields) <==> AltersFit(d, have, fields)
    decreases |fields|
  {
    if fields != [] {
      RebuildableUnchecked(d, have, ReplaceFirst(have, fields[0]));
      AltersUnchecked(d, ReplaceFirst(have, fields[0]), fields[1..]);
    }
  }

  lemma {:induction false} RemovesUnchecked(d: Dialect, have: seq<FieldState>, gone: seq<FieldState>)
    ensures RemovesFit(Unchecked(d), have, gone) <==> RemovesFit(d, have, gone)
    decreases |gone|
  {
    if gone != [] {
      RebuildableUnchecked(d, have, RemoveFirst(have, gone[0].name));
      RemovesUnchecked(d, RemoveFirst(have, gone[0].name), gone[1..]);
    }
  }

  lemma ChangesUnchecked(d: Dialect, was: seq<FieldState>, now: seq<FieldState>)
    ensures ChangesFit(Unchecked(d), was, now) <==> ChangesFit(d, was, now)
  {
    var added, altered := AddedFields(was, now), AlteredFields(was, now);
    AddsUnchecked(d, was, added);
    AltersUnchecked(d, was + added, altered);
    RemovesUnchecked(d, ReplaceAll(was + added, altered), RemovedFields(was, now));
  }

  lemma FitsUnchecked(d: Dialect, was: State, now: State, tables: Tables)
    requires DiffFits(Unchecked(d), was, now, tables)
    ensures DiffFits(d, was, now, tables)
  {
    forall m | m in now.order && Appears(was, now, m) ensures WellDefined(d, Defs(d, now.models[m].fields)) {
      WellDefinedUnchecked(d, now.models[m].fields);
    }
    var names := tables.Keys + NewTables(now.order, was, now);
    forall m | m in now.order && Survives(was, now, m)
      ensures ModelFits(d, was.models[m], now.models[m].fields, names)
    {
      ChangesUnchecked(d, was.models[m].fields, now.models[m].fields);
    }
  }

  lemma TracksUnchecked(d: Dialect, r: Run)
    requires Tracks(d, r)
    ensures Tracks(Unchecked(d), r)
  {
    forall m | m in r.state.models ensures TrackedBy(Unchecked(d), r.state.models[m], r.tables) {
      DefsUnchecked(d, r.state.models[m].fields);
    }
  }

  /** On a database that matches the old state a generated migration runs only if it
      fits, and if it fits it does run, unless foreign keys are checked. */
  lemma DiffRunsIff(d: Dialect, was: State, now: State, tables: Tables)
    requires WellFormed(was) && WellFormed(now) && Tracks(d, Run(was, tables))
    ensures var next := RunOps(d, Diff(was, now), Run(was, tables));
            && (next.Some? ==> DiffFits(d, was, now, tables))
            && (!ChecksKeys(d) ==> (next.Some? <==> DiffFits(d, was, now, tables)))
  {
    if !ChecksKeys(d) {
      DiffRunsUnchecked(d, was, now, tables);
    } else if RunOps(d, Diff(was, now), Run(was, tables)).Some? {
      OpsUnchecked(d, Diff(was, now), Run(was, tables));
      TracksUnchecked(d, Run(was, tables));
      DiffRunsUnchecked(Unchecked(d), was, now, tables);
      FitsUnchecked(d, was, now, tables);
    }
  }

  // ----- Renamed in the code, kept in the database -----

  function OneModel(model: string, fields: seq<FieldState>): State {
    State(map[model := ModelState(model, "m", fields)], [model])
  }

  lemma OneModelTracked(d: Dialect, model: string, fields: seq<FieldState>)
    requires UniqueNames(fields)
    ensures WellFormed(OneModel(model, fields))
    ensures Tracks(d, Run(OneModel(model, fields), map["m" := EmptyTable(d, fields)]))
  {
  }

  /** Model M goes from one field to another, and the migration is refused. */
  ghost predicate Refused(d: Dialect, a: FieldState, b: FieldState) {
    var was, now := OneModel("M", [a]), OneModel("M", [b]);
    var r := Run(was, map["m" := EmptyTable(d, [a])]);
    WellFormed(was) && WellFormed(now) && Tracks(d, r) && RunOps(d, Diff(was, now), r).None?
  }

  lemma RefusedIf(d: Dialect, a: FieldState, b: FieldState)
    requires !ChangesFit(d, [a], [b])
    ensures Refused(d, a, b)
  {
    var was, now := OneModel("M", [a]), OneModel("M", [b]);
    OneModelTracked(d, "M", [a]);
    OneModelTracked(d, "M", [b]);
    DiffRunsIff(d, was, now, map["m" := EmptyTable(d, [a])]);
    assert now.order[0] == "M" && Survives(was, now, "M");
  }

  /** A field gets another name and keeps its column: the new one is added before the
      other is removed, and the column is there. */
  lemma RenamedFieldIsRefused(d: Dialect)
    ensures var a := TextField("A", "a").(nullable := true);
            Refused(d, a, a.(name := "B"))
  {
    var a := TextField("A", "a").(nullable := true);
    var b := a.(name := "B");
    assert !HasField([a], "B") && [b][1..] == [];
    assert Filter([b], NotIn([a])) == [b] + Filter([], NotIn([a]));
    assert [a][0].column == b.column && !AddFits(d, [a], b);
    RefusedIf(d, a, b);
  }

  /** A model gets another name and keeps its table: the new one is created before the
      other is deleted, and the table is there. */
  lemma RenamedModelIsRefused(d: Dialect)
    ensures var was, now := OneModel("M", [IdField()]), OneModel("N", [IdField()]);
            var r := Run(was, map["m" := EmptyTable(d, [IdField()])]);
            WellFormed(was) && WellFormed(now) && Tracks(d, r) && RunOps(d, Diff(was, now), r).None?
  {
    var was, now := OneModel("M", [IdField()]), OneModel("N", [IdField()]);
    OneModelTracked(d, "M", [IdField()]);
    OneModelTracked(d, "N", [IdField()]);
    DiffRunsIff(d, was, now, map["m" := EmptyTable(d, [IdField()])]);
    assert now.order[0] == "N" && Appears(was, now, "N");
  }

  lemma OneAltered(a: FieldState, b: FieldState)
    requires a.name == b.name && a != b
    ensures AddedFields([a], [b]) == [] && AlteredFields([a], [b]) == [b]
  {
    assert HasField([a], b.name) && Lookup([a], b.name) == Some(a) && [b][1..] == [];
    assert Filter([b], NotIn([a])) == [] + Filter([], NotIn([a]));
    assert Filter([b], DiffersFrom([a])) == [b] + Filter([], DiffersFrom([a]));
  }

  lemma TextIsNoInteger(a: FieldState, b: FieldState)
    requires a.column == b.column && IsText(TypeOf(a)) && TypeOf(b).IntegerType?
    ensures !Rebuildable(POSTGRES, [a], [b])
  {
    assert [a][0].column == a.column && [b][0].column == a.column && a.column in CommonColumns([a], [b]);
    assert Defs(POSTGRES, [a])[0] in Defs(POSTGRES, [a]) && Defs(POSTGRES, [b])[0] in Defs(POSTGRES, [b]);
  }

  /** On PostgreSQL, a text field becomes an integer: the rebuild copies text into an
      integer column. */
  lemma ChangedKindIsRefused()
    ensures Refused(POSTGRES, TextField("A", "a"), TextField("A", "a").(kind := Int))
  {
    var a := TextField("A", "a");
    var b := a.(kind := Int);
    OneAltered(a, b);
    assert [a] + [] == [a] && ReplaceFirst([a], b) == [b];
    TextIsNoInteger(a, b);
    RefusedIf(POSTGRES, a, b);
  }

  lemma ReferredStays(d: Dialect, m: string, rest: seq<Operation>, r: Run)
    requires ChecksKeys(d) && m in r.state.models && Referred(r.state.models[m].table, r.tables)
    ensures RunOps(d, [DeleteModel(m)] + rest, r).None?
  {
    ExecAllOne(d, DropTable(r.state.models[m].table), r.tables);
    RunFirst(d, DeleteModel(m), rest, r);
  }

  /** Models A and B on tables a and b, and their database. */
  function TwoRun(d: Dialect, target: seq<FieldState>, own: seq<FieldState>): Run {
    Run(State(map["A" := ModelState("A", "a", target), "B" := ModelState("B", "b", own)], ["A", "B"]),
        map["a" := EmptyTable(d, target), "b" := EmptyTable(d, own)])
  }

  lemma TwoRunTracked(d: Dialect, target: seq<FieldState>, own: seq<FieldState>)
    requires UniqueNames(target) && UniqueNames(own)
    ensures WellFormed(TwoRun(d, target, own).state) && Tracks(d, TwoRun(d, target, own))
  {
    var r := TwoRun(d, target, own);
    assert forall m :: m in r.state.models <==> m == "A" || m == "B";
    assert TrackedBy(d, r.state.models["A"], r.tables) && TrackedBy(d, r.state.models["B"], r.tables);
  }

  lemma KeyRefers(d: Dialect, target: seq<FieldState>, own: seq<FieldState>, f: FieldState)
    requires f in own && HasClause(f) && f.relTargetTable == "a"
    ensures Referred("a", TwoRun(d, target, own).tables)
  {
    KeysAre(own, KeyOf(f)[0]);
    assert Targets(TwoRun(d, target, own).tables["b"].foreignKeys, "a");
  }

  lemma BothGo(r: Run, m: string, n: string)
    requires r.state.order == [m, n]
    ensures Diff(r.state, EMPTY) == [DeleteModel(m)] + [DeleteModel(n)]
  {
    assert [m, n][1..] == [n] && [n][1..] == [];
    assert DeletedOps([n], EMPTY) == [DeleteModel(n)] + DeletedOps([], EMPTY);
  }

  /** Two models that go, the second with a foreign key to the first: on PostgreSQL the
      first table is dropped while the second refers to it. */
  lemma DropBeforeKeyIsRefused()
    ensures var r := TwoRun(POSTGRES, [IdField()], [IdField(), KeyField("a")]);
            && WellFormed(r.state) && Tracks(POSTGRES, r) && DiffFits(POSTGRES, r.state, EMPTY, r.tables)
            && RunOps(POSTGRES, Diff(r.state, EMPTY), r).None?
  {
    var target, own := [IdField()], [IdField(), KeyField("a")];
    TwoRunTracked(POSTGRES, target, own);
    assert own[1] == KeyField("a");
    KeyRefers(POSTGRES, target, own, KeyField("a"));
    BothGo(TwoRun(POSTGRES, target, own), "A", "B");
    ReferredStays(POSTGRES, "A", [DeleteModel("B")], TwoRun(POSTGRES, target, own));
  }
}
