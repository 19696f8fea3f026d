/** The WHERE and SET clauses of a queryset (orm/compiler.go, orm/execute.go):
    placeholder numbering and which rows they select and change. */
module Where {
  import opened Lookups
  import opened Clauses

  datatype WhereClause<+V> = WhereClause(key: string, value: Arg<V>, negate: bool)

  /** A where clause with its key taken apart. */
  datatype Condition<+V> = Condition(filter: Filter<V>, negate: bool)

  function ConditionOf<V>(w: WhereClause<V>): Condition<V> {
    Condition(FilterOf(w.key, w.value), w.negate)
  }

  function Conditions<V>(wheres: seq<WhereClause<V>>): (r: seq<Condition<V>>)
    ensures |r| == |wheres| && forall i :: 0 <= i < |r| ==> r[i] == ConditionOf(wheres[i])
  {
    seq(|wheres|, i requires 0 <= i < |wheres| => ConditionOf(wheres[i]))
  }

  function Negated(p: Pred, negate: bool): Pred {
    if negate then Not(p) else p
  }

  function BuildCondition<V>(sem: Semantics<V>, d: Dialect, columns: set<string>, c: Condition<V>, n: nat): Built<V> {
    match BuildPredicate(sem, d, columns, c.filter, n)
    case BuildFailed(e) => BuildFailed(e)
    case Built(pred, args) => Built(Negated(pred, c.negate), args)
  }

  function ConditionBuilder<V>(sem: Semantics<V>, d: Dialect, columns: set<string>): Builder<Condition<V>, V> {
    (c: Condition<V>, n: nat) => BuildCondition(sem, d, columns, c, n)
  }

  /** compileWhere when n placeholders have been drawn before it. */
  function CompileWhere<V>(sem: Semantics<V>, d: Dialect, columns: set<string>, conds: seq<Condition<V>>,
                           n: nat): Compiled<V> {
    CompileAll(ConditionBuilder(sem, d, columns), conds, n)
  }

  method RenderCondition<V>(sem: Semantics<V>, d: Dialect, columns: set<string>, w: WhereClause<V>, n: nat)
      returns (r: Built<V>, n': nat)
    ensures r == ConditionBuilder(sem, d, columns)(ConditionOf(w), n)
    ensures r.Built? ==> n' == n + |r.args|
  {
    r, n' := RenderPredicate(sem, d, columns, w.key, w.value, n);
    if r.Built? {
      r := Built(Negated(r.pred, w.negate), r.args);
    }
  }

  method RenderWhere<V>(sem: Semantics<V>, d: Dialect, columns: set<string>, wheres: seq<WhereClause<V>>, n: nat)
      returns (r: Compiled<V>, n': nat)
    ensures r == CompileWhere(sem, d, columns, Conditions(wheres), n)
    ensures r.Compiled? ==> n' == n + |r.args|
  {
    n' := n;
    var preds: seq<Pred> := [];
    var args: seq<Arg<V>> := [];
    ghost var conds, build := Conditions(wheres), ConditionBuilder(sem, d, columns);
    CompileStart(build, conds, n);
    for i := 0 to |wheres|
      invariant n' == n + |args|
      invariant CompiledUpTo(build, conds, n, i, preds, args)
    {
      var built, m := RenderCondition(sem, d, columns, wheres[i], n');
      CompileNext(build, conds, n, i, preds, args, n', ConditionOf(wheres[i]), built);
      if built.BuildFailed? { return CompileFailed(built.error), n'; }
      n' := m;
      preds := preds + [built.pred];
      args := args + built.args;
    }
    CompileEnd(build, conds, n, preds, args);
    r := Compiled(preds, args);
  }

  lemma BuiltParams<V>(sem: Semantics<V>, d: Dialect, columns: set<string>, f: Filter<V>, n: nat)
    requires BuildPredicate(sem, d, columns, f, n).Built?
    ensures var b := BuildPredicate(sem, d, columns, f, n);
            Params(b.pred) == Numbered(d, n, |b.args|)
  {
  }

  lemma BuilderDraws<V(!new)>(sem: Semantics<V>, d: Dialect, columns: set<string>)
    ensures DrawsInOrder(ConditionBuilder(sem, d, columns), d)
  {
    var build := ConditionBuilder(sem, d, columns);
    forall c: Condition<V>, n: nat {:trigger build(c, n)} | build(c, n).Built?
      ensures Params(build(c, n).pred) == Numbered(d, n, |build(c, n).args|)
    {
      BuiltParams(sem, d, columns, c.filter, n);
    }
  }

  /** Question marks on SQLite, and on PostgreSQL dollar signs numbered on from n. */
  predicate InStyle(d: Dialect, n: nat, params: seq<Placeholder>) {
    forall i :: 0 <= i < |params| ==> params[i] == if d.Postgres? then Dollar(n + i + 1) else Question
  }

  /** Placeholders of a WHERE are numbered on from n, one for each argument. */
  lemma WhereParams<V(!new)>(sem: Semantics<V>, d: Dialect, columns: set<string>, conds: seq<Condition<V>>, n: nat,
                              c: Compiled<V>)
    requires c == CompileWhere(sem, d, columns, conds, n) && c.Compiled?
    ensures AllParams(c.preds) == Numbered(d, n, |c.args|) && InStyle(d, n, AllParams(c.preds))
  {
    BuilderDraws(sem, d, columns);
    ParamsInOrder(ConditionBuilder(sem, d, columns), d, conds, n, c);
  }

  /** A filtered lookup must be true, an excluded one false; unknown is neither. */
  ghost predicate Holds<V>(sem: Semantics<V>, row: Row<V>, c: Condition<V>) {
    LookupMeaning(sem, c.filter.lookup, row(c.filter.column), c.filter.value) == if c.negate then False else True
  }

  ghost predicate Selects<V>(sem: Semantics<V>, conds: seq<Condition<V>>, row: Row<V>) {
    forall i :: 0 <= i < |conds| ==> Holds(sem, row, conds[i])
  }

  /** The compiled conditions hold of exactly the rows they select. */
  lemma ConditionsMean<V(!new)>(sem: Semantics<V>, d: Dialect, columns: set<string>, conds: seq<Condition<V>>, n: nat,
                                c: Compiled<V>, row: Row<V>, args: seq<Arg<V>>)
    requires c == CompileWhere(sem, d, columns, conds, n) && c.Compiled? && ArgsAt(args, n, c.args)
    ensures EvalAll(sem, c.preds, row, n, args) == True <==> Selects(sem, conds, row)
  {
    ghost var holds := (x: Condition<V>) => Holds(sem, row, x);
    BuilderDraws(sem, d, columns);
    BuilderMeans(sem, d, columns, row, args, holds);
    AllMean(ConditionBuilder(sem, d, columns), d, sem, row, args, holds, conds, n, c);
    AllHoldIff(conds, holds);
  }

  // ----- What a WHERE of clauses means -----

  /** A clause, by the text of its key: the lookup it names is TRUE on the column it
      names, or FALSE when it is excluded. */
  ghost predicate ClauseHolds<V>(sem: Semantics<V>, row: Row<V>, w: WhereClause<V>) {
    forall column, name :: SplitsAs(w.key, column, name) ==>
      LookupMeaning(sem, name, row(column), w.value) == if w.negate then False else True
  }

  ghost predicate ClausesHold<V>(sem: Semantics<V>, row: Row<V>, wheres: seq<WhereClause<V>>) {
    forall i :: 0 <= i < |wheres| ==> ClauseHolds(sem, row, wheres[i])
  }

  lemma ClauseHoldsIff<V>(sem: Semantics<V>, row: Row<V>, w: WhereClause<V>)
    ensures ClauseHolds(sem, row, w) <==> Holds(sem, row, ConditionOf(w))
  {
    var (column, name) := ParseLookup(w.key);
    ParseSplits(w.key, column, name);
    forall c, l | SplitsAs(w.key, c, l) ensures c == column && l == name {
      ParseSplits(w.key, c, l);
    }
  }

  lemma ClausesHoldIff<V>(sem: Semantics<V>, row: Row<V>, wheres: seq<WhereClause<V>>)
    ensures ClausesHold(sem, row, wheres) <==> Selects(sem, Conditions(wheres), row)
  {
    forall i | 0 <= i < |wheres| ensures ClauseHolds(sem, row, wheres[i]) <==> Holds(sem, row, Conditions(wheres)[i]) {
      ClauseHoldsIff(sem, row, wheres[i]);
    }
    if Selects(sem, Conditions(wheres), row) {
      forall i | 0 <= i < |wheres| ensures ClauseHolds(sem, row, wheres[i]) {
        assert Holds(sem, row, Conditions(wheres)[i]);
      }
    }
  }

  /** What is wrong with a clause, if anything. */
  function ClauseRefusal<V>(sem: Semantics<V>, columns: set<string>, w: WhereClause<V>): Option<CompileError> {
    RefusalOf(sem, columns, ConditionOf(w).filter)
  }

  /** The first of the clauses that something is wrong with. */
  ghost predicate RefusedAt<V>(sem: Semantics<V>, columns: set<string>, wheres: seq<WhereClause<V>>, k: nat,
                               e: CompileError) {
    && k < |wheres| && ClauseRefusal(sem, columns, wheres[k]) == Some(e)
    && NoneRefused(sem, columns, wheres[..k])
  }

  predicate NoneRefused<V>(sem: Semantics<V>, columns: set<string>, wheres: seq<WhereClause<V>>) {
    forall i :: 0 <= i < |wheres| ==> ClauseRefusal(sem, columns, wheres[i]).None?
  }

  lemma NoneRefusedCons<V>(sem: Semantics<V>, columns: set<string>, wheres: seq<WhereClause<V>>)
    requires wheres != []
    ensures NoneRefused(sem, columns, wheres) <==>
            ClauseRefusal(sem, columns, wheres[0]).None? && NoneRefused(sem, columns, wheres[1..])
  {
    assert forall i :: 0 < i < |wheres| ==> wheres[i] == wheres[1..][i - 1];
    assert forall i :: 0 <= i < |wheres| - 1 ==> wheres[1..][i] == wheres[i + 1];
  }

  lemma RefusedLater<V>(sem: Semantics<V>, columns: set<string>, wheres: seq<WhereClause<V>>, k: nat, e: CompileError)
    requires wheres != [] && ClauseRefusal(sem, columns, wheres[0]).None? && RefusedAt(sem, columns, wheres[1..], k, e)
    ensures RefusedAt(sem, columns, wheres, k + 1, e)
  {
    var front := wheres[..k + 1];
    assert front[0] == wheres[0] && front[1..] == wheres[1..][..k];
    NoneRefusedCons(sem, columns, front);
  }

  /** What WhereCompilesIff says of some clauses. */
  ghost predicate CompilesIff<V>(sem: Semantics<V>, columns: set<string>, wheres: seq<WhereClause<V>>, c: Compiled<V>) {
    && (c.Compiled? <==> NoneRefused(sem, columns, wheres))
    && (c.CompileFailed? ==> exists k :: RefusedAt(sem, columns, wheres, k, c.error))
  }

  lemma FirstRefused<V>(sem: Semantics<V>, columns: set<string>, wheres: seq<WhereClause<V>>, e: CompileError)
    requires wheres != [] && ClauseRefusal(sem, columns, wheres[0]) == Some(e)
    ensures CompilesIff(sem, columns, wheres, CompileFailed(e))
  {
    assert RefusedAt(sem, columns, wheres, 0, e);
  }

  lemma FirstCompiles<V>(sem: Semantics<V>, columns: set<string>, wheres: seq<WhereClause<V>>, rest: Compiled<V>,
                         c: Compiled<V>)
    requires wheres != [] && ClauseRefusal(sem, columns, wheres[0]).None?
    requires CompilesIff(sem, columns, wheres[1..], rest)
    requires if rest.Compiled? then c.Compiled? else c == rest
    ensures CompilesIff(sem, columns, wheres, c)
  {
    NoneRefusedCons(sem, columns, wheres);
    if rest.CompileFailed? {
      var k :| RefusedAt(sem, columns, wheres[1..], k, rest.error);
      RefusedLater(sem, columns, wheres, k, rest.error);
    }
  }

  lemma WhereCons<V>(sem: Semantics<V>, d: Dialect, columns: set<string>, wheres: seq<WhereClause<V>>, n: nat)
    requires wheres != []
    ensures var b := BuildPredicate(sem, d, columns, ConditionOf(wheres[0]).filter, n);
            var c := CompileWhere(sem, d, columns, Conditions(wheres), n);
            && (b.BuildFailed? ==> c == CompileFailed(b.error))
            && (b.Built? ==>
                  var rest := CompileWhere(sem, d, columns, Conditions(wheres[1..]), n + |b.args|);
                  if rest.Compiled? then c.Compiled? else c == rest)
  {
    assert Conditions(wheres)[1..] == Conditions(wheres[1..]);
    assert ConditionBuilder(sem, d, columns)(Conditions(wheres)[0], n)
        == BuildCondition(sem, d, columns, ConditionOf(wheres[0]), n);
  }

  lemma WhereNext<V>(sem: Semantics<V>, d: Dialect, columns: set<string>, wheres: seq<WhereClause<V>>, n: nat)
    returns (m: nat)
    requires wheres != []
    ensures Follows(ClauseRefusal(sem, columns, wheres[0]), CompileWhere(sem, d, columns, Conditions(wheres[1..]), m),
                    CompileWhere(sem, d, columns, Conditions(wheres), n))
  {
    var f := ConditionOf(wheres[0]).filter;
    var first := BuildPredicate(sem, d, columns, f, n);
    BuildsIff(sem, d, columns, f, n);
    WhereCons(sem, d, columns, wheres, n);
    m := if first.Built? then n + |first.args| else n;
  }

  /** What the rest of the clauses makes of the whole. */
  predicate Follows<V(==)>(refusal: Option<CompileError>, rest: Compiled<V>, c: Compiled<V>) {
    match refusal
    case Some(e) => c == CompileFailed(e)
    case None => if rest.Compiled? then c.Compiled? else c == rest
  }

  lemma OneMore<V>(sem: Semantics<V>, columns: set<string>, wheres: seq<WhereClause<V>>, rest: Compiled<V>,
                   c: Compiled<V>)
    requires wheres != [] && Follows(ClauseRefusal(sem, columns, wheres[0]), rest, c)
    requires CompilesIff(sem, columns, wheres[1..], rest)
    ensures CompilesIff(sem, columns, wheres, c)
  {
    match ClauseRefusal(sem, columns, wheres[0])
    case Some(e) => FirstRefused(sem, columns, wheres, e);
    case None => FirstCompiles(sem, columns, wheres, rest, c);
  }

  /** A WHERE compiles exactly when nothing is wrong with any clause, and otherwise fails
      with what is wrong with the first such clause. */
  lemma {:induction false} WhereCompilesIff<V>(sem: Semantics<V>, d: Dialect, columns: set<string>,
                                               wheres: seq<WhereClause<V>>, n: nat)
    ensures CompilesIff(sem, columns, wheres, CompileWhere(sem, d, columns, Conditions(wheres), n))
    decreases |wheres|
  {
    if wheres != [] {
      var m := WhereNext(sem, d, columns, wheres, n);
      WhereCompilesIff(sem, d, columns, wheres[1..], m);
      OneMore(sem, columns, wheres, CompileWhere(sem, d, columns, Conditions(wheres[1..]), m),
              CompileWhere(sem, d, columns, Conditions(wheres), n));
    }
  }

  /** The compiled WHERE selects exactly the rows on which the lookup named in the key of
      every filter is TRUE and that of every exclude FALSE in three-valued logic. */
  lemma WhereMeaning<V(!new)>(sem: Semantics<V>, d: Dialect, columns: set<string>, wheres: seq<WhereClause<V>>, n: nat,
                              row: Row<V>, args: seq<Arg<V>>)
    requires NoneRefused(sem, columns, wheres)
    ensures var c := CompileWhere(sem, d, columns, Conditions(wheres), n);
            c.Compiled?
            && (ArgsAt(args, n, c.args) ==>
                  (EvalAll(sem, c.preds, row, n, args) == True <==> ClausesHold(sem, row, wheres)))
  {
    WhereCompilesIff(sem, d, columns, wheres, n);
    var c := CompileWhere(sem, d, columns, Conditions(wheres), n);
    if ArgsAt(args, n, c.args) {
      ConditionsMean(sem, d, columns, Conditions(wheres), n, c, row, args);
      ClausesHoldIff(sem, row, wheres);
    }
  }

  lemma BuilderMeans<V(!new)>(sem: Semantics<V>, d: Dialect, columns: set<string>, row: Row<V>, args: seq<Arg<V>>,
                               holds: Condition<V> -> bool)
    requires forall x :: holds(x) == Holds(sem, row, x)
    ensures Means(ConditionBuilder(sem, d, columns), sem, row, args, holds)
  {
    var build := ConditionBuilder(sem, d, columns);
    forall x: Condition<V>, m: nat {:trigger build(x, m)} | build(x, m).Built? && ArgsAt(args, m, build(x, m).args)
      ensures Eval(sem, build(x, m).pred, row, m, args) == True <==> holds(x)
    {
      PredicateMeaning(sem, d, x.filter.column, x.filter.lookup, x.filter.value, m, row, args);
    }
  }

  // ----- UPDATE -----

  datatype Assignment<+V> = Assignment(column: string, value: Arg<V>)

  datatype SetTerm = SetTerm(column: string, param: Placeholder)

  datatype Update<+V> = Update(sets: seq<SetTerm>, preds: seq<Pred>, args: seq<Arg<V>>)
    | UpdateFailed(error: CompileError)

  function Values<V>(assigns: seq<Assignment<V>>): (r: seq<Arg<V>>)
    ensures |r| == |assigns| && forall i :: 0 <= i < |r| ==> r[i] == assigns[i].value
  {
    seq(|assigns|, i requires 0 <= i < |assigns| => assigns[i].value)
  }

  function SetTerms<V>(d: Dialect, assigns: seq<Assignment<V>>): (r: seq<SetTerm>)
    ensures |r| == |assigns|
    ensures forall i :: 0 <= i < |r| ==> r[i] == SetTerm(assigns[i].column, PlaceholderOf(d, i + 1))
  {
    seq(|assigns|, i requires 0 <= i < |assigns| => SetTerm(assigns[i].column, PlaceholderOf(d, i + 1)))
  }

  /** The first assignment to a column the model does not have. */
  function UnknownColumn<V>(columns: set<string>, assigns: seq<Assignment<V>>): Option<string> {
    if assigns == [] then None
    else if assigns[0].column !in columns then Some(assigns[0].column)
    else UnknownColumn(columns, assigns[1..])
  }

  /** No column is found exactly when all are columns of the model; otherwise it is the
      first that is none. */
  lemma {:induction false} UnknownColumnIs<V>(columns: set<string>, assigns: seq<Assignment<V>>)
    ensures UnknownColumn(columns, assigns).None? <==> forall i :: 0 <= i < |assigns| ==> assigns[i].column in columns
    ensures UnknownColumn(columns, assigns).Some? ==>
              exists k: nat :: UnknownAt(columns, assigns, k, UnknownColumn(columns, assigns).value)
    decreases |assigns|
  {
    if assigns != [] {
      UnknownColumnIs(columns, assigns[1..]);
      assert forall i :: 0 < i < |assigns| ==> assigns[i] == assigns[1..][i - 1];
      assert forall i :: 0 <= i < |assigns| - 1 ==> assigns[1..][i] == assigns[i + 1];
      if assigns[0].column !in columns {
        assert UnknownAt(columns, assigns, 0, assigns[0].column);
      } else if UnknownColumn(columns, assigns).Some? {
        var k: nat :| UnknownAt(columns, assigns[1..], k, UnknownColumn(columns, assigns).value);
        assert UnknownAt(columns, assigns, k + 1, UnknownColumn(columns, assigns).value);
      }
    }
  }

  predicate UnknownAt<V>(columns: set<string>, assigns: seq<Assignment<V>>, k: nat, column: string) {
    && k < |assigns| && assigns[k].column == column && column !in columns
    && forall i :: 0 <= i < k ==> assigns[i].column in columns
  }

  function CompileUpdate<V>(sem: Semantics<V>, d: Dialect, columns: set<string>, assigns: seq<Assignment<V>>,
                            conds: seq<Condition<V>>): Update<V> {
    match UnknownColumn(columns, assigns)
    case Some(column) => UpdateFailed(UnknownField(column))
    case None =>
      match CompileWhere(sem, d, columns, conds, |assigns|)
      case CompileFailed(e) => UpdateFailed(e)
      case Compiled(preds, args) => Update(SetTerms(d, assigns), preds, Values(assigns) + args)
  }

  method RenderUpdate<V>(sem: Semantics<V>, d: Dialect, columns: set<string>, assigns: seq<Assignment<V>>,
                         wheres: seq<WhereClause<V>>)
      returns (r: Update<V>)
    ensures r == CompileUpdate(sem, d, columns, assigns, Conditions(wheres))
  {
    var n := 0;
    var sets: seq<SetTerm> := [];
    var args: seq<Arg<V>> := [];
    for i := 0 to |assigns|
      invariant n == i
      invariant sets == SetTerms(d, assigns)[..i] && args == Values(assigns)[..i]
      invariant UnknownColumn(columns, assigns) == UnknownColumn(columns, assigns[i..])
    {
      assert assigns[i..][1..] == assigns[i + 1..];
      if assigns[i].column !in columns { return UpdateFailed(UnknownField(assigns[i].column)); }
      n := n + 1;
      sets := sets + [SetTerm(assigns[i].column, PlaceholderOf(d, n))];
      args := args + [assigns[i].value];
    }
    assert sets == SetTerms(d, assigns) && args == Values(assigns);
    var where, _ := RenderWhere(sem, d, columns, wheres, n);
    match where
    case CompileFailed(e) => r := UpdateFailed(e);
    case Compiled(preds, more) => r := Update(sets, preds, args + more);
  }

  /** SET and WHERE share one counter: read in text order the placeholders of an
      UPDATE are those of parameters 1, 2, .., and the SET values come first. */
  lemma UpdateParams<V(!new)>(sem: Semantics<V>, d: Dialect, columns: set<string>, assigns: seq<Assignment<V>>,
                               conds: seq<Condition<V>>)
    requires CompileUpdate(sem, d, columns, assigns, conds).Update?
    ensures var u := CompileUpdate(sem, d, columns, assigns, conds);
            && seq(|u.sets|, i requires 0 <= i < |u.sets| => u.sets[i].param) + AllParams(u.preds)
               == Numbered(d, 0, |u.args|)
            && InStyle(d, |assigns|, AllParams(u.preds))
            && forall i :: 0 <= i < |assigns| ==> u.sets[i].column == assigns[i].column && u.args[i] == assigns[i].value
  {
    WhereParams(sem, d, columns, conds, |assigns|, CompileWhere(sem, d, columns, conds, |assigns|));
  }

  /** A value as a column stores it. */
  function Stored<V>(a: Arg<V>): Value<V> {
    if a.Scalar? then Val(a.v) else Null
  }

  /** The last of the terms for a column, with its position, decides its new value. */
  function SetValue<V>(sets: seq<SetTerm>, column: string, was: Value<V>, args: seq<Arg<V>>): Value<V> {
    if sets == [] then was
    else
      var i := |sets| - 1;
      if sets[i].column == column then Stored(Bound(sets[i].param, i, args))
      else SetValue(sets[..i], column, was, args)
  }

  predicate Repeats(columns: seq<string>) {
    exists i, j :: 0 <= i < j < |columns| && columns[i] == columns[j]
  }

  function SetColumns(sets: seq<SetTerm>): (r: seq<string>)
    ensures |r| == |sets| && forall i :: 0 <= i < |r| ==> r[i] == sets[i].column
  {
    seq(|sets|, i requires 0 <= i < |sets| => sets[i].column)
  }

  function AssignedColumns<V>(assigns: seq<Assignment<V>>): (r: seq<string>)
    ensures |r| == |assigns| && forall i :: 0 <= i < |r| ==> r[i] == assigns[i].column
  {
    seq(|assigns|, i requires 0 <= i < |assigns| => assigns[i].column)
  }

  /** What the database does to a row. It refuses an UPDATE that sets nothing, and
      PostgreSQL one that sets a column twice. */
  function UpdatedCell<V>(sem: Semantics<V>, d: Dialect, u: Update<V>, row: Row<V>, column: string): Option<Value<V>>
    requires u.Update?
  {
    if u.sets == [] || (d.Postgres? && Repeats(SetColumns(u.sets))) then None
    else if EvalAll(sem, u.preds, row, |u.sets|, u.args) == True
      then Some(SetValue(u.sets, column, row(column), u.args))
    else Some(row(column))
  }

  /** The last value assigned to the column, if any. */
  function Assigned<V>(assigns: seq<Assignment<V>>, column: string): Option<Arg<V>> {
    if assigns == [] then None
    else
      var a := assigns[|assigns| - 1];
      if a.column == column then Some(a.value) else Assigned(assigns[..|assigns| - 1], column)
  }

  function NewValue<V>(assigns: seq<Assignment<V>>, column: string, was: Value<V>): Value<V> {
    match Assigned(assigns, column)
    case None => was
    case Some(a) => if a.Scalar? then Val(a.v) else Null
  }

  lemma {:induction false} SetValueIs<V>(d: Dialect, assigns: seq<Assignment<V>>, column: string, was: Value<V>,
                                         args: seq<Arg<V>>)
    requires |assigns| <= |args| && args[..|assigns|] == Values(assigns)
    ensures SetValue(SetTerms(d, assigns), column, was, args) == NewValue(assigns, column, was)
    decreases |assigns|
  {
    if assigns != [] {
      var n := |assigns| - 1;
      assert SetTerms(d, assigns)[..n] == SetTerms(d, assigns[..n]);
      assert args[..n] == args[..n + 1][..n] == Values(assigns[..n]);
      assert args[n] == args[..n + 1][n] == assigns[n].value;
      SetValueIs(d, assigns[..n], column, was, args);
    }
  }

  /** An UPDATE compiles exactly when it assigns columns of the model and nothing is wrong
      with its clauses. A column that is none is reported first, otherwise the first clause
      that something is wrong with. */
  lemma UpdateCompilesIff<V>(sem: Semantics<V>, d: Dialect, columns: set<string>, assigns: seq<Assignment<V>>,
                             wheres: seq<WhereClause<V>>)
    ensures var u := CompileUpdate(sem, d, columns, assigns, Conditions(wheres));
            var known := forall i :: 0 <= i < |assigns| ==> assigns[i].column in columns;
            && (u.Update? <==> known && NoneRefused(sem, columns, wheres))
            && (!known ==> exists k :: 0 <= k < |assigns| && UnknownAt(columns, assigns, k, assigns[k].column)
                                       && u == UpdateFailed(UnknownField(assigns[k].column)))
            && (known && u.UpdateFailed? ==> exists k :: RefusedAt(sem, columns, wheres, k, u.error))
  {
    UnknownColumnIs(columns, assigns);
    WhereCompilesIff(sem, d, columns, wheres, |assigns|);
  }

  predicate AssignsTwice<V>(assigns: seq<Assignment<V>>) {
    exists i, j :: 0 <= i < j < |assigns| && assigns[i].column == assigns[j].column
  }

  lemma AssignsTwiceIff<V>(assigns: seq<Assignment<V>>)
    ensures Repeats(AssignedColumns(assigns)) <==> AssignsTwice(assigns)
  {
    var columns := AssignedColumns(assigns);
    if i, j :| 0 <= i < j < |assigns| && assigns[i].column == assigns[j].column {
      assert columns[i] == columns[j];
    }
  }

  /** The database accepts it exactly when it assigns something and, on PostgreSQL, no
      column twice. It then writes the assigned values, the last one of a column, to the
      rows the clauses select, and nothing else. */
  lemma UpdateMeaning<V(!new)>(sem: Semantics<V>, d: Dialect, columns: set<string>, assigns: seq<Assignment<V>>,
                               wheres: seq<WhereClause<V>>, row: Row<V>, column: string)
    requires (forall i :: 0 <= i < |assigns| ==> assigns[i].column in columns) && NoneRefused(sem, columns, wheres)
    ensures CompileUpdate(sem, d, columns, assigns, Conditions(wheres)).Update?
    ensures UpdatedCell(sem, d, CompileUpdate(sem, d, columns, assigns, Conditions(wheres)), row, column)
            == if assigns == [] || (d.Postgres? && AssignsTwice(assigns)) then None
               else Some(if ClausesHold(sem, row, wheres) then NewValue(assigns, column, row(column)) else row(column))
  {
    UpdateCompilesIff(sem, d, columns, assigns, wheres);
    UpdateEffect(sem, d, columns, assigns, Conditions(wheres), row, column);
    AssignsTwiceIff(assigns);
    ClausesHoldIff(sem, row, wheres);
  }

  lemma UpdateEffect<V(!new)>(sem: Semantics<V>, d: Dialect, columns: set<string>, assigns: seq<Assignment<V>>,
                              conds: seq<Condition<V>>, row: Row<V>, column: string)
    requires CompileUpdate(sem, d, columns, assigns, conds).Update?
    ensures UpdatedCell(sem, d, CompileUpdate(sem, d, columns, assigns, conds), row, column)
            == if assigns == [] || (d.Postgres? && Repeats(AssignedColumns(assigns))) then None
               else Some(if Selects(sem, conds, row) then NewValue(assigns, column, row(column)) else row(column))
  {
    assert SetColumns(SetTerms(d, assigns)) == AssignedColumns(assigns);
    var u := CompileUpdate(sem, d, columns, assigns, conds);
    var c := CompileWhere(sem, d, columns, conds, |assigns|);
    assert u.args[|assigns|..|assigns| + |c.args|] == c.args;
    assert u.args[..|assigns|] == Values(assigns);
    ConditionsMean(sem, d, columns, conds, |assigns|, c, row, u.args);
    SetValueIs(d, assigns, column, row(column), u.args);
  }

  // ----- auto_now -----

  datatype Field = Field(column: string, autoNow: bool)

  method AssignsHasColumn<V>(assigns: seq<Assignment<V>>, column: string) returns (b: bool)
    ensures b <==> Assigned(assigns, column).Some?
  {
    for i := 0 to |assigns|
      invariant Assigned(assigns[..i], column).None?
    {
      assert assigns[..i + 1][..i] == assigns[..i];
      if assigns[i].column == column {
        AssignedStays(assigns[..i + 1], assigns[i + 1..], column);
        assert assigns == assigns[..i + 1] + assigns[i + 1..];
        return true;
      }
    }
    assert assigns[..|assigns|] == assigns;
    b := false;
  }

  lemma {:induction false} AssignedStays<V>(a: seq<Assignment<V>>, b: seq<Assignment<V>>, column: string)
    requires Assigned(a, column).Some?
    ensures Assigned(a + b, column).Some?
    decreases |b|
  {
    if b == [] {
      assert a + b == a;
    } else {
      assert (a + b)[..|a + b| - 1] == a + b[..|b| - 1];
      AssignedStays(a, b[..|b| - 1], column);
    }
  }

  ghost predicate TouchedByNow(fields: seq<Field>, column: string) {
    exists i :: 0 <= i < |fields| && fields[i].autoNow && fields[i].column == column
  }

  /** The auto_now injection of Update: an explicit assignment wins, any other
      auto_now column gets the current time, and no other column is assigned. */
  method InjectAutoNow<V>(fields: seq<Field>, assigns: seq<Assignment<V>>, now: Arg<V>) returns (r: seq<Assignment<V>>)
    ensures |assigns| <= |r| && r[..|assigns|] == assigns
    ensures forall column :: Assigned(r, column) ==
              if Assigned(assigns, column).Some? then Assigned(assigns, column)
              else if TouchedByNow(fields, column) then Some(now) else None
  {
    r := assigns;
    for i := 0 to |fields|
      invariant |assigns| <= |r| && r[..|assigns|] == assigns
      invariant forall column :: Assigned(r, column) ==
                  if Assigned(assigns, column).Some? then Assigned(assigns, column)
                  else if TouchedByNow(fields[..i], column) then Some(now) else None
    {
      var f := fields[i];
      var has := AssignsHasColumn(r, f.column);
      TouchedStep(fields, i);
      if f.autoNow && !has {
        var more := r + [Assignment(f.column, now)];
        assert more[..|r|] == r;
        forall column
          ensures Assigned(more, column) == if f.column == column then Some(now) else Assigned(r, column)
        {
        }
        r := more;
      }
    }
    assert fields[..|fields|] == fields;
  }

  lemma TouchedStep(fields: seq<Field>, i: nat)
    requires i < |fields|
    ensures forall c :: TouchedByNow(fields[..i + 1], c) <==>
              TouchedByNow(fields[..i], c) || (fields[i].autoNow && fields[i].column == c)
  {
    forall c
      ensures TouchedByNow(fields[..i + 1], c) <==>
              TouchedByNow(fields[..i], c) || (fields[i].autoNow && fields[i].column == c)
    {
      var a, b := fields[..i], fields[..i + 1];
      assert b[i] == fields[i] && forall k :: 0 <= k < i ==> b[k] == a[k];
    }
  }
}
