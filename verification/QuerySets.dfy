/** Query builders that share nothing: every chained call works on a copy whose
    backing arrays are its own (orm/queryset.go). */
module QuerySets {
  import opened GoSlices
  import opened Lookups
  import opened Where

  // ----- Calls and what they add -----

  datatype OrderClause = OrderClause(column: string, desc: bool)

  datatype BuildError = NoModel | BadPairs

  /** One variadic argument: what asserting it to be a string yields, and its value. */
  datatype Item<+V> = Item(text: Option<string>, value: Arg<V>)

  datatype Call<+V> =
    | Filter(pairs: seq<Item<V>>)
    | Exclude(pairs: seq<Item<V>>)
    | OrderBy(fields: seq<string>)
    | SelectRelated(names: seq<string>)
    | Limit(n: int)
    | Offset(n: int)

  /** The clauses of a queryset. */
  datatype Query<+V> = Query(wheres: seq<WhereClause<V>>, orders: seq<OrderClause>, related: seq<string>,
                             limit: int, offset: int, err: Option<BuildError>)

  predicate WellPaired<V>(pairs: seq<Item<V>>) {
    |pairs| % 2 == 0 && forall i :: 0 <= i < |pairs| && i % 2 == 0 ==> pairs[i].text.Some?
  }

  /** The clauses of the pairs in front of the first key that is no string. */
  function PairClauses<V>(pairs: seq<Item<V>>, negate: bool): seq<WhereClause<V>>
    requires |pairs| % 2 == 0
  {
    if pairs == [] || pairs[0].text.None? then []
    else [WhereClause(pairs[0].text.value, pairs[1].value, negate)] + PairClauses(pairs[2..], negate)
  }

  function WheresOf<V>(pairs: seq<Item<V>>, negate: bool): seq<WhereClause<V>> {
    if |pairs| % 2 == 0 then PairClauses(pairs, negate) else []
  }

  function OrderOf(field: string): OrderClause {
    if |field| > 0 && field[0] == '-' then OrderClause(field[1..], true) else OrderClause(field, false)
  }

  function OrdersOf(fields: seq<string>): (r: seq<OrderClause>)
    ensures |r| == |fields| && forall i :: 0 <= i < |r| ==> r[i] == OrderOf(fields[i])
  {
    seq(|fields|, i requires 0 <= i < |fields| => OrderOf(fields[i]))
  }

  lemma OrdersStep(orders: seq<OrderClause>, fields: seq<string>, i: nat)
    requires i < |fields|
    ensures orders + OrdersOf(fields)[..i] + [OrderOf(fields[i])] == orders + OrdersOf(fields)[..i + 1]
  {
  }

  function CallWheres<V>(c: Call<V>): seq<WhereClause<V>> {
    match c
    case Filter(pairs) => WheresOf(pairs, false)
    case Exclude(pairs) => WheresOf(pairs, true)
    case _ => []
  }

  /** The loop of addWheres has appended the clauses of the first i arguments. */
  ghost predicate Appended<V>(added: seq<WhereClause<V>>, pairs: seq<Item<V>>, i: nat, negate: bool) {
    && |pairs| % 2 == 0 && i % 2 == 0 && i <= |pairs|
    && (forall j :: 0 <= j < i && j % 2 == 0 ==> pairs[j].text.Some?)
    && added + PairClauses(pairs[i..], negate) == PairClauses(pairs, negate)
  }

  lemma AppendedStep<V>(added: seq<WhereClause<V>>, pairs: seq<Item<V>>, i: nat, negate: bool)
    requires Appended(added, pairs, i, negate) && i < |pairs| && pairs[i].text.Some?
    ensures Appended(added + [WhereClause(pairs[i].text.value, pairs[i + 1].value, negate)], pairs, i + 2, negate)
  {
    assert pairs[i..][2..] == pairs[i + 2..];
  }

  lemma AppendedEnd<V>(added: seq<WhereClause<V>>, pairs: seq<Item<V>>, i: nat, negate: bool)
    requires Appended(added, pairs, i, negate) && (i == |pairs| || pairs[i].text.None?)
    ensures added == PairClauses(pairs, negate)
    ensures WellPaired(pairs) <==> i == |pairs|
  {
  }

  function WhereCall<V>(pairs: seq<Item<V>>, negate: bool): Call<V> {
    if negate then Call.Exclude(pairs) else Call.Filter(pairs)
  }

  predicate Fails<V>(c: Call<V>) {
    (c.Filter? || c.Exclude?) && !WellPaired(c.pairs)
  }

  // ----- A path of calls -----

  function Front<A>(xs: seq<A>): seq<A>
    requires xs != []
  {
    xs[..|xs| - 1]
  }

  function Last<A>(xs: seq<A>): A
    requires xs != []
  {
    xs[|xs| - 1]
  }

  function WheresAlong<V>(path: seq<Call<V>>): seq<WhereClause<V>> {
    if path == [] then [] else WheresAlong(Front(path)) + CallWheres(Last(path))
  }

  function OrdersAlong<V>(path: seq<Call<V>>): seq<OrderClause> {
    if path == [] then []
    else OrdersAlong(Front(path)) + if Last(path).OrderBy? then OrdersOf(Last(path).fields) else []
  }

  function RelatedAlong<V>(path: seq<Call<V>>): seq<string> {
    if path == [] then []
    else RelatedAlong(Front(path)) + if Last(path).SelectRelated? then Last(path).names else []
  }

  /** The last Limit, or none. */
  function LimitAlong<V>(path: seq<Call<V>>): int {
    if path == [] then -1 else if Last(path).Limit? then Last(path).n else LimitAlong(Front(path))
  }

  function OffsetAlong<V>(path: seq<Call<V>>): int {
    if path == [] then 0 else if Last(path).Offset? then Last(path).n else OffsetAlong(Front(path))
  }

  /** The error of starting the query, else that of the first call that fails. */
  function FirstError<V>(start: Option<BuildError>, path: seq<Call<V>>): Option<BuildError> {
    if start.Some? then start
    else if exists i :: 0 <= i < |path| && Fails(path[i]) then Some(BadPairs)
    else None
  }

  /** What a queryset holds after a path of calls from a fresh query. */
  function Along<V>(start: Option<BuildError>, path: seq<Call<V>>): Query<V> {
    Query(WheresAlong(path), OrdersAlong(path), RelatedAlong(path), LimitAlong(path), OffsetAlong(path),
          FirstError(start, path))
  }

  /** What one call makes of a query. */
  function After<V>(q: Query<V>, c: Call<V>): Query<V> {
    match c
    case OrderBy(fields) => q.(orders := q.orders + OrdersOf(fields))
    case SelectRelated(names) => q.(related := q.related + names)
    case Limit(n) => q.(limit := n)
    case Offset(n) => q.(offset := n)
    case _ => q.(wheres := q.wheres + CallWheres(c), err := if q.err.None? && Fails(c) then Some(BadPairs) else q.err)
  }

  lemma AlongStep<V>(start: Option<BuildError>, path: seq<Call<V>>, c: Call<V>)
    ensures Along(start, path + [c]) == After(Along(start, path), c)
  {
    var longer := path + [c];
    assert Front(longer) == path && Last(longer) == c;
    if i :| 0 <= i < |path| && Fails(path[i]) {
      assert Fails(longer[i]);
    } else if Fails(c) {
      assert Fails(longer[|path|]);
    }
  }

  // ----- The builder -----

  ghost predicate Apart(a: object, b: object, c: object) {
    a != b && b != c && a != c
  }

  class QuerySet<V> {
    var wheres: GoSlice<WhereClause<V>>
    var orders: GoSlice<OrderClause>
    var selectRelated: GoSlice<string>
    var limit: int
    var offset: int
    var err: Option<BuildError>

    /** Three slices over three arrays. */
    ghost predicate Valid()
      reads this
    {
      && wheres.Valid() && orders.Valid() && selectRelated.Valid()
      && Apart(wheres.data, orders.data, selectRelated.data)
    }

    ghost function View(): Query<V>
      requires Valid()
      reads this, wheres.data, orders.data, selectRelated.data
    {
      Query(wheres.View(), orders.View(), selectRelated.View(), limit, offset, err)
    }

    ghost predicate Is(q: Query<V>)
      reads this, wheres.data, orders.data, selectRelated.data
    {
      Valid() && View() == q
    }

    /** Query: fails when no model is registered for the type. */
    constructor (registered: bool)
      ensures Is(Along(if registered then None else Some(NoModel), []))
      ensures fresh(wheres.data) && fresh(orders.data) && fresh(selectRelated.data)
    {
      limit, offset, err := -1, 0, if registered then None else Some(NoModel);
      var w, o, r := new WhereClause<V>[0], new OrderClause[0], new string[0];
      wheres, orders, selectRelated := GoSlice(w, 0, 0), GoSlice(o, 0, 0), GoSlice(r, 0, 0);
    }

    /** The copy every chained call works on. */
    constructor CloneOf(q: QuerySet<V>)
      requires q.Valid()
      ensures Is(q.View())
      ensures fresh(wheres.data) && fresh(orders.data) && fresh(selectRelated.data)
    {
      limit, offset, err := q.limit, q.offset, q.err;
      var w := CopyOf(q.wheres);
      var o := CopyOf(q.orders);
      var r := CopyOf(q.selectRelated);
      wheres, orders, selectRelated := w, o, r;
    }

    /** setErr: the first error wins. */
    method SetErr(e: BuildError)
      modifies this`err
      ensures err == if old(err).None? then Some(e) else old(err)
    {
      if err.None? { err := Some(e); }
    }

    method AppendWhere(w: WhereClause<V>)
      requires Valid()
      modifies this`wheres, wheres.data
      ensures Is(old(View()).(wheres := old(View()).wheres + [w]))
      ensures wheres.data == old(wheres.data) || fresh(wheres.data)
    {
      wheres := Append(wheres, [w]);
    }

    method AppendOrder(o: OrderClause)
      requires Valid()
      modifies this`orders, orders.data
      ensures Is(old(View()).(orders := old(View()).orders + [o]))
      ensures orders.data == old(orders.data) || fresh(orders.data)
    {
      orders := Append(orders, [o]);
    }

    /** The loop of addWheres. */
    method AppendPairs(pairs: seq<Item<V>>, negate: bool) returns (ok: bool)
      requires Valid() && |pairs| % 2 == 0
      modifies this`wheres, wheres.data
      ensures Is(old(View()).(wheres := old(View()).wheres + PairClauses(pairs, negate)))
      ensures ok <==> WellPaired(pairs)
    {
      ghost var was := View();
      ghost var added := [];
      var i := 0;
      ok := true;
      while i < |pairs|
        invariant wheres.data == old(wheres.data) || fresh(wheres.data)
        invariant Is(was.(wheres := was.wheres + added))
        invariant Appended(added, pairs, i, negate)
      {
        if pairs[i].text.None? {
          AppendedEnd(added, pairs, i, negate);
          return false;
        }
        var clause := WhereClause(pairs[i].text.value, pairs[i + 1].value, negate);
        AppendedStep(added, pairs, i, negate);
        AppendWhere(clause);
        assert was.wheres + added + [clause] == was.wheres + (added + [clause]);
        added, i := added + [clause], i + 2;
      }
      AppendedEnd(added, pairs, i, negate);
    }

    method AddWheres(pairs: seq<Item<V>>, negate: bool) returns (cp: QuerySet<V>)
      requires Valid()
      ensures fresh(cp) && cp.Is(After(View(), WhereCall(pairs, negate)))
    {
      cp := new QuerySet.CloneOf(this);
      if |pairs| % 2 != 0 {
        cp.SetErr(BadPairs);
      } else {
        var ok := cp.AppendPairs(pairs, negate);
        if !ok { cp.SetErr(BadPairs); }
      }
    }

    method Filter(pairs: seq<Item<V>>) returns (cp: QuerySet<V>)
      requires Valid()
      ensures fresh(cp) && cp.Is(After(View(), Call.Filter(pairs)))
    {
      cp := AddWheres(pairs, false);
    }

    method Exclude(pairs: seq<Item<V>>) returns (cp: QuerySet<V>)
      requires Valid()
      ensures fresh(cp) && cp.Is(After(View(), Call.Exclude(pairs)))
    {
      cp := AddWheres(pairs, true);
    }

    method SelectRelated(names: seq<string>) returns (cp: QuerySet<V>)
      requires Valid()
      ensures fresh(cp) && cp.Is(After(View(), Call.SelectRelated(names)))
    {
      cp := new QuerySet.CloneOf(this);
      cp.selectRelated := Append(cp.selectRelated, names);
    }

    method OrderBy(fields: seq<string>) returns (cp: QuerySet<V>)
      requires Valid()
      ensures fresh(cp) && cp.Is(After(View(), Call.OrderBy(fields)))
    {
      ghost var was := View();
      cp := new QuerySet.CloneOf(this);
      for i := 0 to |fields|
        invariant fresh(cp.orders.data)
        invariant cp.Is(was.(orders := was.orders + OrdersOf(fields)[..i]))
      {
        var desc, col := false, fields[i];
        if |col| > 0 && col[0] == '-' {
          desc := true;
          col := col[1..];
        }
        OrdersStep(was.orders, fields, i);
        cp.AppendOrder(OrderClause(col, desc));
      }
    }

    method Limit(n: int) returns (cp: QuerySet<V>)
      requires Valid()
      ensures fresh(cp) && cp.Is(After(View(), Call.Limit(n)))
    {
      cp := new QuerySet.CloneOf(this);
      cp.limit := n;
    }

    method Offset(n: int) returns (cp: QuerySet<V>)
      requires Valid()
      ensures fresh(cp) && cp.Is(After(View(), Call.Offset(n)))
    {
      cp := new QuerySet.CloneOf(this);
      cp.offset := n;
    }

    method Chain(c: Call<V>) returns (cp: QuerySet<V>)
      requires Valid()
      ensures fresh(cp) && cp.Is(After(View(), c))
    {
      match c
      case Filter(pairs) => cp := Filter(pairs);
      case Exclude(pairs) => cp := Exclude(pairs);
      case OrderBy(fields) => cp := OrderBy(fields);
      case SelectRelated(names) => cp := SelectRelated(names);
      case Limit(n) => cp := Limit(n);
      case Offset(n) => cp := Offset(n);
    }
  }

  // ----- Trees of chained calls, in any order -----

  /** Make one more queryset from the parent-th one made so far. */
  datatype Step<+V> = Step(parent: nat, call: Call<V>)

  predicate Tree<V>(steps: seq<Step<V>>) {
    forall i :: 0 <= i < |steps| ==> steps[i].parent <= i
  }

  /** The calls that lead to the k-th queryset. */
  function Path<V>(steps: seq<Step<V>>, k: nat): seq<Call<V>>
    requires Tree(steps) && k <= |steps|
  {
    if k == 0 then [] else Path(steps, steps[k - 1].parent) + [steps[k - 1].call]
  }

  /** What each queryset of the tree should hold: its own path and nothing else. */
  ghost function Goals<V>(start: Option<BuildError>, steps: seq<Step<V>>): (goals: seq<Query<V>>)
    requires Tree(steps)
  {
    seq(|steps| + 1, k requires 0 <= k <= |steps| => Along(start, Path(steps, k)))
  }

  lemma GoalStep<V>(start: Option<BuildError>, steps: seq<Step<V>>, i: nat)
    requires Tree(steps) && i < |steps|
    ensures Goals(start, steps)[i + 1] == After(Goals(start, steps)[steps[i].parent], steps[i].call)
  {
    var parent := steps[i].parent;
    assert Goals(start, steps)[i + 1] == Along(start, Path(steps, i + 1));
    assert Goals(start, steps)[parent] == Along(start, Path(steps, parent));
    AlongStep(start, Path(steps, parent), steps[i].call);
  }

  lemma SliceSnoc<A>(xs: seq<A>, i: nat)
    requires i < |xs|
    ensures xs[..i + 1] == xs[..i] + [xs[i]]
  {
  }

  ghost predicate AllAre<V>(made: seq<QuerySet<V>>, goals: seq<Query<V>>)
    reads made, set q | q in made :: q.wheres.data, set q | q in made :: q.orders.data
    reads set q | q in made :: q.selectRelated.data
  {
    |made| == |goals| && forall k :: 0 <= k < |made| ==> made[k].Is(goals[k])
  }

  method GrowOne<V>(made: seq<QuerySet<V>>, step: Step<V>, ghost goals: seq<Query<V>>) returns (more: seq<QuerySet<V>>)
    requires AllAre(made, goals) && step.parent < |made|
    ensures made <= more && AllAre(more, goals + [After(goals[step.parent], step.call)])
  {
    var q := made[step.parent].Chain(step.call);
    more := made + [q];
  }

  method GrowAll<V>(root: QuerySet<V>, steps: seq<Step<V>>, ghost goals: seq<Query<V>>) returns (made: seq<QuerySet<V>>)
    requires Tree(steps) && |goals| == |steps| + 1 && root.Is(goals[0])
    requires forall i :: 0 <= i < |steps| ==> goals[i + 1] == After(goals[steps[i].parent], steps[i].call)
    ensures AllAre(made, goals)
  {
    made := [root];
    SliceSnoc(goals, 0);
    for i := 0 to |steps|
      invariant AllAre(made, goals[..i + 1])
    {
      SliceSnoc(goals, i + 1);
      made := GrowOne(made, steps[i], goals[..i + 1]);
    }
    assert goals[..|goals|] == goals;
  }

  /** However the calls of a tree are interleaved, every queryset made ends up
      holding the clauses, and the first error, of its own path and nothing else. */
  method Grow<V>(registered: bool, steps: seq<Step<V>>) returns (made: seq<QuerySet<V>>)
    requires Tree(steps)
    ensures AllAre(made, Goals(if registered then None else Some(NoModel), steps))
  {
    ghost var start := if registered then None else Some(NoModel);
    var root := new QuerySet<V>(registered);
    forall i | 0 <= i < |steps|
      ensures Goals(start, steps)[i + 1] == After(Goals(start, steps)[steps[i].parent], steps[i].call)
    {
      GoalStep(start, steps, i);
    }
    made := GrowAll(root, steps, Goals(start, steps));
  }

  // ----- What the calls select -----

  /** The row has every filter of the call TRUE, or every exclusion of it FALSE. */
  ghost predicate CallSelects<V>(sem: Semantics<V>, c: Call<V>, row: Row<V>) {
    Selects(sem, Conditions(CallWheres(c)), row)
  }

  lemma SelectsBoth<V>(sem: Semantics<V>, a: seq<WhereClause<V>>, b: seq<WhereClause<V>>, row: Row<V>)
    ensures Selects(sem, Conditions(a + b), row) <==>
            Selects(sem, Conditions(a), row) && Selects(sem, Conditions(b), row)
  {
    var x, y, both := Conditions(a), Conditions(b), Conditions(a + b);
    assert forall i :: 0 <= i < |a| ==> both[i] == x[i];
    assert forall i :: 0 <= i < |b| ==> both[|a| + i] == y[i];
    if Selects(sem, both, row) {
      forall i | 0 <= i < |y| ensures Holds(sem, row, y[i]) {
        assert Holds(sem, row, both[|a| + i]);
      }
    }
  }

  ghost predicate AllSelect<V>(sem: Semantics<V>, path: seq<Call<V>>, row: Row<V>) {
    forall i {:trigger CallSelects(sem, path[i], row)} :: 0 <= i < |path| ==> CallSelects(sem, path[i], row)
  }

  lemma AllSelectStep<V>(sem: Semantics<V>, path: seq<Call<V>>, row: Row<V>)
    requires path != []
    ensures AllSelect(sem, path, row) <==> AllSelect(sem, Front(path), row) && CallSelects(sem, Last(path), row)
  {
    var front, last := Front(path), Last(path);
    if AllSelect(sem, front, row) && CallSelects(sem, last, row) {
      forall i | 0 <= i < |path| ensures CallSelects(sem, path[i], row) {
        if i < |path| - 1 { assert path[i] == front[i]; }
      }
    }
    if AllSelect(sem, path, row) {
      forall i | 0 <= i < |front| ensures CallSelects(sem, front[i], row) {
        assert front[i] == path[i];
      }
    }
  }

  /** Chaining is intersection: the order of the calls does not matter to what is
      selected, and neither do OrderBy, SelectRelated, Limit and Offset. */
  lemma {:induction false} ChainSelects<V>(sem: Semantics<V>, path: seq<Call<V>>, row: Row<V>)
    ensures Selects(sem, Conditions(WheresAlong(path)), row) <==> AllSelect(sem, path, row)
  {
    if path != [] {
      ChainSelects(sem, Front(path), row);
      SelectsBoth(sem, WheresAlong(Front(path)), CallWheres(Last(path)), row);
      AllSelectStep(sem, path, row);
    }
  }
}
