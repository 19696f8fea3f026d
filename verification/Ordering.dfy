/** ORDER BY: compiling the order terms of a queryset and what they do to the rows
    (orm/compiler.go, OrderBy of orm/queryset.go). */
module Ordering {
  import opened Lookups
  import opened QuerySets
  import Pipeline

  datatype Compiled = Terms(terms: seq<OrderClause>) | UnknownOrder(column: string)

  /** compileOrderBy: one term after the other, up to a column the model does not have. */
  method RenderOrderBy(columns: set<string>, orders: seq<OrderClause>) returns (r: Compiled)
    ensures r.Terms? <==> forall i :: 0 <= i < |orders| ==> orders[i].column in columns
    ensures r.Terms? ==> r.terms == orders
    ensures r.UnknownOrder? ==>
              exists i :: 0 <= i < |orders| && orders[i].column == r.column && r.column !in columns
                          && forall k :: 0 <= k < i ==> orders[k].column in columns
  {
    var terms: seq<OrderClause> := [];
    for i := 0 to |orders|
      invariant terms == orders[..i] && forall k :: 0 <= k < i ==> orders[k].column in columns
    {
      var o := orders[i];
      if o.column !in columns { return UnknownOrder(o.column); }
      terms := terms + [OrderClause(o.column, o.desc)];
    }
    r := Terms(terms);
  }

  // ----- What the database makes of the terms -----

  /** NULL is the smallest value to SQLite and the largest to PostgreSQL. */
  predicate CellBefore<V>(d: Dialect, sem: Semantics<V>, a: Value<V>, b: Value<V>) {
    match (a, b)
    case (Null, Null) => false
    case (Null, Val(_)) => d.Sqlite?
    case (Val(_), Null) => d.Postgres?
    case (Val(x), Val(y)) => sem.lt(x, y)
  }

  predicate TermBefore<V>(d: Dialect, sem: Semantics<V>, t: OrderClause, a: Row<V>, b: Row<V>) {
    if t.desc then CellBefore(d, sem, b(t.column), a(t.column)) else CellBefore(d, sem, a(t.column), b(t.column))
  }

  /** The first term that tells the rows apart decides. */
  predicate RowBefore<V>(d: Dialect, sem: Semantics<V>, terms: seq<OrderClause>, a: Row<V>, b: Row<V>) {
    && terms != []
    && (TermBefore(d, sem, terms[0], a, b)
        || (!TermBefore(d, sem, terms[0], b, a) && RowBefore(d, sem, terms[1..], a, b)))
  }

  function RowLess<V>(d: Dialect, sem: Semantics<V>, terms: seq<OrderClause>): (Row<V>, Row<V>) -> bool {
    (a: Row<V>, b: Row<V>) => RowBefore(d, sem, terms, a, b)
  }

  // ----- What the texts given to OrderBy mean -----

  /** A text names a column whose smaller values come first, behind a minus one whose
      larger values do. */
  predicate TextBefore<V>(d: Dialect, sem: Semantics<V>, field: string, a: Row<V>, b: Row<V>) {
    if "-" <= field then CellBefore(d, sem, b(field[1..]), a(field[1..])) else CellBefore(d, sem, a(field), b(field))
  }

  /** Some text puts a in front of b, and those before it leave the two tied. */
  ghost predicate TextsPut<V>(d: Dialect, sem: Semantics<V>, fields: seq<string>, a: Row<V>, b: Row<V>) {
    exists k :: 0 <= k < |fields| && DecidesAt(d, sem, fields, k, a, b)
  }

  ghost predicate DecidesAt<V>(d: Dialect, sem: Semantics<V>, fields: seq<string>, k: nat, a: Row<V>, b: Row<V>)
    requires k < |fields|
  {
    && TextBefore(d, sem, fields[k], a, b)
    && forall i :: 0 <= i < k ==> !TextBefore(d, sem, fields[i], a, b) && !TextBefore(d, sem, fields[i], b, a)
  }

  lemma TextIsTerm<V>(d: Dialect, sem: Semantics<V>, field: string, a: Row<V>, b: Row<V>)
    ensures TermBefore(d, sem, OrderOf(field), a, b) <==> TextBefore(d, sem, field, a, b)
  {
  }

  lemma DecidesLater<V>(d: Dialect, sem: Semantics<V>, fields: seq<string>, a: Row<V>, b: Row<V>)
    requires fields != []
    ensures TextsPut(d, sem, fields, a, b) <==>
            TextBefore(d, sem, fields[0], a, b)
            || (!TextBefore(d, sem, fields[0], b, a) && TextsPut(d, sem, fields[1..], a, b))
  {
    var rest := fields[1..];
    assert forall i :: 0 <= i < |rest| ==> rest[i] == fields[i + 1];
    if k :| 0 <= k < |fields| && DecidesAt(d, sem, fields, k, a, b) {
      if k > 0 {
        assert DecidesAt(d, sem, rest, k - 1, a, b);
      }
    }
    if TextBefore(d, sem, fields[0], a, b) {
      assert DecidesAt(d, sem, fields, 0, a, b);
    } else if !TextBefore(d, sem, fields[0], b, a) && TextsPut(d, sem, rest, a, b) {
      var k :| 0 <= k < |rest| && DecidesAt(d, sem, rest, k, a, b);
      forall i | 0 <= i < k + 1
        ensures !TextBefore(d, sem, fields[i], a, b) && !TextBefore(d, sem, fields[i], b, a)
      {
        if i > 0 { assert rest[i - 1] == fields[i]; }
      }
      assert DecidesAt(d, sem, fields, k + 1, a, b);
    }
  }

  /** The terms of OrderBy(fields) put rows in the order the texts ask for. */
  lemma {:induction false} OrdersMean<V>(d: Dialect, sem: Semantics<V>, fields: seq<string>, a: Row<V>, b: Row<V>)
    ensures RowBefore(d, sem, OrdersOf(fields), a, b) <==> TextsPut(d, sem, fields, a, b)
    decreases |fields|
  {
    if fields != [] {
      var orders := OrdersOf(fields);
      assert orders[0] == OrderOf(fields[0]) && orders[1..] == OrdersOf(fields[1..]);
      TextIsTerm(d, sem, fields[0], a, b);
      TextIsTerm(d, sem, fields[0], b, a);
      OrdersMean(d, sem, fields[1..], a, b);
      DecidesLater(d, sem, fields, a, b);
    }
  }

  /** A minus in front of a column turns its order around. */
  lemma MinusReverses<V>(d: Dialect, sem: Semantics<V>, column: string, a: Row<V>, b: Row<V>)
    requires !("-" <= column)
    ensures RowBefore(d, sem, OrdersOf(["-" + column]), a, b) <==> RowBefore(d, sem, OrdersOf([column]), b, a)
  {
    var down, up := OrderOf("-" + column), OrderOf(column);
    assert ("-" + column)[1..] == column;
    assert OrdersOf(["-" + column]) == [down] && OrdersOf([column]) == [up];
    assert [down][1..] == [] && [up][1..] == [];
  }

  // ----- The ordered rows -----

  /** The comparison of values is a strict order whose ties are an equivalence. */
  ghost predicate WeakOrder<V(!new)>(sem: Semantics<V>) {
    && (forall x :: !sem.lt(x, x))
    && (forall x, y, z :: sem.lt(x, y) && sem.lt(y, z) ==> sem.lt(x, z))
    && (forall x, y, z :: sem.lt(x, z) ==> sem.lt(x, y) || sem.lt(y, z))
  }

  lemma IntegersOrdered(sem: Semantics<int>)
    requires forall x, y :: sem.lt(x, y) <==> x < y
    ensures WeakOrder(sem)
  {
  }

  lemma CellsOrdered<V(!new)>(d: Dialect, sem: Semantics<V>, a: Value<V>, b: Value<V>, c: Value<V>)
    requires WeakOrder(sem)
    ensures !CellBefore(d, sem, a, a)
    ensures CellBefore(d, sem, a, b) && CellBefore(d, sem, b, c) ==> CellBefore(d, sem, a, c)
    ensures CellBefore(d, sem, a, c) ==> CellBefore(d, sem, a, b) || CellBefore(d, sem, b, c)
  {
  }

  lemma TermsOrdered<V(!new)>(d: Dialect, sem: Semantics<V>, t: OrderClause, a: Row<V>, b: Row<V>, c: Row<V>)
    requires WeakOrder(sem)
    ensures !TermBefore(d, sem, t, a, a)
    ensures TermBefore(d, sem, t, a, b) && TermBefore(d, sem, t, b, c) ==> TermBefore(d, sem, t, a, c)
    ensures TermBefore(d, sem, t, a, c) ==> TermBefore(d, sem, t, a, b) || TermBefore(d, sem, t, b, c)
  {
    CellsOrdered(d, sem, a(t.column), b(t.column), c(t.column));
    CellsOrdered(d, sem, c(t.column), b(t.column), a(t.column));
  }

  lemma {:induction false} RowsOrdered<V(!new)>(d: Dialect, sem: Semantics<V>, terms: seq<OrderClause>,
                                                a: Row<V>, b: Row<V>, c: Row<V>)
    requires WeakOrder(sem)
    ensures !RowBefore(d, sem, terms, a, a)
    ensures RowBefore(d, sem, terms, a, b) && RowBefore(d, sem, terms, b, c) ==> RowBefore(d, sem, terms, a, c)
    decreases |terms|
  {
    if terms != [] {
      TermsOrdered(d, sem, terms[0], a, b, c);
      TermsOrdered(d, sem, terms[0], c, a, b);
      TermsOrdered(d, sem, terms[0], b, c, a);
      TermsOrdered(d, sem, terms[0], c, b, a);
      RowsOrdered(d, sem, terms[1..], a, b, c);
    }
  }

  /** The rows under OrderBy(fields) are the rows, each as often, and none comes before an
      earlier one by the texts. */
  lemma OrderedRows<V(!new)>(d: Dialect, sem: Semantics<V>, fields: seq<string>, rows: seq<Row<V>>)
    requires WeakOrder(sem)
    ensures var sorted := Pipeline.Sort(RowLess(d, sem, OrdersOf(fields)), rows);
            && multiset(sorted) == multiset(rows)
            && forall i, j :: 0 <= i < j < |sorted| ==> !TextsPut(d, sem, fields, sorted[j], sorted[i])
  {
    var less := RowLess(d, sem, OrdersOf(fields));
    forall a, b, c
      ensures !less(a, a) && (less(a, b) && less(b, c) ==> less(a, c))
    {
      RowsOrdered(d, sem, OrdersOf(fields), a, b, c);
    }
    Pipeline.SortSorts(less, rows);
    var sorted := Pipeline.Sort(less, rows);
    forall i, j | 0 <= i < j < |sorted| ensures !TextsPut(d, sem, fields, sorted[j], sorted[i]) {
      OrdersMean(d, sem, fields, sorted[j], sorted[i]);
    }
  }
}
