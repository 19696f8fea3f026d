/** WHERE, ORDER BY, LIMIT and OFFSET as functions on row sequences, and how they
    commute with attaching more columns to every row. */
module Pipeline {

  function Map<A, B>(f: A -> B, xs: seq<A>): (ys: seq<B>)
    ensures |ys| == |xs| && forall i :: 0 <= i < |xs| ==> ys[i] == f(xs[i])
  {
    seq(|xs|, i requires 0 <= i < |xs| => f(xs[i]))
  }

  function Filter<A>(p: A -> bool, xs: seq<A>): (ys: seq<A>)
    ensures forall y :: y in ys ==> y in xs && p(y)
    ensures forall x :: x in xs && p(x) ==> x in ys
    decreases |xs|
  {
    if xs == [] then [] else (if p(xs[0]) then [xs[0]] else []) + Filter(p, xs[1..])
  }

  /** Inserts x behind the rows that come before it or tie with it. */
  function Insert<A>(less: (A, A) -> bool, x: A, xs: seq<A>): seq<A>
    decreases |xs|
  {
    if xs == [] then [x]
    else if less(x, xs[0]) then [x] + xs
    else [xs[0]] + Insert(less, x, xs[1..])
  }

  /** A stable sort, last row first inserted last. */
  function Sort<A>(less: (A, A) -> bool, xs: seq<A>): seq<A>
    decreases |xs|
  {
    if xs == [] then [] else Insert(less, xs[|xs| - 1], Sort(less, xs[..|xs| - 1]))
  }

  datatype LimitClause = LimitClause(limit: Option<int>, offset: Option<int>)

  datatype Option<+T> = None | Some(value: T)

  /** compileLimitOffset: SQLite wants a LIMIT before an OFFSET. */
  function CompileLimit(limit: int, offset: int): LimitClause {
    if offset > 0 && limit < 0 then LimitClause(Some(-1), Some(offset))
    else LimitClause(if limit >= 0 then Some(limit) else None, if offset > 0 then Some(offset) else None)
  }

  function Take<A>(n: int, xs: seq<A>): seq<A> {
    if n < 0 then xs else if n < |xs| then xs[..n] else xs
  }

  function Drop<A>(n: int, xs: seq<A>): seq<A> {
    if n <= 0 then xs else if n < |xs| then xs[n..] else []
  }

  /** SQLite: a negative LIMIT is no limit; OFFSET is skipped first and is allowed
      only behind a LIMIT. */
  function RunLimit<A>(c: LimitClause, xs: seq<A>): Option<seq<A>> {
    match (c.limit, c.offset)
    case (None, None) => Some(xs)
    case (None, Some(_)) => None
    case (Some(n), None) => Some(Take(n, xs))
    case (Some(n), Some(m)) => Some(Take(n, Drop(m, xs)))
  }

  /** The first limit rows behind the first offset ones, where a negative limit or offset
      counts as none. */
  predicate IsPage<A(==)>(limit: int, offset: int, xs: seq<A>, page: seq<A>) {
    var start := if offset < 0 then 0 else if offset < |xs| then offset else |xs|;
    var end := if limit < 0 || start + limit > |xs| then |xs| else start + limit;
    page == xs[start..end]
  }

  /** The compiled clause is always accepted and means the page. */
  lemma LimitMeaning<A>(limit: int, offset: int, xs: seq<A>)
    ensures var rows := RunLimit(CompileLimit(limit, offset), xs);
            rows.Some? && IsPage(limit, offset, xs, rows.value)
  {
  }

  /** The clauses of a SELECT, in the order SQL applies them. */
  function Run<A>(where: A -> bool, less: (A, A) -> bool, limit: int, offset: int, rows: seq<A>): seq<A> {
    Take(limit, Drop(offset, Sort(less, Filter(where, rows))))
  }

  /** The page of the selected rows in their order. */
  lemma RunIsPage<A>(where: A -> bool, less: (A, A) -> bool, limit: int, offset: int, rows: seq<A>)
    ensures IsPage(limit, offset, Sort(less, Filter(where, rows)), Run(where, less, limit, offset, rows))
  {
  }

  // ----- Commuting with attached columns -----

  /** f attaches something to the rows that g takes off again. */
  ghost predicate Attaches<A, B>(f: A -> B, g: B -> A, rows: seq<A>) {
    forall i :: 0 <= i < |rows| ==> g(f(rows[i])) == rows[i]
  }

  function On<A, B>(p: A -> bool, g: B -> A): B -> bool {
    y => p(g(y))
  }

  function On2<A, B>(less: (A, A) -> bool, g: B -> A): (B, B) -> bool {
    (x, y) => less(g(x), g(y))
  }

  lemma AttachesTail<A, B>(f: A -> B, g: B -> A, rows: seq<A>)
    requires rows != [] && Attaches(f, g, rows)
    ensures Attaches(f, g, rows[1..]) && Attaches(f, g, rows[..|rows| - 1])
    ensures Map(f, rows)[1..] == Map(f, rows[1..]) && Map(f, rows)[..|rows| - 1] == Map(f, rows[..|rows| - 1])
  {
    var tail, front := rows[1..], rows[..|rows| - 1];
    assert forall i :: 0 <= i < |tail| ==> tail[i] == rows[i + 1];
    assert forall i :: 0 <= i < |front| ==> front[i] == rows[i];
  }

  lemma MapCons<A, B>(f: A -> B, x: A, xs: seq<A>)
    ensures Map(f, [x] + xs) == [f(x)] + Map(f, xs)
  {
  }

  lemma {:induction false} FilterAttached<A, B>(f: A -> B, g: B -> A, p: A -> bool, rows: seq<A>)
    requires Attaches(f, g, rows)
    ensures Filter(On(p, g), Map(f, rows)) == Map(f, Filter(p, rows)) && Attaches(f, g, Filter(p, rows))
    decreases |rows|
  {
    if rows != [] {
      AttachesTail(f, g, rows);
      FilterAttached(f, g, p, rows[1..]);
      MapCons(f, rows[0], Filter(p, rows[1..]));
    }
  }

  lemma {:induction false} InsertAttached<A, B>(f: A -> B, g: B -> A, less: (A, A) -> bool, x: A, rows: seq<A>)
    requires Attaches(f, g, rows) && g(f(x)) == x
    ensures Insert(On2(less, g), f(x), Map(f, rows)) == Map(f, Insert(less, x, rows))
            && Attaches(f, g, Insert(less, x, rows))
    decreases |rows|
  {
    if rows != [] {
      AttachesTail(f, g, rows);
      if less(x, rows[0]) {
        MapCons(f, x, rows);
      } else {
        InsertAttached(f, g, less, x, rows[1..]);
        MapCons(f, rows[0], Insert(less, x, rows[1..]));
      }
    }
  }

  lemma {:induction false} SortAttached<A, B>(f: A -> B, g: B -> A, less: (A, A) -> bool, rows: seq<A>)
    requires Attaches(f, g, rows)
    ensures Sort(On2(less, g), Map(f, rows)) == Map(f, Sort(less, rows)) && Attaches(f, g, Sort(less, rows))
    decreases |rows|
  {
    if rows != [] {
      var n := |rows| - 1;
      AttachesTail(f, g, rows);
      SortAttached(f, g, less, rows[..n]);
      InsertAttached(f, g, less, rows[n], Sort(less, rows[..n]));
    }
  }

  /** A query over rows with columns attached, whose clauses look only at the
      original columns, is the query over the original rows with columns attached. */
  lemma RunAttached<A, B>(f: A -> B, g: B -> A, where: A -> bool, less: (A, A) -> bool, limit: int, offset: int,
                          rows: seq<A>)
    requires Attaches(f, g, rows)
    ensures Run(On(where, g), On2(less, g), limit, offset, Map(f, rows))
            == Map(f, Run(where, less, limit, offset, rows))
  {
    FilterAttached(f, g, where, rows);
    var kept := Filter(where, rows);
    SortAttached(f, g, less, kept);
    SliceMap(f, offset, Sort(less, kept));
    SliceMap(f, limit, Drop(offset, Sort(less, kept)));
  }

  lemma SliceMap<A, B>(f: A -> B, n: int, xs: seq<A>)
    ensures Take(n, Map(f, xs)) == Map(f, Take(n, xs))
    ensures Drop(n, Map(f, xs)) == Map(f, Drop(n, xs))
  {
  }

  lemma {:induction false} InsertMembers<A>(less: (A, A) -> bool, x: A, xs: seq<A>)
    ensures forall y :: y in Insert(less, x, xs) <==> y == x || y in xs
    decreases |xs|
  {
    if xs != [] { InsertMembers(less, x, xs[1..]); }
  }

  lemma {:induction false} SortMembers<A>(less: (A, A) -> bool, xs: seq<A>)
    ensures forall y :: y in Sort(less, xs) <==> y in xs
    decreases |xs|
  {
    if xs != [] {
      var n := |xs| - 1;
      SortMembers(less, xs[..n]);
      InsertMembers(less, xs[n], Sort(less, xs[..n]));
      assert xs == xs[..n] + [xs[n]];
    }
  }

  // ----- What sorting does -----

  /** No row comes before an earlier one. */
  ghost predicate Sorted<A>(less: (A, A) -> bool, xs: seq<A>) {
    forall i, j :: 0 <= i < j < |xs| ==> !less(xs[j], xs[i])
  }

  ghost predicate Order<A(!new)>(less: (A, A) -> bool) {
    (forall x :: !less(x, x)) && forall x, y, z :: less(x, y) && less(y, z) ==> less(x, z)
  }

  lemma NotBefore<A(!new)>(less: (A, A) -> bool, x: A, y: A, z: A)
    requires Order(less) && less(x, y) && !less(z, y)
    ensures !less(z, x)
  {
  }

  lemma InFront<A(!new)>(less: (A, A) -> bool, x: A, xs: seq<A>)
    requires Order(less) && Sorted(less, xs) && xs != [] && less(x, xs[0])
    ensures Sorted(less, [x] + xs)
  {
    forall j | 0 <= j < |xs| ensures !less(xs[j], x) {
      assert j > 0 ==> !less(xs[j], xs[0]);
      NotBefore(less, x, xs[0], xs[j]);
    }
    assert forall j :: 0 < j < |[x] + xs| ==> ([x] + xs)[j] == xs[j - 1];
  }

  lemma Behind<A>(less: (A, A) -> bool, first: A, rest: seq<A>)
    requires Sorted(less, rest) && forall y :: y in rest ==> !less(y, first)
    ensures Sorted(less, [first] + rest)
  {
    assert forall j :: 0 < j < |[first] + rest| ==> ([first] + rest)[j] == rest[j - 1] && rest[j - 1] in rest;
  }

  lemma SortedTail<A>(less: (A, A) -> bool, xs: seq<A>)
    requires Sorted(less, xs) && xs != []
    ensures Sorted(less, xs[1..]) && forall y :: y in xs[1..] ==> !less(y, xs[0])
  {
    assert forall i :: 0 <= i < |xs| - 1 ==> xs[1..][i] == xs[i + 1];
  }

  lemma {:induction false} InsertSorts<A(!new)>(less: (A, A) -> bool, x: A, xs: seq<A>)
    requires Order(less) && Sorted(less, xs)
    ensures Sorted(less, Insert(less, x, xs)) && multiset(Insert(less, x, xs)) == multiset(xs) + multiset{x}
    decreases |xs|
  {
    if xs != [] {
      assert xs == [xs[0]] + xs[1..];
      if less(x, xs[0]) {
        InFront(less, x, xs);
      } else {
        SortedTail(less, xs);
        InsertSorts(less, x, xs[1..]);
        InsertMembers(less, x, xs[1..]);
        Behind(less, xs[0], Insert(less, x, xs[1..]));
      }
    }
  }

  /** The sorted rows are the rows, each as often, in order. */
  lemma {:induction false} SortSorts<A(!new)>(less: (A, A) -> bool, xs: seq<A>)
    requires Order(less)
    ensures Sorted(less, Sort(less, xs)) && multiset(Sort(less, xs)) == multiset(xs)
    decreases |xs|
  {
    if xs != [] {
      var n := |xs| - 1;
      SortSorts(less, xs[..n]);
      InsertSorts(less, xs[n], Sort(less, xs[..n]));
      assert xs == xs[..n] + [xs[n]];
    }
  }

  lemma RunMembers<A>(where: A -> bool, less: (A, A) -> bool, limit: int, offset: int, rows: seq<A>)
    ensures forall x :: x in Run(where, less, limit, offset, rows) ==> x in rows && where(x)
  {
    var kept := Filter(where, rows);
    var sorted := Sort(less, kept);
    SortMembers(less, kept);
    SliceMembers(limit, Drop(offset, sorted));
    SliceMembers(offset, sorted);
    forall x | x in Run(where, less, limit, offset, rows)
      ensures x in rows && where(x)
    {
      assert x in Drop(offset, sorted) && x in sorted && x in kept;
    }
  }

  lemma SliceMembers<A>(n: int, xs: seq<A>)
    ensures forall x :: x in Take(n, xs) || x in Drop(n, xs) ==> x in xs
  {
  }
}
