/** Batched reverse-FK loading against one query per parent (orm/relations.go). */
module Prefetch {
  import opened Lookups
  import Pipeline

  /** A child row: its integer columns, NULL where it has none, and the child struct
      scanned from it. */
  datatype Child<+C> = Child(cells: map<string, Value<int>>, item: C)

  function CellOf<C>(c: Child<C>, column: string): Value<int> {
    if column in c.cells then c.cells[column] else Null
  }

  /** FK.PK of the scanned FK column: NULL scans as 0. */
  function PkOf<C>(c: Child<C>, fk: string): int {
    match CellOf(c, fk)
    case Null => 0
    case Val(pk) => pk
  }

  /** Integer columns compared with integer parameters. */
  function IntSemantics(): Semantics<int> {
    Semantics((x, y) => x == y, (x, y) => x < y, n => "", a => "", n => None, c => c)
  }

  function RowOf<C>(c: Child<C>): Row<int> {
    column => CellOf(c, column)
  }

  function Pks(parents: seq<int>): (items: seq<Arg<int>>)
    ensures |items| == |parents| && forall i :: 0 <= i < |items| ==> items[i] == Scalar(parents[i])
  {
    seq(|parents|, i requires 0 <= i < |parents| => Scalar(parents[i]))
  }

  datatype Queried<+C> = Rows(rows: seq<Child<C>>) | Failed(error: CompileError)

  function Selected<C>(b: Built<int>): Child<C> -> bool {
    (c: Child<C>) => b.Built? && Eval(IntSemantics(), b.pred, RowOf(c), 0, b.args) == True
  }

  /** Query[Child].Filter(key, value).All on a table with these columns and rows. */
  function Query<C>(d: Dialect, columns: set<string>, f: Filter<int>, rows: seq<Child<C>>): Queried<C> {
    match BuildPredicate(IntSemantics(), d, columns, f, 0)
    case BuildFailed(e) => Failed(e)
    case Built(pred, args) => Rows(Pipeline.Filter(Selected(Built(pred, args)), rows))
  }

  function Batched<C>(d: Dialect, columns: set<string>, fk: string, parents: seq<int>,
                      rows: seq<Child<C>>): Queried<C> {
    Query(d, columns, FilterOf(fk + "__in", Slice(Pks(parents))), rows)
  }

  function RelatedObjects<C>(d: Dialect, columns: set<string>, fk: string, parent: int,
                             rows: seq<Child<C>>): Queried<C> {
    Query(d, columns, FilterOf(fk, Scalar(parent)), rows)
  }

  // ----- What the two queries select -----

  function RefersTo<C>(fk: string, parent: int): Child<C> -> bool {
    (c: Child<C>) => CellOf(c, fk) == Val(parent)
  }

  function RefersToOne<C>(fk: string, parents: seq<int>): Child<C> -> bool {
    (c: Child<C>) => CellOf(c, fk).Val? && CellOf(c, fk).v in parents
  }

  lemma SelectedOne<C>(d: Dialect, columns: set<string>, fk: string, parent: int, c: Child<C>)
    requires fk in columns
    ensures var b := BuildPredicate(IntSemantics(), d, columns, Filter(fk, "exact", Scalar(parent)), 0);
            b.Built? && (Selected(b)(c) <==> RefersTo(fk, parent)(c))
  {
    var b := BuildFor(IntSemantics(), d, fk, LookupNamed("exact"), Scalar(parent), 0);
    assert b.args[0..1] == b.args;
    PredicateMeaning(IntSemantics(), d, fk, "exact", Scalar(parent), 0, RowOf(c), b.args);
  }

  lemma SelectedMany<C>(d: Dialect, columns: set<string>, fk: string, parents: seq<int>, c: Child<C>)
    requires fk in columns
    ensures var b := BuildPredicate(IntSemantics(), d, columns, Filter(fk, "in", Slice(Pks(parents))), 0);
            b.Built? && (Selected(b)(c) <==> RefersToOne(fk, parents)(c))
  {
    var sem, items, cell := IntSemantics(), Pks(parents), CellOf(c, fk);
    var b := BuildFor(sem, d, fk, LookupNamed("in"), Slice(items), 0);
    assert b.args[0..|b.args|] == b.args;
    PredicateMeaning(sem, d, fk, "in", Slice(items), 0, RowOf(c), b.args);
    assert !HasNull(items);
    if cell.Val? {
      if cell.v in parents {
        var i :| 0 <= i < |parents| && parents[i] == cell.v;
        assert EqualTo(sem, cell.v, items[i]);
      }
      if EqualsOne(sem, cell.v, items) {
        var i :| 0 <= i < |items| && EqualTo(sem, cell.v, items[i]);
        assert parents[i] == cell.v;
      }
    }
  }

  lemma {:induction false} FilterSame<C>(p: Child<C> -> bool, q: Child<C> -> bool, rows: seq<Child<C>>)
    requires forall c :: c in rows ==> p(c) == q(c)
    ensures Pipeline.Filter(p, rows) == Pipeline.Filter(q, rows)
    decreases |rows|
  {
    if rows != [] {
      assert rows[0] in rows;
      FilterSame(p, q, rows[1..]);
    }
  }

  lemma InFilter(fk: string, value: Arg<int>)
    ensures FilterOf(fk + "__in", value) == Filter(fk, "in", value)
  {
    ParseLookupOf(fk, "in");
    assert fk + "__" + "in" == fk + "__in";
  }

  lemma BatchedIs<C>(d: Dialect, columns: set<string>, fk: string, parents: seq<int>, rows: seq<Child<C>>)
    requires fk in columns
    ensures Batched(d, columns, fk, parents, rows) == Rows(Pipeline.Filter(RefersToOne(fk, parents), rows))
  {
    InFilter(fk, Slice(Pks(parents)));
    var f := Filter(fk, "in", Slice(Pks(parents)));
    var b := BuildPredicate(IntSemantics(), d, columns, f, 0);
    forall c | c in rows ensures Selected(b)(c) == RefersToOne(fk, parents)(c) {
      SelectedMany(d, columns, fk, parents, c);
    }
    FilterSame(Selected(b), RefersToOne(fk, parents), rows);
  }

  lemma RelatedObjectsIs<C>(d: Dialect, columns: set<string>, fk: string, parent: int, rows: seq<Child<C>>)
    requires fk in columns && NoDoubleUnderscore(fk)
    ensures RelatedObjects(d, columns, fk, parent, rows) == Rows(Pipeline.Filter(RefersTo(fk, parent), rows))
  {
    ParseLookupOf(fk, "in");
    var f := FilterOf(fk, Scalar(parent));
    assert f == Filter(fk, "exact", Scalar(parent));
    var b := BuildPredicate(IntSemantics(), d, columns, f, 0);
    forall c | c in rows ensures Selected(b)(c) == RefersTo(fk, parent)(c) {
      SelectedOne(d, columns, fk, parent, c);
    }
    FilterSame(Selected(b), RefersTo(fk, parent), rows);
  }

  /** An integer argument selects no row on a column that is NULL, whatever the lookup. */
  lemma NullIsNotSelected<C>(d: Dialect, columns: set<string>, f: Filter<int>, parent: int, c: Child<C>)
    requires f.value == Scalar(parent) && CellOf(c, f.column) == Null
    ensures var b := BuildPredicate(IntSemantics(), d, columns, f, 0);
            b.Built? ==> !Selected(b)(c)
  {
    var b := BuildPredicate(IntSemantics(), d, columns, f, 0);
    if b.Built? {
      assert b.args[0..|b.args|] == b.args;
      PredicateMeaning(IntSemantics(), d, f.column, f.lookup, f.value, 0, RowOf(c), b.args);
    }
  }

  // ----- Grouping -----

  /** The children that hold the key; a NULL foreign key holds zero. */
  function WithPk<C>(fk: string, pk: int): Child<C> -> bool {
    (c: Child<C>) => match CellOf(c, fk) case Null => pk == 0 case Val(v) => v == pk
  }

  /** The children grouped by FK, each group in row order. */
  ghost predicate Groups<C>(fk: string, out: map<int, seq<Child<C>>>, children: seq<Child<C>>) {
    && (forall pk :: pk in out <==> Pipeline.Filter(WithPk(fk, pk), children) != [])
    && (forall pk :: pk in out ==> out[pk] == Pipeline.Filter(WithPk(fk, pk), children))
  }

  lemma {:induction false} FilterSnoc<C>(p: Child<C> -> bool, rows: seq<Child<C>>, c: Child<C>)
    ensures Pipeline.Filter(p, rows + [c]) == Pipeline.Filter(p, rows) + if p(c) then [c] else []
  {
    if rows == [] {
      assert [c][1..] == [];
    } else {
      assert (rows + [c])[0] == rows[0] && (rows + [c])[1..] == rows[1..] + [c];
      FilterSnoc(p, rows[1..], c);
    }
  }

  function WithChild<C>(fk: string, out: map<int, seq<Child<C>>>, c: Child<C>): map<int, seq<Child<C>>> {
    var pk := PkOf(c, fk);
    out[pk := (if pk in out then out[pk] else []) + [c]]
  }

  /** One more child joins the group of its key. */
  lemma GroupsSnoc<C>(fk: string, out: map<int, seq<Child<C>>>, children: seq<Child<C>>, c: Child<C>)
    requires Groups(fk, out, children)
    ensures Groups(fk, WithChild(fk, out, c), children + [c])
  {
    forall pk
      ensures Pipeline.Filter(WithPk(fk, pk), children + [c])
              == Pipeline.Filter(WithPk(fk, pk), children) + if PkOf(c, fk) == pk then [c] else []
    {
      FilterSnoc(WithPk(fk, pk), children, c);
    }
  }

  method GroupByPk<C>(fk: string, children: seq<Child<C>>) returns (out: map<int, seq<Child<C>>>)
    ensures Groups(fk, out, children)
  {
    out := map[];
    for i := 0 to |children|
      invariant Groups(fk, out, children[..i])
    {
      var c := children[i];
      assert children[..i + 1] == children[..i] + [c];
      GroupsSnoc(fk, out, children[..i], c);
      var pk := PkOf(c, fk);
      out := out[pk := (if pk in out then out[pk] else []) + [c]];
    }
    assert children[..|children|] == children;
  }

  // ----- Agreement -----

  function GroupFor<C>(out: map<int, seq<Child<C>>>, parent: int): seq<Child<C>> {
    if parent in out then out[parent] else []
  }

  lemma {:induction false} FilterTwice<C>(p: Child<C> -> bool, q: Child<C> -> bool, r: Child<C> -> bool,
                                          rows: seq<Child<C>>)
    requires forall c :: c in rows ==> (r(c) <==> p(c) && q(c))
    ensures Pipeline.Filter(p, Pipeline.Filter(q, rows)) == Pipeline.Filter(r, rows)
    decreases |rows|
  {
    if rows != [] {
      assert rows[0] in rows;
      FilterTwice(p, q, r, rows[1..]);
      var c, rest := rows[0], Pipeline.Filter(q, rows[1..]);
      FilterCons(p, c, rest);
      if q(c) {
        assert Pipeline.Filter(q, rows) == [c] + rest;
      } else {
        assert Pipeline.Filter(q, rows) == rest;
        assert !r(c);
        assert Pipeline.Filter(r, rows) == Pipeline.Filter(r, rows[1..]);
      }
    }
  }

  lemma FilterCons<C>(p: Child<C> -> bool, c: Child<C>, rest: seq<Child<C>>)
    ensures Pipeline.Filter(p, [c] + rest) == (if p(c) then [c] else []) + Pipeline.Filter(p, rest)
  {
    assert ([c] + rest)[1..] == rest;
  }

  /** A requested parent's group holds the children that refer to it; no other parent
      has a group. */
  lemma GroupIs<C>(fk: string, rows: seq<Child<C>>, parents: seq<int>, out: map<int, seq<Child<C>>>, p: int)
    requires Groups(fk, out, Pipeline.Filter(RefersToOne(fk, parents), rows))
    ensures GroupFor(out, p) == if p in parents then Pipeline.Filter(RefersTo(fk, p), rows) else []
  {
    if p in parents {
      FilterTwice(WithPk(fk, p), RefersToOne(fk, parents), RefersTo(fk, p), rows);
    } else {
      var none := (c: Child<C>) => false;
      FilterTwice(WithPk(fk, p), RefersToOne(fk, parents), none, rows);
      FilterNothing(none, rows);
    }
  }

  /** The group of a requested parent is the result of that parent's own query. */
  ghost predicate GroupsAgree<C>(d: Dialect, columns: set<string>, fk: string, rows: seq<Child<C>>, parents: seq<int>,
                                 p: int) {
    var fetched := Batched(d, columns, fk, parents, rows);
    && fetched.Rows?
    && RelatedObjects(d, columns, fk, p, rows) == Rows(Pipeline.Filter(WithPk(fk, p), fetched.rows))
  }

  lemma GroupsAgreeOnPlain<C>(d: Dialect, columns: set<string>, fk: string, rows: seq<Child<C>>, parents: seq<int>,
                              p: int)
    requires fk in columns && NoDoubleUnderscore(fk) && p in parents
    ensures GroupsAgree(d, columns, fk, rows, parents, p)
  {
    BatchedIs(d, columns, fk, parents, rows);
    RelatedObjectsIs(d, columns, fk, p, rows);
    FilterTwice(WithPk(fk, p), RefersToOne(fk, parents), RefersTo(fk, p), rows);
  }

  function OnlyChild<C>(fk: string, p: int, item: C): seq<Child<C>> {
    [Child(map[fk := Val(p)], item)]
  }

  /** With a double underscore in the column's name the parent's own query reads
      another column, or is refused, and misses a child that refers to the parent. */
  lemma GroupsDiffer<C>(d: Dialect, columns: set<string>, fk: string, p: int, item: C)
    requires fk in columns && !NoDoubleUnderscore(fk)
    ensures !GroupsAgree(d, columns, fk, OnlyChild(fk, p, item), [p], p)
  {
    var rows := OnlyChild(fk, p, item);
    var f := FilterOf(fk, Scalar(p));
    ParseLookupOf(fk, "in");
    assert f.column != fk && f.value == Scalar(p);
    NullIsNotSelected(d, columns, f, p, rows[0]);
    BatchedIs(d, columns, fk, [p], rows);
    assert rows[1..] == [] && RefersToOne(fk, [p])(rows[0]) && WithPk(fk, p)(rows[0]);
    assert Pipeline.Filter(RefersToOne(fk, [p]), rows) == rows;
    assert Pipeline.Filter(WithPk(fk, p), rows) == rows;
    var b := BuildPredicate(IntSemantics(), d, columns, f, 0);
    if b.Built? {
      FilterNothing(Selected(b), rows);
    }
  }

  /** Prefetch and RelatedObjects agree on all rows and parents if and only if the FK
      column has no double underscore in its name. */
  lemma GroupsAgreeIff<C(!new)>(d: Dialect, columns: set<string>, fk: string, item: C)
    requires fk in columns
    ensures (forall rows: seq<Child<C>>, parents, p :: p in parents ==> GroupsAgree(d, columns, fk, rows, parents, p))
            <==> NoDoubleUnderscore(fk)
  {
    if NoDoubleUnderscore(fk) {
      forall rows: seq<Child<C>>, parents, p | p in parents ensures GroupsAgree(d, columns, fk, rows, parents, p) {
        GroupsAgreeOnPlain(d, columns, fk, rows, parents, p);
      }
    } else {
      GroupsDiffer(d, columns, fk, 1, item);
      assert 1 in [1];
    }
  }

  lemma {:induction false} FilterNothing<C>(none: Child<C> -> bool, rows: seq<Child<C>>)
    requires forall c :: c in rows ==> !none(c)
    ensures Pipeline.Filter(none, rows) == []
    decreases |rows|
  {
    if rows != [] {
      assert rows[0] in rows;
      FilterNothing(none, rows[1..]);
    }
  }

  lemma {:induction false} FilterCounts<C>(p: Child<C> -> bool, rows: seq<Child<C>>, c: Child<C>)
    ensures multiset(Pipeline.Filter(p, rows))[c] == if p(c) then multiset(rows)[c] else 0
    decreases |rows|
  {
    if rows != [] {
      FilterCounts(p, rows[1..], c);
      assert rows == [rows[0]] + rows[1..];
      var rest := Pipeline.Filter(p, rows[1..]);
      assert multiset([rows[0]] + rest) == multiset{rows[0]} + multiset(rest);
    }
  }

  /** The groups partition the fetched children: each occurs in the group of its own
      key, as often as it was fetched, and in no other. */
  lemma GroupsPartition<C>(fk: string, children: seq<Child<C>>, out: map<int, seq<Child<C>>>, pk: int, c: Child<C>)
    requires Groups(fk, out, children)
    ensures multiset(GroupFor(out, pk))[c] == if PkOf(c, fk) == pk then multiset(children)[c] else 0
  {
    FilterCounts(WithPk(fk, pk), children, c);
  }

  datatype Prefetched<+C> = Grouped(groups: map<int, seq<Child<C>>>) | NoForeignKey

  /** Prefetch: no parents need no query; otherwise the column has to be one of the
      model's foreign keys, whose query compiles, and each requested parent gets the
      children that refer to it. */
  method PrefetchChildren<C>(d: Dialect, columns: set<string>, fks: set<string>, fk: string, rows: seq<Child<C>>,
                             parents: seq<int>) returns (out: Prefetched<C>)
    requires fks <= columns
    ensures out.NoForeignKey? <==> parents != [] && fk !in fks
    ensures out.Grouped? <==> parents == [] || fk in fks
    ensures out.Grouped? ==>
              forall p :: GroupFor(out.groups, p) == if p in parents then Pipeline.Filter(RefersTo(fk, p), rows) else []
  {
    if |parents| == 0 { return Grouped(map[]); }
    if fk !in fks { return NoForeignKey; }
    BatchedIs(d, columns, fk, parents, rows);
    var groups := GroupByPk(fk, Batched(d, columns, fk, parents, rows).rows);
    forall p
      ensures GroupFor(groups, p) == if p in parents then Pipeline.Filter(RefersTo(fk, p), rows) else []
    {
      GroupIs(fk, rows, parents, groups, p);
    }
    out := Grouped(groups);
  }
}
