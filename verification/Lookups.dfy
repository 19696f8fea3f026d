/** Filter keys and the predicates they compile to, and what those predicates mean
    in SQL's three-valued logic (orm/lookups.go). */
module Lookups {
  import Like

  /** A driver value of a column. */
  datatype Value<+V> = Null | Val(v: V)

  /** What Filter is given, or what is bound to a placeholder; Pattern is the LIKE
      pattern the compiler builds. */
  datatype Arg<+V> = Nil | Scalar(v: V) | Slice(items: seq<Arg<V>>) | Pattern(text: string)

  /** How the database compares values and shows them as text, how the application
      does, and which characters LIKE identifies. */
  datatype Semantics<!V> = Semantics(
    eq: (V, V) -> bool, lt: (V, V) -> bool, text: V -> string, sprint: Arg<V> -> string,
    asBool: V -> Option<bool>, fold: char -> char)

  datatype Option<+T> = None | Some(value: T)

  datatype Dialect = Sqlite | Postgres

  datatype Placeholder = Question | Dollar(n: nat)

  /** Dialect.Placeholder for the n-th parameter. */
  function PlaceholderOf(d: Dialect, n: nat): Placeholder {
    if d.Sqlite? then Question else Dollar(n)
  }

  datatype Comparison = Eq | Gt | Ge | Lt | Le

  datatype Pred =
    | Compare(column: string, op: Comparison, param: Placeholder)
    | LikePattern(column: string, param: Placeholder)
    | In(column: string, params: seq<Placeholder>)
    | Never
    | IsNull(column: string)
    | IsNotNull(column: string)
    | Not(inner: Pred)

  datatype CompileError = UnknownField(column: string) | UnknownLookup(lookup: string) | InNeedsSlice | IsNullNeedsBool

  datatype Built<+V> = Built(pred: Pred, args: seq<Arg<V>>) | BuildFailed(error: CompileError)

  // ----- parseLookup -----

  /** Position of the last "__", or -1. */
  function LastUnderscores(key: string): (i: int)
    ensures -1 <= i <= |key| - 2 || i == -1
    ensures i >= 0 ==> key[i] == key[i + 1] == '_'
    ensures forall j :: i < j < |key| - 1 ==> !(key[j] == '_' && key[j + 1] == '_')
  {
    if |key| < 2 then -1
    else if key[|key| - 2] == key[|key| - 1] == '_' then |key| - 2
    else LastUnderscores(key[..|key| - 1])
  }

  function ParseLookup(key: string): (r: (string, string))
    ensures r == (key, "exact") || r.0 + "__" + r.1 == key
  {
    var i := LastUnderscores(key);
    if i < 0 then (key, "exact")
    else
      assert key[..i] + "__" + key[i + 2..] == key;
      (key[..i], key[i + 2..])
  }

  predicate NoDoubleUnderscore(key: string) {
    forall i :: 0 <= i < |key| - 1 ==> !(key[i] == '_' && key[i + 1] == '_')
  }

  /** Split at the last double underscore, or not at all. */
  ghost predicate SplitsAs(key: string, column: string, lookup: string) {
    if NoDoubleUnderscore(key) then column == key && lookup == "exact"
    else key == column + "__" + lookup && NoDoubleUnderscore("_" + lookup)
  }

  lemma LastIs(key: string, i: nat)
    requires i < |key| - 1 && key[i] == key[i + 1] == '_'
    requires forall j :: i < j < |key| - 1 ==> !(key[j] == '_' && key[j + 1] == '_')
    ensures LastUnderscores(key) == i
  {
  }

  /** Every key is taken apart there and nowhere else. */
  lemma ParseSplits(key: string, column: string, lookup: string)
    ensures ParseLookup(key) == (column, lookup) <==> SplitsAs(key, column, lookup)
  {
    var i := LastUnderscores(key);
    if i >= 0 {
      assert key[..i] + "__" + key[i + 2..] == key;
      var behind := "_" + key[i + 2..];
      forall j | 0 <= j < |behind| - 1 ensures !(behind[j] == '_' && behind[j + 1] == '_') {
        assert behind[j] == key[i + 1 + j] && behind[j + 1] == key[i + 2 + j];
      }
      if SplitsAs(key, column, lookup) {
        assert key[|column|] == key[|column| + 1] == '_' && key[..|column|] == column && key[|column| + 2..] == lookup;
        forall j | |column| < j < |key| - 1 ensures !(key[j] == '_' && key[j + 1] == '_') {
          assert ("_" + lookup)[j - |column| - 1] == key[j] && ("_" + lookup)[j - |column|] == key[j + 1];
        }
        LastIs(key, |column|);
      }
    }
  }

  /** A key built from a column and a lookup without underscores is split again. A
      column alone stands for the exact lookup on it exactly when it has no double
      underscore. */
  lemma ParseLookupOf(column: string, lookup: string)
    requires lookup != "" && '_' !in lookup
    ensures ParseLookup(column + "__" + lookup) == (column, lookup)
    ensures ParseLookup(column) == (column, "exact") <==> NoDoubleUnderscore(column)
    ensures ParseLookup(column).0 == column <==> NoDoubleUnderscore(column)
  {
    var key := column + "__" + lookup;
    var i := LastUnderscores(key);
    assert key[|column|] == key[|column| + 1] == '_';
    forall j | |column| + 2 <= j < |key|
      ensures key[j] != '_'
    {
      assert key[j] == lookup[j - |column| - 2] && key[j] in lookup;
    }
    assert i == |column|;
    assert key[..|column|] == column && key[|column| + 2..] == lookup;
  }

  /** The lookups buildPredicate knows. */
  datatype Lookup =
    | Exact | Greater | GreaterEqual | Less | LessEqual
    | Contains | StartsWith | EndsWith | InList | IsNullIs | Other(name: string)

  function LookupNamed(name: string): Lookup {
    match name
    case "exact" => Exact
    case "gt" => Greater
    case "gte" => GreaterEqual
    case "lt" => Less
    case "lte" => LessEqual
    case "contains" => Contains
    case "icontains" => Contains
    case "startswith" => StartsWith
    case "endswith" => EndsWith
    case "in" => InList
    case "isnull" => IsNullIs
    case _ => Other(name)
  }

  // ----- buildPredicate -----

  function Numbered(d: Dialect, n: nat, count: nat): (phs: seq<Placeholder>)
    ensures |phs| == count
    ensures forall i :: 0 <= i < count ==> phs[i] == PlaceholderOf(d, n + i + 1)
  {
    seq(count, i requires 0 <= i < count => PlaceholderOf(d, n + i + 1))
  }

  /** A filter with its key taken apart. */
  datatype Filter<+V> = Filter(column: string, lookup: string, value: Arg<V>)

  function FilterOf<V>(key: string, value: Arg<V>): Filter<V> {
    var (column, name) := ParseLookup(key);
    Filter(column, name, value)
  }

  /** The predicate for a filter when n placeholders have been drawn before it. */
  function BuildPredicate<V>(sem: Semantics<V>, d: Dialect, columns: set<string>, f: Filter<V>, n: nat): Built<V> {
    if f.column !in columns then BuildFailed(UnknownField(f.column))
    else BuildFor(sem, d, f.column, LookupNamed(f.lookup), f.value, n)
  }

  function BuildFor<V>(sem: Semantics<V>, d: Dialect, column: string, lookup: Lookup, value: Arg<V>, n: nat): Built<V> {
    var next := PlaceholderOf(d, n + 1);
    var shown := Like.EscapeLike(sem.sprint(value));
    match lookup
    case Exact => if value.Nil? then Built(IsNull(column), []) else Built(Compare(column, Eq, next), [value])
    case Greater => Built(Compare(column, Gt, next), [value])
    case GreaterEqual => Built(Compare(column, Ge, next), [value])
    case Less => Built(Compare(column, Lt, next), [value])
    case LessEqual => Built(Compare(column, Le, next), [value])
    case Contains => Built(LikePattern(column, next), [Pattern("%" + shown + "%")])
    case StartsWith => Built(LikePattern(column, next), [Pattern(shown + "%")])
    case EndsWith => Built(LikePattern(column, next), [Pattern("%" + shown)])
    case InList =>
      if !value.Slice? then BuildFailed(InNeedsSlice)
      else if value.items == [] then Built(Never, [])
      else Built(In(column, Numbered(d, n, |value.items|)), value.items)
    case IsNullIs =>
      if !value.Scalar? || sem.asBool(value.v).None? then BuildFailed(IsNullNeedsBool)
      else if sem.asBool(value.v).value then Built(IsNull(column), [])
      else Built(IsNotNull(column), [])
    case Other(unknown) => BuildFailed(UnknownLookup(unknown))
  }

  /** buildPredicate with its closure counter n and the loop over an IN list. */
  method RenderPredicate<V>(sem: Semantics<V>, d: Dialect, columns: set<string>, key: string, value: Arg<V>, n: nat)
      returns (r: Built<V>, n': nat)
    ensures r == BuildPredicate(sem, d, columns, FilterOf(key, value), n)
    ensures r.Built? ==> n' == n + |r.args|
  {
    n' := n;
    var (column, name) := ParseLookup(key);
    if column !in columns { return BuildFailed(UnknownField(column)), n'; }
    match LookupNamed(name)
    case Exact =>
      if value.Nil? { return Built(IsNull(column), []), n'; }
      n' := n' + 1;
      r := Built(Compare(column, Eq, PlaceholderOf(d, n')), [value]);
    case Greater =>
      n' := n' + 1;
      r := Built(Compare(column, Gt, PlaceholderOf(d, n')), [value]);
    case GreaterEqual =>
      n' := n' + 1;
      r := Built(Compare(column, Ge, PlaceholderOf(d, n')), [value]);
    case Less =>
      n' := n' + 1;
      r := Built(Compare(column, Lt, PlaceholderOf(d, n')), [value]);
    case LessEqual =>
      n' := n' + 1;
      r := Built(Compare(column, Le, PlaceholderOf(d, n')), [value]);
    case Contains =>
      n' := n' + 1;
      r := Built(LikePattern(column, PlaceholderOf(d, n')), [Pattern("%" + Like.EscapeLike(sem.sprint(value)) + "%")]);
    case StartsWith =>
      n' := n' + 1;
      r := Built(LikePattern(column, PlaceholderOf(d, n')), [Pattern(Like.EscapeLike(sem.sprint(value)) + "%")]);
    case EndsWith =>
      n' := n' + 1;
      r := Built(LikePattern(column, PlaceholderOf(d, n')), [Pattern("%" + Like.EscapeLike(sem.sprint(value)))]);
    case InList =>
      if !value.Slice? { return BuildFailed(InNeedsSlice), n'; }
      var count := |value.items|;
      if count == 0 { return Built(Never, []), n'; }
      var params: seq<Placeholder> := [];
      var elems: seq<Arg<V>> := [];
      for i := 0 to count
        invariant n' == n + i
        invariant params == Numbered(d, n, count)[..i]
        invariant elems == value.items[..i]
      {
        n' := n' + 1;
        params := params + [PlaceholderOf(d, n')];
        elems := elems + [value.items[i]];
      }
      assert params == Numbered(d, n, count) && elems == value.items;
      r := Built(In(column, params), elems);
    case IsNullIs =>
      if !value.Scalar? { return BuildFailed(IsNullNeedsBool), n'; }
      match sem.asBool(value.v) {
        case None => r := BuildFailed(IsNullNeedsBool);
        case Some(b) => r := if b then Built(IsNull(column), []) else Built(IsNotNull(column), []);
      }
    case Other(unknown) => r := BuildFailed(UnknownLookup(unknown));
  }

  // ----- Three-valued evaluation with bound arguments -----

  datatype Tri = True | False | Unknown

  function Truth(b: bool): Tri {
    if b then True else False
  }

  function Negation(t: Tri): Tri {
    match t
    case True => False
    case False => True
    case Unknown => Unknown
  }

  function Conjunction(a: Tri, b: Tri): Tri {
    if a == False || b == False then False
    else if a == True && b == True then True
    else Unknown
  }

  /** The argument a placeholder takes: numbered ones by number, question marks by
      their position, of which pos have gone before. */
  function Bound<V>(param: Placeholder, pos: nat, args: seq<Arg<V>>): Arg<V> {
    var i := match param case Question => pos case Dollar(n) => n - 1;
    if 0 <= i < |args| then args[i] else Nil
  }

  function CompareValues<V>(sem: Semantics<V>, op: Comparison, a: V, b: V): bool {
    match op
    case Eq => sem.eq(a, b)
    case Gt => sem.lt(b, a)
    case Ge => sem.lt(b, a) || sem.eq(a, b)
    case Lt => sem.lt(a, b)
    case Le => sem.lt(a, b) || sem.eq(a, b)
  }

  function CompareTri<V>(sem: Semantics<V>, op: Comparison, a: Value<V>, b: Arg<V>): Tri {
    if a.Null? || !b.Scalar? then Unknown else Truth(CompareValues(sem, op, a.v, b.v))
  }

  /** x IN (list): the disjunction of the equalities. */
  function InTri<V>(sem: Semantics<V>, a: Value<V>, params: seq<Placeholder>, pos: nat, args: seq<Arg<V>>): Tri {
    if params == [] then False
    else
      var first := CompareTri(sem, Eq, a, Bound(params[0], pos, args));
      Negation(Conjunction(Negation(first), Negation(InTri(sem, a, params[1..], pos + 1, args))))
  }

  type Row<V> = string -> Value<V>

  function Eval<V>(sem: Semantics<V>, p: Pred, row: Row<V>, pos: nat, args: seq<Arg<V>>): Tri {
    match p
    case Compare(column, op, param) => CompareTri(sem, op, row(column), Bound(param, pos, args))
    case LikePattern(column, param) =>
      var a, b := row(column), Bound(param, pos, args);
      if a.Null? || !b.Pattern? then Unknown else Truth(Like.Matches(b.text, sem.text(a.v), sem.fold))
    case In(column, params) => InTri(sem, row(column), params, pos, args)
    case Never => False
    case IsNull(column) => Truth(row(column).Null?)
    case IsNotNull(column) => Truth(row(column).Val?)
    case Not(inner) => Negation(Eval(sem, inner, row, pos, args))
  }

  // ----- What a lookup means -----

  ghost predicate EqualsOne<V>(sem: Semantics<V>, a: V, items: seq<Arg<V>>) {
    exists i :: 0 <= i < |items| && EqualTo(sem, a, items[i])
  }

  predicate EqualTo<V>(sem: Semantics<V>, a: V, item: Arg<V>) {
    item.Scalar? && sem.eq(a, item.v)
  }

  ghost predicate HasNull<V>(items: seq<Arg<V>>) {
    exists i :: 0 <= i < |items| && !items[i].Scalar?
  }

  /** The truth of a lookup, by its name in the key, on a column value, without SQL,
      placeholders or patterns. A NULL column makes everything unknown except a test for
      NULL and an IN with nothing in it; a nil inside an IN list turns its falsehoods into
      unknowns. */
  ghost function LookupMeaning<V>(sem: Semantics<V>, name: string, a: Value<V>, value: Arg<V>): Tri {
    match name
    case "isnull" => Truth(value.Scalar? && sem.asBool(value.v).Some? && a.Null? == sem.asBool(value.v).value)
    case "in" => if value.Slice? then InMeaning(sem, a, value.items) else Unknown
    case "exact" => if value.Nil? then Truth(a.Null?) else ScalarMeaning(a, value, (x, y) => sem.eq(x, y))
    case "gt" => ScalarMeaning(a, value, (x, y) => sem.lt(y, x))
    case "gte" => ScalarMeaning(a, value, (x, y) => sem.lt(y, x) || sem.eq(x, y))
    case "lt" => ScalarMeaning(a, value, (x, y) => sem.lt(x, y))
    case "lte" => ScalarMeaning(a, value, (x, y) => sem.lt(x, y) || sem.eq(x, y))
    case "contains" => TextMeaning(sem, a, text => Like.Contains(text, sem.sprint(value), sem.fold))
    case "icontains" => TextMeaning(sem, a, text => Like.Contains(text, sem.sprint(value), sem.fold))
    case "startswith" => TextMeaning(sem, a, text => Like.StartsWith(text, sem.sprint(value), sem.fold))
    case "endswith" => TextMeaning(sem, a, text => Like.EndsWith(text, sem.sprint(value), sem.fold))
    case _ => Unknown
  }

  ghost function TextMeaning<V>(sem: Semantics<V>, a: Value<V>, holds: string -> bool): Tri {
    if a.Null? then Unknown else Truth(holds(sem.text(a.v)))
  }

  /** Why a filter is refused, if it is: the column, the name of the lookup or the value. */
  function RefusalOf<V>(sem: Semantics<V>, columns: set<string>, f: Filter<V>): Option<CompileError> {
    if f.column !in columns then Some(UnknownField(f.column))
    else if f.lookup !in LOOKUPS then Some(UnknownLookup(f.lookup))
    else if f.lookup == "in" && !f.value.Slice? then Some(InNeedsSlice)
    else if f.lookup == "isnull" && !(f.value.Scalar? && sem.asBool(f.value.v).Some?) then Some(IsNullNeedsBool)
    else None
  }

  const LOOKUPS := ["exact", "gt", "gte", "lt", "lte", "contains", "icontains", "startswith", "endswith", "in",
    "isnull"]

  lemma NamedOther(name: string)
    ensures LookupNamed(name).Other? <==> name !in LOOKUPS
    ensures LookupNamed(name).Other? ==> LookupNamed(name).name == name
    ensures LookupNamed(name).InList? <==> name == "in"
    ensures LookupNamed(name).IsNullIs? <==> name == "isnull"
  {
    var l := LOOKUPS;
    assert l[0] == "exact" && l[1] == "gt" && l[2] == "gte" && l[3] == "lt" && l[4] == "lte" && l[5] == "contains";
    assert l[6] == "icontains" && l[7] == "startswith" && l[8] == "endswith" && l[9] == "in" && l[10] == "isnull";
  }

  /** A filter compiles exactly when nothing is wrong with it, and fails with what is. */
  lemma BuildsIff<V>(sem: Semantics<V>, d: Dialect, columns: set<string>, f: Filter<V>, n: nat)
    ensures var b := BuildPredicate(sem, d, columns, f, n);
            match RefusalOf(sem, columns, f) case None => b.Built? case Some(e) => b == BuildFailed(e)
  {
    NamedOther(f.lookup);
  }

  ghost function InMeaning<V>(sem: Semantics<V>, a: Value<V>, items: seq<Arg<V>>): Tri {
    if items == [] then False
    else if a.Null? then Unknown
    else if EqualsOne(sem, a.v, items) then True
    else if HasNull(items) then Unknown
    else False
  }

  function ScalarMeaning<V>(a: Value<V>, value: Arg<V>, holds: (V, V) -> bool): Tri {
    if a.Null? || !value.Scalar? then Unknown else Truth(holds(a.v, value.v))
  }

  lemma InMeaningCons<V>(sem: Semantics<V>, a: V, item: Arg<V>, rest: seq<Arg<V>>)
    ensures EqualsOne(sem, a, [item] + rest) <==> EqualTo(sem, a, item) || EqualsOne(sem, a, rest)
    ensures HasNull([item] + rest) <==> !item.Scalar? || HasNull(rest)
  {
    var items := [item] + rest;
    assert items[0] == item && forall i :: 0 <= i < |rest| ==> items[i + 1] == rest[i];
    if i :| 0 <= i < |items| && EqualTo(sem, a, items[i]) {
      if i > 0 { assert EqualTo(sem, a, rest[i - 1]); }
    }
    if i :| 0 <= i < |items| && !items[i].Scalar? {
      if i > 0 { assert !rest[i - 1].Scalar?; }
    }
  }

  lemma {:induction false} InEvaluates<V>(sem: Semantics<V>, a: Value<V>, d: Dialect, n: nat, items: seq<Arg<V>>,
                                          args: seq<Arg<V>>)
    requires n + |items| <= |args| && args[n..n + |items|] == items
    ensures InTri(sem, a, Numbered(d, n, |items|), n, args) == InMeaning(sem, a, items)
    decreases |items|
  {
    if items != [] {
      var rest := items[1..];
      assert items == [items[0]] + rest;
      assert args[n + 1..n + 1 + |rest|] == rest;
      assert args[n] == args[n..n + |items|][0] == items[0];
      assert Numbered(d, n, |items|)[1..] == Numbered(d, n + 1, |rest|);
      InEvaluates(sem, a, d, n + 1, rest, args);
      assert Bound(Numbered(d, n, |items|)[0], n, args) == items[0];
      if a.Val? { InMeaningCons(sem, a.v, items[0], rest); }
    }
  }

  lemma LikeEvaluates<V>(sem: Semantics<V>, d: Dialect, column: string, lookup: Lookup, value: Arg<V>, n: nat,
                         row: Row<V>, args: seq<Arg<V>>)
    requires lookup.Contains? || lookup.StartsWith? || lookup.EndsWith?
    requires n < |args| && BuildFor(sem, d, column, lookup, value, n).args == [args[n]]
    ensures Eval(sem, BuildFor(sem, d, column, lookup, value, n).pred, row, n, args)
            == if row(column).Null? then Unknown
               else
                 var text, shown := sem.text(row(column).v), sem.sprint(value);
                 Truth(if lookup.Contains? then Like.Contains(text, shown, sem.fold)
                       else if lookup.StartsWith? then Like.StartsWith(text, shown, sem.fold)
                       else Like.EndsWith(text, shown, sem.fold))
  {
    var shown := sem.sprint(value);
    LikeAt(sem, d, column, n, row, args);
    if row(column).Val? {
      var text := sem.text(row(column).v);
      if lookup.Contains? {
        Like.ContainsExact(shown, text, sem.fold);
        assert args[n].text == "%" + Like.EscapeLike(shown) + "%";
      } else if lookup.StartsWith? {
        Like.StartsWithExact(shown, text, sem.fold);
        assert args[n].text == Like.EscapeLike(shown) + "%";
      } else {
        Like.EndsWithExact(shown, text, sem.fold);
        assert args[n].text == "%" + Like.EscapeLike(shown);
      }
    }
  }

  lemma LikeAt<V>(sem: Semantics<V>, d: Dialect, column: string, n: nat, row: Row<V>, args: seq<Arg<V>>)
    requires n < |args| && args[n].Pattern?
    ensures Eval(sem, LikePattern(column, PlaceholderOf(d, n + 1)), row, n, args) ==
            if row(column).Null? then Unknown else Truth(Like.Matches(args[n].text, sem.text(row(column).v), sem.fold))
  {
  }

  /** A compiled predicate, with its arguments bound in place, has the truth value
      of the lookup, for both placeholder styles. */
  lemma PredicateMeaning<V>(sem: Semantics<V>, d: Dialect, column: string, name: string, value: Arg<V>, n: nat,
                            row: Row<V>, args: seq<Arg<V>>)
    requires var b := BuildFor(sem, d, column, LookupNamed(name), value, n);
             b.Built? && n + |b.args| <= |args| && args[n..n + |b.args|] == b.args
    ensures Eval(sem, BuildFor(sem, d, column, LookupNamed(name), value, n).pred, row, n, args)
            == LookupMeaning(sem, name, row(column), value)
  {
    var lookup := LookupNamed(name);
    var b := BuildFor(sem, d, column, lookup, value, n);
    if |b.args| == 1 {
      assert args[n] == args[n..n + 1][0] == b.args[0];
      assert Bound(PlaceholderOf(d, n + 1), n, args) == b.args[0];
    }
    match lookup
    case InList => InEvaluates(sem, row(column), d, n, value.items, args);
    case Contains => LikeEvaluates(sem, d, column, lookup, value, n, row, args);
    case StartsWith => LikeEvaluates(sem, d, column, lookup, value, n, row, args);
    case EndsWith => LikeEvaluates(sem, d, column, lookup, value, n, row, args);
    case _ =>
  }

  /** From the text of the key: the clause of `column__name` is refused exactly for an
      unknown column, a name that is none of the eleven, an IN without a slice or an isnull
      without a boolean, and otherwise has the truth value of that lookup on the column. */
  lemma KeyMeaning<V>(sem: Semantics<V>, d: Dialect, columns: set<string>, column: string, name: string,
                      value: Arg<V>, n: nat, row: Row<V>, args: seq<Arg<V>>)
    requires name != "" && '_' !in name
    ensures var f, b := Filter(column, name, value),
            BuildPredicate(sem, d, columns, FilterOf(column + "__" + name, value), n);
            && (match RefusalOf(sem, columns, f) case None => b.Built? case Some(e) => b == BuildFailed(e))
            && (b.Built? && n + |b.args| <= |args| && args[n..n + |b.args|] == b.args ==>
                  Eval(sem, b.pred, row, n, args) == LookupMeaning(sem, name, row(column), value))
  {
    ParseLookupOf(column, name);
    BuildsIff(sem, d, columns, Filter(column, name, value), n);
    var b := BuildPredicate(sem, d, columns, FilterOf(column + "__" + name, value), n);
    if b.Built? && n + |b.args| <= |args| && args[n..n + |b.args|] == b.args {
      PredicateMeaning(sem, d, column, name, value, n, row, args);
    }
  }
}
