/** Eager loading of foreign keys by LEFT JOIN, against fetching each related row
    on its own (orm/selectrelated.go, orm/execute.go, orm/relations.go). */
module SelectRelated {
  import opened Pipeline

  datatype Kind = IntField | TextField | BoolField | TimeField | FkField

  /** A driver value. */
  datatype Cell = Null | Integer(i: int) | Text(s: string) | Boolean(b: bool) | Time(t: string)

  type Row = seq<Cell>

  /** A struct field; an FK holds its key and, once loaded, the related struct. */
  datatype FieldValue =
    | IntVal(i: int) | StrVal(s: string) | BoolVal(b: bool) | TimeVal(t: string)
    | Fk(pk: int, loaded: bool, obj: seq<FieldValue>)

  type Instance = seq<FieldValue>

  datatype Field = Field(name: string, column: string, kind: Kind)

  datatype Model = Model(table: string, fields: seq<Field>, pk: nat)

  predicate ValidModel(m: Model) {
    && m.pk < |m.fields| && m.fields[m.pk].kind == IntField
    && (forall i, j :: 0 <= i < j < |m.fields| ==> m.fields[i].name != m.fields[j].name)
    && (forall i, j :: 0 <= i < j < |m.fields| ==> m.fields[i].column != m.fields[j].column)
  }

  predicate Fits(kind: Kind, c: Cell) {
    match kind
    case IntField => c.Integer?
    case TextField => c.Text?
    case BoolField => c.Boolean?
    case TimeField => c.Time?
    case FkField => c.Integer?
  }

  /** A row of the model's table: each cell is NULL or of its column's type, and the
      primary key is an integer. */
  predicate TypedRow(m: Model, row: Row) {
    && |row| == |m.fields|
    && (forall i :: 0 <= i < |row| ==> row[i].Null? || Fits(m.fields[i].kind, row[i]))
    && (m.pk < |row| ==> row[m.pk].Integer?)
  }

  // ----- Scanning one value -----

  function Native(kind: Kind, c: Cell): FieldValue
    requires Fits(kind, c)
  {
    match kind
    case IntField => IntVal(c.i)
    case TextField => StrVal(c.s)
    case BoolField => BoolVal(c.b)
    case TimeField => TimeVal(c.t)
    case FkField => Fk(c.i, false, [])
  }

  function Zero(kind: Kind): FieldValue {
    match kind
    case IntField => IntVal(0)
    case TextField => StrVal("")
    case BoolField => BoolVal(false)
    case TimeField => TimeVal("")
    case FkField => Fk(0, false, [])
  }

  /** database/sql scanning into the struct field: only an FK accepts NULL. */
  function ScanCell(kind: Kind, c: Cell): Option<FieldValue> {
    if c.Null? then (if kind == FkField then Some(Zero(kind)) else None)
    else if Fits(kind, c) then Some(Native(kind, c))
    else None
  }

  /** assignScanned: NULL leaves the zero value, and a value cannot be assigned to an
      FK, which is a struct. */
  function AssignCell(kind: Kind, c: Cell): Option<FieldValue> {
    if c.Null? then Some(Zero(kind))
    else if kind == FkField then None
    else if Fits(kind, c) then Some(Native(kind, c))
    else None
  }

  /** A whole row, cell by cell; None if some cell is refused. */
  function Read(read: (Kind, Cell) -> Option<FieldValue>, fields: seq<Field>, row: Row): (r: Option<Instance>)
    requires |row| == |fields|
    ensures r.Some? ==> |r.value| == |fields|
    decreases |fields|
  {
    if fields == [] then Some([])
    else match (read(fields[0].kind, row[0]), Read(read, fields[1..], row[1..]))
      case (Some(v), Some(rest)) => Some([v] + rest)
      case _ => None
  }

  lemma {:induction false} ReadIs(read: (Kind, Cell) -> Option<FieldValue>, fields: seq<Field>, row: Row)
    requires |row| == |fields|
    ensures Read(read, fields, row).Some? <==> forall i :: 0 <= i < |fields| ==> read(fields[i].kind, row[i]).Some?
    ensures Read(read, fields, row).Some? ==>
              forall i :: 0 <= i < |fields| ==> Some(Read(read, fields, row).value[i]) == read(fields[i].kind, row[i])
    decreases |fields|
  {
    if fields != [] {
      ReadIs(read, fields[1..], row[1..]);
      assert forall i :: 0 < i < |fields| ==> fields[i] == fields[1..][i - 1] && row[i] == row[1..][i - 1];
      assert forall i :: 0 <= i < |fields| - 1 ==> fields[1..][i] == fields[i + 1] && row[1..][i] == row[i + 1];
    }
  }

  function Scan(m: Model, row: Row): Option<Instance>
    requires |row| == |m.fields|
  {
    Read(ScanCell, m.fields, row)
  }

  function Assign(m: Model, row: Row): Option<Instance>
    requires |row| == |m.fields|
  {
    Read(AssignCell, m.fields, row)
  }

  /** The field holds just what the driver value says; a foreign key holds it as its key
      and is not loaded. */
  predicate ReadsAs(kind: Kind, c: Cell, v: FieldValue) {
    match v
    case IntVal(i) => kind == IntField && c == Integer(i)
    case StrVal(s) => kind == TextField && c == Text(s)
    case BoolVal(b) => kind == BoolField && c == Boolean(b)
    case TimeVal(t) => kind == TimeField && c == Time(t)
    case Fk(pk, loaded, obj) => kind == FkField && c == Integer(pk) && !loaded && obj == []
  }

  /** The zero value of a struct field. */
  predicate IsZero(kind: Kind, v: FieldValue) {
    match v
    case IntVal(i) => kind == IntField && i == 0
    case StrVal(s) => kind == TextField && s == ""
    case BoolVal(b) => kind == BoolField && !b
    case TimeVal(t) => kind == TimeField && t == ""
    case Fk(pk, loaded, obj) => kind == FkField && pk == 0 && !loaded && obj == []
  }

  predicate Scanned(kind: Kind, c: Cell, v: FieldValue) {
    ReadsAs(kind, c, v) || (kind == FkField && c == Null && IsZero(kind, v))
  }

  predicate Assigned(kind: Kind, c: Cell, v: FieldValue) {
    (kind != FkField && ReadsAs(kind, c, v)) || (c == Null && IsZero(kind, v))
  }

  ghost predicate EachCell(becomes: (Kind, Cell, FieldValue) -> bool, m: Model, row: Row, inst: Instance) {
    |inst| == |row| == |m.fields| && forall i :: 0 <= i < |row| ==> becomes(m.fields[i].kind, row[i], inst[i])
  }

  /** A plain scan gives the struct whose fields hold the values of the row, where only a
      foreign key may be NULL, which is no key. */
  lemma ScanIff(m: Model, row: Row, inst: Instance)
    requires |row| == |m.fields|
    ensures Scan(m, row) == Some(inst) <==> EachCell(Scanned, m, row, inst)
  {
    ReadIff(ScanCell, Scanned, m, row, inst);
  }

  /** A joined segment gives the struct whose fields hold its values, where NULL is the
      zero value and a foreign key must be NULL. */
  lemma AssignIff(m: Model, row: Row, inst: Instance)
    requires |row| == |m.fields|
    ensures Assign(m, row) == Some(inst) <==> EachCell(Assigned, m, row, inst)
  {
    ReadIff(AssignCell, Assigned, m, row, inst);
  }

  lemma ReadIff(read: (Kind, Cell) -> Option<FieldValue>, becomes: (Kind, Cell, FieldValue) -> bool, m: Model, row: Row,
                inst: Instance)
    requires |row| == |m.fields|
    requires forall kind, c, v :: becomes(kind, c, v) <==> read(kind, c) == Some(v)
    ensures Read(read, m.fields, row) == Some(inst) <==> EachCell(becomes, m, row, inst)
  {
    ReadIs(read, m.fields, row);
    if EachCell(becomes, m, row, inst) {
      assert forall i :: 0 <= i < |row| ==> read(m.fields[i].kind, row[i]) == Some(inst[i]);
      assert Read(read, m.fields, row).value == inst;
    }
  }

  // ----- Resolving the requested names -----

  /** A forward FK to eager-load: its position among the main model's fields, the
      target model and the target's rows. */
  datatype Rel = Rel(field: nat, target: Model, rows: seq<Row>)

  datatype ResolveError = UnknownField | NotForeignKey | UnresolvedTarget

  datatype Resolved = Rels(rels: seq<Rel>) | Unresolved(error: ResolveError)

  /** Which model and rows the FK at a field position points to, if resolved. */
  type Targets = nat -> Option<(Model, seq<Row>)>

  function FieldIndex(fields: seq<Field>, name: string): (i: nat)
    ensures i <= |fields|
    ensures i < |fields| ==> fields[i].name == name
  {
    if fields == [] || fields[0].name == name then 0 else 1 + FieldIndex(fields[1..], name)
  }

  function ResolveOne(m: Model, targets: Targets, name: string): Resolved {
    var i := FieldIndex(m.fields, name);
    if i == |m.fields| then Unresolved(UnknownField)
    else if m.fields[i].kind != FkField then Unresolved(NotForeignKey)
    else match targets(i)
      case None => Unresolved(UnresolvedTarget)
      case Some((target, rows)) => Rels([Rel(i, target, rows)])
  }

  function Resolve(m: Model, targets: Targets, names: seq<string>): Resolved
    decreases |names|
  {
    if names == [] then Rels([])
    else match ResolveOne(m, targets, names[0])
      case Unresolved(e) => Unresolved(e)
      case Rels(one) =>
        match Resolve(m, targets, names[1..])
        case Unresolved(e) => Unresolved(e)
        case Rels(rest) => Rels(one + rest)
  }

  // ----- When a name resolves -----

  /** The name is the one of the field at position i. */
  predicate NamedAt(m: Model, name: string, i: nat) {
    i < |m.fields| && m.fields[i].name == name
  }

  ghost predicate HasName(m: Model, name: string) {
    exists i: nat :: NamedAt(m, name, i)
  }

  /** Some field has the name and is a foreign key. */
  ghost predicate NamesKey(m: Model, name: string) {
    exists i: nat :: NamedAt(m, name, i) && m.fields[i].kind == FkField
  }

  /** Some field has the name, is a foreign key and has a target. */
  ghost predicate Resolvable(m: Model, targets: Targets, name: string) {
    exists i: nat :: NamedAt(m, name, i) && m.fields[i].kind == FkField && targets(i).Some?
  }

  /** What is wrong with a name that does not resolve. */
  ghost function Fault(m: Model, name: string): ResolveError {
    if !HasName(m, name) then UnknownField
    else if !NamesKey(m, name) then NotForeignKey
    else UnresolvedTarget
  }

  lemma OneName(m: Model, name: string, i: nat, j: nat)
    requires ValidModel(m) && NamedAt(m, name, i) && NamedAt(m, name, j)
    ensures i == j
  {
  }

  lemma {:induction false} IndexFinds(fields: seq<Field>, name: string)
    ensures FieldIndex(fields, name) == |fields| <==> forall i :: 0 <= i < |fields| ==> fields[i].name != name
  {
    if fields != [] && fields[0].name != name {
      IndexFinds(fields[1..], name);
      assert forall i :: 0 < i < |fields| ==> fields[i] == fields[1..][i - 1];
      assert forall i :: 0 <= i < |fields| - 1 ==> fields[1..][i] == fields[i + 1];
    }
  }

  /** One name: it resolves exactly when it is resolvable, to its own field. */
  lemma ResolveOneIff(m: Model, targets: Targets, name: string)
    requires ValidModel(m)
    ensures ResolveOne(m, targets, name).Rels? <==> Resolvable(m, targets, name)
    ensures !Resolvable(m, targets, name) ==> ResolveOne(m, targets, name) == Unresolved(Fault(m, name))
  {
    IndexFinds(m.fields, name);
    var i := FieldIndex(m.fields, name);
    if i < |m.fields| {
      assert NamedAt(m, name, i);
      forall j: nat | NamedAt(m, name, j) ensures j == i {
        OneName(m, name, i, j);
      }
    }
  }

  ghost predicate AllResolvable(m: Model, targets: Targets, names: seq<string>) {
    forall k :: 0 <= k < |names| ==> Resolvable(m, targets, names[k])
  }

  /** The first name that does not resolve, and what is wrong with it. */
  ghost predicate FailsAt(m: Model, targets: Targets, names: seq<string>, k: nat, error: ResolveError) {
    && k < |names| && !Resolvable(m, targets, names[k]) && AllResolvable(m, targets, names[..k])
    && error == Fault(m, names[k])
  }

  /** The names resolve exactly when each is a foreign key of the model with a target;
      otherwise the error is that of the first that is not. */
  lemma {:induction false} ResolveIff(m: Model, targets: Targets, names: seq<string>)
    requires ValidModel(m)
    ensures Resolve(m, targets, names).Rels? <==> AllResolvable(m, targets, names)
    ensures var r := Resolve(m, targets, names);
            r.Unresolved? ==> exists k :: FailsAt(m, targets, names, k, r.error)
    decreases |names|
  {
    if names != [] {
      ResolveOneIff(m, targets, names[0]);
      ResolveIff(m, targets, names[1..]);
      AllResolvableCons(m, targets, names);
      var r := Resolve(m, targets, names);
      if r.Unresolved? {
        if Resolvable(m, targets, names[0]) {
          var k :| FailsAt(m, targets, names[1..], k, r.error);
          FailsLater(m, targets, names, k, r.error);
        } else {
          assert FailsAt(m, targets, names, 0, r.error);
        }
      }
    }
  }

  lemma AllResolvableCons(m: Model, targets: Targets, names: seq<string>)
    requires names != []
    ensures AllResolvable(m, targets, names) <==>
            Resolvable(m, targets, names[0]) && AllResolvable(m, targets, names[1..])
  {
    assert forall k :: 0 < k < |names| ==> names[k] == names[1..][k - 1];
    assert forall k :: 0 <= k < |names| - 1 ==> names[1..][k] == names[k + 1];
  }

  lemma FailsLater(m: Model, targets: Targets, names: seq<string>, k: nat, error: ResolveError)
    requires names != [] && Resolvable(m, targets, names[0]) && FailsAt(m, targets, names[1..], k, error)
    ensures FailsAt(m, targets, names, k + 1, error)
  {
    var front := names[..k + 1];
    assert front[0] == names[0] && front[1..] == names[1..][..k];
    AllResolvableCons(m, targets, front);
  }

  function Alias(m: Model, r: Rel): string
    requires r.field < |m.fields|
  {
    "st_" + m.fields[r.field].column
  }

  /** Distinct names of a model's fields get distinct table aliases, in order. */
  lemma {:induction false} ResolvedInOrder(m: Model, targets: Targets, names: seq<string>)
    requires Resolve(m, targets, names).Rels?
    ensures var rels := Resolve(m, targets, names).rels;
            && |rels| == |names|
            && forall k :: 0 <= k < |names| ==>
                 && rels[k].field < |m.fields| && m.fields[rels[k].field].kind == FkField
                 && m.fields[rels[k].field].name == names[k]
                 && targets(rels[k].field) == Some((rels[k].target, rels[k].rows))
    decreases |names|
  {
    if names != [] { ResolvedInOrder(m, targets, names[1..]); }
  }

  predicate InModel(m: Model, rels: seq<Rel>) {
    forall i :: 0 <= i < |rels| ==> rels[i].field < |m.fields|
  }

  predicate Distinct<T(==)>(xs: seq<T>) {
    forall i, j :: 0 <= i < j < |xs| ==> xs[i] != xs[j]
  }

  function Aliases(m: Model, rels: seq<Rel>): (r: seq<string>)
    requires InModel(m, rels)
    ensures |r| == |rels| && forall i :: 0 <= i < |rels| ==> r[i] == Alias(m, rels[i])
  {
    seq(|rels|, i requires 0 <= i < |rels| => Alias(m, rels[i]))
  }

  /** Two requested relations clash exactly when they are one field. */
  lemma SameAlias(m: Model, a: Rel, b: Rel)
    requires ValidModel(m) && a.field < |m.fields| && b.field < |m.fields|
    ensures Alias(m, a) == Alias(m, b) <==> a.field == b.field
  {
    assert Alias(m, a)[3..] == m.fields[a.field].column && Alias(m, b)[3..] == m.fields[b.field].column;
  }

  /** The aliases of a model's relations are distinct exactly when the names are. */
  lemma AliasesDistinct(m: Model, targets: Targets, names: seq<string>)
    requires ValidModel(m) && Resolve(m, targets, names).Rels?
    ensures var rels := Resolve(m, targets, names).rels;
            && InModel(m, rels)
            && (Distinct(Aliases(m, rels)) <==> Distinct(names))
            && (Distinct(names) <==> DistinctFields(rels))
  {
    ResolvedInOrder(m, targets, names);
    var rels := Resolve(m, targets, names).rels;
    forall i, j | 0 <= i < j < |rels|
      ensures (rels[i].field == rels[j].field <==> Alias(m, rels[i]) == Alias(m, rels[j]))
      ensures (rels[i].field == rels[j].field <==> names[i] == names[j])
    {
      SameAlias(m, rels[i], rels[j]);
    }
  }

  predicate DistinctFields(rels: seq<Rel>) {
    forall i, j :: 0 <= i < j < |rels| ==> rels[i].field != rels[j].field
  }

  // ----- LEFT JOIN -----

  function HasKey(r: Rel, key: Cell): Row -> bool {
    row => r.target.pk < |row| && !key.Null? && row[r.target.pk] == key
  }

  /** The target rows on which ON main.fk = target.pk is true. */
  function Matching(r: Rel, key: Cell): seq<Row> {
    Filter(HasKey(r, key), r.rows)
  }

  function Nulls(n: nat): (row: Row)
    ensures |row| == n && forall i :: 0 <= i < n ==> row[i] == Null
  {
    seq(n, i => Null)
  }

  function AppendEach(row: Row, tails: seq<Row>): (rows: seq<Row>)
    ensures |rows| == |tails| && forall i :: 0 <= i < |tails| ==> rows[i] == row + tails[i]
  {
    seq(|tails|, i requires 0 <= i < |tails| => row + tails[i])
  }

  function KeyOf(row: Row, r: Rel): Cell {
    if r.field < |row| then row[r.field] else Null
  }

  /** The joined rows of one row: with each match, or with NULLs if there is none. */
  function JoinRow(row: Row, r: Rel): seq<Row> {
    var matches := Matching(r, KeyOf(row, r));
    AppendEach(row, if matches == [] then [Nulls(|r.target.fields|)] else matches)
  }

  function LeftJoin(rows: seq<Row>, r: Rel): seq<Row>
    decreases |rows|
  {
    if rows == [] then [] else JoinRow(rows[0], r) + LeftJoin(rows[1..], r)
  }

  /** The joins in order, behind the names already in the FROM clause: a database
      refuses a name that is taken. */
  function LeftJoins(m: Model, taken: seq<string>, rows: seq<Row>, rels: seq<Rel>): Option<seq<Row>>
    requires InModel(m, rels)
    decreases |rels|
  {
    if rels == [] then Some(rows)
    else if Alias(m, rels[0]) in taken then None
    else LeftJoins(m, taken + [Alias(m, rels[0])], LeftJoin(rows, rels[0]), rels[1..])
  }

  /** A join repeats a row for every match beyond the first: it keeps the number of
      rows exactly when no key matches two target rows. */
  lemma {:induction false} LeftJoinKeepsCountIff(rows: seq<Row>, r: Rel)
    ensures |LeftJoin(rows, r)| >= |rows|
    ensures |LeftJoin(rows, r)| == |rows| <==> forall i :: 0 <= i < |rows| ==> |Matching(r, KeyOf(rows[i], r))| <= 1
    decreases |rows|
  {
    if rows != [] {
      LeftJoinKeepsCountIff(rows[1..], r);
      assert forall i :: 0 < i < |rows| ==> rows[i] == rows[1..][i - 1];
      assert forall i :: 0 <= i < |rows| - 1 ==> rows[1..][i] == rows[i + 1];
    }
  }

  /** Primary keys of the target are unique and not zero, rows are typed. */
  ghost predicate Keyed(r: Rel) {
    && ValidModel(r.target)
    && (forall i :: 0 <= i < |r.rows| ==> TypedRow(r.target, r.rows[i]) && r.rows[i][r.target.pk] != Integer(0))
    && (forall i, j :: 0 <= i < j < |r.rows| ==> r.rows[i][r.target.pk] != r.rows[j][r.target.pk])
  }

  /** The one target row with the key, if any. */
  function Match(r: Rel, key: Cell): Option<Row> {
    var matches := Matching(r, key);
    if matches == [] then None else Some(matches[0])
  }

  lemma {:induction false} FilterNone(p: Row -> bool, rows: seq<Row>)
    requires forall i :: 0 <= i < |rows| ==> !p(rows[i])
    ensures Filter(p, rows) == []
    decreases |rows|
  {
    if rows != [] {
      assert forall i :: 0 <= i < |rows| - 1 ==> rows[1..][i] == rows[i + 1];
      FilterNone(p, rows[1..]);
    }
  }

  lemma {:induction false} FilterSame(p: Row -> bool, q: Row -> bool, rows: seq<Row>)
    requires forall i :: 0 <= i < |rows| ==> p(rows[i]) == q(rows[i])
    ensures Filter(p, rows) == Filter(q, rows)
    decreases |rows|
  {
    if rows != [] {
      assert forall i :: 0 <= i < |rows| - 1 ==> rows[1..][i] == rows[i + 1];
      FilterSame(p, q, rows[1..]);
    }
  }

  lemma {:induction false} FilterUnique(p: Row -> bool, rows: seq<Row>)
    requires forall i, j :: 0 <= i < j < |rows| ==> !(p(rows[i]) && p(rows[j]))
    ensures |Filter(p, rows)| <= 1
    decreases |rows|
  {
    if rows != [] {
      assert forall i :: 0 <= i < |rows| - 1 ==> rows[1..][i] == rows[i + 1];
      if p(rows[0]) {
        FilterNone(p, rows[1..]);
      } else {
        FilterUnique(p, rows[1..]);
      }
    }
  }

  lemma AtMostOneMatch(r: Rel, key: Cell)
    requires Keyed(r)
    ensures |Matching(r, key)| <= 1
    ensures Match(r, key).Some? ==>
              var t := Match(r, key).value;
              t in r.rows && TypedRow(r.target, t) && t[r.target.pk] == key && key.Integer? && key.i != 0
  {
    FilterUnique(HasKey(r, key), r.rows);
    if Matching(r, key) != [] {
      assert Matching(r, key)[0] in Matching(r, key);
    }
  }

  // ----- Joining attaches one segment per relation -----

  function SegmentOf(r: Rel, key: Cell): Row {
    match Match(r, key)
    case None => Nulls(|r.target.fields|)
    case Some(t) => t
  }

  function Extend(r: Rel): Row -> Row {
    (row: Row) => row + SegmentOf(r, KeyOf(row, r))
  }

  function ExtendAll(rels: seq<Rel>, row: Row): Row
    decreases |rels|
  {
    if rels == [] then row else ExtendAll(rels[1..], Extend(rels[0])(row))
  }

  lemma JoinRowIs(r: Rel, row: Row)
    requires Keyed(r)
    ensures JoinRow(row, r) == [Extend(r)(row)]
  {
    AtMostOneMatch(r, KeyOf(row, r));
  }

  lemma {:induction false} LeftJoinAttaches(rows: seq<Row>, r: Rel)
    requires Keyed(r)
    ensures LeftJoin(rows, r) == Map(Extend(r), rows)
    decreases |rows|
  {
    if rows != [] {
      JoinRowIs(r, rows[0]);
      LeftJoinAttaches(rows[1..], r);
      MapHead(Extend(r), rows);
    }
  }

  lemma MapHead(f: Row -> Row, rows: seq<Row>)
    requires rows != []
    ensures Map(f, rows) == [f(rows[0])] + Map(f, rows[1..])
  {
  }

  lemma {:induction false} MapMap(f: Row -> Row, g: Row -> Row, h: Row -> Row, rows: seq<Row>)
    requires forall row :: h(row) == g(f(row))
    ensures Map(g, Map(f, rows)) == Map(h, rows)
  {
  }

  function Extender(rels: seq<Rel>): Row -> Row {
    (row: Row) => ExtendAll(rels, row)
  }

  predicate Free(taken: seq<string>, names: seq<string>) {
    (forall i :: 0 <= i < |names| ==> names[i] !in taken) && Distinct(names)
  }

  lemma FreeTail(taken: seq<string>, names: seq<string>)
    requires names != []
    ensures Free(taken, names) <==> names[0] !in taken && Free(taken + [names[0]], names[1..])
  {
    var rest := names[1..];
    assert forall i :: 0 <= i < |rest| ==> rest[i] == names[i + 1];
    assert forall i :: 0 < i < |names| ==> names[i] == rest[i - 1];
  }

  ghost predicate EachKeyed(rels: seq<Rel>) {
    forall i :: 0 <= i < |rels| ==> Keyed(rels[i])
  }

  /** With unique keys the joins are accepted exactly when their aliases are distinct
      and not taken, and then give one row for each main row, in order, with one
      segment of target columns, or of NULLs, for each relation. */
  lemma {:induction false} LeftJoinsAttach(m: Model, taken: seq<string>, rows: seq<Row>, rels: seq<Rel>)
    requires InModel(m, rels) && EachKeyed(rels)
    ensures LeftJoins(m, taken, rows, rels) ==
            if Free(taken, Aliases(m, rels)) then Some(Map(Extender(rels), rows)) else None
    decreases |rels|
  {
    if rels == [] {
      assert Map(Extender(rels), rows) == rows;
    } else {
      assert forall i :: 0 <= i < |rels| - 1 ==> rels[1..][i] == rels[i + 1];
      FreeTail(taken, Aliases(m, rels));
      assert Aliases(m, rels)[1..] == Aliases(m, rels[1..]);
      LeftJoinAttaches(rows, rels[0]);
      LeftJoinsAttach(m, taken + [Alias(m, rels[0])], Map(Extend(rels[0]), rows), rels[1..]);
      MapMap(Extend(rels[0]), Extender(rels[1..]), Extender(rels), rows);
    }
  }

  // ----- Scanning -----

  /** attachJoined: a NULL target key leaves the FK as it is. */
  function Attach(inst: Instance, r: Rel, holders: Row): Option<Instance>
    requires |holders| == |r.target.fields| && r.target.pk < |holders| && r.field < |inst|
  {
    match holders[r.target.pk]
    case Null => Some(inst)
    case Integer(pk) =>
      (match Assign(r.target, holders)
       case None => None
       case Some(obj) => Some(inst[r.field := Fk(pk, true, obj)]))
    case _ => None
  }

  function Width(rels: seq<Rel>): nat {
    if rels == [] then 0 else |rels[0].target.fields| + Width(rels[1..])
  }

  predicate ValidRels(rels: seq<Rel>, n: nat) {
    forall i :: 0 <= i < |rels| ==> rels[i].field < n && rels[i].target.pk < |rels[i].target.fields|
  }

  function AttachAll(inst: Instance, rels: seq<Rel>, cells: Row): (r: Option<Instance>)
    requires |cells| == Width(rels) && ValidRels(rels, |inst|)
    ensures r.Some? ==> |r.value| == |inst|
    decreases |rels|
  {
    if rels == [] then Some(inst)
    else
      var k := |rels[0].target.fields|;
      match Attach(inst, rels[0], cells[..k])
      case None => None
      case Some(inst') =>
        assert forall i :: 0 <= i < |rels| - 1 ==> rels[1..][i] == rels[i + 1];
        AttachAll(inst', rels[1..], cells[k..])
  }

  function ScanJoined(m: Model, rels: seq<Rel>, row: Row): Option<Instance>
    requires |row| == |m.fields| + Width(rels) && ValidRels(rels, |m.fields|)
  {
    match Scan(m, row[..|m.fields|])
    case None => None
    case Some(inst) => AttachAll(inst, rels, row[|m.fields|..])
  }

  function ScanAll(scan: Row -> Option<Instance>, rows: seq<Row>): (r: Option<seq<Instance>>)
    ensures r.Some? ==> |r.value| == |rows|
    decreases |rows|
  {
    if rows == [] then Some([])
    else match (scan(rows[0]), ScanAll(scan, rows[1..]))
      case (Some(x), Some(rest)) => Some([x] + rest)
      case _ => None
  }

  // ----- Fetch -----

  datatype Fetched = Found(obj: Instance) | DoesNotExist | Multiple | ScanFailed | NoSuchColumn

  function ColumnIndex(fields: seq<Field>, column: string): (i: nat)
    ensures i <= |fields|
    ensures i < |fields| ==> fields[i].column == column
    ensures forall j :: 0 <= j < i ==> fields[j].column != column
  {
    if fields == [] || fields[0].column == column then 0 else 1 + ColumnIndex(fields[1..], column)
  }

  function PlainScan(m: Model): Row -> Option<Instance> {
    (row: Row) => if |row| == |m.fields| then Scan(m, row) else None
  }

  function HasId(id: nat, pk: int): Row -> bool {
    (row: Row) => id < |row| && row[id] == Integer(pk)
  }

  /** Query[T].Get on the column "id": at most two rows are read. */
  function Fetch(r: Rel, pk: int): Fetched {
    var id := ColumnIndex(r.target.fields, "id");
    if id == |r.target.fields| then NoSuchColumn
    else match ScanAll(PlainScan(r.target), Take(2, Filter(HasId(id, pk), r.rows)))
      case None => ScanFailed
      case Some(found) =>
        if |found| == 0 then DoesNotExist else if |found| == 1 then Found(found[0]) else Multiple
  }

  predicate IdAt(r: Rel, id: nat, pk: int, j: nat) {
    j < |r.rows| && id < |r.rows[j]| && r.rows[j][id] == Integer(pk)
  }

  lemma FilterOne<A>(p: A -> bool, xs: seq<A>, j: nat)
    requires j < |xs| && forall k :: 0 <= k < |xs| ==> (p(xs[k]) <==> k == j)
    ensures Filter(p, xs) == [xs[j]]
    decreases |xs|
  {
    if j == 0 {
      assert forall x :: x in Filter(p, xs[1..]) ==> false;
    } else {
      FilterOne(p, xs[1..], j - 1);
    }
  }

  lemma FilterTwo<A>(p: A -> bool, xs: seq<A>, j: nat, k: nat)
    requires j < k < |xs| && p(xs[j]) && p(xs[k])
    ensures |Filter(p, xs)| >= 2
    decreases |xs|
  {
    if j == 0 {
      assert xs[k] == xs[1..][k - 1] && xs[k] in Filter(p, xs[1..]);
    } else {
      FilterTwo(p, xs[1..], j - 1, k - 1);
    }
  }

  /** Without a column named "id", whatever the primary key is, Fetch fails. */
  lemma FetchColumnIff(r: Rel, pk: int)
    ensures Fetch(r, pk) == NoSuchColumn <==> forall i :: 0 <= i < |r.target.fields| ==>
            r.target.fields[i].column != "id"
  {
  }

  /** Fetch looks for the key in the column named "id": it needs exactly one row with the
      key there, and that row must scan. */
  lemma FetchIff(r: Rel, pk: int, id: nat)
    requires ValidModel(r.target) && id < |r.target.fields| && r.target.fields[id].column == "id"
    ensures FetchesBy(r, pk, id)
  {
    IdColumn(r.target, id);
    FetchBy(r, pk, id);
  }

  lemma IdColumn(m: Model, id: nat)
    requires ValidModel(m) && id < |m.fields| && m.fields[id].column == "id"
    ensures ColumnIndex(m.fields, "id") == id
  {
    var i := ColumnIndex(m.fields, "id");
    assert i <= id;
  }

  ghost predicate FetchesBy(r: Rel, pk: int, id: nat) {
    && (Fetch(r, pk) == DoesNotExist <==> forall j: nat :: !IdAt(r, id, pk, j))
    && (forall j: nat :: IdAt(r, id, pk, j) && (forall k: nat :: IdAt(r, id, pk, k) ==> k == j) ==>
          Fetch(r, pk) == match PlainScan(r.target)(r.rows[j])
                          case None => ScanFailed
                          case Some(obj) => Found(obj))
    && (forall j: nat, k: nat :: IdAt(r, id, pk, j) && IdAt(r, id, pk, k) && j < k ==>
          Fetch(r, pk) == Multiple || Fetch(r, pk) == ScanFailed)
    && (Fetch(r, pk) == ScanFailed ==> exists j: nat :: IdAt(r, id, pk, j) && PlainScan(r.target)(r.rows[j]).None?)
  }

  lemma {:induction false} ScanAllSome(scan: Row -> Option<Instance>, rows: seq<Row>)
    ensures ScanAll(scan, rows).Some? <==> forall i :: 0 <= i < |rows| ==> scan(rows[i]).Some?
    decreases |rows|
  {
    if rows != [] {
      ScanAllSome(scan, rows[1..]);
      assert forall i :: 0 <= i < |rows| - 1 ==> rows[1..][i] == rows[i + 1];
      assert forall i :: 0 < i < |rows| ==> rows[i] == rows[1..][i - 1];
    }
  }

  lemma FoundAt(r: Rel, pk: int, id: nat, row: Row) returns (j: nat)
    requires row in Filter(HasId(id, pk), r.rows)
    ensures IdAt(r, id, pk, j) && r.rows[j] == row
  {
    j :| j < |r.rows| && r.rows[j] == row;
  }

  lemma FetchesNone(r: Rel, pk: int, id: nat)
    requires id == ColumnIndex(r.target.fields, "id") < |r.target.fields|
    ensures Fetch(r, pk) == DoesNotExist <==> forall j: nat :: !IdAt(r, id, pk, j)
  {
    var found := Filter(HasId(id, pk), r.rows);
    assert forall j: nat :: IdAt(r, id, pk, j) ==> r.rows[j] in found;
    if found != [] {
      var j := FoundAt(r, pk, id, found[0]);
    }
  }

  lemma FetchesOne(r: Rel, pk: int, id: nat, j: nat)
    requires id == ColumnIndex(r.target.fields, "id") < |r.target.fields|
    requires IdAt(r, id, pk, j) && forall k: nat :: IdAt(r, id, pk, k) ==> k == j
    ensures Fetch(r, pk) == match PlainScan(r.target)(r.rows[j])
                            case None => ScanFailed
                            case Some(obj) => Found(obj)
  {
    var p, row, scan := HasId(id, pk), r.rows[j], PlainScan(r.target);
    forall k | 0 <= k < |r.rows| ensures p(r.rows[k]) <==> k == j {
      assert p(r.rows[k]) <==> IdAt(r, id, pk, k);
    }
    FilterOne(p, r.rows, j);
    assert Take(2, [row]) == [row] == [row] + [];
    ScanAllCons(scan, row, []);
  }

  lemma FetchesTwo(r: Rel, pk: int, id: nat, j: nat, k: nat)
    requires id == ColumnIndex(r.target.fields, "id") < |r.target.fields|
    requires IdAt(r, id, pk, j) && IdAt(r, id, pk, k) && j < k
    ensures Fetch(r, pk) == Multiple || Fetch(r, pk) == ScanFailed
  {
    FilterTwo(HasId(id, pk), r.rows, j, k);
  }

  lemma FetchesUnread(r: Rel, pk: int, id: nat) returns (j: nat)
    requires id == ColumnIndex(r.target.fields, "id") < |r.target.fields|
    requires Fetch(r, pk) == ScanFailed
    ensures IdAt(r, id, pk, j) && PlainScan(r.target)(r.rows[j]).None?
  {
    var found := Filter(HasId(id, pk), r.rows);
    var two := Take(2, found);
    ScanAllSome(PlainScan(r.target), two);
    var i :| 0 <= i < |two| && PlainScan(r.target)(two[i]).None?;
    assert two[i] == found[i];
    j := FoundAt(r, pk, id, found[i]);
  }

  lemma FetchBy(r: Rel, pk: int, id: nat)
    requires id == ColumnIndex(r.target.fields, "id") < |r.target.fields|
    ensures FetchesBy(r, pk, id)
  {
    FetchesNone(r, pk, id);
    forall j: nat | IdAt(r, id, pk, j) && forall k: nat :: IdAt(r, id, pk, k) ==> k == j
      ensures Fetch(r, pk) == match PlainScan(r.target)(r.rows[j])
                              case None => ScanFailed
                              case Some(obj) => Found(obj)
    {
      FetchesOne(r, pk, id, j);
    }
    forall j: nat, k: nat | IdAt(r, id, pk, j) && IdAt(r, id, pk, k) && j < k
      ensures Fetch(r, pk) == Multiple || Fetch(r, pk) == ScanFailed
    {
      FetchesTwo(r, pk, id, j, k);
    }
    if Fetch(r, pk) == ScanFailed {
      var j := FetchesUnread(r, pk, id);
    }
  }

  /** The plain instance after Fetch on each requested FK; one that fails stays unloaded. */
  function FetchAll(rels: seq<Rel>, inst: Instance): (r: Instance)
    requires ValidRels(rels, |inst|)
    ensures |r| == |inst|
    decreases |rels|
  {
    if rels == [] then inst
    else
      assert forall i :: 0 <= i < |rels| - 1 ==> rels[1..][i] == rels[i + 1];
      FetchAll(rels[1..], FetchOne(rels[0], inst))
  }

  function FetchOne(r: Rel, inst: Instance): Instance
    requires r.field < |inst|
  {
    var f := inst[r.field];
    if !f.Fk? then inst
    else match Fetch(r, f.pk)
      case Found(obj) => inst[r.field := Fk(f.pk, true, obj)]
      case _ => inst
  }

  /** A target row that both ways of loading read alike. */
  predicate Clean(m: Model, row: Row) {
    |row| == |m.fields| && forall i :: 0 <= i < |row| ==> (m.fields[i].kind == FkField <==> row[i].Null?)
  }

  /** Joined loading and Fetch read a row to the same struct exactly when it has no
      NULL in a scalar column, which Fetch refuses, and no key in an FK column, which
      the joined scan cannot assign. */
  lemma ReadsAlikeIff(m: Model, row: Row)
    requires ValidModel(m) && TypedRow(m, row)
    ensures (Scan(m, row).Some? && Assign(m, row) == Scan(m, row)) <==> Clean(m, row)
  {
    ReadIs(ScanCell, m.fields, row);
    ReadIs(AssignCell, m.fields, row);
    if Clean(m, row) {
      assert Scan(m, row).value == Assign(m, row).value;
    }
  }

  /** A row with a NULL text is read by the joined scan only, one with a foreign key set
      by Fetch only. */
  lemma ReadsDiffer()
    ensures var texts := Model("author", [Field("ID", "id", IntField), Field("Bio", "bio", TextField)], 0);
            Scan(texts, [Integer(1), Null]) == None
              && Assign(texts, [Integer(1), Null]) == Some([IntVal(1), StrVal("")])
    ensures var keys := Model("book", [Field("ID", "id", IntField), Field("Author", "author_id", FkField)], 0);
            Scan(keys, [Integer(1), Integer(7)]) == Some([IntVal(1), Fk(7, false, [])])
              && Assign(keys, [Integer(1), Integer(7)]) == None
  {
    var texts := Model("author", [Field("ID", "id", IntField), Field("Bio", "bio", TextField)], 0);
    var keys := Model("book", [Field("ID", "id", IntField), Field("Author", "author_id", FkField)], 0);
    var bare, linked: Row := [Integer(1), Null], [Integer(1), Integer(7)];
    ReadIs(ScanCell, texts.fields, bare);
    ReadIs(AssignCell, texts.fields, bare);
    ReadIs(ScanCell, keys.fields, linked);
    ReadIs(AssignCell, keys.fields, linked);
    assert Assign(texts, bare).value == [IntVal(1), StrVal("")];
    assert Scan(keys, linked).value == [IntVal(1), Fk(7, false, [])];
  }

  // ----- Joined loading refines fetching -----

  /** What the theorem asks of a target: unique keys that are not zero, in a column
      named id. */
  ghost predicate Fetchable(r: Rel) {
    Keyed(r) && r.target.fields[r.target.pk].column == "id"
  }

  ghost predicate EachFetchable(rels: seq<Rel>) {
    forall i :: 0 <= i < |rels| ==> Fetchable(rels[i])
  }

  /** The FK a plain scan makes of the cell: it holds the key and is not loaded. */
  predicate Holds(f: FieldValue, key: Cell) {
    f.Fk? && !f.loaded && (key == Null || key.Integer?) && f.pk == if key.Null? then 0 else key.i
  }

  lemma FetchFindsMatch(r: Rel, key: Cell, f: FieldValue)
    requires Fetchable(r) && Holds(f, key)
    ensures Fetch(r, f.pk) == match Match(r, key)
                              case None => DoesNotExist
                              case Some(t) => match PlainScan(r.target)(t)
                                              case None => ScanFailed
                                              case Some(obj) => Found(obj)
  {
    IdColumn(r.target, r.target.pk);
    AtMostOneMatch(r, key);
    FilterSame(HasKey(r, key), HasId(r.target.pk, f.pk), r.rows);
    if Match(r, key).Some? {
      assert Matching(r, key) == [Match(r, key).value];
      ScanOne(r.target, Match(r, key).value);
    }
  }

  lemma ScanOne(m: Model, t: Row)
    requires |t| == |m.fields|
    ensures ScanAll(PlainScan(m), Take(2, [t])) == match Scan(m, t) case None => None case Some(x) => Some([x])
  {
    assert Take(2, [t]) == [t] == [t] + [];
    ScanAllCons(PlainScan(m), t, []);
    if Scan(m, t).Some? { assert [Scan(m, t).value] + [] == [Scan(m, t).value]; }
  }

  /** The row the join matches, if any, is one that both ways of loading read alike. */
  predicate MatchClean(r: Rel, key: Cell) {
    Match(r, key).Some? ==> Clean(r.target, Match(r, key).value)
  }

  /** Attaching the joined segment does what Fetch on the scanned key does exactly when
      the matched row, if there is one, is clean. */
  lemma AttachIsFetchIff(r: Rel, key: Cell, inst: Instance)
    requires Fetchable(r) && r.field < |inst| && Holds(inst[r.field], key)
    ensures |SegmentOf(r, key)| == |r.target.fields|
    ensures Attach(inst, r, SegmentOf(r, key)) == Some(FetchOne(r, inst)) <==> MatchClean(r, key)
    ensures Attach(inst, r, SegmentOf(r, key)).Some? ==>
              (Attach(inst, r, SegmentOf(r, key)).value[r.field] == FetchOne(r, inst)[r.field] <==> MatchClean(r, key))
  {
    AtMostOneMatch(r, key);
    FetchFindsMatch(r, key, inst[r.field]);
    if Match(r, key).Some? {
      var t := Match(r, key).value;
      ReadsAlikeIff(r.target, t);
      if Assign(r.target, t).Some? {
        var loaded := Fk(key.i, true, Assign(r.target, t).value);
        assert Attach(inst, r, t) == Some(inst[r.field := loaded]) && inst[r.field := loaded][r.field] == loaded;
      }
    }
  }

  function Segments(rels: seq<Rel>, row: Row): Row
    decreases |rels|
  {
    if rels == [] then [] else SegmentOf(rels[0], KeyOf(row, rels[0])) + Segments(rels[1..], row)
  }

  ghost predicate FetchableAll(rels: seq<Rel>, n: nat) {
    forall i :: 0 <= i < |rels| ==> Fetchable(rels[i]) && rels[i].field < n
  }

  lemma FetchableTail(rels: seq<Rel>, n: nat)
    requires rels != [] && FetchableAll(rels, n)
    ensures Fetchable(rels[0]) && rels[0].field < n && FetchableAll(rels[1..], n) && ValidRels(rels, n)
            && ValidRels(rels[1..], n)
  {
    assert forall i :: 0 <= i < |rels| - 1 ==> rels[1..][i] == rels[i + 1];
  }

  lemma {:induction false} SegmentsIgnoreTail(rels: seq<Rel>, row: Row, more: Row)
    requires forall i :: 0 <= i < |rels| ==> rels[i].field < |row|
    ensures Segments(rels, row + more) == Segments(rels, row)
    decreases |rels|
  {
    if rels != [] {
      assert forall i :: 0 <= i < |rels| - 1 ==> rels[1..][i] == rels[i + 1];
      SegmentsIgnoreTail(rels[1..], row, more);
    }
  }

  lemma AppendTwice(a: Row, b: Row, c: Row)
    ensures (a + b) + c == a + (b + c)
  {
  }

  lemma {:induction false} ExtendAllIs(rels: seq<Rel>, row: Row)
    requires FetchableAll(rels, |row|)
    ensures ExtendAll(rels, row) == row + Segments(rels, row)
    decreases |rels|
  {
    if rels != [] {
      FetchableTail(rels, |row|);
      var seg := SegmentOf(rels[0], KeyOf(row, rels[0]));
      SegmentsIgnoreTail(rels[1..], row, seg);
      ExtendAllIs(rels[1..], row + seg);
      assert Extend(rels[0])(row) == row + seg;
      assert ExtendAll(rels, row) == (row + seg) + Segments(rels[1..], row);
      AppendTwice(row, seg, Segments(rels[1..], row));
    }
  }

  ghost predicate HoldsAll(rels: seq<Rel>, row: Row, inst: Instance) {
    forall i :: 0 <= i < |rels| ==> rels[i].field < |inst| && Holds(inst[rels[i].field], KeyOf(row, rels[i]))
  }

  /** Loading one relation leaves the others as they were scanned. */
  lemma FetchOneHolds(r: Rel, rels: seq<Rel>, row: Row, inst: Instance)
    requires HoldsAll(rels, row, inst) && r.field < |inst|
    requires forall i :: 0 <= i < |rels| ==> rels[i].field != r.field
    ensures HoldsAll(rels, row, FetchOne(r, inst))
  {
  }

  lemma {:induction false} FetchAllKeeps(rels: seq<Rel>, inst: Instance, field: nat)
    requires ValidRels(rels, |inst|) && field < |inst| && forall i :: 0 <= i < |rels| ==> rels[i].field != field
    ensures FetchAll(rels, inst)[field] == inst[field]
    decreases |rels|
  {
    if rels != [] {
      assert forall i :: 0 <= i < |rels| - 1 ==> rels[1..][i] == rels[i + 1];
      FetchAllKeeps(rels[1..], FetchOne(rels[0], inst), field);
    }
  }

  lemma {:induction false} AttachAllKeeps(rels: seq<Rel>, inst: Instance, cells: Row, field: nat)
    requires |cells| == Width(rels) && ValidRels(rels, |inst|) && field < |inst|
    requires forall i :: 0 <= i < |rels| ==> rels[i].field != field
    ensures AttachAll(inst, rels, cells).Some? ==> AttachAll(inst, rels, cells).value[field] == inst[field]
    decreases |rels|
  {
    if rels != [] {
      var k := |rels[0].target.fields|;
      assert forall i :: 0 <= i < |rels| - 1 ==> rels[1..][i] == rels[i + 1];
      match Attach(inst, rels[0], cells[..k]) {
        case None =>
        case Some(next) => AttachAllKeeps(rels[1..], next, cells[k..], field);
      }
    }
  }

  /** All matches of a row are clean. */
  predicate RowClean(rels: seq<Rel>, row: Row) {
    forall i :: 0 <= i < |rels| ==> MatchClean(rels[i], KeyOf(row, rels[i]))
  }

  lemma RelsTail(rels: seq<Rel>, row: Row, inst: Instance)
    requires rels != [] && DistinctFields(rels) && HoldsAll(rels, row, inst)
    ensures DistinctFields(rels[1..]) && HoldsAll(rels[1..], row, inst)
    ensures forall i :: 0 <= i < |rels[1..]| ==> rels[1..][i].field != rels[0].field
    ensures RowClean(rels, row) <==> MatchClean(rels[0], KeyOf(row, rels[0])) && RowClean(rels[1..], row)
  {
    assert forall i :: 0 <= i < |rels| - 1 ==> rels[1..][i] == rels[i + 1];
    assert forall i :: 0 < i < |rels| ==> rels[i] == rels[1..][i - 1];
  }

  lemma {:induction false} AttachAllIsFetchAllIff(rels: seq<Rel>, row: Row, inst: Instance)
    requires FetchableAll(rels, |inst|) && ValidRels(rels, |inst|) && HoldsAll(rels, row, inst) && DistinctFields(rels)
    ensures |Segments(rels, row)| == Width(rels)
    ensures AttachAll(inst, rels, Segments(rels, row)) == Some(FetchAll(rels, inst)) <==> RowClean(rels, row)
    decreases |rels|
  {
    if rels != [] {
      var r, others := rels[0], rels[1..];
      FetchableTail(rels, |inst|);
      RelsTail(rels, row, inst);
      var seg, rest := SegmentOf(r, KeyOf(row, r)), Segments(others, row);
      AttachIsFetchIff(r, KeyOf(row, r), inst);
      FetchOneHolds(r, others, row, inst);
      var fetched := FetchOne(r, inst);
      AttachAllIsFetchAllIff(others, row, fetched);
      assert (seg + rest)[..|seg|] == seg && (seg + rest)[|seg|..] == rest;
      match Attach(inst, r, seg) {
        case None =>
        case Some(next) =>
          AttachAllKeeps(others, next, rest, r.field);
          FetchAllKeeps(others, fetched, r.field);
      }
    }
  }

  lemma ScanHolds(m: Model, rels: seq<Rel>, row: Row)
    requires TypedRow(m, row) && Scan(m, row).Some?
    requires forall i :: 0 <= i < |rels| ==> rels[i].field < |m.fields| && m.fields[rels[i].field].kind == FkField
    ensures HoldsAll(rels, row, Scan(m, row).value)
  {
    ReadIs(ScanCell, m.fields, row);
  }

  function Fetcher(rels: seq<Rel>): Instance -> Instance {
    (inst: Instance) => if ValidRels(rels, |inst|) then FetchAll(rels, inst) else inst
  }

  function JoinedScan(m: Model, rels: seq<Rel>): Row -> Option<Instance> {
    (row: Row) =>
      if |row| == |m.fields| + Width(rels) && ValidRels(rels, |m.fields|) then ScanJoined(m, rels, row) else None
  }

  ghost predicate ForeignKeys(m: Model, rels: seq<Rel>) {
    && FetchableAll(rels, |m.fields|)
    && forall i :: 0 <= i < |rels| ==> m.fields[rels[i].field].kind == FkField
  }

  /** Scanning a joined row scans the row and attaches its segments. */
  lemma JoinedRow(m: Model, rels: seq<Rel>, row: Row)
    requires |row| == |m.fields| && FetchableAll(rels, |m.fields|)
    ensures ValidRels(rels, |m.fields|) && |Segments(rels, row)| == Width(rels)
    ensures |m.fields| <= |Extender(rels)(row)| && Extender(rels)(row)[..|m.fields|] == row
    ensures JoinedScan(m, rels)(Extender(rels)(row)) ==
            match Scan(m, row) case None => None case Some(inst) => AttachAll(inst, rels, Segments(rels, row))
  {
    ExtendAllIs(rels, row);
    var joined := row + Segments(rels, row);
    assert joined[..|m.fields|] == row && joined[|m.fields|..] == Segments(rels, row);
    SegmentsWidth(rels, row);
  }

  lemma RowRefinesIff(m: Model, rels: seq<Rel>, row: Row)
    requires TypedRow(m, row) && ForeignKeys(m, rels) && DistinctFields(rels)
    ensures ValidRels(rels, |m.fields|)
    ensures var joined := JoinedScan(m, rels)(Extender(rels)(row));
            match PlainScan(m)(row)
            case None => joined == None
            case Some(inst) => joined == Some(Fetcher(rels)(inst)) <==> RowClean(rels, row)
    ensures |m.fields| <= |Extender(rels)(row)| && Extender(rels)(row)[..|m.fields|] == row
  {
    JoinedRow(m, rels, row);
    if Scan(m, row).Some? {
      ScanHolds(m, rels, row);
      AttachAllIsFetchAllIff(rels, row, Scan(m, row).value);
    }
  }

  lemma {:induction false} SegmentsWidth(rels: seq<Rel>, row: Row)
    requires FetchableAll(rels, |row|)
    ensures |Segments(rels, row)| == Width(rels)
    decreases |rels|
  {
    if rels != [] {
      FetchableTail(rels, |row|);
      AtMostOneMatch(rels[0], KeyOf(row, rels[0]));
      SegmentsWidth(rels[1..], row);
    }
  }

  ghost predicate TypedRows(m: Model, rows: seq<Row>) {
    forall i :: 0 <= i < |rows| ==> TypedRow(m, rows[i])
  }

  predicate RowsClean(rels: seq<Rel>, rows: seq<Row>) {
    forall i :: 0 <= i < |rows| ==> RowClean(rels, rows[i])
  }

  lemma RowsCleanCons(rels: seq<Rel>, rows: seq<Row>)
    requires rows != []
    ensures RowsClean(rels, rows) <==> RowClean(rels, rows[0]) && RowsClean(rels, rows[1..])
  {
    assert forall i :: 0 <= i < |rows| - 1 ==> rows[1..][i] == rows[i + 1];
    assert forall i :: 0 < i < |rows| ==> rows[i] == rows[1..][i - 1];
  }

  lemma ConsEqual(x: Instance, y: Instance, xs: seq<Instance>, ys: seq<Instance>)
    ensures [x] + xs == [y] + ys <==> x == y && xs == ys
  {
    if [x] + xs == [y] + ys {
      assert ([x] + xs)[0] == x && ([y] + ys)[0] == y && ([x] + xs)[1..] == xs && ([y] + ys)[1..] == ys;
    }
  }

  lemma {:induction false} RowsRefineIff(m: Model, rels: seq<Rel>, rows: seq<Row>)
    requires ForeignKeys(m, rels) && DistinctFields(rels) && TypedRows(m, rows)
    ensures var joined := ScanAll(JoinedScan(m, rels), Map(Extender(rels), rows));
            match ScanAll(PlainScan(m), rows)
            case None => joined == None
            case Some(plain) => joined == Some(Map(Fetcher(rels), plain)) <==> RowsClean(rels, rows)
    decreases |rows|
  {
    if rows != [] {
      var row, rest := rows[0], rows[1..];
      assert TypedRow(m, row);
      assert forall i :: 0 <= i < |rest| ==> rest[i] == rows[i + 1];
      RowRefinesIff(m, rels, row);
      RowsRefineIff(m, rels, rest);
      RowsCleanCons(rels, rows);
      ScanAllMap(JoinedScan(m, rels), Extender(rels), rows);
      assert ScanAll(PlainScan(m), rows) == Both(PlainScan(m)(row), ScanAll(PlainScan(m), rest));
      if PlainScan(m)(row).None? || ScanAll(PlainScan(m), rest).None? { return; }
      ScanBoth(JoinedScan(m, rels)(Extender(rels)(row)), ScanAll(JoinedScan(m, rels), Map(Extender(rels), rest)),
               PlainScan(m)(row), ScanAll(PlainScan(m), rest), Fetcher(rels));
    }
  }

  lemma ScanBoth(one: Option<Instance>, more: Option<seq<Instance>>, plainOne: Option<Instance>,
                 plainMore: Option<seq<Instance>>, f: Instance -> Instance)
    requires plainOne.Some? && plainMore.Some?
    ensures Both(one, more) == Some(Map(f, [plainOne.value] + plainMore.value))
            <==> one == Some(f(plainOne.value)) && more == Some(Map(f, plainMore.value))
  {
    MapCons(f, plainOne.value, plainMore.value);
    if one.Some? && more.Some? {
      ConsEqual(one.value, f(plainOne.value), more.value, Map(f, plainMore.value));
    }
  }

  function Both(one: Option<Instance>, more: Option<seq<Instance>>): Option<seq<Instance>> {
    match (one, more) case (Some(x), Some(xs)) => Some([x] + xs) case _ => None
  }

  lemma ScanAllMap(scan: Row -> Option<Instance>, f: Row -> Row, rows: seq<Row>)
    requires rows != []
    ensures ScanAll(scan, Map(f, rows)) == Both(scan(f(rows[0])), ScanAll(scan, Map(f, rows[1..])))
  {
    MapHead(f, rows);
    ScanAllCons(scan, f(rows[0]), Map(f, rows[1..]));
  }

  lemma ScanAllCons(scan: Row -> Option<Instance>, row: Row, rest: seq<Row>)
    ensures ScanAll(scan, [row] + rest) ==
            Both(scan(row), ScanAll(scan, rest))
  {
    assert ([row] + rest)[1..] == rest;
  }

  function MainPart(m: Model): Row -> Row {
    (row: Row) => if |m.fields| <= |row| then row[..|m.fields|] else row
  }

  /** SelectRelated(names).All under WHERE, ORDER BY, LIMIT and OFFSET; None if a name
      cannot be resolved, the database refuses the joins or a row cannot be read. */
  function AllJoined(m: Model, targets: Targets, names: seq<string>, where: Row -> bool, less: (Row, Row) -> bool,
                     limit: int, offset: int, rows: seq<Row>): Option<seq<Instance>>
  {
    match Resolve(m, targets, names)
    case Unresolved(_) => None
    case Rels(rels) =>
      ResolvedInOrder(m, targets, names);
      match LeftJoins(m, [m.table], rows, rels)
      case None => None
      case Some(joined) => ScanJoinedRows(m, rels, where, less, limit, offset, joined)
  }

  function ScanJoinedRows(m: Model, rels: seq<Rel>, where: Row -> bool, less: (Row, Row) -> bool,
                          limit: int, offset: int, joined: seq<Row>): Option<seq<Instance>>
  {
    ScanAll(JoinedScan(m, rels), Run(On(where, MainPart(m)), On2(less, MainPart(m)), limit, offset, joined))
  }

  /** No requested FK's alias is the name of the main table. */
  predicate AliasesApart(m: Model, rels: seq<Rel>) {
    forall i :: 0 <= i < |rels| && rels[i].field < |m.fields| ==> Alias(m, rels[i]) != m.table
  }

  lemma KeptRefinesIff(m: Model, rels: seq<Rel>, where: Row -> bool, less: (Row, Row) -> bool,
                       limit: int, offset: int, rows: seq<Row>)
    requires ForeignKeys(m, rels) && DistinctFields(rels) && TypedRows(m, rows)
    ensures var joined := ScanJoinedRows(m, rels, where, less, limit, offset, Map(Extender(rels), rows));
            match ScanAll(PlainScan(m), Run(where, less, limit, offset, rows))
            case None => joined == None
            case Some(plain) => joined == Some(Map(Fetcher(rels), plain)) <==>
                                RowsClean(rels, Run(where, less, limit, offset, rows))
  {
    forall i | 0 <= i < |rows|
      ensures MainPart(m)(Extender(rels)(rows[i])) == rows[i]
    {
      RowRefinesIff(m, rels, rows[i]);
    }
    RunAttached(Extender(rels), MainPart(m), where, less, limit, offset, rows);
    var kept := Run(where, less, limit, offset, rows);
    RunMembers(where, less, limit, offset, rows);
    forall i | 0 <= i < |kept|
      ensures TypedRow(m, kept[i])
    {
      assert kept[i] in rows;
    }
    RowsRefineIff(m, rels, kept);
  }

  lemma JoinsAcceptedIff(m: Model, targets: Targets, names: seq<string>, rows: seq<Row>)
    requires ValidModel(m) && Resolve(m, targets, names).Rels?
    requires EachFetchable(Resolve(m, targets, names).rels)
    ensures var rels := Resolve(m, targets, names).rels;
            && InModel(m, rels)
            && LeftJoins(m, [m.table], rows, rels) ==
               if Distinct(names) && AliasesApart(m, rels) then Some(Map(Extender(rels), rows)) else None
  {
    var rels := Resolve(m, targets, names).rels;
    AliasesDistinct(m, targets, names);
    FreeIff(m, rels);
    FetchableKeyed(rels);
    LeftJoinsAttach(m, [m.table], rows, rels);
  }

  lemma FreeIff(m: Model, rels: seq<Rel>)
    requires InModel(m, rels)
    ensures Free([m.table], Aliases(m, rels)) <==> AliasesApart(m, rels) && Distinct(Aliases(m, rels))
  {
    assert forall i :: 0 <= i < |rels| ==> Aliases(m, rels)[i] == Alias(m, rels[i]);
  }

  lemma FetchableKeyed(rels: seq<Rel>)
    requires EachFetchable(rels)
    ensures EachKeyed(rels)
  {
    assert forall i :: 0 <= i < |rels| ==> Fetchable(rels[i]);
  }

  /** Wherever a requested name leads, the target has unique keys in the column `id`. */
  ghost predicate TargetsFetchable(m: Model, targets: Targets, names: seq<string>) {
    forall k, i: nat {:trigger NamedAt(m, names[k], i)} ::
      0 <= k < |names| && NamedAt(m, names[k], i) && m.fields[i].kind == FkField && targets(i).Some? ==>
        Fetchable(Rel(i, targets(i).value.0, targets(i).value.1))
  }

  lemma ResolvedFetchable(m: Model, targets: Targets, names: seq<string>)
    requires TargetsFetchable(m, targets, names) && Resolve(m, targets, names).Rels?
    ensures EachFetchable(Resolve(m, targets, names).rels)
  {
    ResolvedInOrder(m, targets, names);
    var rels := Resolve(m, targets, names).rels;
    forall k | 0 <= k < |rels| ensures Fetchable(rels[k]) {
      assert NamedAt(m, names[k], rels[k].field);
    }
  }

  /** SelectRelated(names).All fails when a name is no foreign key of the model with a
      target, or the plain query fails. Otherwise it returns the plain rows, in the same
      order and under any WHERE, ORDER BY, LIMIT and OFFSET, each with its requested FKs
      as Fetch leaves them, if and only if no name is requested twice, no alias is the
      main table's name and every target row that a returned row refers to is clean. */
  lemma SelectRelatedRefinesFetchIff(m: Model, targets: Targets, names: seq<string>, where: Row -> bool,
                                     less: (Row, Row) -> bool, limit: int, offset: int, rows: seq<Row>)
    requires ValidModel(m) && TypedRows(m, rows) && TargetsFetchable(m, targets, names)
    ensures AllResolvable(m, targets, names) <==> Resolve(m, targets, names).Rels?
    ensures var kept := Run(where, less, limit, offset, rows);
            var joined := AllJoined(m, targets, names, where, less, limit, offset, rows);
            if !AllResolvable(m, targets, names) then joined == None
            else match ScanAll(PlainScan(m), kept)
                 case None => joined == None
                 case Some(plain) =>
                   var rels := Resolve(m, targets, names).rels;
                   joined == Some(Map(Fetcher(rels), plain)) <==>
                   Distinct(names) && AliasesApart(m, rels) && RowsClean(rels, kept)
  {
    ResolveIff(m, targets, names);
    if AllResolvable(m, targets, names) {
      ResolvedFetchable(m, targets, names);
      ResolvedRefineIff(m, targets, names, where, less, limit, offset, rows);
    }
  }

  /** A book with an author is something the theorem is about. */
  lemma BookOfAuthor()
    ensures var author := Model("author", [Field("ID", "id", IntField), Field("Name", "name", TextField)], 0);
            var book := Model("book", [Field("ID", "id", IntField), Field("Author", "author_id", FkField)], 0);
            var targets := (i: nat) => if i == 1 then Some((author, [[Integer(7), Text("Ann")]])) else None;
            && ValidModel(book) && TypedRows(book, [[Integer(1), Integer(7)]])
            && TargetsFetchable(book, targets, ["Author"]) && AllResolvable(book, targets, ["Author"])
  {
    var book := Model("book", [Field("ID", "id", IntField), Field("Author", "author_id", FkField)], 0);
    assert NamedAt(book, "Author", 1);
  }

  lemma ResolvedRefineIff(m: Model, targets: Targets, names: seq<string>, where: Row -> bool,
                          less: (Row, Row) -> bool, limit: int, offset: int, rows: seq<Row>)
    requires ValidModel(m) && TypedRows(m, rows) && Resolve(m, targets, names).Rels?
    requires EachFetchable(Resolve(m, targets, names).rels)
    ensures var rels, kept := Resolve(m, targets, names).rels, Run(where, less, limit, offset, rows);
            var joined := AllJoined(m, targets, names, where, less, limit, offset, rows);
            match ScanAll(PlainScan(m), kept)
            case None => joined == None
            case Some(plain) => joined == Some(Map(Fetcher(rels), plain)) <==>
                                Distinct(names) && AliasesApart(m, rels) && RowsClean(rels, kept)
  {
    var rels := Resolve(m, targets, names).rels;
    ResolvedInOrder(m, targets, names);
    AliasesDistinct(m, targets, names);
    JoinsAcceptedIff(m, targets, names, rows);
    if DistinctFields(rels) {
      KeptRefinesIff(m, rels, where, less, limit, offset, rows);
    }
  }

  // ----- The loops -----

  method ResolveSelectRelated(m: Model, targets: Targets, names: seq<string>) returns (r: Resolved)
    ensures r == Resolve(m, targets, names)
    ensures ValidModel(m) ==> (r.Rels? <==> AllResolvable(m, targets, names))
    ensures ValidModel(m) && r.Unresolved? ==> exists k :: FailsAt(m, targets, names, k, r.error)
  {
    if ValidModel(m) { ResolveIff(m, targets, names); }
    var rels: seq<Rel> := [];
    for k := 0 to |names|
      invariant Resolve(m, targets, names) ==
                match Resolve(m, targets, names[k..]) {
                  case Unresolved(e) => Unresolved(e)
                  case Rels(rest) => Rels(rels + rest)
                }
    {
      assert names[k..][1..] == names[k + 1..];
      match ResolveOne(m, targets, names[k]) {
        case Unresolved(e) => return Unresolved(e);
        case Rels(one) => rels := rels + one;
      }
    }
    r := Rels(rels);
  }

  /** attachJoined: the target struct is filled field by field. */
  method AttachJoined(inst: Instance, r: Rel, holders: Row) returns (out: Option<Instance>)
    requires |holders| == |r.target.fields| && r.target.pk < |holders| && r.field < |inst|
    ensures out == Attach(inst, r, holders)
  {
    if holders[r.target.pk].Null? { return Some(inst); }
    if !holders[r.target.pk].Integer? { return None; }
    var obj: Instance := [];
    ReadIs(AssignCell, r.target.fields, holders);
    for i := 0 to |holders|
      invariant |obj| == i
      invariant forall j :: 0 <= j < i ==> AssignCell(r.target.fields[j].kind, holders[j]) == Some(obj[j])
    {
      match AssignCell(r.target.fields[i].kind, holders[i]) {
        case None => return None;
        case Some(v) => obj := obj + [v];
      }
    }
    assert obj == Assign(r.target, holders).value;
    out := Some(inst[r.field := Fk(holders[r.target.pk].i, true, obj)]);
  }

  method ScanRowsJoined(m: Model, rels: seq<Rel>, rows: seq<Row>) returns (out: Option<seq<Instance>>)
    requires ValidRels(rels, |m.fields|)
    requires forall i :: 0 <= i < |rows| ==> |rows[i]| == |m.fields| + Width(rels)
    ensures out == ScanAll(JoinedScan(m, rels), rows)
  {
    var done: seq<Instance> := [];
    assert rows[0..] == rows;
    CombineNothing(ScanAll(JoinedScan(m, rels), rows));
    for k := 0 to |rows|
      invariant ScanAll(JoinedScan(m, rels), rows) == Combine(done, ScanAll(JoinedScan(m, rels), rows[k..]))
    {
      assert rows[k..] == [rows[k]] + rows[k + 1..];
      ScanAllCons(JoinedScan(m, rels), rows[k], rows[k + 1..]);
      var one := ScanRowJoined(m, rels, rows[k]);
      if one.None? { return None; }
      CombineOne(done, one.value, ScanAll(JoinedScan(m, rels), rows[k + 1..]));
      done := done + [one.value];
    }
    assert rows[|rows|..] == [] && done + [] == done;
    out := Some(done);
  }

  function Combine(done: seq<Instance>, rest: Option<seq<Instance>>): Option<seq<Instance>> {
    match rest case None => None case Some(xs) => Some(done + xs)
  }

  lemma CombineNothing(rest: Option<seq<Instance>>)
    ensures Combine([], rest) == rest
  {
    if rest.Some? { assert [] + rest.value == rest.value; }
  }

  lemma CombineOne(done: seq<Instance>, x: Instance, rest: Option<seq<Instance>>)
    ensures Combine(done + [x], rest) == Combine(done, match rest case None => None case Some(xs) => Some([x] + xs))
  {
    if rest.Some? { assert done + [x] + rest.value == done + ([x] + rest.value); }
  }

  method ScanRowJoined(m: Model, rels: seq<Rel>, row: Row) returns (out: Option<Instance>)
    requires ValidRels(rels, |m.fields|) && |row| == |m.fields| + Width(rels)
    ensures out == ScanJoined(m, rels, row)
  {
    var scanned := Scan(m, row[..|m.fields|]);
    if scanned.None? { return None; }
    var inst := scanned.value;
    var cells := row[|m.fields|..];
    for k := 0 to |rels|
      invariant |inst| == |m.fields| && |cells| == Width(rels[k..]) && ValidRels(rels[k..], |inst|)
      invariant AttachAll(scanned.value, rels, row[|m.fields|..]) == AttachAll(inst, rels[k..], cells)
    {
      assert rels[k..][0] == rels[k] && rels[k..][1..] == rels[k + 1..];
      var width := |rels[k].target.fields|;
      var attached := AttachJoined(inst, rels[k], cells[..width]);
      if attached.None? { return None; }
      inst := attached.value;
      cells := cells[width..];
    }
    out := Some(inst);
  }
}
