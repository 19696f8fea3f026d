/** Project states and the in-memory face of migration operations
    (migrations/state.go and the Apply methods of migrations/operations.go). */
module Schema {

  datatype Option<+T> = None | Some(value: T)

  /** orm.Kind; Unknown stands for the numbers that name no kind. */
  datatype Kind = Auto | Int | Char | Text | Bool | DateTime | Unknown(code: nat)

  datatype RelKind = RelNone | RelFK

  datatype OnDelete = DoNothing | Cascade | SetNull | Restrict

  datatype FieldState = FieldState(
    name: string, column: string, kind: Kind, primaryKey: bool, nullable: bool, unique: bool, maxLength: int,
    relKind: RelKind, relTargetTable: string, relTargetColumn: string, relOnDelete: OnDelete)

  /** A NOT NULL text field. */
  function TextField(name: string, column: string): FieldState {
    FieldState(name, column, Char, false, false, false, 255, RelNone, "", "", DoNothing)
  }

  /** The primary key a registered model gets from an integer field ID. */
  function IdField(): FieldState {
    TextField("ID", "id").(kind := Auto, primaryKey := true)
  }

  /** A foreign key to the column id of the table. */
  function KeyField(table: string): FieldState {
    TextField("Target", "target_id").(kind := Int, relKind := RelFK, relTargetTable := table, relTargetColumn := "id")
  }

  datatype ModelState = ModelState(name: string, table: string, fields: seq<FieldState>)

  datatype State = State(models: map<string, ModelState>, order: seq<string>)

  const EMPTY := State(map[], [])

  datatype Operation =
    | CreateModel(name: string, table: string, fields: seq<FieldState>)
    | DeleteModel(name: string)
    | AddField(model: string, field: FieldState)
    | RemoveField(model: string, fieldName: string)
    | AlterField(model: string, field: FieldState)

  /** The model an operation changes. */
  function ModelOf(op: Operation): string {
    match op
    case CreateModel(name, _, _) => name
    case DeleteModel(name) => name
    case AddField(model, _) => model
    case RemoveField(model, _) => model
    case AlterField(model, _) => model
  }

  // ----- Field lists -----

  /** Position of the first field with the given name, or the length of the list. */
  function IndexOf(fields: seq<FieldState>, name: string): (i: nat)
    ensures i <= |fields|
    ensures i < |fields| ==> fields[i].name == name
    ensures forall k :: 0 <= k < i ==> fields[k].name != name
  {
    if fields == [] then 0
    else if fields[0].name == name then 0
    else 1 + IndexOf(fields[1..], name)
  }

  predicate HasField(fields: seq<FieldState>, name: string) {
    IndexOf(fields, name) < |fields|
  }

  lemma IndexOfIs(fields: seq<FieldState>, name: string, i: nat)
    requires i < |fields| && fields[i].name == name
    requires forall k :: 0 <= k < i ==> fields[k].name != name
    ensures IndexOf(fields, name) == i
  {
  }

  lemma HasFieldIffNamed(fields: seq<FieldState>)
    ensures forall n :: HasField(fields, n) <==> exists f :: f in fields && f.name == n
  {
    forall n
      ensures HasField(fields, n) <==> exists f :: f in fields && f.name == n
    {
      var i := IndexOf(fields, n);
      if i < |fields| { assert fields[i] in fields; }
    }
  }

  predicate UniqueNames(fields: seq<FieldState>) {
    forall i, j :: 0 <= i < j < |fields| ==> fields[i].name != fields[j].name
  }

  function RemoveFirst(fields: seq<FieldState>, name: string): seq<FieldState> {
    var i := IndexOf(fields, name);
    if i < |fields| then fields[..i] + fields[i + 1..] else fields
  }

  function ReplaceFirst(fields: seq<FieldState>, f: FieldState): seq<FieldState> {
    var i := IndexOf(fields, f.name);
    if i < |fields| then fields[i := f] else fields
  }

  // ----- Apply -----

  /** Position of the first occurrence of name, or the length of the list. */
  function OrderIndex(order: seq<string>, name: string): (i: nat)
    ensures i <= |order|
    ensures i < |order| ==> order[i] == name
    ensures forall k :: 0 <= k < i ==> order[k] != name
  {
    if order == [] then 0
    else if order[0] == name then 0
    else 1 + OrderIndex(order[1..], name)
  }

  lemma OrderIndexIs(order: seq<string>, name: string, i: nat)
    requires i < |order| && order[i] == name
    requires forall k :: 0 <= k < i ==> order[k] != name
    ensures OrderIndex(order, name) == i
  {
  }

  function DropFirst(order: seq<string>, name: string): seq<string> {
    var i := OrderIndex(order, name);
    if i < |order| then order[..i] + order[i + 1..] else order
  }

  /** The state after an operation; None is the nil dereference of a field
      operation on a model the state does not have. */
  function ApplyOp(op: Operation, s: State): Option<State> {
    match op
    case CreateModel(name, table, fields) =>
      Some(State(s.models[name := ModelState(name, table, fields)],
                 if name in s.order then s.order else s.order + [name]))
    case DeleteModel(name) =>
      Some(State(s.models - {name}, DropFirst(s.order, name)))
    case AddField(model, field) =>
      WithFields(s, model, (fields: seq<FieldState>) => fields + [field])
    case RemoveField(model, fieldName) =>
      WithFields(s, model, fields => RemoveFirst(fields, fieldName))
    case AlterField(model, field) =>
      WithFields(s, model, fields => ReplaceFirst(fields, field))
  }

  function WithFields(s: State, model: string, change: seq<FieldState> -> seq<FieldState>): Option<State> {
    if model in s.models then
      var ms := s.models[model];
      Some(s.(models := s.models[model := ms.(fields := change(ms.fields))]))
    else None
  }

  function ApplyAll(ops: seq<Operation>, s: State): Option<State> {
    if ops == [] then Some(s)
    else match ApplyOp(ops[0], s)
      case None => None
      case Some(s') => ApplyAll(ops[1..], s')
  }

  lemma {:induction false} ApplyAllConcat(a: seq<Operation>, b: seq<Operation>, s: State)
    ensures ApplyAll(a + b, s) ==
            match ApplyAll(a, s) case None => None case Some(s') => ApplyAll(b, s')
  {
    if a == [] {
      assert a + b == b;
    } else {
      assert (a + b)[1..] == a[1..] + b;
      match ApplyOp(a[0], s)
      case None =>
      case Some(s') => ApplyAllConcat(a[1..], b, s');
    }
  }

  // ----- Well-formed states -----

  predicate Distinct(order: seq<string>) {
    forall i, j :: 0 <= i < j < |order| ==> order[i] != order[j]
  }

  ghost predicate FieldsUnique(s: State) {
    forall m :: m in s.models ==> UniqueNames(s.models[m].fields)
  }

  /** What StateFromRegistry produces: the order lists exactly the models, once
      each, every model is filed under its own name, and field names are unique. */
  ghost predicate WellFormed(s: State) {
    && Distinct(s.order)
    && (forall m :: m in s.order <==> m in s.models)
    && (forall m :: m in s.models ==> s.models[m].name == m)
    && FieldsUnique(s)
  }

  /** The operation adds no second field of the same name to a model. */
  predicate AddsNoDuplicate(op: Operation, s: State) {
    match op
    case CreateModel(_, _, fields) => UniqueNames(fields)
    case AddField(model, field) => model in s.models ==> !HasField(s.models[model].fields, field.name)
    case _ => true
  }

  lemma RemoveFirstUnique(fields: seq<FieldState>, name: string)
    requires UniqueNames(fields)
    ensures UniqueNames(RemoveFirst(fields, name))
  {
    var i := IndexOf(fields, name);
    if i < |fields| {
      var rest := fields[..i] + fields[i + 1..];
      forall j, k | 0 <= j < k < |rest| ensures rest[j].name != rest[k].name {
        assert rest[j] == fields[if j < i then j else j + 1] && rest[k] == fields[if k < i then k else k + 1];
      }
    }
  }

  lemma AppendedUnique(fields: seq<FieldState>, f: FieldState)
    requires UniqueNames(fields) && !HasField(fields, f.name)
    ensures UniqueNames(fields + [f])
  {
  }

  lemma ReplaceFirstUnique(fields: seq<FieldState>, f: FieldState)
    requires UniqueNames(fields)
    ensures UniqueNames(ReplaceFirst(fields, f))
  {
  }

  lemma ApplyKeepsFieldsUnique(op: Operation, s: State)
    requires FieldsUnique(s) && AddsNoDuplicate(op, s) && ApplyOp(op, s).Some?
    ensures FieldsUnique(ApplyOp(op, s).value)
  {
    match op
    case CreateModel(_, _, _) =>
    case DeleteModel(_) =>
    case AddField(model, field) => AppendedUnique(s.models[model].fields, field);
    case RemoveField(model, name) => RemoveFirstUnique(s.models[model].fields, name);
    case AlterField(model, field) => ReplaceFirstUnique(s.models[model].fields, field);
  }
}
