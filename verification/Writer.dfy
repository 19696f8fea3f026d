/** Migration files: the literals the writer prints, and the migration that compiling
    them gives back (migrations/writer.go). */
module Writer {
  import opened Schema
  import Autodetect
  import Decimal
  import ModelRegistry
  import opened MakeMigrations

  // ----- The printed literals -----

  /** A Go expression in a field literal; Orm is a constant of package orm. */
  datatype Expr = Quoted(text: string) | Orm(name: string) | TrueLit | IntLit(n: int)

  /** The field names of FieldState, in the order they are printed. */
  datatype FieldKey =
    | Name | Column | Kind | PrimaryKey | Null | Unique | MaxLength
    | RelKind | RelTargetTable | RelTargetColumn | RelOnDelete

  datatype Part = Part(key: FieldKey, value: Expr)

  type FieldLit = seq<Part>

  datatype OpValue = Words(text: string) | FieldList(elems: seq<FieldLit>) | Inline(field: FieldLit)

  datatype Entry = Entry(key: string, value: OpValue)

  datatype OpLit = OpLit(typeName: string, entries: seq<Entry>)

  /** A Go file: declares lists the names it adds to its package, of which init may be
      declared any number of times and is left out. */
  datatype File = File(
    importsOrm: bool, declares: seq<string>,
    app: string, name: string, dependencies: seq<string>, operations: seq<OpLit>)

  /** Kind.String. */
  function KindText(k: Schema.Kind): string {
    match k
    case Auto => "Auto"
    case Int => "Int"
    case Char => "Char"
    case Text => "Text"
    case Bool => "Bool"
    case DateTime => "DateTime"
    case Unknown(code) => "Kind(" + Decimal.NatText(code) + ")"
  }

  function KindSource(k: Schema.Kind): string {
    "Kind" + KindText(k)
  }

  function RelKindSource(k: Schema.RelKind): string {
    if k.RelFK? then "RelFK" else "RelNone"
  }

  function OnDeleteSource(od: OnDelete): string {
    match od
    case Cascade => "OnDeleteCascade"
    case SetNull => "OnDeleteSetNull"
    case Restrict => "OnDeleteRestrict"
    case DoNothing => "OnDeleteDoNothing"
  }

  function Add(parts: FieldLit, c: bool, key: FieldKey, value: Expr): FieldLit {
    if c then parts + [Part(key, value)] else parts
  }

  function NamedParts(f: FieldState): FieldLit {
    Add(Add(Add([], true, Name, Quoted(f.name)), true, Column, Quoted(f.column)), true, FieldKey.Kind,
      Orm(KindSource(f.kind)))
  }

  function FlagParts(f: FieldState): FieldLit {
    var flags := Add(Add(Add(NamedParts(f), f.primaryKey, PrimaryKey, TrueLit), f.nullable, Null, TrueLit), f.unique,
      Unique, TrueLit);
    Add(flags, f.maxLength != 0, MaxLength, IntLit(f.maxLength))
  }

  function TargetParts(f: FieldState): FieldLit {
    var rel := Add(FlagParts(f), f.relKind != RelNone, FieldKey.RelKind, Orm(RelKindSource(f.relKind)));
    var table := Add(rel, f.relTargetTable != "", RelTargetTable, Quoted(f.relTargetTable));
    Add(table, f.relTargetColumn != "", RelTargetColumn, Quoted(f.relTargetColumn))
  }

  function PartsOf(f: FieldState): FieldLit {
    Add(TargetParts(f), f.relOnDelete != DoNothing, RelOnDelete, Orm(OnDeleteSource(f.relOnDelete)))
  }

  method FieldStateParts(f: FieldState) returns (parts: FieldLit)
    ensures parts == PartsOf(f)
  {
    parts := [];
    parts := parts + [Part(Name, Quoted(f.name))];
    parts := parts + [Part(Column, Quoted(f.column))];
    parts := parts + [Part(FieldKey.Kind, Orm(KindSource(f.kind)))];
    assert parts == NamedParts(f);
    if f.primaryKey { parts := parts + [Part(PrimaryKey, TrueLit)]; }
    if f.nullable { parts := parts + [Part(Null, TrueLit)]; }
    if f.unique { parts := parts + [Part(Unique, TrueLit)]; }
    if f.maxLength != 0 { parts := parts + [Part(MaxLength, IntLit(f.maxLength))]; }
    assert parts == FlagParts(f);
    if f.relKind != RelNone { parts := parts + [Part(FieldKey.RelKind, Orm(RelKindSource(f.relKind)))]; }
    if f.relTargetTable != "" { parts := parts + [Part(RelTargetTable, Quoted(f.relTargetTable))]; }
    if f.relTargetColumn != "" { parts := parts + [Part(RelTargetColumn, Quoted(f.relTargetColumn))]; }
    if f.relOnDelete != DoNothing { parts := parts + [Part(RelOnDelete, Orm(OnDeleteSource(f.relOnDelete)))]; }
  }

  // ----- Compiling a field literal -----

  const ZERO := FieldState("", "", Auto, false, false, false, 0, RelNone, "", "", DoNothing)

  function KindNamed(name: string): Option<Schema.Kind> {
    match name
    case "KindAuto" => Some(Auto)
    case "KindInt" => Some(Int)
    case "KindChar" => Some(Char)
    case "KindText" => Some(Text)
    case "KindBool" => Some(Bool)
    case "KindDateTime" => Some(DateTime)
    case _ => None
  }

  function RelKindNamed(name: string): Option<Schema.RelKind> {
    if name == "RelFK" then Some(RelFK) else if name == "RelNone" then Some(RelNone) else None
  }

  function OnDeleteNamed(name: string): Option<OnDelete> {
    match name
    case "OnDeleteCascade" => Some(Cascade)
    case "OnDeleteSetNull" => Some(SetNull)
    case "OnDeleteRestrict" => Some(Restrict)
    case "OnDeleteDoNothing" => Some(DoNothing)
    case _ => None
  }

  /** One key of the literal; None when it does not compile. */
  function SetKey(key: FieldKey, e: Expr, f: FieldState): Option<FieldState> {
    match key
    case Name => if e.Quoted? then Some(f.(name := e.text)) else None
    case Column => if e.Quoted? then Some(f.(column := e.text)) else None
    case Kind => if e.Orm? && KindNamed(e.name).Some? then Some(f.(kind := KindNamed(e.name).value)) else None
    case PrimaryKey => if e.TrueLit? then Some(f.(primaryKey := true)) else None
    case Null => if e.TrueLit? then Some(f.(nullable := true)) else None
    case Unique => if e.TrueLit? then Some(f.(unique := true)) else None
    case MaxLength => if e.IntLit? then Some(f.(maxLength := e.n)) else None
    case RelKind => if e.Orm? && RelKindNamed(e.name).Some? then Some(f.(relKind := RelKindNamed(e.name).value))
      else None
    case RelTargetTable => if e.Quoted? then Some(f.(relTargetTable := e.text)) else None
    case RelTargetColumn => if e.Quoted? then Some(f.(relTargetColumn := e.text)) else None
    case RelOnDelete =>
      if e.Orm? && OnDeleteNamed(e.name).Some? then Some(f.(relOnDelete := OnDeleteNamed(e.name).value)) else None
  }

  datatype Evaluated = Evaluated(field: FieldState, seen: set<FieldKey>)

  /** The literal evaluated key by key from the zero value; a key may occur only once. */
  function EvalParts(parts: FieldLit): Option<Evaluated> {
    if parts == [] then Some(Evaluated(ZERO, {}))
    else match EvalParts(parts[..|parts| - 1])
      case None => None
      case Some(e) => EvalPart(e, parts[|parts| - 1])
  }

  function EvalPart(e: Evaluated, p: Part): Option<Evaluated> {
    if p.key in e.seen then None
    else match SetKey(p.key, p.value, e.field)
      case None => None
      case Some(g) => Some(Evaluated(g, e.seen + {p.key}))
  }

  function EvalField(lit: FieldLit): Option<FieldState> {
    match EvalParts(lit)
    case None => None
    case Some(e) => Some(e.field)
  }

  lemma KindRoundTrip(k: Schema.Kind)
    ensures KindNamed(KindSource(k)) == if k.Unknown? then None else Some(k)
  {
    match k
    case Unknown(code) => assert KindSource(k)[4] == 'K';
    case Auto => assert KindSource(k) == "KindAuto";
    case Int => assert KindSource(k) == "KindInt";
    case Char => assert KindSource(k) == "KindChar";
    case Text => assert KindSource(k) == "KindText";
    case Bool => assert KindSource(k) == "KindBool";
    case DateTime => assert KindSource(k) == "KindDateTime";
  }

  function Rank(key: FieldKey): nat {
    match key
    case Name => 0 case Column => 1 case Kind => 2 case PrimaryKey => 3 case Null => 4 case Unique => 5
    case MaxLength => 6 case RelKind => 7 case RelTargetTable => 8 case RelTargetColumn => 9 case RelOnDelete => 10
  }

  /** The parts evaluate to f and use only the first n keys. */
  ghost predicate Evaluates(parts: FieldLit, f: FieldState, n: nat) {
    EvalParts(parts).Some? && EvalParts(parts).value.field == f
    && forall key :: key in EvalParts(parts).value.seen ==> Rank(key) < n
  }

  lemma AddEvaluates(parts: FieldLit, c: bool, key: FieldKey, e: Expr, f: FieldState, g: FieldState)
    requires Evaluates(parts, f, Rank(key))
    requires if c then SetKey(key, e, f) == Some(g) else f == g
    ensures Evaluates(Add(parts, c, key, e), g, Rank(key) + 1)
  {
    if c {
      var more := parts + [Part(key, e)];
      assert more[..|more| - 1] == parts;
      assert EvalParts(more) == EvalPart(EvalParts(parts).value, Part(key, e));
    }
  }

  lemma NamesEvaluate(f: FieldState, g: FieldState)
    requires g == ZERO.(name := f.name, column := f.column, kind := f.kind)
    ensures if f.kind.Unknown? then EvalParts(NamedParts(f)) == None else Evaluates(NamedParts(f), g, 3)
  {
    var named := ZERO.(name := f.name);
    var placed := named.(column := f.column);
    var p1 := Add([], true, Name, Quoted(f.name));
    var p2 := Add(p1, true, Column, Quoted(f.column));
    AddEvaluates([], true, Name, Quoted(f.name), ZERO, named);
    AddEvaluates(p1, true, Column, Quoted(f.column), named, placed);
    KindRoundTrip(f.kind);
    var kind := Orm(KindSource(f.kind));
    if f.kind.Unknown? {
      var p3 := p2 + [Part(FieldKey.Kind, kind)];
      assert p3[..|p3| - 1] == p2;
      assert EvalParts(p3) == EvalPart(EvalParts(p2).value, Part(FieldKey.Kind, kind));
    } else {
      AddEvaluates(p2, true, FieldKey.Kind, kind, placed, g);
    }
  }

  lemma FlagsEvaluate(f: FieldState, g: FieldState, h: FieldState)
    requires g == ZERO.(name := f.name, column := f.column, kind := f.kind) && Evaluates(NamedParts(f), g, 3)
    requires h == f.(relKind := RelNone, relTargetTable := "", relTargetColumn := "", relOnDelete := DoNothing)
    ensures Evaluates(FlagParts(f), h, 7)
  {
    var g1 := g.(primaryKey := f.primaryKey);
    var g2 := g1.(nullable := f.nullable);
    var g3 := g2.(unique := f.unique);
    var p1 := Add(NamedParts(f), f.primaryKey, PrimaryKey, TrueLit);
    var p2 := Add(p1, f.nullable, Null, TrueLit);
    var p3 := Add(p2, f.unique, Unique, TrueLit);
    AddEvaluates(NamedParts(f), f.primaryKey, PrimaryKey, TrueLit, g, g1);
    AddEvaluates(p1, f.nullable, Null, TrueLit, g1, g2);
    AddEvaluates(p2, f.unique, Unique, TrueLit, g2, g3);
    AddEvaluates(p3, f.maxLength != 0, MaxLength, IntLit(f.maxLength), g3, h);
  }

  lemma TargetEvaluates(f: FieldState, h: FieldState)
    requires h == f.(relKind := RelNone, relTargetTable := "", relTargetColumn := "", relOnDelete := DoNothing)
    requires Evaluates(FlagParts(f), h, 7)
    ensures Evaluates(TargetParts(f), f.(relOnDelete := DoNothing), 10)
  {
    var h1 := h.(relKind := f.relKind);
    var h2 := h1.(relTargetTable := f.relTargetTable);
    var p1 := Add(FlagParts(f), f.relKind != RelNone, FieldKey.RelKind, Orm(RelKindSource(f.relKind)));
    var p2 := Add(p1, f.relTargetTable != "", RelTargetTable, Quoted(f.relTargetTable));
    AddEvaluates(FlagParts(f), f.relKind != RelNone, FieldKey.RelKind, Orm(RelKindSource(f.relKind)), h, h1);
    AddEvaluates(p1, f.relTargetTable != "", RelTargetTable, Quoted(f.relTargetTable), h1, h2);
    AddEvaluates(p2, f.relTargetColumn != "", RelTargetColumn, Quoted(f.relTargetColumn), h2,
      f.(relOnDelete := DoNothing));
  }

  lemma OnDeleteRoundTrip(od: OnDelete)
    ensures OnDeleteNamed(OnDeleteSource(od)) == Some(od)
  {
  }

  lemma RelationEvaluates(f: FieldState)
    requires Evaluates(TargetParts(f), f.(relOnDelete := DoNothing), 10)
    ensures Evaluates(PartsOf(f), f, 11)
  {
    OnDeleteRoundTrip(f.relOnDelete);
    AddEvaluates(TargetParts(f), f.relOnDelete != DoNothing, RelOnDelete, Orm(OnDeleteSource(f.relOnDelete)),
                 f.(relOnDelete := DoNothing), f);
  }

  lemma FailsOn(parts: FieldLit, c: bool, key: FieldKey, e: Expr)
    requires EvalParts(parts) == None
    ensures EvalParts(Add(parts, c, key, e)) == None
  {
    assert (parts + [Part(key, e)])[..|parts|] == parts;
  }

  lemma UnknownKindFails(f: FieldState)
    requires EvalParts(NamedParts(f)) == None
    ensures EvalParts(PartsOf(f)) == None
  {
    var p1 := Add(NamedParts(f), f.primaryKey, PrimaryKey, TrueLit);
    var p2 := Add(p1, f.nullable, Null, TrueLit);
    var p3 := Add(p2, f.unique, Unique, TrueLit);
    FailsOn(NamedParts(f), f.primaryKey, PrimaryKey, TrueLit);
    FailsOn(p1, f.nullable, Null, TrueLit);
    FailsOn(p2, f.unique, Unique, TrueLit);
    FailsOn(p3, f.maxLength != 0, MaxLength, IntLit(f.maxLength));
    var p4 := Add(FlagParts(f), f.relKind != RelNone, FieldKey.RelKind, Orm(RelKindSource(f.relKind)));
    var p5 := Add(p4, f.relTargetTable != "", RelTargetTable, Quoted(f.relTargetTable));
    FailsOn(FlagParts(f), f.relKind != RelNone, FieldKey.RelKind, Orm(RelKindSource(f.relKind)));
    FailsOn(p4, f.relTargetTable != "", RelTargetTable, Quoted(f.relTargetTable));
    FailsOn(p5, f.relTargetColumn != "", RelTargetColumn, Quoted(f.relTargetColumn));
    FailsOn(TargetParts(f), f.relOnDelete != DoNothing, RelOnDelete, Orm(OnDeleteSource(f.relOnDelete)));
  }

  /** Evaluating the printed field gives the field back exactly when its kind has a
      name: leaving a key out always stands for the zero value. */
  lemma FieldRoundTrip(f: FieldState)
    ensures EvalField(PartsOf(f)) == if f.kind.Unknown? then None else Some(f)
  {
    var g := ZERO.(name := f.name, column := f.column, kind := f.kind);
    var h := f.(relKind := RelNone, relTargetTable := "", relTargetColumn := "", relOnDelete := DoNothing);
    NamesEvaluate(f, g);
    if f.kind.Unknown? {
      UnknownKindFails(f);
    } else {
      FlagsEvaluate(f, g, h);
      TargetEvaluates(f, h);
      RelationEvaluates(f);
    }
  }

  // ----- Operations and files -----

  function Lits(fields: seq<FieldState>): (r: seq<FieldLit>)
    ensures |r| == |fields| && forall i :: 0 <= i < |r| ==> r[i] == PartsOf(fields[i])
  {
    seq(|fields|, i requires 0 <= i < |fields| => PartsOf(fields[i]))
  }

  function OpLitOf(op: Operation): OpLit {
    match op
    case CreateModel(name, table, fields) =>
      OpLit("CreateModel", [Entry("Name", Words(name)), Entry("Table", Words(table))]
                           + if |fields| > 0 then [Entry("Fields", FieldList(Lits(fields)))] else [])
    case DeleteModel(name) => OpLit("DeleteModel", [Entry("Name", Words(name))])
    case AddField(model, field) => OpLit("AddField",
      [Entry("Model", Words(model)), Entry("Field", Inline(PartsOf(field)))])
    case RemoveField(model, name) => OpLit("RemoveField", [Entry("Model", Words(model)), Entry("Field", Words(name))])
    case AlterField(model, field) => OpLit("AlterField",
      [Entry("Model", Words(model)), Entry("Field", Inline(PartsOf(field)))])
  }

  /** renderOperation. */
  method RenderOperation(op: Operation) returns (lit: OpLit)
    ensures lit == OpLitOf(op)
  {
    match op {
      case CreateModel(name, table, fields) =>
        var entries := [Entry("Name", Words(name)), Entry("Table", Words(table))];
        if |fields| > 0 {
          var elems: seq<FieldLit> := [];
          for i := 0 to |fields|
            invariant elems == Lits(fields)[..i]
          {
            var parts := FieldStateParts(fields[i]);
            elems := elems + [parts];
          }
          assert Lits(fields)[..|fields|] == Lits(fields);
          entries := entries + [Entry("Fields", FieldList(elems))];
        }
        lit := OpLit("CreateModel", entries);
      case DeleteModel(name) =>
        lit := OpLit("DeleteModel", [Entry("Name", Words(name))]);
      case AddField(model, field) =>
        var parts := FieldStateParts(field);
        lit := OpLit("AddField", [Entry("Model", Words(model)), Entry("Field", Inline(parts))]);
      case RemoveField(model, name) =>
        lit := OpLit("RemoveField", [Entry("Model", Words(model)), Entry("Field", Words(name))]);
      case AlterField(model, field) =>
        var parts := FieldStateParts(field);
        lit := OpLit("AlterField", [Entry("Model", Words(model)), Entry("Field", Inline(parts))]);
    }
  }

  function EvalFields(lits: seq<FieldLit>): Option<seq<FieldState>> {
    if lits == [] then Some([])
    else match EvalField(lits[0])
      case None => None
      case Some(f) =>
        match EvalFields(lits[1..])
        case None => None
        case Some(rest) => Some([f] + rest)
  }

  /** The operation a literal denotes; entries left out are zero. */
  function EvalOp(lit: OpLit): Option<Operation> {
    var e := lit.entries;
    match lit.typeName
    case "CreateModel" =>
      if |e| >= 2 && e[0].key == "Name" && e[0].value.Words? && e[1].key == "Table" && e[1].value.Words? then
        if |e| == 2 then Some(CreateModel(e[0].value.text, e[1].value.text, []))
        else if |e| == 3 && e[2].key == "Fields" && e[2].value.FieldList? && EvalFields(e[2].value.elems).Some? then
          Some(CreateModel(e[0].value.text, e[1].value.text, EvalFields(e[2].value.elems).value))
        else None
      else None
    case "DeleteModel" =>
      if |e| == 1 && e[0].key == "Name" && e[0].value.Words? then Some(DeleteModel(e[0].value.text)) else None
    case "RemoveField" =>
      if |e| == 2 && e[0].key == "Model" && e[0].value.Words? && e[1].key == "Field" && e[1].value.Words? then
        Some(RemoveField(e[0].value.text, e[1].value.text))
      else None
    case "AddField" => EvalFieldOp(e, (model, field) => AddField(model, field))
    case "AlterField" => EvalFieldOp(e, (model, field) => AlterField(model, field))
    case _ => None
  }

  function EvalFieldOp(e: seq<Entry>, make: (string, FieldState) -> Operation): Option<Operation> {
    if |e| == 2 && e[0].key == "Model" && e[0].value.Words? && e[1].key == "Field" && e[1].value.Inline?
       && EvalField(e[1].value.field).Some?
    then Some(make(e[0].value.text, EvalField(e[1].value.field).value))
    else None
  }

  /** The fields an operation carries. */
  function FieldsOf(op: Operation): seq<FieldState> {
    match op
    case CreateModel(_, _, fields) => fields
    case AddField(_, field) => [field]
    case AlterField(_, field) => [field]
    case _ => []
  }

  predicate KindsNamed(fields: seq<FieldState>) {
    forall f :: f in fields ==> !f.kind.Unknown?
  }

  /** One more literal in front, whatever its parts. */
  lemma FieldsStep(lits: seq<FieldLit>, fields: seq<FieldState>)
    requires lits != [] && fields != []
    requires EvalField(lits[0]) == if !fields[0].kind.Unknown? then Some(fields[0]) else None
    requires EvalFields(lits[1..]) == if KindsNamed(fields[1..]) then Some(fields[1..]) else None
    ensures EvalFields(lits) == if KindsNamed(fields) then Some(fields) else None
  {
    FieldsNamedCons(fields);
    assert [fields[0]] + fields[1..] == fields;
  }

  lemma FieldsNamedCons(fields: seq<FieldState>)
    requires fields != []
    ensures KindsNamed(fields) <==> !fields[0].kind.Unknown? && KindsNamed(fields[1..])
  {
    assert forall f :: f in fields <==> f == fields[0] || f in fields[1..];
  }

  lemma {:induction false} FieldsRoundTrip(fields: seq<FieldState>)
    ensures EvalFields(Lits(fields)) == if KindsNamed(fields) then Some(fields) else None
  {
    if fields != [] {
      FieldRoundTrip(fields[0]);
      FieldsRoundTrip(fields[1..]);
      assert Lits(fields)[1..] == Lits(fields[1..]);
      FieldsStep(Lits(fields), fields);
    }
  }

  lemma OpRoundTrip(op: Operation)
    ensures EvalOp(OpLitOf(op)) == if KindsNamed(FieldsOf(op)) then Some(op) else None
  {
    match op
    case CreateModel(name, table, fields) => CreateRoundTrip(name, table, fields);
    case AddField(model, field) => FieldOpRoundTrip(op, model, field);
    case AlterField(model, field) => FieldOpRoundTrip(op, model, field);
    case _ =>
  }

  lemma CreateRoundTrip(name: string, table: string, fields: seq<FieldState>)
    ensures var op := CreateModel(name, table, fields);
            EvalOp(OpLitOf(op)) == if KindsNamed(fields) then Some(op) else None
  {
    FieldsRoundTrip(fields);
  }

  lemma FieldOpRoundTrip(op: Operation, model: string, field: FieldState)
    requires op == AddField(model, field) || op == AlterField(model, field)
    ensures EvalOp(OpLitOf(op)) == if field.kind.Unknown? then None else Some(op)
  {
    FieldRoundTrip(field);
  }

  // ----- The orm import -----

  predicate UsesFields(op: Operation) {
    op.CreateModel? || op.AddField? || op.AlterField?
  }

  method MigrationUsesFields(m: Migration) returns (b: bool)
    ensures b <==> AnyUsesFields(m.operations)
  {
    for i := 0 to |m.operations|
      invariant forall k :: 0 <= k < i ==> !UsesFields(m.operations[k])
    {
      if UsesFields(m.operations[i]) { return true; }
    }
    b := false;
  }

  predicate NamesOrm(lit: FieldLit) {
    exists i :: 0 <= i < |lit| && lit[i].value.Orm?
  }

  /** Some constant of package orm occurs in the operation. */
  predicate OpNamesOrm(lit: OpLit) {
    exists i :: 0 <= i < |lit.entries| && EntryNamesOrm(lit.entries[i])
  }

  predicate EntryNamesOrm(e: Entry) {
    match e.value
    case Words(_) => false
    case FieldList(elems) => exists i :: 0 <= i < |elems| && NamesOrm(elems[i])
    case Inline(field) => NamesOrm(field)
  }

  lemma PartsNameOrm(f: FieldState)
    ensures NamesOrm(PartsOf(f))
  {
    var named := NamedParts(f);
    assert named[2].value.Orm?;
    assert forall i :: 0 <= i < 3 ==> FlagParts(f)[i] == named[i];
    assert TargetParts(f)[2] == FlagParts(f)[2];
    assert PartsOf(f)[2] == TargetParts(f)[2];
  }

  lemma OpNamesOrmIff(op: Operation)
    ensures OpNamesOrm(OpLitOf(op)) <==> FieldsOf(op) != []
  {
    var e := OpLitOf(op).entries;
    match op
    case CreateModel(_, _, fields) =>
      if fields != [] {
        PartsNameOrm(fields[0]);
        assert NamesOrm(Lits(fields)[0]);
        assert EntryNamesOrm(e[2]);
      }
    case AddField(_, field) =>
      PartsNameOrm(field);
      assert EntryNamesOrm(e[1]);
    case AlterField(_, field) =>
      PartsNameOrm(field);
      assert EntryNamesOrm(e[1]);
    case _ =>
  }

  // ----- Migrations -----

  function OpLits(ops: seq<Operation>): (r: seq<OpLit>)
    ensures |r| == |ops| && forall i :: 0 <= i < |r| ==> r[i] == OpLitOf(ops[i])
  {
    seq(|ops|, i requires 0 <= i < |ops| => OpLitOf(ops[i]))
  }

  ghost predicate FileUsesOrm(f: File) {
    exists i :: 0 <= i < |f.operations| && OpNamesOrm(f.operations[i])
  }

  function EvalOps(lits: seq<OpLit>): Option<seq<Operation>> {
    if lits == [] then Some([])
    else match EvalOp(lits[0])
      case None => None
      case Some(op) =>
        match EvalOps(lits[1..])
        case None => None
        case Some(rest) => Some([op] + rest)
  }

  /** Compiling the file on its own and running its init: Go refuses an import that is
      missing or not used. */
  ghost function Load(f: File): Option<Migration> {
    if f.importsOrm != FileUsesOrm(f) then None
    else match EvalOps(f.operations)
      case None => None
      case Some(ops) => Some(Migration(f.app, f.name, f.dependencies, ops))
  }

  ghost predicate AnyFields(ops: seq<Operation>) {
    exists i :: 0 <= i < |ops| && FieldsOf(ops[i]) != []
  }

  /** The import is right: some field is printed, or there is nothing to create. */
  ghost predicate ImportRight(ops: seq<Operation>) {
    AnyFields(ops) || forall i :: 0 <= i < |ops| ==> !ops[i].CreateModel?
  }

  ghost predicate AllKindsNamed(ops: seq<Operation>) {
    forall i :: 0 <= i < |ops| ==> KindsNamed(FieldsOf(ops[i]))
  }

  lemma KindsNamedCons(ops: seq<Operation>)
    requires ops != []
    ensures AllKindsNamed(ops) <==> KindsNamed(FieldsOf(ops[0])) && AllKindsNamed(ops[1..])
  {
    if AllKindsNamed(ops) {
      forall i | 0 <= i < |ops[1..]| ensures KindsNamed(FieldsOf(ops[1..][i])) {
        assert ops[1..][i] == ops[i + 1];
      }
    }
    if KindsNamed(FieldsOf(ops[0])) && AllKindsNamed(ops[1..]) {
      forall i | 0 <= i < |ops| ensures KindsNamed(FieldsOf(ops[i])) {
        assert i > 0 ==> ops[i] == ops[1..][i - 1];
      }
    }
  }

  lemma EvalOpsCons(lits: seq<OpLit>)
    requires lits != []
    ensures EvalOps(lits) == match (EvalOp(lits[0]), EvalOps(lits[1..]))
                             case (Some(op), Some(rest)) => Some([op] + rest)
                             case _ => None
  {
  }

  lemma {:induction false} OpsRoundTrip(ops: seq<Operation>)
    ensures EvalOps(OpLits(ops)) == if AllKindsNamed(ops) then Some(ops) else None
  {
    if ops != [] {
      OpRoundTrip(ops[0]);
      OpsRoundTrip(ops[1..]);
      KindsNamedCons(ops);
      EvalOpsCons(OpLits(ops));
      assert OpLits(ops)[0] == OpLitOf(ops[0]) && OpLits(ops)[1..] == OpLits(ops[1..]);
      assert [ops[0]] + ops[1..] == ops;
    }
  }

  lemma UsesOrmIff(f: File, ops: seq<Operation>)
    requires f.operations == OpLits(ops)
    ensures FileUsesOrm(f) <==> AnyFields(ops)
  {
    forall i | 0 <= i < |ops|
      ensures OpNamesOrm(f.operations[i]) <==> FieldsOf(ops[i]) != []
    {
      OpNamesOrmIff(ops[i]);
    }
  }

  predicate AnyUsesFields(ops: seq<Operation>) {
    exists i :: 0 <= i < |ops| && UsesFields(ops[i])
  }

  /** The file of a migration. */
  function FileOf(m: Migration): File {
    File(AnyUsesFields(m.operations), ["migration"], m.app, m.name, m.dependencies, OpLits(m.operations))
  }

  lemma FileLoadsIff(m: Migration)
    ensures Load(FileOf(m)) == if ImportRight(m.operations) && AllKindsNamed(m.operations) then Some(m) else None
  {
    OpsRoundTrip(m.operations);
    UsesOrmIff(FileOf(m), m.operations);
    ImportIff(m.operations);
  }

  /** RenderMigration, up to gofmt and quoting: loading the file on its own gives the
      migration back exactly when every field kind has a name and a CreateModel without
      fields is not all there is to print. */
  method RenderMigration(m: Migration) returns (f: File)
    ensures f == FileOf(m)
    ensures Load(f) == if ImportRight(m.operations) && AllKindsNamed(m.operations) then Some(m) else None
  {
    var needsOrm := MigrationUsesFields(m);
    var ops: seq<OpLit> := [];
    for i := 0 to |m.operations|
      invariant ops == OpLits(m.operations)[..i]
    {
      var lit := RenderOperation(m.operations[i]);
      ops := ops + [lit];
    }
    assert OpLits(m.operations)[..|m.operations|] == OpLits(m.operations);
    f := File(needsOrm, ["migration"], m.app, m.name, m.dependencies, ops);
    FileLoadsIff(m);
  }

  /** A CreateModel without fields prints an import that nothing uses, and a field of an
      unknown kind a name that is none: neither file compiles. */
  method UnloadableMigrations() returns (noFields: File, noKind: File)
    ensures Load(noFields) == None && Load(noKind) == None
  {
    var create, odd := CreateModel("M", "m", []), AddField("M", TextField("A", "a").(kind := Kind.Unknown(99)));
    noFields := RenderMigration(Migration("app", "0001_initial", [], [create]));
    noKind := RenderMigration(Migration("app", "0002_change", [], [odd]));
    assert [create][0].CreateModel? && FieldsOf([create][0]) == [] && FieldsOf([odd][0]) == [odd.field];
  }

  lemma ImportIff(ops: seq<Operation>)
    ensures ImportRight(ops) <==> (AnyUsesFields(ops) <==> AnyFields(ops))
  {
    if AnyFields(ops) {
      var i :| 0 <= i < |ops| && FieldsOf(ops[i]) != [];
      assert UsesFields(ops[i]);
    } else {
      forall i | 0 <= i < |ops| ensures UsesFields(ops[i]) <==> ops[i].CreateModel? {
        assert FieldsOf(ops[i]) == [];
      }
    }
  }

  // ----- Generated migrations -----

  /** Every model has a field, and every field kind has a name. */
  ghost predicate Printable(s: State) {
    forall m :: m in s.models ==> s.models[m].fields != [] && KindsNamed(s.models[m].fields)
  }

  ghost predicate OpPrintable(op: Operation) {
    KindsNamed(FieldsOf(op)) && (op.CreateModel? ==> FieldsOf(op) != [])
  }

  ghost predicate OpsPrintable(ops: seq<Operation>) {
    forall op :: op in ops ==> OpPrintable(op)
  }

  lemma {:induction false} CreatedPrintable(names: seq<string>, was: State, now: State)
    requires (forall n :: n in names ==> n in now.models) && Printable(now)
    ensures OpsPrintable(Autodetect.CreatedOps(names, was, now))
  {
    if names != [] {
      assert names[0] in names;
      CreatedPrintable(names[1..], was, now);
    }
  }

  lemma FieldOpsPrintable(model: string, was: seq<FieldState>, now: seq<FieldState>)
    requires KindsNamed(now)
    ensures OpsPrintable(Autodetect.FieldOps(model, was, now))
  {
    var added, altered := Autodetect.AddedFields(was, now), Autodetect.AlteredFields(was, now);
    EachPrintable(model, added);
    EachPrintable(model, altered);
    assert OpsPrintable(Autodetect.RemoveOps(model, Autodetect.RemovedFields(was, now)));
    BothPrintable(Autodetect.AlterOps(model, altered), Autodetect.RemoveOps(model, Autodetect.RemovedFields(was, now)));
    BothPrintable(Autodetect.AddOps(model, added),
                  Autodetect.AlterOps(model, altered)
                    + Autodetect.RemoveOps(model, Autodetect.RemovedFields(was, now)));
  }

  lemma EachPrintable(model: string, fields: seq<FieldState>)
    requires KindsNamed(fields)
    ensures OpsPrintable(Autodetect.AddOps(model, fields)) && OpsPrintable(Autodetect.AlterOps(model, fields))
  {
    forall i | 0 <= i < |fields|
      ensures OpPrintable(AddField(model, fields[i])) && OpPrintable(AlterField(model, fields[i]))
    {
      assert fields[i] in fields;
    }
  }

  lemma BothPrintable(a: seq<Operation>, b: seq<Operation>)
    requires OpsPrintable(a) && OpsPrintable(b)
    ensures OpsPrintable(a + b)
  {
  }

  lemma {:induction false} ChangedPrintable(names: seq<string>, was: State, now: State)
    requires (forall n :: n in names ==> n in now.models) && Printable(now)
    ensures OpsPrintable(Autodetect.ChangedOps(names, was, now))
  {
    if names != [] {
      assert names[0] in names;
      if names[0] in was.models {
        FieldOpsPrintable(names[0], was.models[names[0]].fields, now.models[names[0]].fields);
      }
      ChangedPrintable(names[1..], was, now);
    }
  }

  lemma {:induction false} DeletedPrintable(names: seq<string>, now: State)
    ensures OpsPrintable(Autodetect.DeletedOps(names, now))
  {
    if names != [] {
      DeletedPrintable(names[1..], now);
    }
  }

  /** Whatever Diff generates towards the state of a registry, whose models all have a
      primary key, prints to a file that loads on its own. */
  lemma GeneratedLoads(was: State, now: State)
    requires ModelRegistry.Sound(now)
    ensures ImportRight(Autodetect.Diff(was, now)) && AllKindsNamed(Autodetect.Diff(was, now))
  {
    forall m | m in now.models ensures now.models[m].fields != [] && KindsNamed(now.models[m].fields) {
      assert ModelRegistry.ModelSound(now.models[m], m);
      assert forall f :: f in now.models[m].fields ==> ModelRegistry.FieldSound(f);
    }
    CreatedPrintable(now.order, was, now);
    ChangedPrintable(now.order, was, now);
    DeletedPrintable(was.order, now);
    var ops := Autodetect.Diff(was, now);
    assert OpsPrintable(ops);
    forall i | 0 <= i < |ops| ensures OpPrintable(ops[i]) {
      assert ops[i] in ops;
    }
  }

  // ----- The package of an app -----

  /** Some name is declared by two of the files. */
  predicate Redeclares(files: seq<File>) {
    exists i, j, n :: 0 <= i < j < |files| && n in files[i].declares && n in files[j].declares
  }

  ghost function LoadEach(files: seq<File>): Option<seq<Migration>> {
    if files == [] then Some([])
    else match (Load(files[0]), LoadEach(files[1..]))
      case (Some(m), Some(rest)) => Some([m] + rest)
      case _ => None
  }

  /** Compiling the files of one package and running their inits. */
  ghost function LoadPackage(files: seq<File>): Option<seq<Migration>> {
    if Redeclares(files) then None else LoadEach(files)
  }

  function FilesOf(migs: seq<Migration>): (files: seq<File>)
    ensures |files| == |migs| && forall i :: 0 <= i < |migs| ==> files[i] == FileOf(migs[i])
  {
    seq(|migs|, i requires 0 <= i < |migs| => FileOf(migs[i]))
  }

  ghost predicate Loadable(m: Migration) {
    ImportRight(m.operations) && AllKindsNamed(m.operations)
  }

  ghost predicate AllLoadable(migs: seq<Migration>) {
    forall i :: 0 <= i < |migs| ==> Loadable(migs[i])
  }

  lemma FilesOfCons(migs: seq<Migration>)
    requires migs != []
    ensures FilesOf(migs) != [] && FilesOf(migs)[0] == FileOf(migs[0]) && FilesOf(migs)[1..] == FilesOf(migs[1..])
  {
  }

  lemma LoadEachValues(files: seq<File>, m: Migration, rest: seq<Migration>, first: bool, others: bool)
    requires files != [] && Load(files[0]) == (if first then Some(m) else None)
    requires LoadEach(files[1..]) == (if others then Some(rest) else None)
    ensures LoadEach(files) == if first && others then Some([m] + rest) else None
  {
    LoadEachCons(files);
  }

  lemma LoadEachNext(migs: seq<Migration>)
    requires migs != []
    requires LoadEach(FilesOf(migs[1..])) == if AllLoadable(migs[1..]) then Some(migs[1..]) else None
    ensures LoadEach(FilesOf(migs)) == if AllLoadable(migs) then Some(migs) else None
  {
    FilesOfCons(migs);
    FileLoadsIff(migs[0]);
    LoadEachValues(FilesOf(migs), migs[0], migs[1..], Loadable(migs[0]), AllLoadable(migs[1..]));
    AllLoadableCons(migs);
    HeadAndTail(migs);
  }

  lemma HeadAndTail(migs: seq<Migration>)
    requires migs != []
    ensures [migs[0]] + migs[1..] == migs
  {
  }

  lemma {:induction false} LoadEachIff(migs: seq<Migration>)
    ensures LoadEach(FilesOf(migs)) == if AllLoadable(migs) then Some(migs) else None
  {
    if migs != [] {
      LoadEachIff(migs[1..]);
      LoadEachNext(migs);
    }
  }

  lemma LoadEachCons(files: seq<File>)
    requires files != []
    ensures LoadEach(files) == match (Load(files[0]), LoadEach(files[1..]))
                               case (Some(m), Some(rest)) => Some([m] + rest)
                               case _ => None
  {
  }

  lemma AllLoadableCons(migs: seq<Migration>)
    requires migs != []
    ensures AllLoadable(migs) <==> Loadable(migs[0]) && AllLoadable(migs[1..])
  {
    assert forall i :: 0 <= i < |migs| - 1 ==> migs[1..][i] == migs[i + 1];
    assert forall i :: 0 < i < |migs| ==> migs[i] == migs[1..][i - 1];
  }

  /** Every file declares the same variable: a package loads back to its migrations
      exactly when it has at most one and that one loads. */
  lemma PackageLoadsIff(migs: seq<Migration>)
    ensures LoadPackage(FilesOf(migs)) == if |migs| <= 1 && AllLoadable(migs) then Some(migs) else None
  {
    LoadEachIff(migs);
    if |migs| > 1 {
      assert "migration" in FilesOf(migs)[0].declares && "migration" in FilesOf(migs)[1].declares;
    }
  }

  lemma HistoryLoadable(app: string, migs: seq<Migration>, registries: seq<State>, i: nat)
    requires History(app, migs, registries) && i < |migs| && ModelRegistry.Sound(registries[i])
    ensures Loadable(migs[i])
  {
    HistoryUpTo(app, migs, registries, i + 1);
    HistoryLastMade(app, migs[..i + 1], registries[..i + 1]);
    GeneratedLoads(StateFromMigrations(migs[..i + 1][..i]).value, registries[i]);
  }

  lemma HistoryLastMade(app: string, migs: seq<Migration>, registries: seq<State>)
    requires History(app, migs, registries) && migs != []
    ensures var n := |migs| - 1;
            && |registries| == |migs| && StateFromMigrations(migs[..n]).Some?
            && migs[n].operations == Autodetect.Diff(StateFromMigrations(migs[..n]).value, registries[n])
  {
  }

  /** The migrations made for an app are all written to one package: it compiles, and
      loads them back, until the second is made. */
  lemma GeneratedPackageIff(app: string, migs: seq<Migration>, registries: seq<State>)
    requires History(app, migs, registries) && forall i :: 0 <= i < |registries| ==> ModelRegistry.Sound(registries[i])
    ensures LoadPackage(FilesOf(migs)) == if |migs| <= 1 then Some(migs) else None
  {
    PackageLoadsIff(migs);
    forall i | 0 <= i < |migs| ensures Loadable(migs[i]) {
      HistoryLoadable(app, migs, registries, i);
    }
  }

  lemma MakesNext(app: string, migs: seq<Migration>, registries: seq<State>, current: State) returns (m: Migration)
    requires History(app, migs, registries) && WellFormed(current)
    requires !Autodetect.SameSchema(current, LastOf(registries))
    ensures History(app, migs + [m], registries + [current])
  {
    MakeAgain(app, migs, registries, current);
    m := Make(app, current, migs).migration;
  }

  function OneModel(fields: seq<FieldState>): State {
    State(map["M" := ModelState("M", "m", fields)], ["M"])
  }

  lemma FieldsDiffer(a: FieldState, b: FieldState)
    requires a.name != b.name
    ensures WellFormed(OneModel([a])) && WellFormed(OneModel([a, b]))
    ensures !Autodetect.SameSchema(OneModel([a]), EMPTY) && !Autodetect.SameSchema(OneModel([a, b]), OneModel([a]))
  {
    assert "M" in OneModel([a]).models && "M" !in EMPTY.models;
    assert multiset([a, b])[b] == 1 && multiset([a])[b] == 0;
    assert "M" in OneModel([a, b]).models;
    assert multiset(OneModel([a, b]).models["M"].fields) != multiset(OneModel([a]).models["M"].fields);
  }

  /** A model, and the same with one more field: both migrations are made, and their
      package does not compile. */
  lemma SecondFileRedeclares() returns (migs: seq<Migration>, registries: seq<State>)
    ensures History("app", migs, registries) && |migs| == 2 && LoadPackage(FilesOf(migs)) == None
  {
    var id, more := IdField(), TextField("Note", "note").(nullable := true);
    FieldsDiffer(id, more);
    var first := MakesNext("app", [], [], OneModel([id]));
    var second := MakesNext("app", [] + [first], [] + [OneModel([id])], OneModel([id, more]));
    migs, registries := [] + [first] + [second], [] + [OneModel([id])] + [OneModel([id, more])];
    PackageLoadsIff(migs);
  }
}
