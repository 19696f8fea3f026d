/** Registering models and taking a project state from them (orm/registry.go,
    StateFromRegistry of migrations/state.go). */
module ModelRegistry {
  import opened Schema
  import Strings

  datatype GoType = GoType(package: string, name: string)

  datatype Relation = Relation(kind: RelKind, targetType: GoType, onDelete: OnDelete)

  /** What parsing a struct field and its tag yields. */
  datatype FieldSpec = FieldSpec(
    name: string, column: string, kind: Kind, primaryKey: bool, nullable: bool, unique: bool, maxLength: int,
    rel: Option<Relation>, hasDefault: bool)

  datatype Parsed = Skipped | Malformed | Kept(spec: FieldSpec)

  /** A field of a registered model: its choices, and the place of the model its
      relation was resolved to. */
  datatype Field = Field(spec: FieldSpec, choices: seq<string>, target: Option<nat>)

  datatype Model = Model(name: string, table: string, fields: seq<Field>, pk: nat, goType: GoType)

  /** The argument of Register: choices lists the map of Choices() in some order. */
  datatype Input =
    | NoStructPointer
    | StructPointer(goType: GoType, parsed: seq<Parsed>, metaTable: string, choices: seq<(string, seq<string>)>)

  datatype RegisterError =
    | Frozen | NeedsStructPointer | AlreadyRegistered | BadField | MultiplePrimaryKeys | NoPrimaryKey
    | PrimaryKeyDefault | DuplicateColumn | UnknownChoiceField | ChoicesNeedString

  datatype Result<+T> = Ok(value: T) | Err(error: RegisterError)

  // ----- Building a model -----

  function KeptSpecs(parsed: seq<Parsed>): seq<FieldSpec> {
    if parsed == [] then []
    else KeptSpecs(parsed[..|parsed| - 1]) + if parsed[|parsed| - 1].Kept? then [parsed[|parsed| - 1].spec] else []
  }

  predicate UniqueSpecNames(specs: seq<FieldSpec>) {
    forall i, j :: 0 <= i < j < |specs| ==> specs[i].name != specs[j].name
  }

  predicate UniqueColumns(specs: seq<FieldSpec>) {
    forall i, j :: 0 <= i < j < |specs| ==> specs[i].column != specs[j].column
  }

  /** The field tagged pk; without one, the integer field named ID. */
  ghost predicate IsPrimaryKey(specs: seq<FieldSpec>, pk: nat) {
    && pk < |specs|
    && if specs[pk].primaryKey then forall i :: 0 <= i < |specs| && i != pk ==> !specs[i].primaryKey
       else
         && (forall i :: 0 <= i < |specs| ==> !specs[i].primaryKey)
         && specs[pk].name == "ID" && specs[pk].kind == Int
         && (forall i :: 0 <= i < pk ==> !(specs[i].name == "ID" && specs[i].kind == Int))
  }

  ghost predicate SeveralPrimaryKeys(specs: seq<FieldSpec>) {
    exists i, j :: 0 <= i < j < |specs| && specs[i].primaryKey && specs[j].primaryKey
  }

  function Promoted(spec: FieldSpec): FieldSpec {
    spec.(primaryKey := true, kind := if spec.kind == Int then Auto else spec.kind)
  }

  function Find(specs: seq<FieldSpec>, name: string): (i: nat)
    ensures i <= |specs|
    ensures i < |specs| ==> specs[i].name == name
    ensures forall k :: 0 <= k < i ==> specs[k].name != name
  {
    if specs == [] || specs[0].name == name then 0 else 1 + Find(specs[1..], name)
  }

  predicate ChoiceFits(specs: seq<FieldSpec>, choice: (string, seq<string>)) {
    var i := Find(specs, choice.0);
    i < |specs| && specs[i].kind == Char
  }

  /** What parsing a field guarantees: its kind is the one of a Go type, relations are
      integers, and a string has a positive length. */
  predicate SpecParsed(spec: FieldSpec) {
    && !spec.kind.Auto? && !spec.kind.Unknown?
    && (spec.rel.Some? ==> spec.kind.Int?)
    && (spec.kind.Char? ==> spec.maxLength >= 1)
  }

  predicate SpecsParsed(specs: seq<FieldSpec>) {
    forall i :: 0 <= i < |specs| ==> SpecParsed(specs[i])
  }

  ghost predicate GoStruct(input: Input) {
    input.StructPointer? ==> UniqueSpecNames(KeptSpecs(input.parsed)) && SpecsParsed(KeptSpecs(input.parsed))
  }

  ghost predicate WellParsed(parsed: seq<Parsed>) {
    forall i :: 0 <= i < |parsed| ==> !parsed[i].Malformed?
  }

  ghost function PkOf(specs: seq<FieldSpec>): (r: Option<nat>)
    ensures r.Some? ==> IsPrimaryKey(specs, r.value)
    ensures r.None? ==> forall pk: nat :: !IsPrimaryKey(specs, pk)
  {
    if exists pk: nat :: IsPrimaryKey(specs, pk) then
      var pk: nat :| IsPrimaryKey(specs, pk);
      Some(pk)
    else None
  }

  function WithKey(specs: seq<FieldSpec>, pk: nat): seq<FieldSpec>
    requires pk < |specs|
  {
    specs[pk := Promoted(specs[pk])]
  }

  ghost predicate ChoicesFit(specs: seq<FieldSpec>, choices: seq<(string, seq<string>)>) {
    forall c :: c in choices ==> ChoiceFits(specs, c)
  }

  ghost predicate SpecsFit(specs: seq<FieldSpec>, choices: seq<(string, seq<string>)>) {
    && PkOf(specs).Some? && !specs[PkOf(specs).value].hasDefault
    && UniqueColumns(specs) && ChoicesFit(WithKey(specs, PkOf(specs).value), choices)
  }

  /** A struct that can become a model: its tags parse, it has one primary key, which
      has no default, its columns are distinct, and its choices name string fields. */
  ghost predicate Registrable(input: Input) {
    input.StructPointer? && WellParsed(input.parsed) && SpecsFit(KeptSpecs(input.parsed), input.choices)
  }

  method CollectFields(parsed: seq<Parsed>) returns (r: Result<seq<FieldSpec>>)
    ensures r == if WellParsed(parsed) then Ok(KeptSpecs(parsed)) else Err(BadField)
  {
    var specs := [];
    for i := 0 to |parsed|
      invariant WellParsed(parsed[..i]) && specs == KeptSpecs(parsed[..i])
    {
      assert parsed[..i + 1][..i] == parsed[..i];
      match parsed[i] {
        case Malformed => return Err(BadField);
        case Kept(spec) => specs := specs + [spec];
        case Skipped =>
      }
    }
    assert parsed[..|parsed|] == parsed;
    r := Ok(specs);
  }

  method ResolvePrimaryKey(specs: seq<FieldSpec>) returns (r: Result<nat>)
    ensures r.Ok? ==> PkOf(specs) == Some(r.value)
    ensures r.Err? ==> PkOf(specs) == None
    ensures r.Err? ==> r.error == if SeveralPrimaryKeys(specs) then MultiplePrimaryKeys else NoPrimaryKey
  {
    var pk, count := -1, 0;
    ghost var first := -1;
    for i := 0 to |specs|
      invariant count == 0 ==> pk == -1 && forall k :: 0 <= k < i ==> !specs[k].primaryKey
      invariant count == 1 ==> 0 <= pk < i && forall k :: 0 <= k < i ==> (specs[k].primaryKey <==> k == pk)
      invariant count > 1 ==> 0 <= first < pk < i && specs[first].primaryKey && specs[pk].primaryKey
      invariant count >= 0
    {
      if specs[i].primaryKey {
        first, pk, count := pk, i, count + 1;
      }
    }
    if count > 1 {
      return Err(MultiplePrimaryKeys);
    }
    if count == 0 {
      var i := 0;
      while i < |specs| && pk < 0
        invariant i <= |specs| && -1 <= pk && (pk >= 0 ==> pk < i)
        invariant forall k :: 0 <= k < i && k != pk ==> !(specs[k].name == "ID" && specs[k].kind == Int)
        invariant pk >= 0 ==> pk == i - 1 && specs[pk].name == "ID" && specs[pk].kind == Int
      {
        if specs[i].name == "ID" && specs[i].kind == Int {
          pk := i;
        }
        i := i + 1;
      }
      if pk < 0 {
        return Err(NoPrimaryKey);
      }
    }
    PrimaryKeyIs(specs, pk);
    r := Ok(pk);
  }

  lemma PrimaryKeyIs(specs: seq<FieldSpec>, pk: nat)
    requires IsPrimaryKey(specs, pk)
    ensures PkOf(specs) == Some(pk)
  {
    var other := PkOf(specs).value;
    assert specs[other].primaryKey <==> specs[pk].primaryKey;
    assert other == pk;
  }

  /** The names of the first specs and their positions. */
  ghost predicate NamesUpTo(specs: seq<FieldSpec>, i: nat, byName: map<string, nat>) {
    && i <= |specs|
    && (forall n :: n in byName ==> byName[n] < i && specs[byName[n]].name == n)
    && forall k :: 0 <= k < i ==> specs[k].name in byName
  }

  lemma NamesStep(specs: seq<FieldSpec>, i: nat, byName: map<string, nat>)
    requires NamesUpTo(specs, i, byName) && i < |specs|
    ensures NamesUpTo(specs, i + 1, byName[specs[i].name := i])
  {
  }

  lemma NamesAll(specs: seq<FieldSpec>, byName: map<string, nat>)
    requires UniqueSpecNames(specs) && NamesUpTo(specs, |specs|, byName)
    ensures forall n :: if n in byName then byName[n] == Find(specs, n) < |specs| else Find(specs, n) == |specs|
  {
  }

  /** The columns of the first specs, all different, and their positions. */
  ghost predicate ColumnsUpTo(specs: seq<FieldSpec>, i: nat, byColumn: map<string, nat>) {
    && i <= |specs|
    && (forall c :: c in byColumn ==> byColumn[c] < i && specs[byColumn[c]].column == c)
    && (forall k :: 0 <= k < i ==> specs[k].column in byColumn)
    && forall j, k :: 0 <= j < k < i ==> specs[j].column != specs[k].column
  }

  lemma ColumnsStep(specs: seq<FieldSpec>, i: nat, byColumn: map<string, nat>)
    requires ColumnsUpTo(specs, i, byColumn) && i < |specs|
    ensures if specs[i].column in byColumn then !UniqueColumns(specs)
            else ColumnsUpTo(specs, i + 1, byColumn[specs[i].column := i])
  {
  }

  /** The lookup maps: fails on a repeated column. */
  method IndexColumns(specs: seq<FieldSpec>) returns (ok: bool, byName: map<string, nat>)
    requires UniqueSpecNames(specs)
    ensures ok <==> UniqueColumns(specs)
    ensures ok ==> forall n :: if n in byName then byName[n] == Find(specs, n) < |specs| else Find(specs, n) == |specs|
  {
    byName := map[];
    var byColumn: map<string, nat> := map[];
    ok := true;
    for i := 0 to |specs|
      invariant ColumnsUpTo(specs, i, byColumn)
      invariant NamesUpTo(specs, i, byName)
    {
      NamesStep(specs, i, byName);
      ColumnsStep(specs, i, byColumn);
      byName := byName[specs[i].name := i];
      if specs[i].column in byColumn {
        ok := false;
        return;
      }
      byColumn := byColumn[specs[i].column := i];
    }
    NamesAll(specs, byName);
  }

  /** The choices given for a name: the last that are, or none. */
  function ChoicesFor(name: string, choices: seq<(string, seq<string>)>): seq<string> {
    if choices == [] then []
    else
      var last := choices[|choices| - 1];
      if last.0 == name then last.1 else ChoicesFor(name, choices[..|choices| - 1])
  }

  /** Every field has the choices given for its name. */
  predicate Chosen(fields: seq<Field>, choices: seq<(string, seq<string>)>) {
    forall i :: 0 <= i < |fields| ==> fields[i].choices == ChoicesFor(fields[i].spec.name, choices)
  }

  lemma {:induction false} ChoicesForIs(name: string, choices: seq<(string, seq<string>)>, i: nat)
    requires i < |choices| && choices[i].0 == name && forall k :: i < k < |choices| ==> choices[k].0 != name
    ensures ChoicesFor(name, choices) == choices[i].1
    decreases |choices|
  {
    var n := |choices| - 1;
    if i < n {
      assert choices[n].0 != name;
      ChoicesForIs(name, choices[..n], i);
    }
  }

  lemma ChosenStep(fields: seq<Field>, choices: seq<(string, seq<string>)>, i: nat, f: nat)
    requires i < |choices| && f < |fields| && fields[f].spec.name == choices[i].0 && UniqueSpecNames(Specs(fields))
    requires Chosen(fields, choices[..i])
    ensures Chosen(fields[f := fields[f].(choices := choices[i].1)], choices[..i + 1])
  {
    assert choices[..i + 1][..i] == choices[..i];
    var out := fields[f := fields[f].(choices := choices[i].1)];
    forall k | 0 <= k < |out| ensures out[k].choices == ChoicesFor(out[k].spec.name, choices[..i + 1]) {
      if k != f {
        assert Specs(fields)[k].name != Specs(fields)[f].name;
      }
    }
  }

  method ApplyChoices(specs: seq<FieldSpec>, byName: map<string, nat>, choices: seq<(string, seq<string>)>)
    returns (r: Result<seq<Field>>)
    requires forall n :: if n in byName then byName[n] == Find(specs, n) < |specs| else Find(specs, n) == |specs|
    requires UniqueSpecNames(specs)
    ensures r.Ok? <==> ChoicesFit(specs, choices)
    ensures r.Ok? ==> Specs(r.value) == specs && Unlinked(r.value) && Chosen(r.value, choices)
    ensures r.Err? ==> r.error == UnknownChoiceField || r.error == ChoicesNeedString
  {
    var out := seq(|specs|, i requires 0 <= i < |specs| => Field(specs[i], [], None));
    for i := 0 to |choices|
      invariant |out| == |specs| && (forall k :: 0 <= k < |out| ==> out[k].spec == specs[k]) && Unlinked(out)
      invariant Chosen(out, choices[..i])
      invariant forall c :: c in choices[..i] ==> ChoiceFits(specs, c)
    {
      var (name, values) := choices[i];
      assert choices[i] in choices && (ChoicesFit(specs, choices) ==> ChoiceFits(specs, choices[i]));
      if name !in byName {
        return Err(UnknownChoiceField);
      }
      var f := byName[name];
      if out[f].spec.kind != Char {
        return Err(ChoicesNeedString);
      }
      assert Specs(out) == specs;
      ChosenStep(out, choices, i, f);
      out := out[f := out[f].(choices := values)];
    }
    assert choices[..|choices|] == choices;
    r := Ok(out);
  }

  // ----- Registered models -----

  function Specs(fields: seq<Field>): (r: seq<FieldSpec>)
    ensures |r| == |fields| && forall i :: 0 <= i < |r| ==> r[i] == fields[i].spec
  {
    seq(|fields|, i requires 0 <= i < |fields| => fields[i].spec)
  }

  ghost predicate Unlinked(fields: seq<Field>) {
    forall i :: 0 <= i < |fields| ==> fields[i].target.None?
  }

  /** Every registered model has unique field names and columns, and exactly one
      primary key, which is not a plain integer. */
  ghost predicate ModelOk(m: Model) {
    m.name == m.goType.name && FieldsOk(m.fields, m.pk)
  }

  /** What promotion to the primary key leaves of it. */
  predicate SpecKept(spec: FieldSpec) {
    && !spec.kind.Unknown? && (spec.kind.Auto? ==> spec.primaryKey)
    && (spec.rel.Some? ==> spec.kind.Int? || spec.kind.Auto?)
    && (spec.kind.Char? ==> spec.maxLength >= 1)
  }

  ghost predicate FieldsOk(fields: seq<Field>, pk: nat) {
    var specs := Specs(fields);
    && UniqueSpecNames(specs) && UniqueColumns(specs)
    && pk < |specs| && specs[pk].kind != Int && !specs[pk].hasDefault
    && forall i :: 0 <= i < |specs| ==> (specs[i].primaryKey <==> i == pk) && SpecKept(specs[i])
  }

  /** The model made of a struct. */
  ghost predicate Describes(m: Model, input: Input)
    requires input.StructPointer?
  {
    var specs := KeptSpecs(input.parsed);
    && m.goType == input.goType && m.name == input.goType.name
    && m.table == (if input.metaTable != "" then input.metaTable else Strings.Lower(input.goType.name))
    && PkOf(specs) == Some(m.pk)
    && Specs(m.fields) == WithKey(specs, m.pk) && Unlinked(m.fields) && Chosen(m.fields, input.choices)
  }

  lemma PromotedOk(specs: seq<FieldSpec>, pk: nat)
    requires UniqueSpecNames(specs) && SpecsParsed(specs) && IsPrimaryKey(specs, pk)
    ensures UniqueSpecNames(WithKey(specs, pk)) && (UniqueColumns(WithKey(specs, pk)) <==> UniqueColumns(specs))
    ensures forall i :: 0 <= i < |specs| ==>
              (WithKey(specs, pk)[i].primaryKey <==> i == pk) && SpecKept(WithKey(specs, pk)[i])
  {
    var out := WithKey(specs, pk);
    assert forall i :: 0 <= i < |specs| ==> out[i].name == specs[i].name && out[i].column == specs[i].column;
  }

  /** Steps 4 to 8 of Register. */
  method Build(input: Input) returns (r: Result<Model>)
    requires input.StructPointer? && GoStruct(input)
    ensures r.Ok? <==> Registrable(input)
    ensures r.Ok? ==> Describes(r.value, input) && ModelOk(r.value)
  {
    var collected := CollectFields(input.parsed);
    if collected.Err? { return Err(collected.error); }
    var built := BuildFrom(collected.value, input.choices);
    if built.Err? { return Err(built.error); }
    var (fields, pk) := built.value;
    var table := if input.metaTable != "" then input.metaTable else Strings.Lower(input.goType.name);
    r := Ok(Model(input.goType.name, table, fields, pk, input.goType));
  }

  method BuildFrom(specs: seq<FieldSpec>, choices: seq<(string, seq<string>)>) returns (r: Result<(seq<Field>, nat)>)
    requires UniqueSpecNames(specs) && SpecsParsed(specs)
    ensures r.Ok? <==> SpecsFit(specs, choices)
    ensures r.Ok? ==>
              && PkOf(specs) == Some(r.value.1) && Specs(r.value.0) == WithKey(specs, r.value.1)
              && Unlinked(r.value.0) && Chosen(r.value.0, choices)
    ensures r.Ok? ==> FieldsOk(r.value.0, r.value.1)
  {
    var found := ResolvePrimaryKey(specs);
    if found.Err? { return Err(found.error); }
    var pk := found.value;
    var promoted := WithKey(specs, pk);
    PromotedOk(specs, pk);
    if promoted[pk].hasDefault { return Err(PrimaryKeyDefault); }
    var ok, byName := IndexColumns(promoted);
    if !ok { return Err(DuplicateColumn); }
    var chosen := ApplyChoices(promoted, byName, choices);
    if chosen.Err? { return Err(chosen.error); }
    assert chosen.value[pk].spec == Specs(chosen.value)[pk];
    r := Ok((chosen.value, pk));
  }

  // ----- The registry -----

  ghost predicate Registered(models: seq<Model>, byType: map<GoType, nat>, byName: map<string, nat>) {
    && (forall i {:trigger ModelOk(models[i])} :: 0 <= i < |models| ==> ModelOk(models[i]))
    && (forall i {:trigger models[i].name} :: 0 <= i < |models| ==>
       models[i].name in byName && byName[models[i].name] == i)
    && (forall i {:trigger models[i].goType} :: 0 <= i < |models| ==>
       models[i].goType in byType && byType[models[i].goType] == i)
    && (forall n :: n in byName ==> byName[n] < |models| && models[byName[n]].name == n)
    && (forall t :: t in byType ==> byType[t] < |models| && models[byType[t]].goType == t)
    && (forall i {:trigger LinksRight(models[i], byType)} :: 0 <= i < |models| ==> LinksRight(models[i], byType))
  }

  /** The relation of the field is linked to the model registered for its type. */
  predicate Links(byType: map<GoType, nat>, f: Field) {
    && f.spec.rel.Some? && f.spec.rel.value.targetType in byType
    && f.target == Some(byType[f.spec.rel.value.targetType])
  }

  /** What is linked is linked to the right model. */
  ghost predicate LinksRight(m: Model, byType: map<GoType, nat>) {
    forall j :: 0 <= j < |m.fields| && m.fields[j].target.Some? ==> Links(byType, m.fields[j])
  }

  /** Every relation of the model is linked. */
  ghost predicate Linked(m: Model, byType: map<GoType, nat>) {
    forall j :: 0 <= j < |m.fields| && m.fields[j].spec.rel.Some? ==> Links(byType, m.fields[j])
  }

  /** Every relation of the model has a registered target. */
  ghost predicate Linkable(m: Model, byType: map<GoType, nat>) {
    forall j :: 0 <= j < |m.fields| && m.fields[j].spec.rel.Some? ==> m.fields[j].spec.rel.value.targetType in byType
  }

  ghost predicate Resolvable(models: seq<Model>, byType: map<GoType, nat>) {
    forall i :: 0 <= i < |models| ==> Linkable(models[i], byType)
  }

  ghost predicate Resolved(models: seq<Model>, byType: map<GoType, nat>) {
    forall i :: 0 <= i < |models| ==> Linked(models[i], byType)
  }

  method LinkFields(m: Model, byType: map<GoType, nat>) returns (ok: bool, linked: Model)
    requires LinksRight(m, byType)
    ensures SameModel(m, linked) && LinksRight(linked, byType)
    ensures ok <==> Linkable(m, byType)
    ensures ok ==> Linked(linked, byType)
    ensures Linked(m, byType) ==> linked == m
  {
    linked := m;
    for j := 0 to |m.fields|
      invariant SameModel(m, linked) && LinksRight(linked, byType)
      invariant forall k :: 0 <= k < j && m.fields[k].spec.rel.Some? ==> Links(byType, linked.fields[k])
      invariant Linked(m, byType) ==> linked == m
    {
      var f := linked.fields[j];
      if f.spec.rel.Some? {
        var t := f.spec.rel.value.targetType;
        if t !in byType { return false, linked; }
        linked := linked.(fields := linked.fields[j := f.(target := Some(byType[t]))]);
      }
    }
    ok := true;
  }

  /** The models but for their links. */
  ghost predicate SameModels(a: seq<Model>, b: seq<Model>) {
    && |a| == |b|
    && forall i :: 0 <= i < |a| ==> SameModel(a[i], b[i])
  }

  ghost predicate SameModel(a: Model, b: Model) {
    && a.name == b.name && a.table == b.table && a.pk == b.pk && a.goType == b.goType && |a.fields| == |b.fields|
    && forall j :: 0 <= j < |a.fields| ==> a.fields[j].spec == b.fields[j].spec
  }

  lemma SameModelOk(a: Model, b: Model)
    requires ModelOk(a) && SameModel(a, b)
    ensures ModelOk(b)
  {
    assert Specs(a.fields) == Specs(b.fields);
  }

  lemma TypeIsNew(models: seq<Model>, byType: map<GoType, nat>, byName: map<string, nat>, m: Model)
    requires Registered(models, byType, byName) && ModelOk(m) && m.name !in byName
    ensures m.goType !in byType
  {
    assert forall t :: t in byType ==> ModelOk(models[byType[t]]) && models[byType[t]].name in byName;
  }

  lemma RegisteredMore(models: seq<Model>, byType: map<GoType, nat>, byName: map<string, nat>, m: Model)
    requires Registered(models, byType, byName) && ModelOk(m) && Unlinked(m.fields) && m.name !in byName
    ensures Registered(models + [m], byType[m.goType := |models|], byName[m.name := |models|])
  {
    var n, more, types := |models|, models + [m], byType[m.goType := |models|];
    TypeIsNew(models, byType, byName, m);
    forall i | 0 <= i < |more|
      ensures LinksRight(more[i], types)
    {
      assert i < n ==> more[i] == models[i] && LinksRight(models[i], byType);
    }
  }

  lemma RegisteredAgain(was: seq<Model>, models: seq<Model>, byType: map<GoType, nat>, byName: map<string, nat>)
    requires Registered(was, byType, byName) && SameModels(was, models)
    requires forall i :: 0 <= i < |models| ==> LinksRight(models[i], byType)
    ensures Registered(models, byType, byName)
  {
    forall i | 0 <= i < |models|
      ensures ModelOk(models[i]) && models[i].name == was[i].name && models[i].goType == was[i].goType
    {
      SameModelOk(was[i], models[i]);
    }
  }

  /** The loop of Resolve: stops at the first relation without a target, keeping what
      it has linked. */
  method LinkAll(models: seq<Model>, byType: map<GoType, nat>) returns (ok: bool, linked: seq<Model>)
    requires forall i :: 0 <= i < |models| ==> LinksRight(models[i], byType)
    ensures SameModels(models, linked) && forall i :: 0 <= i < |linked| ==> LinksRight(linked[i], byType)
    ensures ok <==> Resolvable(models, byType)
    ensures ok ==> Resolved(linked, byType)
    ensures Resolved(models, byType) ==> linked == models
  {
    linked := models;
    for i := 0 to |models|
      invariant SameModels(models, linked) && forall k :: 0 <= k < |linked| ==> LinksRight(linked[k], byType)
      invariant forall k :: 0 <= k < i ==> Linkable(models[k], byType) && Linked(linked[k], byType)
      invariant forall k :: i <= k < |models| ==> linked[k] == models[k]
      invariant Resolved(models, byType) ==> linked == models
    {
      var linkable, m := LinkFields(models[i], byType);
      linked := linked[i := m];
      if !linkable { return false, linked; }
    }
    ok := true;
  }

  class Registry {
    var models: seq<Model>
    var byType: map<GoType, nat>
    var byName: map<string, nat>
    var frozen: bool

    ghost predicate Valid()
      reads this
    {
      Registered(models, byType, byName)
    }

    constructor ()
      ensures Valid() && models == [] && !frozen
    {
      models, byType, byName, frozen := [], map[], map[], false;
    }

    /** Succeeds exactly for a registrable struct of a new name before the registry
        is frozen; a failure changes nothing. */
    method Register(input: Input) returns (r: Result<nat>)
      requires Valid() && GoStruct(input)
      modifies this
      ensures Valid() && frozen == old(frozen)
      ensures r.Ok? <==> !old(frozen) && Registrable(input) && input.goType.name !in old(byName)
      ensures r.Err? ==> models == old(models) && byName == old(byName) && byType == old(byType)
      ensures r.Ok? ==> r.value == |old(models)| && |models| == r.value + 1 && models[..r.value] == old(models)
      ensures r.Ok? ==> Describes(models[r.value], input)
    {
      if frozen { return Err(Frozen); }
      if input.NoStructPointer? { return Err(NeedsStructPointer); }
      if input.goType.name in byName { return Err(AlreadyRegistered); }
      var built := Build(input);
      if built.Err? { return Err(built.error); }
      var n := |models|;
      RegisteredMore(models, byType, byName, built.value);
      models := models + [built.value];
      byType := byType[input.goType := n];
      byName := byName[input.goType.name := n];
      r := Ok(n);
    }

    /** Links every relation exactly when every target type is registered. */
    method Resolve() returns (ok: bool)
      requires Valid()
      modifies this`models
      ensures Valid() && SameModels(old(models), models)
      ensures ok <==> Resolvable(old(models), byType)
      ensures ok ==> Resolved(models, byType)
      ensures Resolved(old(models), byType) ==> models == old(models)
    {
      ghost var was := models;
      var linked;
      ok, linked := LinkAll(models, byType);
      RegisteredAgain(was, linked, byType, byName);
      models := linked;
    }

    /** After Freeze, Register only returns an error. */
    method Freeze()
      modifies this`frozen
      ensures frozen
    {
      frozen := true;
    }
  }

  // ----- Project states -----

  function FieldStateOf(models: seq<Model>, f: Field): FieldState
    requires f.target.Some? ==> f.target.value < |models| && models[f.target.value].pk < |models[f.target.value].fields|
  {
    var s := f.spec;
    var target := if s.rel.Some? then f.target else None;
    FieldState(s.name, s.column, s.kind, s.primaryKey, s.nullable, s.unique, s.maxLength,
               if s.rel.Some? then s.rel.value.kind else RelNone,
               if target.Some? then models[target.value].table else "",
               if target.Some? then models[target.value].fields[models[target.value].pk].spec.column else "",
               if s.rel.Some? then s.rel.value.onDelete else DoNothing)
  }

  /** The field state carries everything the registered field has, and for a linked
      relation the table and the key column of its model. */
  ghost predicate Carries(models: seq<Model>, f: Field, fs: FieldState)
    requires f.target.Some? ==> f.target.value < |models| && models[f.target.value].pk < |models[f.target.value].fields|
  {
    && fs.name == f.spec.name && fs.column == f.spec.column && fs.kind == f.spec.kind
    && fs.primaryKey == f.spec.primaryKey && fs.nullable == f.spec.nullable && fs.unique == f.spec.unique
    && fs.maxLength == f.spec.maxLength
    && (match f.spec.rel
        case None => fs.relKind == RelNone && fs.relOnDelete == DoNothing
        case Some(rel) => fs.relKind == rel.kind && fs.relOnDelete == rel.onDelete)
    && (if f.spec.rel.Some? && f.target.Some? then
          var t := models[f.target.value];
          fs.relTargetTable == t.table && fs.relTargetColumn == t.fields[t.pk].spec.column
        else fs.relTargetTable == "" && fs.relTargetColumn == "")
  }

  ghost predicate Shows(models: seq<Model>, m: Model, ms: ModelState)
    requires forall f :: f in m.fields && f.target.Some? ==>
      f.target.value < |models| && models[f.target.value].pk < |models[f.target.value].fields|
  {
    && ms.name == m.name && ms.table == m.table && |ms.fields| == |m.fields|
    && forall j :: 0 <= j < |ms.fields| ==> Carries(models, m.fields[j], ms.fields[j])
  }

  ghost predicate InRange(models: seq<Model>) {
    && (forall m :: m in models ==> m.pk < |m.fields|)
    && (forall m, f :: m in models && f in m.fields && f.target.Some? ==> f.target.value < |models|)
  }

  lemma RegisteredInRange(models: seq<Model>, byType: map<GoType, nat>, byName: map<string, nat>)
    requires Registered(models, byType, byName)
    ensures InRange(models)
  {
    forall m, f | m in models && f in m.fields && f.target.Some?
      ensures f.target.value < |models|
    {
      var i :| 0 <= i < |models| && models[i] == m;
      var j :| 0 <= j < |m.fields| && m.fields[j] == f;
      assert LinksRight(m, byType) && Links(byType, m.fields[j]);
    }
    forall m | m in models ensures m.pk < |m.fields| {
      var i :| 0 <= i < |models| && models[i] == m;
      assert ModelOk(models[i]);
    }
  }

  predicate DistinctFieldColumns(fields: seq<FieldState>) {
    forall i, j :: 0 <= i < j < |fields| ==> fields[i].column != fields[j].column
  }

  ghost predicate OnePrimaryKey(fields: seq<FieldState>) {
    exists pk: nat :: IsKey(fields, pk)
  }

  ghost predicate IsKey(fields: seq<FieldState>, pk: nat) {
    pk < |fields| && forall i :: 0 <= i < |fields| ==> (fields[i].primaryKey <==> i == pk)
  }

  /** A field of a registered model: its kind has a name, only a primary key counts up,
      foreign keys are integers, and strings have a positive length. */
  predicate FieldSound(f: FieldState) {
    && !f.kind.Unknown? && (f.kind.Auto? ==> f.primaryKey)
    && (f.relKind.RelFK? ==> f.kind.Int? || f.kind.Auto?)
    && (f.kind.Char? ==> f.maxLength >= 1)
  }

  ghost predicate ModelSound(ms: ModelState, name: string) {
    && ms.name == name && UniqueNames(ms.fields) && DistinctFieldColumns(ms.fields) && OnePrimaryKey(ms.fields)
    && forall f :: f in ms.fields ==> FieldSound(f)
  }

  /** What the models of a registry become: a well-formed state, in registration
      order, in which every model has distinct columns and one primary key. */
  ghost predicate Sound(s: State) {
    WellFormed(s) && forall m :: m in s.models ==> ModelSound(s.models[m], m)
  }

  lemma ShownModel(models: seq<Model>, m: Model, ms: ModelState)
    requires ModelOk(m) && InRange(models) && m in models && Shows(models, m, ms)
    ensures ModelSound(ms, m.name)
  {
    var specs := Specs(m.fields);
    forall i, j | 0 <= i < j < |ms.fields|
      ensures ms.fields[i].name != ms.fields[j].name && ms.fields[i].column != ms.fields[j].column
    {
      assert specs[i].name != specs[j].name && specs[i].column != specs[j].column;
    }
    forall i | 0 <= i < |ms.fields|
      ensures (ms.fields[i].primaryKey <==> i == m.pk) && FieldSound(ms.fields[i])
    {
      assert ms.fields[i].primaryKey == specs[i].primaryKey && SpecKept(specs[i]);
    }
    assert IsKey(ms.fields, m.pk);
  }

  method FieldStates(models: seq<Model>, m: Model) returns (fields: seq<FieldState>)
    requires InRange(models) && m in models
    ensures Shows(models, m, ModelState(m.name, m.table, fields))
  {
    fields := [];
    for j := 0 to |m.fields|
      invariant |fields| == j
      invariant forall k :: 0 <= k < j ==> m.fields[k] in m.fields && fields[k] == FieldStateOf(models, m.fields[k])
    {
      assert m.fields[j] in m.fields;
      fields := fields + [FieldStateOf(models, m.fields[j])];
    }
  }

  /** The state lists the models in order and shows each under its name. */
  ghost predicate Snapshot(models: seq<Model>, ps: State, n: nat)
    requires InRange(models) && n <= |models|
  {
    && |ps.order| == n
    && (forall k :: 0 <= k < n ==> ps.order[k] == models[k].name)
    && (forall m :: m in ps.models <==> m in ps.order)
    && (forall k :: 0 <= k < n ==> models[k].name in ps.models && Shows(models, models[k], ps.models[models[k].name]))
  }

  lemma SnapshotStep(models: seq<Model>, ps: State, i: nat, ms: ModelState)
    requires InRange(models) && i < |models| && Snapshot(models, ps, i) && Shows(models, models[i], ms)
    requires ps.models.Keys !! {models[i].name}
    ensures Snapshot(models, State(ps.models[models[i].name := ms], ps.order + [models[i].name]), i + 1)
  {
    var next := State(ps.models[models[i].name := ms], ps.order + [models[i].name]);
    forall k | 0 <= k < i
      ensures models[k].name in next.models && Shows(models, models[k], next.models[models[k].name])
    {
      assert models[k].name in ps.models;
    }
  }

  lemma NamesDiffer(models: seq<Model>, byType: map<GoType, nat>, byName: map<string, nat>, i: nat, j: nat)
    requires Registered(models, byType, byName) && i < j < |models|
    ensures models[i].name != models[j].name
  {
  }

  lemma SnapshotModel(models: seq<Model>, byType: map<GoType, nat>, byName: map<string, nat>, ps: State, i: nat)
    requires Registered(models, byType, byName) && InRange(models) && Snapshot(models, ps, |models|) && i < |models|
    ensures models[i].name in ps.models && ModelSound(ps.models[models[i].name], models[i].name)
  {
    ShownModel(models, models[i], ps.models[models[i].name]);
  }

  lemma SnapshotDistinct(models: seq<Model>, byType: map<GoType, nat>, byName: map<string, nat>, ps: State)
    requires Registered(models, byType, byName) && InRange(models) && Snapshot(models, ps, |models|)
    ensures Distinct(ps.order)
  {
    forall i, j | 0 <= i < j < |ps.order|
      ensures ps.order[i] != ps.order[j]
    {
      NamesDiffer(models, byType, byName, i, j);
    }
  }

  lemma SnapshotSound(models: seq<Model>, byType: map<GoType, nat>, byName: map<string, nat>, ps: State)
    requires Registered(models, byType, byName) && InRange(models) && Snapshot(models, ps, |models|)
    ensures Sound(ps)
  {
    SnapshotDistinct(models, byType, byName, ps);
    forall n | n in ps.models
      ensures ModelSound(ps.models[n], n)
    {
      var i :| 0 <= i < |ps.order| && ps.order[i] == n;
      SnapshotModel(models, byType, byName, ps, i);
    }
  }

  predicate IsTarget(ms: ModelState, f: FieldState) {
    ms.table == f.relTargetTable
    && exists k :: 0 <= k < |ms.fields| && ms.fields[k].column == f.relTargetColumn && ms.fields[k].primaryKey
  }

  /** Every foreign key that names a target names the table and the primary key of a
      model of the state. */
  ghost predicate TargetsKnown(s: State) {
    forall m, f :: m in s.models && f in s.models[m].fields && f.relTargetTable != "" ==>
      exists t :: t in s.models && IsTarget(s.models[t], f)
  }

  lemma ShownTarget(models: seq<Model>, byType: map<GoType, nat>, byName: map<string, nat>, ps: State, i: nat, j: nat)
    requires Registered(models, byType, byName) && InRange(models) && Snapshot(models, ps, |models|)
    requires i < |models| && j < |models[i].fields|
    ensures models[i].name in ps.models && j < |ps.models[models[i].name].fields|
    ensures ps.models[models[i].name].fields[j].relTargetTable != "" ==>
              exists t :: t in ps.models && IsTarget(ps.models[t], ps.models[models[i].name].fields[j])
  {
    var f := models[i].fields[j];
    assert f in models[i].fields;
    if f.spec.rel.Some? && f.target.Some? {
      var t := models[f.target.value];
      assert ModelOk(models[f.target.value]);
      var shown := ps.models[t.name];
      assert shown.fields[t.pk] == FieldStateOf(models, t.fields[t.pk]) && Specs(t.fields)[t.pk].primaryKey;
      assert IsTarget(shown, ps.models[models[i].name].fields[j]);
    }
  }

  lemma SnapshotTargets(models: seq<Model>, byType: map<GoType, nat>, byName: map<string, nat>, ps: State)
    requires Registered(models, byType, byName) && InRange(models) && Snapshot(models, ps, |models|)
    ensures TargetsKnown(ps)
  {
    forall m, f | m in ps.models && f in ps.models[m].fields && f.relTargetTable != ""
      ensures exists t :: t in ps.models && IsTarget(ps.models[t], f)
    {
      SnapshotTarget(models, byType, byName, ps, m, f);
    }
  }

  lemma SnapshotTarget(models: seq<Model>, byType: map<GoType, nat>, byName: map<string, nat>, ps: State, m: string,
                       f: FieldState)
    requires Registered(models, byType, byName) && InRange(models) && Snapshot(models, ps, |models|)
    requires m in ps.models && f in ps.models[m].fields && f.relTargetTable != ""
    ensures exists t :: t in ps.models && IsTarget(ps.models[t], f)
  {
    var i :| 0 <= i < |ps.order| && ps.order[i] == m;
    var j :| 0 <= j < |ps.models[m].fields| && ps.models[m].fields[j] == f;
    assert Shows(models, models[i], ps.models[m]);
    ShownTarget(models, byType, byName, ps, i, j);
  }

  /** The snapshot of a registry after any calls of Register and Resolve. */
  method StateFromRegistry(r: Registry) returns (ps: State)
    requires r.Valid()
    ensures InRange(r.models) && Snapshot(r.models, ps, |r.models|)
    ensures Sound(ps) && TargetsKnown(ps)
  {
    RegisteredInRange(r.models, r.byType, r.byName);
    ps := EMPTY;
    for i := 0 to |r.models|
      invariant Snapshot(r.models, ps, i)
    {
      var m := r.models[i];
      var fields := FieldStates(r.models, m);
      forall k | 0 <= k < i ensures r.models[k].name != m.name {
        NamesDiffer(r.models, r.byType, r.byName, k, i);
      }
      SnapshotStep(r.models, ps, i, ModelState(m.name, m.table, fields));
      ps := State(ps.models[m.name := ModelState(m.name, m.table, fields)], ps.order + [m.name]);
    }
    SnapshotSound(r.models, r.byType, r.byName, ps);
    SnapshotTargets(r.models, r.byType, r.byName, ps);
  }

  /** Once resolved, every foreign key names the table and the primary-key column of
      the model registered for its type. */
  lemma ResolvedTargets(models: seq<Model>, byType: map<GoType, nat>, byName: map<string, nat>, i: nat, j: nat)
    requires Registered(models, byType, byName) && InRange(models) && Resolved(models, byType)
    requires i < |models| && j < |models[i].fields| && models[i].fields[j].spec.rel.Some?
    ensures models[i].fields[j] in models[i].fields
    ensures var t := byType[models[i].fields[j].spec.rel.value.targetType];
            var fs := FieldStateOf(models, models[i].fields[j]);
            && models[t].goType == models[i].fields[j].spec.rel.value.targetType
            && fs.relTargetTable == models[t].table
            && exists k :: 0 <= k < |models[t].fields| && models[t].fields[k].spec.primaryKey
                 && fs.relTargetColumn == models[t].fields[k].spec.column
  {
    assert Links(byType, models[i].fields[j]);
    var t := models[i].fields[j].target.value;
    assert ModelOk(models[t]);
    assert models[t].fields[models[t].pk].spec.primaryKey;
  }
}
