/** Model forms: pre-filling a form from a struct, validating it, and writing the
    cleaned values back (forms/modelform.go, forms/form.go, forms/field.go). */
module Forms {
  import opened Strings
  import opened Decimal

  datatype Option<+T> = None | Some(value: T)

  // ----- Models and instances -----

  datatype Kind = Auto | Int | Char | Text | Bool | DateTime

  /** stamped: the orm sets the field, auto_now or auto_now_add. */
  datatype ModelField = ModelField(
    name: string, kind: Kind, nullable: bool, maxLength: nat, fk: bool, choices: seq<string>, stamped: bool)

  /** How points in time are read and shown; they are otherwise opaque. */
  datatype Clock = Clock(parse: string -> Option<int>, format: int -> string)

  const ZERO_TIME := 0

  /** A struct field: a string, a signed or unsigned 64-bit integer, a boolean, a point in
      time, or a foreign key with the primary key it holds. */
  datatype Value =
    | Str(text: string) | Signed(n: int) | Unsigned(u: nat) | Flag(b: bool) | Moment(t: int) | Key(pk: int)

  type Fields = map<string, Value>

  predicate InRange(v: Value) {
    match v
    case Signed(n) => MIN_INT64 <= n <= MAX_INT64
    case Key(pk) => MIN_INT64 <= pk <= MAX_INT64
    case Unsigned(u) => u <= 0xFFFF_FFFF_FFFF_FFFF
    case _ => true
  }

  /** The value can be what the struct field of a model field holds. */
  predicate Typed(mf: ModelField, v: Value) {
    && InRange(v)
    && if mf.fk then v.Key?
       else match mf.kind
         case Char => v.Str?
         case Text => v.Str?
         case Bool => v.Flag?
         case DateTime => v.Moment?
         case Int => v.Signed? || v.Unsigned?
         case Auto => v.Signed? || v.Unsigned?
  }

  predicate SameType(a: Value, b: Value) {
    && a.Str? == b.Str? && a.Signed? == b.Signed? && a.Unsigned? == b.Unsigned?
    && a.Flag? == b.Flag? && a.Moment? == b.Moment? && a.Key? == b.Key?
  }

  ghost predicate UniqueNames(model: seq<ModelField>) {
    forall i, j :: 0 <= i < j < |model| ==> model[i].name != model[j].name
  }

  ghost predicate InstanceOf(model: seq<ModelField>, fields: Fields) {
    forall i :: 0 <= i < |model| ==> model[i].name in fields && Typed(model[i], fields[model[i].name])
  }

  ghost predicate SameStruct(model: seq<ModelField>, a: Fields, b: Fields) {
    forall i :: 0 <= i < |model| && model[i].name in a && model[i].name in b ==>
      SameType(a[model[i].name], b[model[i].name])
  }

  // ----- Form fields -----

  datatype FieldKind = CharField | TextField | IntegerField | BoolField | DateTimeField | ChoiceField

  datatype FormField = FormField(name: string, required: bool, kind: FieldKind, maxLength: nat, choices: seq<string>)

  function FormFieldFor(mf: ModelField): Option<FormField> {
    if mf.stamped then None
    else if mf.fk then Some(FormField(mf.name, !mf.nullable, ChoiceField, 0, []))
    else match mf.kind
      case Auto => None
      case Char =>
        if |mf.choices| > 0 then Some(FormField(mf.name, !mf.nullable, ChoiceField, 0, mf.choices))
        else Some(FormField(mf.name, !mf.nullable, CharField, mf.maxLength, []))
      case Text => Some(FormField(mf.name, !mf.nullable, TextField, 0, []))
      case Int => Some(FormField(mf.name, !mf.nullable, IntegerField, 0, []))
      case Bool => Some(FormField(mf.name, false, BoolField, 0, []))
      case DateTime => Some(FormField(mf.name, !mf.nullable, DateTimeField, 0, []))
  }

  datatype Cleaned = Words(text: string) | Whole(n: int) | Truth(b: bool) | Stamp(t: int)

  datatype CleanError = Required | TooLong | NotWhole | NotAChoice | NotATime

  datatype CleanResult = Clean(value: Cleaned) | Invalid(error: CleanError)

  predicate IsTruthy(raw: string) {
    var s := Lower(TrimSpace(raw));
    s == "true" || s == "on" || s == "1"
  }

  /** The same letters, large or small. */
  predicate SameLetters(s: string, word: string) {
    && |s| == |word|
    && forall i :: 0 <= i < |s| ==> s[i] == word[i] || ('A' <= s[i] <= 'Z' && 'a' + (s[i] - 'A') == word[i])
  }

  lemma LowerIff(s: string, word: string)
    requires forall i :: 0 <= i < |word| ==> !('A' <= word[i] <= 'Z')
    ensures Lower(s) == word <==> SameLetters(s, word)
  {
    LowerIs(s);
  }

  /** A checkbox counts as set exactly when it submits one of three words, in any case
      and between any spaces. */
  lemma TruthyIff(raw: string)
    ensures var s := TrimSpace(raw);
            IsTruthy(raw) <==> SameLetters(s, "true") || SameLetters(s, "on") || SameLetters(s, "1")
  {
    var s := TrimSpace(raw);
    LowerIff(s, "true");
    LowerIff(s, "on");
    LowerIff(s, "1");
  }

  function CleanOf(clock: Clock, f: FormField, raw: string): CleanResult {
    var value := TrimSpace(raw);
    if f.kind.BoolField? then Clean(Truth(IsTruthy(raw)))
    else if value == "" then (if f.required then Invalid(Required) else Clean(Words("")))
    else match f.kind
      case IntegerField =>
        (match ParseInt64(value)
         case Number(n) => Clean(Whole(n))
         case NotANumber => Invalid(NotWhole))
      case ChoiceField => if value in f.choices then Clean(Words(value)) else Invalid(NotAChoice)
      case DateTimeField =>
        (match clock.parse(value)
         case Some(t) => Clean(Stamp(t))
         case None => Invalid(NotATime))
      case _ => if f.maxLength > 0 && |value| > f.maxLength then Invalid(TooLong) else Clean(Words(value))
  }

  function RawValue(f: FormField, data: map<string, string>): string {
    if f.name !in data then ""
    else if f.kind.BoolField? && data[f.name] == "" then "on"
    else data[f.name]
  }

  // ----- Struct fields and form values -----

  /** stringifyFieldValue. */
  function Submitted(clock: Clock, v: Value): Option<string> {
    match v
    case Str(text) => Some(text)
    case Signed(n) => Some(IntText(n))
    case Unsigned(u) => Some(IntText(u))
    case Flag(b) => if b then Some("true") else None
    case Moment(t) => if t == ZERO_TIME then None else Some(clock.format(t))
    case Key(pk) => if pk == 0 then None else Some(IntText(pk))
  }

  ghost predicate WritesInt64(entry: string, n: int) {
    MIN_INT64 <= n <= MAX_INT64 && Writes(entry, n)
  }

  /** The values that no text is shown for. */
  predicate Omitted(v: Value) {
    v == Flag(false) || v == Moment(ZERO_TIME) || v == Key(0)
  }

  /** The text shows the value: a number in digits, a checkbox that is set as true. */
  ghost predicate ShownAs(clock: Clock, v: Value, text: string) {
    match v
    case Str(own) => text == own
    case Signed(n) => WritesInt64(text, n) && text[0] != '+'
    case Unsigned(u) => Numeral(text, u) && (|text| > 1 ==> text[0] != '0')
    case Flag(b) => b && text == "true"
    case Moment(t) => text == clock.format(t)
    case Key(pk) => WritesInt64(text, pk) && text[0] != '+'
  }

  lemma IntTextWrites(n: int)
    ensures Writes(IntText(n), n) && IntText(n) != "" && IntText(n)[0] != '+'
    ensures n >= 0 ==> Numeral(IntText(n), n) && (|IntText(n)| > 1 ==> IntText(n)[0] != '0')
  {
    var digits := NatText(if n < 0 then -n else n);
    assert digits == "" + digits && AllZeros("") && digits[0] in digits;
    if n < 0 { assert IntText(n)[1..] == digits; }
  }

  /** A value is shown unless it is omitted. */
  lemma SubmittedIs(clock: Clock, v: Value)
    requires InRange(v)
    ensures match Submitted(clock, v) case None => Omitted(v) case Some(text) => !Omitted(v) && ShownAs(clock, v, text)
  {
    match v
    case Signed(n) => IntTextWrites(n);
    case Unsigned(u) => IntTextWrites(u);
    case Key(pk) => IntTextWrites(pk);
    case _ =>
  }

  datatype Assigned = Written(value: Value) | Rejected | Panics

  /** fkPKFromCleaned and setScalar: what a cleaned value makes of a struct field that
      holds v. Setting a field of another type panics. */
  function Assign(fk: bool, v: Value, c: Cleaned): Assigned {
    if fk then
      match c
      case Whole(n) => Written(Key(n))
      case Truth(_) => Rejected
      case Stamp(_) => Rejected
      case Words(text) =>
        if TrimSpace(text) == "" then Written(Key(0))
        else match ParseInt64(text)
          case Number(n) => Written(Key(n))
          case NotANumber => Rejected
    else
      match c
      case Words(text) => if v.Str? then Written(Str(text)) else Panics
      case Truth(b) => if v.Flag? then Written(Flag(b)) else Panics
      case Stamp(t) => if v.Moment? then Written(Moment(t)) else Panics
      case Whole(n) =>
        if v.Signed? then Written(Signed(n))
        else if v.Unsigned? then Written(Unsigned(n % 0x1_0000_0000_0000_0000))
        else Rejected
  }

  // ----- From what a browser submits to the struct -----

  /** What is submitted for a name, without outer spaces. */
  function Entry(name: string, data: map<string, string>): string {
    if name in data then TrimSpace(data[name]) else ""
  }

  /** A checkbox is set if it is submitted empty or with one of the three words. */
  predicate Checked(name: string, data: map<string, string>) {
    && name in data
    && (data[name] == "" || SameLetters(Entry(name, data), "true") || SameLetters(Entry(name, data), "on")
        || SameLetters(Entry(name, data), "1"))
  }

  /** The model field is one a form shows: not set by the orm and no automatic key. */
  predicate InForm(mf: ModelField) {
    !mf.stamped && (mf.fk || !mf.kind.Auto?)
  }

  /** The form field of a model field, with its required flag overridden if the
      configuration does, and with the choices given to a foreign key. */
  function FieldFor(mf: ModelField, required: map<string, bool>, choices: seq<string>): (f: FormField)
    requires FormFieldFor(mf).Some?
  {
    var own := FormFieldFor(mf).value;
    var f := if mf.name in required then own.(required := required[mf.name]) else own;
    if mf.fk then f.(choices := choices) else f
  }

  /** A blank entry will do: the configuration says so, or the column may be NULL. */
  predicate MayBeBlank(mf: ModelField, required: map<string, bool>) {
    if mf.name in required then !required[mf.name] else mf.nullable
  }

  /** The entry is one the model field can take. */
  ghost predicate Accepts(clock: Clock, mf: ModelField, required: map<string, bool>, choices: seq<string>,
                          entry: string) {
    if mf.kind.Bool? && !mf.fk then true
    else if entry == "" then MayBeBlank(mf, required)
    else if mf.fk then entry in choices
    else match mf.kind
      case Auto => false
      case Text => true
      case Char => if |mf.choices| > 0 then entry in mf.choices else mf.maxLength == 0 || |entry| <= mf.maxLength
      case Int => exists n :: WritesInt64(entry, n)
      case DateTime => clock.parse(entry).Some?
  }

  /** What writing the accepted entry into a struct field that holds was does. */
  ghost predicate Enters(clock: Clock, mf: ModelField, data: map<string, string>, was: Value, result: Assigned) {
    var entry := Entry(mf.name, data);
    if mf.fk then
      match result
      case Written(v) => v.Key? && if entry == "" then v.pk == 0 else WritesInt64(entry, v.pk)
      case Rejected => entry != "" && forall n :: !WritesInt64(entry, n)
      case Panics => false
    else match mf.kind
      case Auto => false
      case Char => result == Written(Str(entry))
      case Text => result == Written(Str(entry))
      case Bool => result == Written(Flag(Checked(mf.name, data)))
      case DateTime =>
        if entry == "" then result == Panics
        else clock.parse(entry).Some? && result == Written(Moment(clock.parse(entry).value))
      case Int => if entry == "" then result == Panics else result.Written? && EntersInt(entry, was, result.value)
  }

  /** The number of the entry, which wraps round in an unsigned field. */
  ghost predicate EntersInt(entry: string, was: Value, v: Value) {
    && SameType(v, was) && InRange(v)
    && match v
       case Signed(n) => Writes(entry, n)
       case Unsigned(u) => exists n :: WritesInt64(entry, n) && (u == n || u == n + 0x1_0000_0000_0000_0000)
       case _ => false
  }

  ghost predicate EntryTaken(clock: Clock, mf: ModelField, required: map<string, bool>, choices: seq<string>,
      data: map<string, string>, was: Value)
    requires FormFieldFor(mf).Some?
  {
    var f := FieldFor(mf, required, choices);
    var c := CleanOf(clock, f, RawValue(f, data));
    && (c.Clean? <==> Accepts(clock, mf, required, choices, Entry(mf.name, data)))
    && (c.Clean? ==> Enters(clock, mf, data, was, Assign(mf.fk, was, c.value)))
  }

  /** Which model fields a form shows, what it accepts for one, and what of that ends up in
      the struct. */
  lemma EntryMeaning(clock: Clock, mf: ModelField, required: map<string, bool>, choices: seq<string>,
      data: map<string, string>, was: Value)
    requires Typed(mf, was)
    ensures FormFieldFor(mf).Some? <==> InForm(mf)
    ensures InForm(mf) ==> FormFieldFor(mf).value.required == (!mf.nullable && (mf.fk || !mf.kind.Bool?))
    ensures InForm(mf) ==> FormFieldFor(mf).value.name == mf.name && EntryTaken(clock, mf, required, choices, data, was)
  {
    if InForm(mf) {
      TrimSpaceIs("");
      TrimSpaceIs(Entry(mf.name, data));
      if mf.fk {
        KeyTaken(clock, mf, required, choices, data, was);
      } else if mf.kind.Bool? {
        FlagTaken(clock, mf, required, choices, data, was);
      } else if mf.kind.Int? {
        IntTaken(clock, mf, required, choices, data, was);
      }
    }
  }

  lemma ParseEntry(entry: string)
    ensures ParseInt64(entry).Number? ==> WritesInt64(entry, ParseInt64(entry).value)
    ensures ParseInt64(entry).NotANumber? ==> forall n :: !WritesInt64(entry, n)
  {
    ParseIntIff(entry, if ParseInt64(entry).Number? then ParseInt64(entry).value else 0);
  }

  /** What a cleaned text makes of a foreign key. */
  lemma KeyEntered(entry: string, was: Value)
    requires Trimmed(entry)
    ensures match Assign(true, was, Words(entry))
            case Written(v) => v.Key? && if entry == "" then v.pk == 0 else WritesInt64(entry, v.pk)
            case Rejected => entry != "" && forall n :: !WritesInt64(entry, n)
            case Panics => false
  {
    TrimSpaceIs(entry);
    ParseEntry(entry);
  }

  lemma EntryTrimmed(name: string, data: map<string, string>)
    ensures Trimmed(Entry(name, data))
  {
    if name in data { TrimSpaceIs(data[name]); }
  }

  lemma KeyCleaned(clock: Clock, mf: ModelField, required: map<string, bool>, choices: seq<string>,
                   data: map<string, string>)
    requires InForm(mf) && mf.fk
    ensures var f, entry := FieldFor(mf, required, choices), Entry(mf.name, data);
            CleanOf(clock, f, RawValue(f, data)) ==
            if entry == "" then (if MayBeBlank(mf, required) then Clean(Words("")) else Invalid(Required))
            else if entry in choices then Clean(Words(entry)) else Invalid(NotAChoice)
  {
    TrimSpaceIs("");
  }

  lemma KeyTaken(clock: Clock, mf: ModelField, required: map<string, bool>, choices: seq<string>,
                 data: map<string, string>, was: Value)
    requires Typed(mf, was) && InForm(mf) && mf.fk
    ensures EntryTaken(clock, mf, required, choices, data, was)
  {
    KeyCleaned(clock, mf, required, choices, data);
    EntryTrimmed(mf.name, data);
    KeyEntered(Entry(mf.name, data), was);
  }

  lemma FlagTaken(clock: Clock, mf: ModelField, required: map<string, bool>, choices: seq<string>,
      data: map<string, string>, was: Value)
    requires Typed(mf, was) && InForm(mf) && !mf.fk && mf.kind.Bool?
    ensures EntryTaken(clock, mf, required, choices, data, was)
  {
    TruthyIff(RawValue(FieldFor(mf, required, choices), data));
    TrimSpaceIs("on");
    TrimSpaceIs("");
  }

  /** What a number that was entered makes of an integer field. */
  lemma IntEntered(entry: string, n: int, was: Value)
    requires (was.Signed? || was.Unsigned?) && WritesInt64(entry, n)
    ensures Assign(false, was, Whole(n)).Written? && EntersInt(entry, was, Assign(false, was, Whole(n)).value)
  {
  }

  lemma IntTaken(clock: Clock, mf: ModelField, required: map<string, bool>, choices: seq<string>,
      data: map<string, string>, was: Value)
    requires Typed(mf, was) && InForm(mf) && !mf.fk && mf.kind.Int?
    ensures EntryTaken(clock, mf, required, choices, data, was)
  {
    var entry, f := Entry(mf.name, data), FieldFor(mf, required, choices);
    TrimSpaceIs("");
    ParseEntry(entry);
    if ParseInt64(entry).Number? {
      IntEntered(entry, ParseInt64(entry).value, was);
    }
  }

  // ----- Which values survive -----

  /** The value of the struct field comes back from the form field unchanged. */
  predicate Reproducible(clock: Clock, f: FormField, v: Value) {
    match v
    case Str(text) =>
      && Trimmed(text)
      && if text == "" then !f.required
         else if f.kind.ChoiceField? then text in f.choices
         else f.maxLength == 0 || |text| <= f.maxLength
    case Unsigned(u) => u <= MAX_INT64
    case Moment(t) =>
      var shown := TrimSpace(clock.format(t));
      t != ZERO_TIME && shown != "" && clock.parse(shown) == Some(t)
    case Key(pk) => if pk == 0 then !f.required else IntText(pk) in f.choices
    case _ => true
  }

  /** The form field was made for the model field. */
  predicate Fits(mf: ModelField, f: FormField) {
    && f.name == mf.name && FormFieldFor(mf).Some? && f.kind == FormFieldFor(mf).value.kind
    && f.maxLength == FormFieldFor(mf).value.maxLength
  }

  function RawOf(clock: Clock, f: FormField, v: Value): string {
    match Submitted(clock, v)
    case None => ""
    case Some(s) => if f.kind.BoolField? && s == "" then "on" else s
  }

  lemma IntTextTrimmed(n: int)
    ensures Trimmed(IntText(n)) && IntText(n) != "" && TrimSpace(IntText(n)) == IntText(n)
  {
    IntTextEnds(n);
    TrimSpaceIs(IntText(n));
  }

  lemma TrueIsTruthy()
    ensures IsTruthy("true") && !IsTruthy("")
  {
    TrimSpaceIs("true");
    TrimSpaceIs("");
    var s := "true";
    assert s[1..] == "rue" && s[2..] == "ue" && s[3..] == "e" && s[4..] == "";
    assert Lower("e") == "e" && Lower("ue") == "ue" && Lower("rue") == "rue";
  }

  /** A point in time that is shown as nothing, like the zero time. */
  predicate Unshown(clock: Clock, f: FormField, v: Value) {
    f.kind.DateTimeField? && TrimSpace(RawOf(clock, f, v)) == ""
  }

  /** What the form makes of the value, if it is valid, can be written unless it is a time
      that is not shown, which panics; it is valid and writes the same value back exactly
      when the value is reproducible. */
  ghost predicate Survives(clock: Clock, fk: bool, f: FormField, v: Value, into: Value) {
    var c := CleanOf(clock, f, RawOf(clock, f, v));
    && (c.Clean? ==> Assign(fk, into, c.value).Written? == !Unshown(clock, f, v))
    && (c.Clean? ==> Assign(fk, into, c.value).Panics? == Unshown(clock, f, v))
    && (c.Clean? && Assign(fk, into, c.value) == Written(v) <==> Reproducible(clock, f, v))
  }

  lemma TextSurvives(clock: Clock, f: FormField, text: string, into: Value)
    requires f.kind.CharField? || f.kind.TextField? || (f.kind.ChoiceField? && f.maxLength == 0)
    requires into.Str?
    ensures Survives(clock, false, f, Str(text), into)
  {
    TrimSpaceIs(text);
    TrimSpaceIs(TrimSpace(text));
  }

  lemma IntegerSurvives(clock: Clock, f: FormField, n: int, into: Value)
    requires f.kind.IntegerField? && MIN_INT64 <= n <= MAX_INT64 && into.Signed?
    ensures Survives(clock, false, f, Signed(n), into)
  {
    IntTextTrimmed(n);
    ParseIntText(n);
  }

  lemma UnsignedSurvives(clock: Clock, f: FormField, u: nat, into: Value)
    requires f.kind.IntegerField? && InRange(Unsigned(u)) && into.Unsigned?
    ensures Survives(clock, false, f, Unsigned(u), into)
  {
    IntTextTrimmed(u);
    ParseIntText(u);
  }

  lemma FlagSurvives(clock: Clock, f: FormField, b: bool, into: Value)
    requires f.kind.BoolField? && into.Flag?
    ensures Survives(clock, false, f, Flag(b), into)
  {
    TrueIsTruthy();
  }

  lemma MomentSurvives(clock: Clock, f: FormField, t: int, into: Value)
    requires f.kind.DateTimeField? && into.Moment?
    ensures Survives(clock, false, f, Moment(t), into)
  {
    TrimSpaceIs("");
  }

  lemma KeySurvives(clock: Clock, f: FormField, pk: int, into: Value)
    requires f.kind.ChoiceField? && MIN_INT64 <= pk <= MAX_INT64
    ensures Survives(clock, true, f, Key(pk), into)
  {
    TrimSpaceIs("");
    IntTextTrimmed(pk);
    ParseIntText(pk);
  }

  /** One field, there and back. */
  lemma FieldRoundTrip(clock: Clock, mf: ModelField, f: FormField, v: Value, into: Value)
    requires Fits(mf, f) && Typed(mf, v) && SameType(v, into)
    ensures Survives(clock, mf.fk, f, v, into)
  {
    match v
    case Str(text) => TextSurvives(clock, f, text, into);
    case Signed(n) => IntegerSurvives(clock, f, n, into);
    case Unsigned(u) => UnsignedSurvives(clock, f, u, into);
    case Flag(b) => FlagSurvives(clock, f, b, into);
    case Moment(t) => MomentSurvives(clock, f, t, into);
    case Key(pk) => KeySurvives(clock, f, pk, into);
  }

  /** Writing back what an integer or datetime form field made of some input panics
      exactly when the input was blank, which an optional field accepts. */
  lemma BlankPanicsIff(clock: Clock, f: FormField, raw: string, v: Value)
    requires (f.kind.IntegerField? && (v.Signed? || v.Unsigned?)) || (f.kind.DateTimeField? && v.Moment?)
    requires CleanOf(clock, f, raw).Clean?
    ensures Assign(false, v, CleanOf(clock, f, raw).value).Panics? <==> TrimSpace(raw) == ""
  {
  }

  // ----- Forms -----

  datatype Config = Config(only: seq<string>, exclude: set<string>, required: map<string, bool>)

  function Kept(names: seq<string>, exclude: set<string>): (r: seq<string>)
    ensures forall n :: n in r <==> n in names && n !in exclude
  {
    if names == [] then []
    else (if names[0] in exclude then [] else [names[0]]) + Kept(names[1..], exclude)
  }

  /** includedNames. */
  function IncludedNames(cfg: Config, all: seq<string>): seq<string> {
    Kept(if |cfg.only| > 0 then cfg.only else all, cfg.exclude)
  }

  /** A form over the fields of a model; built holds the field objects, which entries
      of the same name share. */
  class Form {
    const clock: Clock
    var built: map<string, FormField>
    var order: seq<string>
    var data: map<string, string>
    var errors: map<string, seq<CleanError>>
    var cleaned: map<string, Cleaned>
    var nonField: seq<string>
    var bound: bool

    ghost predicate Valid()
      reads this
    {
      forall n :: n in order ==> n in built && built[n].name == n
    }

    constructor (clock: Clock, built: map<string, FormField>, order: seq<string>)
      ensures this.clock == clock && this.built == built && this.order == order
      ensures data == map[] && nonField == [] && !bound
    {
      this.clock, this.built, this.order := clock, built, order;
      data, errors, cleaned, nonField, bound := map[], map[], map[], [], false;
    }

    method Bind(data: map<string, string>)
      modifies this`data, this`bound
      ensures this.data == data && bound
    {
      this.data, bound := data, true;
    }

    method SetChoices(name: string, choices: seq<string>)
      requires Valid()
      modifies this`built
      ensures Valid() && built.Keys == old(built).Keys
      ensures built == if name in order then old(built)[name := old(built)[name].(choices := [""] + choices)]
              else old(built)
    {
      for i := 0 to |order|
        invariant built == old(built) && name !in order[..i]
      {
        if order[i] == name {
          var field := built[name];
          built := built[name := field.(choices := [""] + choices)];
          return;
        }
      }
      assert order[..|order|] == order;
    }

    function Result(n: string): CleanResult
      requires n in built
      reads this
    {
      CleanOf(clock, built[n], RawValue(built[n], data))
    }

    /** Every field cleans. */
    ghost predicate AllClean()
      reads this
    {
      forall n :: n in order ==> n in built && Result(n).Clean?
    }

    /** What IsValid has gathered from the named fields. */
    ghost predicate Gathered(names: seq<string>)
      requires forall n :: n in names ==> n in built
      reads this
    {
      && (forall n :: n in cleaned <==> n in names && Result(n).Clean?)
      && (forall n :: n in cleaned ==> n in built && Result(n) == Clean(cleaned[n]))
      && (forall n :: n in errors <==> (n == "" && nonField != []) || (n in names && Result(n).Invalid?))
    }

    method CleanField(name: string, ghost before: seq<string>)
      requires Valid() && name in order && name != "" && (forall n :: n in before ==> n in order) && Gathered(before)
      modifies this`errors, this`cleaned
      ensures Valid() && Gathered(before + [name])
    {
      var field := built[name];
      match CleanOf(clock, field, RawValue(field, data)) {
        case Invalid(e) =>
          errors := errors[field.name := (if field.name in errors then errors[field.name] else []) + [e]];
        case Clean(value) =>
          cleaned := cleaned[field.name := value];
      }
    }

    /** Cleans every field: the cleaned values are those of the valid fields, and the
        form is valid when nothing is wrong. */
    method IsValid() returns (ok: bool)
      requires Valid() && "" !in order
      modifies this`errors, this`cleaned
      ensures Valid() && Gathered(order)
      ensures ok <==> nonField == [] && AllClean()
    {
      errors, cleaned := map[], map[];
      if |nonField| > 0 {
        errors := errors["" := []];
      }
      for i := 0 to |order|
        invariant Valid() && Gathered(order[..i])
      {
        assert order[..i + 1] == order[..i] + [order[i]];
        CleanField(order[i], order[..i]);
      }
      assert order[..|order|] == order;
      ok := |errors| == 0;
      if !ok {
        var n :| n in errors;
      }
    }
  }

  /** A form of the model: every field was made for a model field of its name. */
  ghost predicate FormOf(model: seq<ModelField>, f: Form)
    reads f
  {
    && f.Valid() && "" !in f.order
    && forall n :: n in f.order ==> exists i :: 0 <= i < |model| && n == model[i].name && Fits(model[i], f.built[n])
  }

  /** The form shows the values of the included fields of the struct. */
  ghost predicate Shows(f: Form, fields: Fields)
    requires f.Valid()
    reads f
  {
    forall n :: n in f.order ==> n in fields && RawValue(f.built[n], f.data) == RawOf(f.clock, f.built[n], fields[n])
  }

  ghost predicate Editable(model: seq<ModelField>, n: string) {
    exists i :: 0 <= i < |model| && model[i].name == n && FormFieldFor(model[i]).Some?
  }

  /** The names of the editable fields, in declaration order. */
  function EditableNames(model: seq<ModelField>): (r: seq<string>)
    ensures forall n :: n in r <==> Editable(model, n)
  {
    if model == [] then []
    else
      var last := model[|model| - 1];
      assert model == model[..|model| - 1] + [last];
      EditableNames(model[..|model| - 1]) + (if FormFieldFor(last).Some? then [last.name] else [])
  }

  /** The names a form has fields for. */
  function Known(names: seq<string>, among: set<string>): (r: seq<string>)
    ensures forall n :: n in r <==> n in names && n in among
  {
    if names == [] then []
    else
      var last := names[|names| - 1];
      assert names == names[..|names| - 1] + [last];
      Known(names[..|names| - 1], among) + (if last in among then [last] else [])
  }

  /** The fields of a form in order: as listed, or else as declared. */
  function FormOrder(model: seq<ModelField>, cfg: Config): (r: seq<string>)
    ensures forall n :: n in r <==> n !in cfg.exclude && (cfg.only == [] || n in cfg.only) && Editable(model, n)
  {
    Known(IncludedNames(cfg, EditableNames(model)), set n | n in EditableNames(model))
  }

  /** The texts of source that are to be kept, each in its place: at gives their positions. */
  ghost predicate ListedAt(out: seq<string>, source: seq<string>, keep: string -> bool, at: seq<int>) {
    && |at| == |out|
    && (forall k :: 0 <= k < |out| ==>
          0 <= at[k] < |source| && out[k] == source[at[k]] && keep(out[k]))
    && (forall j, k :: 0 <= j < k < |at| ==> at[j] < at[k])
    && forall i :: 0 <= i < |source| && keep(source[i]) ==> i in at
  }

  ghost predicate Lists(out: seq<string>, source: seq<string>, keep: string -> bool) {
    exists at :: ListedAt(out, source, keep, at)
  }

  lemma ListsSnoc(out: seq<string>, source: seq<string>, keep: string -> bool, x: string)
    requires Lists(out, source, keep)
    ensures Lists(out + (if keep(x) then [x] else []), source + [x], keep)
  {
    var at :| ListedAt(out, source, keep, at);
    if keep(x) {
      ListedMore(out, source, keep, x, at);
    } else {
      assert out + [] == out && ListedAt(out, source + [x], keep, at);
    }
  }

  lemma ListedMore(out: seq<string>, source: seq<string>, keep: string -> bool, x: string, at: seq<int>)
    requires ListedAt(out, source, keep, at) && keep(x)
    ensures ListedAt(out + [x], source + [x], keep, at + [|source|])
  {
    var more, outs, sources := at + [|source|], out + [x], source + [x];
    forall k | 0 <= k < |outs|
      ensures 0 <= more[k] < |sources| && outs[k] == sources[more[k]] && keep(outs[k])
    {
    }
    forall i | 0 <= i < |sources| && keep(sources[i])
      ensures i in more
    {
      if i < |source| { assert i in at; } else { assert more[|at|] == i; }
    }
  }

  lemma {:induction false} KeptSnoc(names: seq<string>, x: string, exclude: set<string>)
    ensures Kept(names + [x], exclude) == Kept(names, exclude) + (if x in exclude then [] else [x])
  {
    if names == [] {
      assert [] + [x] == [x] && [x][1..] == [];
    } else {
      assert (names + [x])[1..] == names[1..] + [x];
      KeptSnoc(names[1..], x, exclude);
    }
  }

  lemma KnownSnoc(names: seq<string>, x: string, among: set<string>)
    ensures Known(names + [x], among) == Known(names, among) + (if x in among then [x] else [])
  {
    assert (names + [x])[..|names|] == names;
  }

  /** Kept and Known of one more name. */
  lemma ShownSnoc(names: seq<string>, x: string, exclude: set<string>, among: set<string>)
    ensures Known(Kept(names + [x], exclude), among) ==
            Known(Kept(names, exclude), among) + (if x !in exclude && x in among then [x] else [])
  {
    KeptSnoc(names, x, exclude);
    var kept := Kept(names, exclude);
    if x in exclude {
      assert kept + [] == kept && Known(kept, among) + [] == Known(kept, among);
    } else {
      KnownSnoc(kept, x, among);
    }
  }

  lemma {:induction false} ListedNames(names: seq<string>, exclude: set<string>, among: set<string>,
                                       keep: string -> bool)
    requires forall n :: keep(n) <==> n !in exclude && n in among
    ensures Lists(Known(Kept(names, exclude), among), names, keep)
  {
    if names == [] {
      NothingListed(keep);
    } else {
      var front, x := names[..|names| - 1], names[|names| - 1];
      ListedNames(front, exclude, among, keep);
      assert keep(x) <==> x !in exclude && x in among;
      ListedNext(front, x, front, exclude, among, keep);
      assert names == front + [x];
    }
  }

  lemma NothingListed(keep: string -> bool)
    ensures Lists([], [], keep)
  {
    assert ListedAt([], [], keep, []);
  }

  lemma ListedNext(names: seq<string>, x: string, source: seq<string>, exclude: set<string>, among: set<string>,
                   keep: string -> bool)
    requires keep(x) <==> x !in exclude && x in among
    requires Lists(Known(Kept(names, exclude), among), source, keep)
    ensures Lists(Known(Kept(names + [x], exclude), among), source + [x], keep)
  {
    ShownSnoc(names, x, exclude, among);
    ListsSnoc(Known(Kept(names, exclude), among), source, keep, x);
  }

  lemma ListedSkip(out: seq<string>, x: string, source: seq<string>, keep: string -> bool)
    requires !keep(x) && Lists(out, source, keep)
    ensures Lists(out, source + [x], keep)
  {
    ListsSnoc(out, source, keep, x);
    assert out + [] == out;
  }

  function Names(model: seq<ModelField>): (r: seq<string>)
    ensures |r| == |model| && forall i :: 0 <= i < |r| ==> r[i] == model[i].name
  {
    seq(|model|, i requires 0 <= i < |model| => model[i].name)
  }

  lemma EditableSnoc(front: seq<ModelField>, mf: ModelField)
    ensures EditableNames(front + [mf]) == EditableNames(front) + (if FormFieldFor(mf).Some? then [mf.name] else [])
    ensures Names(front + [mf]) == Names(front) + [mf.name]
  {
    assert (front + [mf])[..|front|] == front;
  }

  lemma DeclaredNext(front: seq<ModelField>, mf: ModelField, exclude: set<string>, among: set<string>,
                     keep: string -> bool)
    requires keep(mf.name) <==> mf.name !in exclude && FormFieldFor(mf).Some?
    requires FormFieldFor(mf).Some? ==> mf.name in among
    requires Lists(Known(Kept(EditableNames(front), exclude), among), Names(front), keep)
    ensures Lists(Known(Kept(EditableNames(front + [mf]), exclude), among), Names(front + [mf]), keep)
  {
    EditableSnoc(front, mf);
    if FormFieldFor(mf).Some? {
      ListedNext(EditableNames(front), mf.name, Names(front), exclude, among, keep);
    } else {
      ListedSkip(Known(Kept(EditableNames(front), exclude), among), mf.name, Names(front), keep);
      assert EditableNames(front) + [] == EditableNames(front);
    }
  }

  lemma {:induction false} DeclaredNames(model: seq<ModelField>, exclude: set<string>, among: set<string>,
                                         keep: string -> bool)
    requires forall mf :: mf in model ==> (keep(mf.name) <==> mf.name !in exclude && FormFieldFor(mf).Some?)
    requires forall mf :: mf in model && FormFieldFor(mf).Some? ==> mf.name in among
    ensures Lists(Known(Kept(EditableNames(model), exclude), among), Names(model), keep)
  {
    if model == [] {
      NothingListed(keep);
    } else {
      var front, mf := model[..|model| - 1], model[|model| - 1];
      DeclaredNames(front, exclude, among, keep);
      assert model == front + [mf] && mf in model;
      DeclaredNext(front, mf, exclude, among, keep);
    }
  }

  /** A form shows its fields in the listed order if a list is given, repetitions and all, and
      else in the declared one. */
  lemma FormOrderLists(model: seq<ModelField>, cfg: Config)
    requires UniqueNames(model)
    ensures Lists(FormOrder(model, cfg), if cfg.only != [] then cfg.only else Names(model),
                  n => n !in cfg.exclude && Editable(model, n))
  {
    var names := EditableNames(model);
    var among := set n | n in names;
    var keep := n => n !in cfg.exclude && Editable(model, n);
    if cfg.only != [] {
      ListedNames(cfg.only, cfg.exclude, among, keep);
    } else {
      DeclaredNames(model, cfg.exclude, among, keep);
    }
  }

  /** Under the name of every editable field of the first i is the object made for it. */
  ghost predicate BuiltUpTo(model: seq<ModelField>, built: map<string, FormField>, i: nat) {
    && (forall n :: n in built <==>
          exists k :: 0 <= k < i && k < |model| && model[k].name == n && FormFieldFor(model[k]).Some?)
    && (forall k :: 0 <= k < i && k < |model| && FormFieldFor(model[k]).Some? ==>
          model[k].name in built && built[model[k].name] == FormFieldFor(model[k]).value)
  }

  ghost predicate BuiltFrom(model: seq<ModelField>, built: map<string, FormField>) {
    BuiltUpTo(model, built, |model|)
  }

  lemma BuiltNext(model: seq<ModelField>, built: map<string, FormField>, i: nat)
    requires UniqueNames(model) && i < |model| && BuiltUpTo(model, built, i)
    ensures var ff := FormFieldFor(model[i]);
            BuiltUpTo(model, if ff.Some? then built[ff.value.name := ff.value] else built, i + 1)
  {
    var ff := FormFieldFor(model[i]);
    if ff.Some? {
      assert ff.value.name == model[i].name;
    }
  }

  lemma BuiltNames(model: seq<ModelField>, built: map<string, FormField>)
    requires BuiltFrom(model, built)
    ensures built.Keys == set n | n in EditableNames(model)
  {
    assert forall n :: n in built <==> Editable(model, n);
  }

  lemma BuiltNamed(model: seq<ModelField>, built: map<string, FormField>, n: string)
    requires BuiltFrom(model, built) && n in built
    ensures built[n].name == n
  {
    var k :| 0 <= k < |model| && model[k].name == n && FormFieldFor(model[k]).Some?;
  }

  /** The field objects of the model, and their names in declaration order. */
  method BuildFields(model: seq<ModelField>) returns (built: map<string, FormField>, all: seq<string>)
    requires UniqueNames(model)
    ensures all == EditableNames(model) && BuiltFrom(model, built)
  {
    built, all := map[], [];
    for i := 0 to |model|
      invariant all == EditableNames(model[..i]) && BuiltUpTo(model, built, i)
    {
      var ff := FormFieldFor(model[i]);
      BuiltNext(model, built, i);
      if ff.Some? {
        built := built[ff.value.name := ff.value];
        all := all + [ff.value.name];
      }
      assert model[..i + 1][..i] == model[..i];
    }
    assert model[..|model|] == model;
  }

  /** The object of a field with its required flag overridden if the names include it. */
  function Overridden(f: FormField, names: seq<string>, required: map<string, bool>): FormField {
    if f.name in names && f.name in required then f.(required := required[f.name]) else f
  }

  ghost predicate AllOverridden(built: map<string, FormField>, names: seq<string>, required: map<string, bool>,
                                fields: map<string, FormField>) {
    && fields.Keys == built.Keys
    && forall n :: n in built ==> built[n].name == n && fields[n] == Overridden(built[n], names, required)
  }

  lemma OverriddenNext(built: map<string, FormField>, names: seq<string>, required: map<string, bool>,
                       fields: map<string, FormField>, name: string)
    requires AllOverridden(built, names, required, fields)
    ensures AllOverridden(built, names + [name], required,
                          if name in fields && name in required
                          then fields[name := fields[name].(required := required[name])] else fields)
  {
    assert forall n :: n in names + [name] <==> n in names || n == name;
  }

  /** The included fields in order, with the overrides applied. */
  method Include(built: map<string, FormField>, names: seq<string>, required: map<string, bool>)
    returns (fields: map<string, FormField>, order: seq<string>)
    requires forall n :: n in built ==> built[n].name == n
    ensures AllOverridden(built, names, required, fields)
    ensures order == Known(names, built.Keys)
  {
    fields, order := built, [];
    for j := 0 to |names|
      invariant AllOverridden(built, names[..j], required, fields)
      invariant order == Known(names[..j], built.Keys)
    {
      var name := names[j];
      assert names[..j + 1][..j] == names[..j] && names[..j + 1] == names[..j] + [name];
      OverriddenNext(built, names[..j], required, fields, name);
      if name in fields {
        if name in required {
          fields := fields[name := fields[name].(required := required[name])];
        }
        order := order + [name];
      }
    }
    assert names[..|names|] == names;
  }

  /** The field objects of a form are those of the model fields of the same names. */
  ghost predicate FieldsFor(model: seq<ModelField>, cfg: Config, fields: map<string, FormField>, order: seq<string>) {
    forall i {:trigger model[i].name} :: 0 <= i < |model| && model[i].name in order ==>
      && FormFieldFor(model[i]).Some? && model[i].name in fields
      && fields[model[i].name] == FieldFor(model[i], cfg.required, [])
  }

  method FromModel(clock: Clock, model: seq<ModelField>, cfg: Config) returns (f: Form)
    requires UniqueNames(model) && forall i :: 0 <= i < |model| ==> model[i].name != ""
    ensures fresh(f) && FormOf(model, f) && f.clock == clock && f.nonField == [] && f.data == map[]
    ensures f.order == FormOrder(model, cfg) && FieldsFor(model, cfg, f.built, f.order)
  {
    var built, all := BuildFields(model);
    BuiltNames(model, built);
    forall n | n in built ensures built[n].name == n {
      BuiltNamed(model, built, n);
    }
    var names := IncludedNames(cfg, all);
    var fields, order := Include(built, names, cfg.required);
    IncludedAreFor(model, cfg, built, names, fields, order);
    forall n | n in order ensures MadeFor(model, fields, n) {
      IncludedIsMade(model, cfg, fields, order, n);
    }
    f := new Form(clock, fields, order);
  }

  lemma IncludedAreFor(model: seq<ModelField>, cfg: Config, built: map<string, FormField>, names: seq<string>,
                       fields: map<string, FormField>, order: seq<string>)
    requires UniqueNames(model) && BuiltFrom(model, built) && AllOverridden(built, names, cfg.required, fields)
    requires forall n :: n in order ==> n in names && n in built
    ensures FieldsFor(model, cfg, fields, order)
  {
    forall i | 0 <= i < |model| && model[i].name in order
      ensures FormFieldFor(model[i]).Some? && model[i].name in fields
      ensures fields[model[i].name] == FieldFor(model[i], cfg.required, [])
    {
      var k :| 0 <= k < |model| && model[k].name == model[i].name && FormFieldFor(model[k]).Some?;
      assert k == i;
    }
  }

  /** The field object of the name was made for a field of the model. */
  ghost predicate MadeFor(model: seq<ModelField>, fields: map<string, FormField>, n: string) {
    && n in fields && fields[n].name == n
    && exists i :: 0 <= i < |model| && n == model[i].name && Fits(model[i], fields[n])
  }

  lemma IncludedIsMade(model: seq<ModelField>, cfg: Config, fields: map<string, FormField>, order: seq<string>,
                       n: string)
    requires Editable(model, n) && n in order && FieldsFor(model, cfg, fields, order)
    ensures MadeFor(model, fields, n)
  {
    var i :| 0 <= i < |model| && model[i].name == n && FormFieldFor(model[i]).Some?;
    assert Fits(model[i], fields[n]);
  }

  /** The submitted text of every named field that has one. */
  ghost predicate ShownData(clock: Clock, obj: Fields, names: seq<string>, data: map<string, string>) {
    && (forall n :: n in data <==> n in names && n in obj && Submitted(clock, obj[n]).Some?)
    && forall n :: n in data ==> n in obj && Submitted(clock, obj[n]) == Some(data[n])
  }

  method Prefill(clock: Clock, obj: Fields, order: seq<string>) returns (data: map<string, string>)
    requires forall n :: n in order ==> n in obj
    ensures ShownData(clock, obj, order, data)
  {
    data := map[];
    for j := 0 to |order|
      invariant ShownData(clock, obj, order[..j], data)
    {
      var n := order[j];
      assert n in order;
      match Submitted(clock, obj[n]) {
        case Some(s) => data := data[n := s];
        case None =>
      }
      assert order[..j + 1] == order[..j] + [n];
    }
    assert order[..|order|] == order;
  }

  method FromStruct(clock: Clock, model: seq<ModelField>, obj: Fields, cfg: Config) returns (f: Form)
    requires UniqueNames(model) && (forall i :: 0 <= i < |model| ==> model[i].name != "") && InstanceOf(model, obj)
    ensures fresh(f) && FormOf(model, f) && f.clock == clock && f.nonField == [] && f.bound && Shows(f, obj)
    ensures f.order == FormOrder(model, cfg)
  {
    f := FromModel(clock, model, cfg);
    OrderIn(model, f, obj);
    var data := Prefill(clock, obj, f.order);
    f.Bind(data);
    BoundShows(f, obj);
  }

  lemma OrderIn(model: seq<ModelField>, f: Form, obj: Fields)
    requires FormOf(model, f) && InstanceOf(model, obj)
    ensures forall n :: n in f.order ==> n in obj
  {
    forall n | n in f.order ensures n in obj {
      var i :| 0 <= i < |model| && n == model[i].name && Fits(model[i], f.built[n]);
    }
  }

  lemma BoundShows(f: Form, obj: Fields)
    requires f.Valid() && ShownData(f.clock, obj, f.order, f.data) && forall n :: n in f.order ==> n in obj
    ensures Shows(f, obj)
  {
  }

  // ----- Writing back -----

  class Instance {
    var fields: Fields

    constructor (fields: Fields)
      ensures this.fields == fields
    {
      this.fields := fields;
    }
  }

  datatype Outcome = Populated | Failed | Panicked

  /** What populating makes of one model field. */
  function FieldOutcome(mf: ModelField, cleaned: map<string, Cleaned>, was: Fields): Assigned
    requires mf.name in was
  {
    if mf.name in cleaned then Assign(mf.fk, was[mf.name], cleaned[mf.name]) else Written(was[mf.name])
  }

  /** The first field that cannot be written, and how. */
  ghost predicate StopsAt(model: seq<ModelField>, cleaned: map<string, Cleaned>, was: Fields, i: nat, outcome: Outcome)
    requires forall k :: 0 <= k < |model| ==> model[k].name in was
  {
    && i < |model| && !FieldOutcome(model[i], cleaned, was).Written?
    && outcome == (if FieldOutcome(model[i], cleaned, was).Panics? then Panicked else Failed)
    && forall k :: 0 <= k < i ==> FieldOutcome(model[k], cleaned, was).Written?
  }

  /** Every field can be written. */
  ghost predicate AllWritten(model: seq<ModelField>, cleaned: map<string, Cleaned>, was: Fields)
    requires forall k :: 0 <= k < |model| ==> model[k].name in was
  {
    forall i :: 0 <= i < |model| ==> FieldOutcome(model[i], cleaned, was).Written?
  }

  /** Every field has been written. */
  ghost predicate Wrote(model: seq<ModelField>, cleaned: map<string, Cleaned>, was: Fields, now: Fields)
    requires forall k :: 0 <= k < |model| ==> model[k].name in was && model[k].name in now
  {
    forall i :: 0 <= i < |model| ==> FieldOutcome(model[i], cleaned, was) == Written(now[model[i].name])
  }

  ghost predicate Stops(model: seq<ModelField>, cleaned: map<string, Cleaned>, was: Fields, outcome: Outcome)
    requires forall k :: 0 <= k < |model| ==> model[k].name in was
  {
    exists i :: StopsAt(model, cleaned, was, i, outcome)
  }

  /** Writes the cleaned values into the fields of their name, and stops at the first
      that cannot be written. */
  method PopulateStruct(model: seq<ModelField>, cleaned: map<string, Cleaned>, dest: Instance)
    returns (outcome: Outcome)
    requires UniqueNames(model) && forall i :: 0 <= i < |model| ==> model[i].name in dest.fields
    modifies dest
    ensures dest.fields.Keys == old(dest.fields).Keys
    ensures forall n :: n in dest.fields && n !in cleaned ==> dest.fields[n] == old(dest.fields)[n]
    ensures outcome.Populated? <==> AllWritten(model, cleaned, old(dest.fields))
    ensures outcome.Populated? ==> Wrote(model, cleaned, old(dest.fields), dest.fields)
    ensures !outcome.Populated? ==> Stops(model, cleaned, old(dest.fields), outcome)
  {
    ghost var was := dest.fields;
    for i := 0 to |model|
      invariant dest.fields.Keys == was.Keys
      invariant forall n :: n in dest.fields && n !in cleaned ==> dest.fields[n] == was[n]
      invariant forall k :: 0 <= k < i ==> FieldOutcome(model[k], cleaned, was) == Written(dest.fields[model[k].name])
      invariant forall k :: i <= k < |model| ==> dest.fields[model[k].name] == was[model[k].name]
    {
      var mf := model[i];
      if mf.name in cleaned {
        match Assign(mf.fk, dest.fields[mf.name], cleaned[mf.name]) {
          case Rejected =>
            assert StopsAt(model, cleaned, was, i, Failed);
            return Failed;
          case Panics =>
            assert StopsAt(model, cleaned, was, i, Panicked);
            return Panicked;
          case Written(v) => dest.fields := dest.fields[mf.name := v];
        }
      }
    }
    outcome := Populated;
  }

  // ----- Any bound data -----

  /** An included integer or datetime field that got blank input. */
  ghost predicate Blank(f: Form, mf: ModelField)
    reads f
  {
    && mf.name in f.order && mf.name in f.built
    && (f.built[mf.name].kind.IntegerField? || f.built[mf.name].kind.DateTimeField?)
    && TrimSpace(RawValue(f.built[mf.name], f.data)) == ""
  }

  /** An included foreign key whose chosen text is no 64-bit integer. */
  ghost predicate BadKey(f: Form, mf: ModelField)
    reads f
  {
    && mf.name in f.order && mf.name in f.built && mf.fk
    && var text := TrimSpace(RawValue(f.built[mf.name], f.data));
       text != "" && ParseInt64(text).NotANumber?
  }

  lemma FieldOutcomeIff(model: seq<ModelField>, f: Form, was: Fields, i: nat)
    requires UniqueNames(model) && FormOf(model, f) && InstanceOf(model, was) && i < |model|
    requires f.Gathered(f.order) && f.AllClean()
    ensures FieldOutcome(model[i], f.cleaned, was).Panics? <==> Blank(f, model[i])
    ensures FieldOutcome(model[i], f.cleaned, was).Rejected? <==> BadKey(f, model[i])
  {
    var n := model[i].name;
    if n in f.order {
      var j :| 0 <= j < |model| && n == model[j].name && Fits(model[j], f.built[n]);
      assert i == j;
      var raw := RawValue(f.built[n], f.data);
      TrimSpaceIs(raw);
      TrimSpaceIs(TrimSpace(raw));
      AssignIff(f.clock, model[i], f.built[n], raw, was[n]);
    }
  }

  /** What writing a cleaned field comes to. */
  lemma AssignIff(clock: Clock, mf: ModelField, f: FormField, raw: string, v: Value)
    requires Fits(mf, f) && Typed(mf, v) && CleanOf(clock, f, raw).Clean?
    requires TrimSpace(TrimSpace(raw)) == TrimSpace(raw)
    ensures var r, text := Assign(mf.fk, v, CleanOf(clock, f, raw).value), TrimSpace(raw);
            && (r.Panics? <==> (f.kind.IntegerField? || f.kind.DateTimeField?) && text == "")
            && (r.Rejected? <==> mf.fk && text != "" && ParseInt64(text).NotANumber?)
  {
    if mf.fk {
    } else if f.kind.IntegerField? || f.kind.DateTimeField? {
      BlankPanicsIff(clock, f, raw, v);
    }
  }

  lemma StopIff(model: seq<ModelField>, f: Form, was: Fields, outcome: Outcome)
    requires UniqueNames(model) && FormOf(model, f) && InstanceOf(model, was)
    requires f.Gathered(f.order) && f.AllClean()
    requires outcome.Populated? <==> AllWritten(model, f.cleaned, was)
    requires !outcome.Populated? ==> Stops(model, f.cleaned, was, outcome)
    ensures outcome.Panicked? <==> BlankFirst(model, f)
    ensures outcome.Populated? <==> forall i :: 0 <= i < |model| ==> !Blank(f, model[i]) && !BadKey(f, model[i])
  {
    forall i | 0 <= i < |model|
      ensures FieldOutcome(model[i], f.cleaned, was).Panics? <==> Blank(f, model[i])
      ensures FieldOutcome(model[i], f.cleaned, was).Rejected? <==> BadKey(f, model[i])
    {
      FieldOutcomeIff(model, f, was, i);
    }
    if !outcome.Populated? {
      var j :| StopsAt(model, f.cleaned, was, j, outcome);
      StopsFirst(model, f.cleaned, was, f, j, outcome);
    }
  }

  lemma StopsFirst(model: seq<ModelField>, cleaned: map<string, Cleaned>, was: Fields, f: Form, j: nat,
                   outcome: Outcome)
    requires forall k :: 0 <= k < |model| ==> model[k].name in was
    requires StopsAt(model, cleaned, was, j, outcome)
    requires forall i :: 0 <= i < |model| ==> (FieldOutcome(model[i], cleaned, was).Panics? <==> Blank(f, model[i]))
    requires forall i :: 0 <= i < |model| ==> (FieldOutcome(model[i], cleaned, was).Rejected? <==> BadKey(f, model[i]))
    ensures outcome.Panicked? <==> BlankFirst(model, f)
  {
    if outcome.Panicked? {
      assert Blank(f, model[j]);
    }
    if i :| 0 <= i < |model| && Blank(f, model[i]) && forall k :: 0 <= k < i ==> !BadKey(f, model[k]) {
      assert j <= i;
    }
  }

  /** Some included integer or datetime field got blank input, and no foreign key in front
      of it fails. */
  ghost predicate BlankFirst(model: seq<ModelField>, f: Form)
    reads f
  {
    exists i :: 0 <= i < |model| && Blank(f, model[i]) && forall k :: 0 <= k < i ==> !BadKey(f, model[k])
  }

  /** IsValid and PopulateStruct on any bound data: populating a valid form panics if
      and only if an included integer or datetime field got blank input and no foreign
      key in front of it fails, and succeeds if and only if there is neither. */
  method PopulateForm(model: seq<ModelField>, f: Form, dest: Instance) returns (valid: bool, outcome: Outcome)
    requires UniqueNames(model) && FormOf(model, f) && InstanceOf(model, dest.fields)
    modifies f`errors, f`cleaned, dest
    ensures valid <==> f.nonField == [] && f.AllClean()
    ensures valid ==> (outcome.Panicked? <==> BlankFirst(model, f))
    ensures valid ==>
      (outcome.Populated? <==> forall i :: 0 <= i < |model| ==> !Blank(f, model[i]) && !BadKey(f, model[i]))
  {
    ghost var was := dest.fields;
    valid := f.IsValid();
    outcome := Populated;
    if valid {
      outcome := PopulateStruct(model, f.cleaned, dest);
      StopIff(model, f, was, outcome);
    }
  }

  /** A form of one optional integer or datetime field, bound to no input for it: it is
      valid, and populating panics. */
  method BlankFieldPanics(clock: Clock, kind: Kind, was: Value, dest: Instance) returns (valid: bool, outcome: Outcome)
    requires (kind.Int? && was == Signed(30)) || (kind.DateTime? && was.Moment?)
    requires dest.fields == map["Seen" := was]
    modifies dest
    ensures valid && outcome == Panicked
  {
    var seen := ModelField("Seen", kind, true, 0, false, [], false);
    var field := FormFieldFor(seen).value;
    var f := new Form(clock, map["Seen" := field], ["Seen"]);
    f.Bind(map[]);
    TrimSpaceIs("");
    ghost var model := [seen];
    assert model[0] == seen && Fits(model[0], field);
    valid, outcome := PopulateForm([seen], f, dest);
    assert Blank(f, model[0]);
  }

  // ----- There and back -----

  /** Every included field of the struct is reproducible in its form field. */
  ghost predicate AllReproducible(f: Form, obj: Fields)
    requires f.Valid()
    reads f
  {
    forall n :: n in f.order ==> n in obj && Reproducible(f.clock, f.built[n], obj[n])
  }

  /** An included time that the form shows as nothing. */
  ghost predicate SomeUnshown(f: Form, obj: Fields)
    requires f.Valid()
    reads f
  {
    exists n :: n in f.order && n in obj && Unshown(f.clock, f.built[n], obj[n])
  }

  /** What FieldRoundTrip says of the field n of a form. */
  ghost predicate Returns(mf: ModelField, f: Form, obj: Fields, dest: Fields, n: string)
    requires f.Valid() && n in f.order && n in obj && n in dest
    reads f
  {
    && mf.name == n && f.Result(n) == CleanOf(f.clock, f.built[n], RawOf(f.clock, f.built[n], obj[n]))
    && Survives(f.clock, mf.fk, f.built[n], obj[n], dest[n])
  }

  lemma SubmittedFieldReturns(model: seq<ModelField>, f: Form, obj: Fields, dest: Fields, n: string) returns (i: nat)
    requires FormOf(model, f) && Shows(f, obj) && InstanceOf(model, obj) && InstanceOf(model, dest)
    requires SameStruct(model, obj, dest) && n in f.order
    ensures n in obj && n in dest && i < |model| && Returns(model[i], f, obj, dest, n)
  {
    i :| 0 <= i < |model| && n == model[i].name && Fits(model[i], f.built[n]);
    FieldRoundTrip(f.clock, model[i], f.built[n], obj[n], dest[n]);
  }

  /** What a valid form of the struct shows can be written into any instance, unless it
      is a time that is not shown, which panics. */
  lemma ValidPopulates(model: seq<ModelField>, f: Form, obj: Fields, dest: Fields, i: nat)
    requires FormOf(model, f) && Shows(f, obj) && InstanceOf(model, obj) && InstanceOf(model, dest)
    requires SameStruct(model, obj, dest) && UniqueNames(model) && f.Gathered(f.order) && i < |model|
    ensures !FieldOutcome(model[i], f.cleaned, dest).Rejected?
    ensures FieldOutcome(model[i], f.cleaned, dest).Panics? <==>
      var n := model[i].name; n in f.cleaned && n in obj && Unshown(f.clock, f.built[n], obj[n])
  {
    var n := model[i].name;
    if n in f.cleaned {
      var j := SubmittedFieldReturns(model, f, obj, dest, n);
      assert i == j;
    }
  }

  /** What a valid form writes back is the value it showed exactly when that is
      reproducible. */
  lemma PopulatedIff(model: seq<ModelField>, f: Form, obj: Fields, was: Fields, now: Fields, n: string)
    requires FormOf(model, f) && Shows(f, obj) && InstanceOf(model, obj) && InstanceOf(model, was)
    requires SameStruct(model, obj, was) && f.Gathered(f.order) && n in f.order && f.Result(n).Clean?
    requires now.Keys == was.Keys
    requires Wrote(model, f.cleaned, was, now)
    ensures n in obj && n in now && (now[n] == obj[n] <==> Reproducible(f.clock, f.built[n], obj[n]))
  {
    var i := SubmittedFieldReturns(model, f, obj, was, n);
    assert FieldOutcome(model[i], f.cleaned, was) == Written(now[model[i].name]);
  }

  /** FromStruct, SetChoices, IsValid, PopulateStruct into another instance: the form
      is valid and reproduces every included field exactly when each is reproducible;
      once it is valid, populating succeeds unless an included time is not shown, and
      then panics; excluded fields stay as they are. */
  method ThereAndBack(clock: Clock, model: seq<ModelField>, obj: Fields, cfg: Config,
                      picks: seq<(string, seq<string>)>, dest: Instance)
    returns (f: Form, valid: bool, outcome: Outcome)
    requires UniqueNames(model) && forall i :: 0 <= i < |model| ==> model[i].name != ""
    requires InstanceOf(model, obj) && InstanceOf(model, dest.fields) && SameStruct(model, obj, dest.fields)
    modifies dest
    ensures FormOf(model, f) && f.clock == clock && f.order == FormOrder(model, cfg) && Shows(f, obj)
    ensures dest.fields.Keys == old(dest.fields).Keys
    ensures valid ==> outcome == if SomeUnshown(f, obj) then Panicked else Populated
    ensures forall n :: n in dest.fields && n !in f.order ==> dest.fields[n] == old(dest.fields)[n]
    ensures valid && outcome.Populated? && Reproduced(f, obj, dest.fields) <==> AllReproducible(f, obj)
  {
    f := FromStruct(clock, model, obj, cfg);
    SetAll(model, f, obj, picks);
    valid, outcome := Submit(model, f, obj, dest);
  }

  /** Fills any choices of the form. */
  method SetAll(model: seq<ModelField>, f: Form, obj: Fields, picks: seq<(string, seq<string>)>)
    requires FormOf(model, f) && Shows(f, obj) && f.nonField == []
    modifies f`built
    ensures FormOf(model, f) && Shows(f, obj)
  {
    for i := 0 to |picks|
      invariant FormOf(model, f) && Shows(f, obj)
    {
      f.SetChoices(picks[i].0, picks[i].1);
    }
  }

  /** Every included field holds the value of the struct. */
  ghost predicate Reproduced(f: Form, obj: Fields, now: Fields)
    requires f.Valid()
    reads f
  {
    forall n :: n in f.order ==> n in obj && n in now && now[n] == obj[n]
  }

  /** IsValid leaves what the form is made of and shows. */
  method Check(model: seq<ModelField>, f: Form, obj: Fields) returns (valid: bool)
    requires FormOf(model, f) && Shows(f, obj) && f.nonField == []
    modifies f`errors, f`cleaned
    ensures FormOf(model, f) && Shows(f, obj) && f.Gathered(f.order)
    ensures valid <==> f.AllClean()
  {
    valid := f.IsValid();
  }

  method Submit(model: seq<ModelField>, f: Form, obj: Fields, dest: Instance) returns (valid: bool, outcome: Outcome)
    requires UniqueNames(model) && FormOf(model, f) && Shows(f, obj) && f.nonField == []
    requires InstanceOf(model, obj) && InstanceOf(model, dest.fields) && SameStruct(model, obj, dest.fields)
    modifies f`errors, f`cleaned, dest
    ensures FormOf(model, f) && Shows(f, obj) && dest.fields.Keys == old(dest.fields).Keys
    ensures valid ==> outcome == if SomeUnshown(f, obj) then Panicked else Populated
    ensures forall n :: n in dest.fields && n !in f.order ==> dest.fields[n] == old(dest.fields)[n]
    ensures valid && outcome.Populated? && Reproduced(f, obj, dest.fields) <==> AllReproducible(f, obj)
  {
    ghost var was := dest.fields;
    valid := Check(model, f, obj);
    outcome := Populated;
    if valid {
      outcome := PopulateStruct(model, f.cleaned, dest);
      StopsUnshown(model, f, obj, was, outcome);
      if outcome.Populated? {
        ReproducedIff(model, f, obj, was, dest.fields);
      } else {
        UnshownIsNot(model, f, obj);
      }
    } else {
      InvalidIsNot(model, f, obj, was);
    }
  }

  /** Populating what a valid form shows panics at the first time that is not shown. */
  lemma StopsUnshown(model: seq<ModelField>, f: Form, obj: Fields, was: Fields, outcome: Outcome)
    requires FormOf(model, f) && Shows(f, obj) && InstanceOf(model, obj) && InstanceOf(model, was)
    requires SameStruct(model, obj, was) && UniqueNames(model) && f.Gathered(f.order)
    requires f.AllClean()
    requires outcome.Populated? <==> AllWritten(model, f.cleaned, was)
    requires !outcome.Populated? ==> Stops(model, f.cleaned, was, outcome)
    ensures outcome == if SomeUnshown(f, obj) then Panicked else Populated
  {
    if outcome.Populated? {
      if n :| n in f.order && n in obj && Unshown(f.clock, f.built[n], obj[n]) {
        var i :| 0 <= i < |model| && n == model[i].name && Fits(model[i], f.built[n]);
        ValidPopulates(model, f, obj, was, i);
      }
    } else {
      var i :| StopsAt(model, f.cleaned, was, i, outcome);
      ValidPopulates(model, f, obj, was, i);
    }
  }

  lemma ReproducedIff(model: seq<ModelField>, f: Form, obj: Fields, was: Fields, now: Fields)
    requires FormOf(model, f) && Shows(f, obj) && InstanceOf(model, obj) && InstanceOf(model, was)
    requires SameStruct(model, obj, was) && f.Gathered(f.order) && f.AllClean()
    requires now.Keys == was.Keys
    requires Wrote(model, f.cleaned, was, now)
    ensures Reproduced(f, obj, now) <==> AllReproducible(f, obj)
  {
    forall n | n in f.order
      ensures n in obj && n in now && (now[n] == obj[n] <==> Reproducible(f.clock, f.built[n], obj[n]))
    {
      PopulatedIff(model, f, obj, was, now, n);
    }
  }

  lemma UnshownField(clock: Clock, mf: ModelField, f: FormField, v: Value)
    requires Fits(mf, f) && Typed(mf, v) && Unshown(clock, f, v)
    ensures !Reproducible(clock, f, v)
  {
  }

  lemma UnshownIsNot(model: seq<ModelField>, f: Form, obj: Fields)
    requires FormOf(model, f) && InstanceOf(model, obj) && SomeUnshown(f, obj)
    ensures !AllReproducible(f, obj)
  {
    var n :| n in f.order && n in obj && Unshown(f.clock, f.built[n], obj[n]);
    var i :| 0 <= i < |model| && n == model[i].name && Fits(model[i], f.built[n]);
    UnshownField(f.clock, model[i], f.built[n], obj[n]);
  }

  /** A form that is not valid shows some value that is not reproducible. */
  lemma InvalidIsNot(model: seq<ModelField>, f: Form, obj: Fields, was: Fields)
    requires FormOf(model, f) && Shows(f, obj) && InstanceOf(model, obj) && InstanceOf(model, was)
    requires SameStruct(model, obj, was) && !f.AllClean()
    ensures !AllReproducible(f, obj)
  {
    var n :| n in f.order && !f.Result(n).Clean?;
    var _ := SubmittedFieldReturns(model, f, obj, was, n);
  }
}
