/** Reading back the definitions and clauses of rendered statements, word by word, as a
    database does. */
module Definitions {
  import opened Schema
  import opened Engine
  import opened Ddl
  import Decimal

  // ----- Words -----

  function SpaceAt(s: string): (i: nat)
    ensures i <= |s| && (i < |s| ==> s[i] == ' ') && forall k :: 0 <= k < i ==> s[k] != ' '
  {
    if s == "" || s[0] == ' ' then 0 else 1 + SpaceAt(s[1..])
  }

  /** The words of a text, between single spaces. */
  function Words(s: string): seq<string> {
    if SpaceAt(s) == |s| then [s] else [s[..SpaceAt(s)]] + Words(s[SpaceAt(s) + 1..])
  }

  lemma WordsCons(word: string, rest: string)
    requires ' ' !in word
    ensures Words(word + " " + rest) == [word] + Words(rest)
  {
    var s := word + " " + rest;
    assert s[|word|] == ' ' && forall k :: 0 <= k < |word| ==> s[k] == word[k];
    assert SpaceAt(s) == |word| && s[..|word|] == word && s[|word| + 1..] == rest;
  }

  lemma WordsOne(word: string)
    requires ' ' !in word
    ensures Words(word) == [word]
  {
  }

  /** A text of words, each behind a space. */
  function Behind(words: seq<string>): string {
    if words == [] then "" else " " + words[0] + Behind(words[1..])
  }

  lemma BehindOne(a: string)
    ensures Behind([a]) == " " + a
  {
    assert [a][1..] == [] && " " + a + "" == " " + a;
  }

  lemma BehindTwo(a: string, b: string)
    ensures Behind([a, b]) == " " + a + (" " + b)
  {
    assert [a, b][1..] == [b];
    BehindOne(b);
  }

  lemma BehindThree(a: string, b: string, c: string)
    ensures Behind([a, b, c]) == " " + a + (" " + b + (" " + c))
  {
    assert [a, b, c][1..] == [b, c];
    BehindTwo(b, c);
  }

  predicate Unspaced(words: seq<string>) {
    forall i :: 0 <= i < |words| ==> ' ' !in words[i]
  }

  lemma {:induction false} WordsBehind(word: string, words: seq<string>)
    requires ' ' !in word && Unspaced(words)
    ensures Words(word + Behind(words)) == [word] + words
    decreases |words|
  {
    if words == [] {
      assert word + "" == word;
      WordsOne(word);
    } else {
      var rest := words[0] + Behind(words[1..]);
      assert word + Behind(words) == word + " " + rest;
      WordsCons(word, rest);
      WordsBehind(words[0], words[1..]);
      assert [words[0]] + words[1..] == words;
    }
  }

  lemma {:induction false} BehindConcat(a: seq<string>, b: seq<string>)
    ensures Behind(a + b) == Behind(a) + Behind(b)
    decreases |a|
  {
    if a == [] {
      assert a + b == b;
    } else {
      assert (a + b)[0] == a[0] && (a + b)[1..] == a[1..] + b;
      BehindConcat(a[1..], b);
    }
  }

  // ----- Column definitions -----

  /** What a column definition says: counts is a number the database counts up. */
  datatype Column = Column(sqlType: SqlType, notNull: bool, key: ColumnKey, counts: bool)

  ghost predicate IsVarchar(word: string, length: int) {
    word == "VARCHAR(" + Decimal.IntText(length) + ")"
  }

  ghost function ReadType(d: Dialect, word: string): Option<SqlType> {
    if word == "TEXT" then Some(TextType)
    else if word == "BOOLEAN" then Some(BooleanType)
    else if word == (if d.Sqlite? then "INTEGER" else "BIGINT") then Some(IntegerType)
    else if d.Postgres? && word == "BIGSERIAL" then Some(IntegerType)
    else if word == (if d.Sqlite? then "DATETIME" else "TIMESTAMPTZ") then Some(TimestampType)
    else if length :| IsVarchar(word, length) then Some(VarcharType(length))
    else None
  }

  /** The constraints behind the type, in any order. */
  function ReadConstraints(words: seq<string>, c: Column): Option<Column>
    decreases |words|
  {
    if words == [] then Some(c)
    else if words[0] == "UNIQUE" then ReadConstraints(words[1..], c.(key := UniqueKey))
    else if words[0] == "AUTOINCREMENT" then ReadConstraints(words[1..], c.(counts := true))
    else if |words| >= 2 && words[..2] == ["NOT", "NULL"] then ReadConstraints(words[2..], c.(notNull := true))
    else if |words| >= 2 && words[..2] == ["PRIMARY", "KEY"] then ReadConstraints(words[2..], c.(key := PrimaryKey))
    else None
  }

  ghost function ReadColumn(d: Dialect, definition: string): Option<Column> {
    var words := Words(definition);
    match ReadType(d, words[0])
    case None => None
    case Some(t) => ReadConstraints(words[1..], Column(t, false, NoKey, d.Postgres? && words[0] == "BIGSERIAL"))
  }

  function NullWords(notNull: bool): seq<string> {
    if notNull then ["NOT", "NULL"] else []
  }

  function KeyWords(key: ColumnKey): seq<string> {
    match key
    case NoKey => []
    case UniqueKey => ["UNIQUE"]
    case PrimaryKey => ["PRIMARY", "KEY"]
  }

  function KeyOfFlags(primary: bool, unique: bool): ColumnKey {
    if primary then PrimaryKey else if unique then UniqueKey else NoKey
  }

  lemma NullText(notNull: bool)
    ensures Behind(NullWords(notNull)) == if notNull then " NOT NULL" else ""
  {
    assert ["NOT", "NULL"][1..] == ["NULL"] && ["NULL"][1..] == [];
  }

  lemma KeyText(primary: bool, unique: bool)
    ensures Behind(KeyWords(KeyOfFlags(primary, unique)))
            == if primary then " PRIMARY KEY" else if unique then " UNIQUE" else ""
  {
    assert ["PRIMARY", "KEY"][1..] == ["KEY"] && ["KEY"][1..] == [] && ["UNIQUE"][1..] == [];
  }

  lemma TextWords(word: string, text: string, more: string, a: seq<string>, b: seq<string>)
    requires ' ' !in word && Unspaced(a) && Unspaced(b) && text == Behind(a) && more == Behind(b)
    ensures Words(word + text + more) == [word] + (a + b)
  {
    BehindConcat(a, b);
    Grouped(word, text, more);
    BothUnspaced(a, b);
    WordsBehind(word, a + b);
  }

  lemma Grouped(a: string, b: string, c: string)
    ensures a + b + c == a + (b + c)
  {
  }

  lemma BothUnspaced(a: seq<string>, b: seq<string>)
    requires Unspaced(a) && Unspaced(b)
    ensures Unspaced(a + b)
  {
  }

  lemma ConstraintWords(word: string, text: string, more: string, notNull: bool, primary: bool, unique: bool)
    requires ' ' !in word && text == (if notNull then " NOT NULL" else "")
    requires more == if primary then " PRIMARY KEY" else if unique then " UNIQUE" else ""
    ensures Words(word + text + more) == [word] + (NullWords(notNull) + KeyWords(KeyOfFlags(primary, unique)))
  {
    NullText(notNull);
    KeyText(primary, unique);
    TextWords(word, text, more, NullWords(notNull), KeyWords(KeyOfFlags(primary, unique)));
  }

  lemma KeyRead(key: ColumnKey, c: Column)
    requires c.key.NoKey?
    ensures ReadConstraints(KeyWords(key), c) == Some(c.(key := key))
  {
    assert KeyWords(PrimaryKey)[2..] == [] && KeyWords(UniqueKey)[1..] == [];
  }

  lemma ConstraintsRead(notNull: bool, key: ColumnKey, c: Column)
    requires c.key.NoKey? && !c.notNull
    ensures ReadConstraints(NullWords(notNull) + KeyWords(key), c) == Some(c.(notNull := notNull, key := key))
  {
    var words := NullWords(notNull) + KeyWords(key);
    if notNull {
      assert words[0] == "NOT" && words[..2] == ["NOT", "NULL"] && words[2..] == KeyWords(key);
      KeyRead(key, c.(notNull := true));
    } else {
      assert words == KeyWords(key);
      KeyRead(key, c);
    }
  }

  /** The word of a type is read as the type. */
  lemma TypeReads(d: Dialect, t: SqlType)
    ensures ' ' !in TypeText(d, t) && TypeText(d, t) != "BIGSERIAL" && ReadType(d, TypeText(d, t)) == Some(t)
  {
    var word := TypeText(d, t);
    if t.VarcharType? {
      VarcharReads(d, t.length);
    }
  }

  lemma VarcharReads(d: Dialect, length: int)
    ensures var word := "VARCHAR(" + Decimal.IntText(length) + ")";
            ' ' !in word && word != "BIGSERIAL" && ReadType(d, word) == Some(VarcharType(length))
  {
    var word, digits := "VARCHAR(" + Decimal.IntText(length) + ")", Decimal.IntText(length);
    assert word[0] == 'V' && word[8..|word| - 1] == digits;
    Decimal.IntTextEnds(length);
    DigitsHaveNoSpace(length);
    assert IsVarchar(word, length);
    forall other | IsVarchar(word, other) ensures other == length {
      assert word[8..|word| - 1] == Decimal.IntText(other);
      Decimal.IntTextInjective(length, other);
    }
  }

  lemma DigitsHaveNoSpace(n: int)
    ensures ' ' !in Decimal.IntText(n)
  {
    var digits := Decimal.NatText(if n < 0 then -n else n);
    assert forall c :: c in digits ==> Decimal.IsDigit(c);
  }

  // ----- What rendered definitions say -----

  /** The column is the one of the field: its name, its type, NOT NULL exactly for a field
      that is not nullable and not counted up, PRIMARY KEY for a key, UNIQUE exactly for a
      unique field that is none, and what the engine reads in it. */
  ghost predicate Defines(d: Dialect, c: ColumnDef, f: FieldState) {
    && c.name == f.column
    && ReadColumn(d, c.definition) ==
       Some(Column(match f.kind
                   case Auto => IntegerType
                   case Int => IntegerType
                   case Char => VarcharType(f.maxLength)
                   case Text => TextType
                   case Bool => BooleanType
                   case DateTime => TimestampType
                   case Unknown(_) => TextType,
                   !f.kind.Auto? && !f.nullable,
                   if f.kind.Auto? || f.primaryKey then PrimaryKey else if f.unique then UniqueKey else NoKey,
                   f.kind.Auto?))
    && c.sqlType == ReadColumn(d, c.definition).value.sqlType && c.key == ReadColumn(d, c.definition).value.key
  }

  lemma CountedText(d: Dialect)
    ensures if d.Sqlite? then "INTEGER" + Behind(["PRIMARY", "KEY", "AUTOINCREMENT"])
            == "INTEGER PRIMARY KEY AUTOINCREMENT"
            else "BIGSERIAL" + Behind(["PRIMARY", "KEY"]) == "BIGSERIAL PRIMARY KEY"
  {
    if d.Sqlite? {
      BehindThree("PRIMARY", "KEY", "AUTOINCREMENT");
    } else {
      BehindTwo("PRIMARY", "KEY");
    }
  }

  lemma CountedConstraints(c: Column)
    requires c.key.NoKey?
    ensures ReadConstraints(["PRIMARY", "KEY", "AUTOINCREMENT"], c) == Some(c.(key := PrimaryKey, counts := true))
    ensures ReadConstraints(["PRIMARY", "KEY"], c) == Some(c.(key := PrimaryKey))
  {
    var words := ["PRIMARY", "KEY", "AUTOINCREMENT"];
    assert words[..2] == ["PRIMARY", "KEY"] && words[2..] == ["AUTOINCREMENT"] && ["AUTOINCREMENT"][1..] == [];
    assert ["PRIMARY", "KEY"][..2] == ["PRIMARY", "KEY"] && ["PRIMARY", "KEY"][2..] == [];
  }

  lemma ReadsFrom(d: Dialect, definition: string, word: string, rest: seq<string>, t: SqlType, counts: bool, c: Column)
    requires Words(definition) == [word] + rest && ReadType(d, word) == Some(t)
    requires counts == (d.Postgres? && word == "BIGSERIAL")
    requires ReadConstraints(rest, Column(t, false, NoKey, counts)) == Some(c)
    ensures ReadColumn(d, definition) == Some(c)
  {
    assert ([word] + rest)[1..] == rest;
  }

  lemma CountedWords(d: Dialect, definition: string)
    requires definition == if d.Sqlite? then "INTEGER PRIMARY KEY AUTOINCREMENT" else "BIGSERIAL PRIMARY KEY"
    ensures Words(definition) == if d.Sqlite? then ["INTEGER"] + ["PRIMARY", "KEY", "AUTOINCREMENT"]
                                 else ["BIGSERIAL"] + ["PRIMARY", "KEY"]
  {
    CountedText(d);
    if d.Sqlite? {
      WordsBehind("INTEGER", ["PRIMARY", "KEY", "AUTOINCREMENT"]);
    } else {
      WordsBehind("BIGSERIAL", ["PRIMARY", "KEY"]);
    }
  }

  lemma CountedReads(d: Dialect, definition: string)
    requires definition == if d.Sqlite? then "INTEGER PRIMARY KEY AUTOINCREMENT" else "BIGSERIAL PRIMARY KEY"
    ensures ReadColumn(d, definition) == Some(Column(IntegerType, false, PrimaryKey, true))
  {
    var c := Column(IntegerType, false, PrimaryKey, true);
    CountedWords(d, definition);
    CountedConstraints(Column(IntegerType, false, NoKey, d.Postgres?));
    if d.Sqlite? {
      ReadsFrom(d, definition, "INTEGER", ["PRIMARY", "KEY", "AUTOINCREMENT"], IntegerType, false, c);
    } else {
      ReadsFrom(d, definition, "BIGSERIAL", ["PRIMARY", "KEY"], IntegerType, true, c);
    }
  }

  lemma PlainReads(d: Dialect, definition: string, t: SqlType, text: string, more: string, notNull: bool, primary: bool,
                   unique: bool)
    requires definition == TypeText(d, t) + text + more && text == (if notNull then " NOT NULL" else "")
    requires more == if primary then " PRIMARY KEY" else if unique then " UNIQUE" else ""
    ensures ReadColumn(d, definition) == Some(Column(t, notNull, KeyOfFlags(primary, unique), false))
  {
    var rest := NullWords(notNull) + KeyWords(KeyOfFlags(primary, unique));
    TypeReads(d, t);
    ConstraintWords(TypeText(d, t), text, more, notNull, primary, unique);
    ConstraintsRead(notNull, KeyOfFlags(primary, unique), Column(t, false, NoKey, false));
    ReadsFrom(d, definition, TypeText(d, t), rest, t, false, Column(t, notNull, KeyOfFlags(primary, unique), false));
  }

  /** Every definition both dialects render says what the field does. */
  lemma DefDefines(d: Dialect, f: FieldState)
    ensures Defines(d, Def(d, f), f)
  {
    if f.kind.Auto? {
      CountedReads(d, Def(d, f).definition);
    } else {
      PlainReads(d, Def(d, f).definition, TypeOf(f), if !f.nullable then " NOT NULL" else "",
                 if f.primaryKey then " PRIMARY KEY" else if f.unique then " UNIQUE" else "",
                 !f.nullable, f.primaryKey, f.unique);
    }
  }

  // ----- Foreign keys -----

  function ActionWords(od: OnDelete): seq<string> {
    match od
    case DoNothing => []
    case Cascade => ["ON", "DELETE"] + ["CASCADE"]
    case Restrict => ["ON", "DELETE"] + ["RESTRICT"]
    case SetNull => ["ON", "DELETE"] + ["SET", "NULL"]
  }

  /** The clause behind REFERENCES tells the database to take the action. */
  predicate Orders(clause: string, od: OnDelete) {
    Words(clause) == [""] + ActionWords(od)
  }

  lemma OneAction(clause: string, a: OnDelete, b: OnDelete)
    requires Orders(clause, a) && Orders(clause, b)
    ensures a == b
  {
    assert ([""] + ActionWords(a))[1..] == ActionWords(a) && ([""] + ActionWords(b))[1..] == ActionWords(b);
    assert |ActionWords(a)| == 3 && |ActionWords(b)| == 3 ==> ActionWords(a)[2] == ActionWords(b)[2];
  }

  lemma OnDeleteText(action: seq<string>, text: string)
    requires text == Behind(action)
    ensures Behind(["ON", "DELETE"] + action) == " ON DELETE" + text
  {
    BehindTwo("ON", "DELETE");
    BehindConcat(["ON", "DELETE"], action);
  }

  lemma ClauseText(od: OnDelete)
    ensures Behind(ActionWords(od)) == Clause(od)
  {
    match od
    case DoNothing =>
    case Cascade =>
      BehindOne("CASCADE");
      OnDeleteText(["CASCADE"], " CASCADE");
    case Restrict =>
      BehindOne("RESTRICT");
      OnDeleteText(["RESTRICT"], " RESTRICT");
    case SetNull =>
      BehindTwo("SET", "NULL");
      OnDeleteText(["SET", "NULL"], " SET NULL");
  }

  lemma ClauseWords(od: OnDelete)
    ensures Words(Clause(od)) == [""] + ActionWords(od)
  {
    ClauseText(od);
    assert Unspaced(ActionWords(od));
    assert "" + Clause(od) == Clause(od);
    WordsBehind("", ActionWords(od));
  }

  /** It is the action of the foreign key, and no other. */
  lemma ClauseReads(od: OnDelete)
    ensures Orders(Clause(od), od) && forall other :: Orders(Clause(od), other) ==> other == od
  {
    ClauseWords(od);
    forall other | Orders(Clause(od), other) ensures other == od {
      OneAction(Clause(od), od, other);
    }
  }

  /** One clause for each foreign key with a target, in field order. */
  predicate KeysDefine(keys: seq<ForeignKey>, fields: seq<FieldState>)
    decreases |fields|
  {
    if fields == [] then keys == []
    else if fields[0].relKind == RelFK && fields[0].relTargetTable != "" then
      && keys != [] && KeysDefine(keys[1..], fields[1..])
      && keys[0].column == fields[0].column && keys[0].targetTable == fields[0].relTargetTable
      && keys[0].targetColumn == fields[0].relTargetColumn
      && Orders(keys[0].onDelete, fields[0].relOnDelete)
    else KeysDefine(keys, fields[1..])
  }

  lemma {:induction false} ForeignKeysDefine(fields: seq<FieldState>)
    ensures KeysDefine(ForeignKeys(fields), fields)
  {
    if fields != [] {
      ForeignKeysDefine(fields[1..]);
      ClauseReads(fields[0].relOnDelete);
      var keys := ForeignKeys(fields);
      if fields[0].relKind == RelFK && fields[0].relTargetTable != "" {
        assert keys[1..] == ForeignKeys(fields[1..]);
      } else {
        assert keys == ForeignKeys(fields[1..]);
      }
    }
  }

  // ----- Whole operations -----

  ghost predicate Creates(d: Dialect, stmt: Stmt, table: string, fields: seq<FieldState>) {
    && stmt.CreateTable? && stmt.table == table && |stmt.columns| == |fields|
    && (forall i :: 0 <= i < |fields| ==> Defines(d, stmt.columns[i], fields[i]))
    && KeysDefine(stmt.foreignKeys, fields)
  }

  /** CREATE TABLE declares the fields, in order, and their foreign keys. */
  lemma CreateTableDefines(d: Dialect, table: string, fields: seq<FieldState>)
    ensures Creates(d, CreateTableSql(d, table, fields), table, fields)
  {
    forall i | 0 <= i < |fields| ensures Defines(d, Def(d, fields[i]), fields[i]) {
      DefDefines(d, fields[i]);
    }
    ForeignKeysDefine(fields);
  }

  /** The statements of an operation declare what it asks for: CREATE TABLE the new
      fields, ADD COLUMN the added field, a rebuild what it leaves of the model. */
  ghost predicate Declares(d: Dialect, op: Operation, s: State, stmts: seq<Stmt>)
    requires !op.CreateModel? ==> ModelOf(op) in s.models
  {
    match op
    case CreateModel(_, table, fields) => |stmts| == 1 && Creates(d, stmts[0], table, fields)
    case DeleteModel(name) => stmts == [DropTable(s.models[name].table)]
    case AddField(model, field) =>
      && |stmts| == 1 && stmts[0].AddColumn? && stmts[0].table == s.models[model].table
      && Defines(d, stmts[0].column, field)
    case RemoveField(model, name) =>
      var ms := s.models[model];
      stmts != [] && Creates(d, stmts[0], TempName(ms.table), Without(ms.fields, name))
    case AlterField(model, field) =>
      var ms := s.models[model];
      stmts != [] && Creates(d, stmts[0], TempName(ms.table), ReplaceFirst(ms.fields, field))
  }

  lemma OpDeclares(d: Dialect, op: Operation, s: State)
    requires OpSql(d, op, s).Stmts?
    ensures !op.CreateModel? ==> ModelOf(op) in s.models
    ensures Declares(d, op, s, OpSql(d, op, s).stmts)
  {
    match op
    case CreateModel(_, table, fields) => CreateTableDefines(d, table, fields);
    case DeleteModel(_) =>
    case AddField(_, field) => DefDefines(d, field);
    case RemoveField(model, name) =>
      CreateTableDefines(d, TempName(s.models[model].table), Without(s.models[model].fields, name));
    case AlterField(model, field) =>
      CreateTableDefines(d, TempName(s.models[model].table), ReplaceFirst(s.models[model].fields, field));
  }
}
