/** Histories of generated migrations (migrations/makemigrations.go,
    migrations/migration.go). */
module MakeMigrations {
  import opened Schema
  import opened Autodetect
  import opened Ddl
  import opened Engine
  import Commutation
  import Decimal

  datatype Migration = Migration(app: string, name: string, dependencies: seq<string>, operations: seq<Operation>)

  datatype Made = NoChanges | Made(migration: Migration)

  /** Key of the tracking table. */
  function Key(m: Migration): string {
    m.app + "/" + m.name
  }

  // ----- Replay -----

  function AllOps(migs: seq<Migration>): seq<Operation> {
    if migs == [] then [] else migs[0].operations + AllOps(migs[1..])
  }

  /** The cumulative state of the migrations; None if replaying panics. */
  function StateFromMigrations(migs: seq<Migration>): Option<State> {
    ApplyAll(AllOps(migs), EMPTY)
  }

  lemma {:induction false} AllOpsSnoc(migs: seq<Migration>, m: Migration)
    ensures AllOps(migs + [m]) == AllOps(migs) + m.operations
  {
    if migs == [] {
      assert [m][1..] == [];
    } else {
      assert (migs + [m])[1..] == migs[1..] + [m];
      AllOpsSnoc(migs[1..], m);
    }
  }

  // ----- Names -----

  /** The number n printed with %04d. */
  function Padded(n: nat): string {
    if n < 10 then "000" + Decimal.NatText(n)
    else if n < 100 then "00" + Decimal.NatText(n)
    else if n < 1000 then "0" + Decimal.NatText(n)
    else Decimal.NatText(n)
  }

  function MigrationName(n: nat): string {
    Padded(n) + (if n == 1 then "_initial" else "_auto")
  }

  lemma PaddedValue(n: nat)
    ensures Decimal.AllDigits(Padded(n)) && Decimal.DigitsValue(Padded(n)) == n
  {
    var s := Decimal.NatText(n);
    Decimal.NatTextRoundTrip(n);
    Decimal.LeadingZeros("0", s);
    Decimal.LeadingZeros("00", s);
    Decimal.LeadingZeros("000", s);
  }

  /** A number of at least four digits, with no more zeros in front than that takes, then
      the word for a first migration or for a later one. */
  ghost predicate Numbered(name: string, n: nat) {
    exists digits :: && name == digits + (if n == 1 then "_initial" else "_auto") && Decimal.Numeral(digits, n)
                     && |digits| >= 4 && (|digits| > 4 ==> digits[0] != '0')
  }

  lemma MigrationNameIs(n: nat)
    ensures Numbered(MigrationName(n), n)
  {
    PaddedValue(n);
    Decimal.DigitsValueIff(Padded(n), n);
    DigitCount(n);
    assert MigrationName(n) == Padded(n) + (if n == 1 then "_initial" else "_auto");
  }

  lemma DigitCount(n: nat)
    ensures var k := |Decimal.NatText(n)|;
            (n < 10 <==> k <= 1) && (n < 100 <==> k <= 2) && (n < 1000 <==> k <= 3)
  {
    if n >= 10 && n / 10 >= 10 && n / 10 / 10 >= 10 {
      assert |Decimal.NatText(n / 10 / 10 / 10)| >= 1;
    }
  }

  /** Position of the first underscore. */
  function Underscore(s: string): nat {
    if s == "" || s[0] == '_' then 0 else 1 + Underscore(s[1..])
  }

  lemma {:induction false} UnderscoreAfterDigits(digits: string, rest: string)
    requires Decimal.AllDigits(digits) && rest != "" && rest[0] == '_'
    ensures Underscore(digits + rest) == |digits|
  {
    if digits == "" {
      assert digits + rest == rest;
    } else {
      assert (digits + rest)[1..] == digits[1..] + rest;
      assert digits[0] in digits;
      UnderscoreAfterDigits(digits[1..], rest);
    }
  }

  lemma MigrationNameInjective(m: nat, n: nat)
    requires MigrationName(m) == MigrationName(n)
    ensures m == n
  {
    PaddedValue(m);
    PaddedValue(n);
    UnderscoreAfterDigits(Padded(m), if m == 1 then "_initial" else "_auto");
    UnderscoreAfterDigits(Padded(n), if n == 1 then "_initial" else "_auto");
    assert MigrationName(m)[..|Padded(m)|] == Padded(m);
    assert MigrationName(n)[..|Padded(n)|] == Padded(n);
  }

  // ----- MakeMigrations -----

  function Make(app: string, current: State, prior: seq<Migration>): Made
    requires StateFromMigrations(prior).Some?
    requires forall n :: n in current.order ==> n in current.models
  {
    var ops := Diff(StateFromMigrations(prior).value, current);
    if |ops| == 0 then NoChanges
    else Made(Migration(app, MigrationName(|prior| + 1), if prior == [] then [] else [prior[|prior| - 1].name], ops))
  }

  /** The migrations were each made from the ones before it and the model registry
      as it then was. */
  ghost predicate History(app: string, migs: seq<Migration>, registries: seq<State>)
    decreases |migs|
  {
    |migs| == |registries| &&
    (migs != [] ==>
       var n := |migs| - 1;
       && History(app, migs[..n], registries[..n])
       && WellFormed(registries[n])
       && StateFromMigrations(migs[..n]).Some?
       && Make(app, registries[n], migs[..n]) == Made(migs[n]))
  }

  lemma {:induction false} AddsNoDuplicatesConcat(a: seq<Operation>, b: seq<Operation>, s: State)
    requires ApplyAll(a, s).Some?
    requires Commutation.AddsNoDuplicates(a, s) && Commutation.AddsNoDuplicates(b, ApplyAll(a, s).value)
    ensures Commutation.AddsNoDuplicates(a + b, s)
  {
    if a == [] {
      assert a + b == b;
    } else {
      assert (a + b)[0] == a[0] && (a + b)[1..] == a[1..] + b;
      AddsNoDuplicatesConcat(a[1..], b, ApplyOp(a[0], s).value);
    }
  }

  lemma {:induction false} TargetsAddNoDuplicates(ops: seq<Operation>, s: State)
    requires FindTargets(ops, s)
    ensures Commutation.AddsNoDuplicates(ops, s)
  {
    if ops != [] {
      TargetsAddNoDuplicates(ops[1..], ApplyOp(ops[0], s).value);
    }
  }

  /** The migrations replay to a well-formed state with the given schema, and no
      operation introduces a duplicate field name. */
  ghost predicate Replays(migs: seq<Migration>, s: State, current: State) {
    && StateFromMigrations(migs) == Some(s)
    && WellFormed(s) && SameSchema(s, current)
    && Commutation.AddsNoDuplicates(AllOps(migs), EMPTY)
  }

  lemma MakeReplays(app: string, prior: seq<Migration>, m: Migration, before: State, last: State, current: State)
      returns (s: State)
    requires Replays(prior, before, last) && WellFormed(current)
    requires Make(app, current, prior) == Made(m)
    ensures Replays(prior + [m], s, current)
  {
    s := DiffSound(before, current);
    AllOpsSnoc(prior, m);
    ApplyAllConcat(AllOps(prior), m.operations, EMPTY);
    TargetsAddNoDuplicates(m.operations, before);
    AddsNoDuplicatesConcat(AllOps(prior), m.operations, EMPTY);
  }

  function LastOf(registries: seq<State>): State {
    if registries == [] then EMPTY else registries[|registries| - 1]
  }

  lemma NothingReplays()
    ensures Replays([], EMPTY, EMPTY)
  {
  }

  lemma SplitLast(migs: seq<Migration>)
    requires migs != []
    ensures migs == migs[..|migs| - 1] + [migs[|migs| - 1]]
  {
  }

  /** A history replays to the schema of the last registry it was made from. */
  lemma {:induction false} HistoryReplays(app: string, migs: seq<Migration>, registries: seq<State>) returns (s: State)
    requires History(app, migs, registries)
    ensures Replays(migs, s, LastOf(registries))
    decreases |migs|
  {
    if migs == [] {
      s := EMPTY;
      NothingReplays();
    } else {
      var n := |migs| - 1;
      SplitLast(migs);
      var before := HistoryReplays(app, migs[..n], registries[..n]);
      s := MakeReplays(app, migs[..n], migs[n], before, LastOf(registries[..n]), registries[n]);
    }
  }

  lemma NoChangesIff(app: string, migs: seq<Migration>, s: State, last: State, current: State)
    requires Replays(migs, s, last) && WellFormed(current)
    ensures Make(app, current, migs) == NoChanges <==> SameSchema(current, last)
  {
    DiffEmptyIff(s, current);
  }

  /** Making migrations reports no changes exactly when the registry still has the
      schema of the history; in particular a second run straight after one that
      made a migration reports none. */
  lemma MakeAgain(app: string, migs: seq<Migration>, registries: seq<State>, current: State)
    requires History(app, migs, registries) && WellFormed(current)
    ensures StateFromMigrations(migs).Some?
    ensures Make(app, current, migs) == NoChanges
            <==> SameSchema(current, LastOf(registries))
    ensures var made := Make(app, current, migs);
            made.Made? ==>
              && History(app, migs + [made.migration], registries + [current])
              && StateFromMigrations(migs + [made.migration]).Some?
              && Make(app, current, migs + [made.migration]) == NoChanges
  {
    var s := HistoryReplays(app, migs, registries);
    NoChangesIff(app, migs, s, LastOf(registries), current);
    var made := Make(app, current, migs);
    if made.Made? {
      HistorySnoc(app, migs, registries, made.migration, current);
      var s' := MakeReplays(app, migs, made.migration, s, LastOf(registries), current);
      NoChangesIff(app, migs + [made.migration], s', current, current);
    }
  }

  lemma HistorySnoc(app: string, migs: seq<Migration>, registries: seq<State>, m: Migration, current: State)
    requires History(app, migs, registries) && WellFormed(current) && StateFromMigrations(migs).Some?
    requires Make(app, current, migs) == Made(m)
    ensures History(app, migs + [m], registries + [current])
  {
    assert (migs + [m])[..|migs|] == migs && (registries + [current])[..|migs|] == registries;
  }

  ghost predicate DistinctKeys(migs: seq<Migration>) {
    forall i, j :: 0 <= i < j < |migs| ==> Key(migs[i]) != Key(migs[j])
  }

  lemma HistoryNames(app: string, migs: seq<Migration>, registries: seq<State>, i: nat)
    requires History(app, migs, registries) && i < |migs|
    ensures migs[i].app == app && migs[i].name == MigrationName(i + 1)
  {
    HistoryUpTo(app, migs, registries, i + 1);
    HistoryLast(app, migs[..i + 1], registries[..i + 1]);
  }

  lemma {:induction false} HistoryUpTo(app: string, migs: seq<Migration>, registries: seq<State>, i: nat)
    requires History(app, migs, registries) && i <= |migs|
    ensures |migs| == |registries| && History(app, migs[..i], registries[..i])
    decreases |migs| - i
  {
    if i < |migs| {
      HistoryUpTo(app, migs, registries, i + 1);
      HistoryShorter(app, migs, registries, i);
    } else {
      assert migs[..i] == migs && registries[..i] == registries;
    }
  }

  lemma HistoryShorter(app: string, migs: seq<Migration>, registries: seq<State>, i: nat)
    requires i < |migs| == |registries| && History(app, migs[..i + 1], registries[..i + 1])
    ensures History(app, migs[..i], registries[..i])
  {
    TakeTake(migs, i + 1, i);
    TakeTake(registries, i + 1, i);
    HistoryFront(app, migs[..i + 1], registries[..i + 1]);
  }

  lemma TakeTake<T>(xs: seq<T>, n: nat, i: nat)
    requires i <= n <= |xs|
    ensures xs[..n][..i] == xs[..i]
  {
  }

  lemma HistoryFront(app: string, migs: seq<Migration>, registries: seq<State>)
    requires History(app, migs, registries) && migs != []
    ensures |migs| == |registries| && History(app, migs[..|migs| - 1], registries[..|migs| - 1])
  {
  }

  lemma HistoryLast(app: string, migs: seq<Migration>, registries: seq<State>)
    requires History(app, migs, registries) && migs != []
    ensures migs[|migs| - 1].app == app && migs[|migs| - 1].name == MigrationName(|migs|)
  {
    var n := |migs| - 1;
    MadeName(app, registries[n], migs[..n], migs[n]);
  }

  lemma MadeName(app: string, current: State, prior: seq<Migration>, m: Migration)
    requires StateFromMigrations(prior).Some? && forall n :: n in current.order ==> n in current.models
    requires Make(app, current, prior) == Made(m)
    ensures m.app == app && m.name == MigrationName(|prior| + 1)
  {
  }

  lemma HistoryDepends(app: string, migs: seq<Migration>, registries: seq<State>, i: nat)
    requires History(app, migs, registries) && i < |migs|
    ensures migs[i].dependencies == if i == 0 then [] else [migs[i - 1].name]
  {
    HistoryUpTo(app, migs, registries, i + 1);
    LastDepends(app, migs[..i + 1], registries[..i + 1]);
  }

  lemma LastDepends(app: string, migs: seq<Migration>, registries: seq<State>)
    requires History(app, migs, registries) && migs != []
    ensures migs[|migs| - 1].dependencies == if |migs| == 1 then [] else [migs[|migs| - 2].name]
  {
    var n := |migs| - 1;
    assert Make(app, registries[n], migs[..n]) == Made(migs[n]);
  }

  /** The migrations of a history are numbered from one, and each depends on the one before
      it and on nothing else. */
  lemma HistoryChained(app: string, migs: seq<Migration>, registries: seq<State>)
    requires History(app, migs, registries)
    ensures forall i :: 0 <= i < |migs| ==> migs[i].app == app && Numbered(migs[i].name, i + 1)
    ensures forall i :: 0 <= i < |migs| ==> migs[i].dependencies == if i == 0 then [] else [migs[i - 1].name]
  {
    forall i | 0 <= i < |migs|
      ensures migs[i].app == app && Numbered(migs[i].name, i + 1)
      ensures migs[i].dependencies == if i == 0 then [] else [migs[i - 1].name]
    {
      HistoryNames(app, migs, registries, i);
      MigrationNameIs(i + 1);
      HistoryDepends(app, migs, registries, i);
    }
  }

  /** Generated migrations of an app have distinct tracking keys. */
  lemma HistoryKeysDistinct(app: string, migs: seq<Migration>, registries: seq<State>)
    requires History(app, migs, registries)
    ensures DistinctKeys(migs)
  {
    forall i | 0 <= i < |migs|
      ensures migs[i].app == app && migs[i].name == MigrationName(i + 1)
    {
      HistoryNames(app, migs, registries, i);
    }
    NumberedDistinct(app, migs);
  }

  lemma NumberedDistinct(app: string, migs: seq<Migration>)
    requires forall i :: 0 <= i < |migs| ==> migs[i].app == app && migs[i].name == MigrationName(i + 1)
    ensures DistinctKeys(migs)
  {
    forall i, j | 0 <= i < j < |migs|
      ensures Key(migs[i]) != Key(migs[j])
    {
      KeysDiffer(app, migs[i], migs[j], i + 1, j + 1);
    }
  }

  lemma KeysDiffer(app: string, a: Migration, b: Migration, m: nat, n: nat)
    requires a.app == app && b.app == app && a.name == MigrationName(m) && b.name == MigrationName(n) && m != n
    ensures Key(a) != Key(b)
  {
    var prefix := app + "/";
    assert Key(a)[|prefix|..] == a.name && Key(b)[|prefix|..] == b.name;
    if a.name == b.name {
      MigrationNameInjective(m, n);
    }
  }

  // ----- When a generated migration can be rendered to SQL -----

  predicate Renders(d: Dialect, ops: seq<Operation>, s: State) {
    ops == []
    || (OpSql(d, ops[0], s).Stmts? && ApplyOp(ops[0], s).Some? && Renders(d, ops[1..], ApplyOp(ops[0], s).value))
  }

  lemma {:induction false} RendersIff(d: Dialect, ops: seq<Operation>, s: State)
    requires FindTargets(ops, s)
    ensures Renders(d, ops, s) <==> forall op :: op in ops && op.AddField? ==> op.field.nullable
  {
    if ops != [] {
      RendersIff(d, ops[1..], ApplyOp(ops[0], s).value);
      assert ops == [ops[0]] + ops[1..];
    }
  }

  lemma {:induction false} AddOpsOfChanged(names: seq<string>, was: State, now: State, model: string, f: FieldState)
    requires forall n :: n in names ==> n in now.models
    ensures AddField(model, f) in ChangedOps(names, was, now) <==>
            && model in names && model in was.models
            && f in AddedFields(was.models[model].fields, now.models[model].fields)
  {
    if names != [] {
      var name, rest := names[0], ChangedOps(names[1..], was, now);
      assert name in names && forall m :: m in names <==> m == name || m in names[1..];
      AddOpsOfChanged(names[1..], was, now, model, f);
      if name in was.models {
        var a, b := was.models[name].fields, now.models[name].fields;
        var added := AddedFields(a, b);
        var addOps := AddOps(name, added);
        if name == model && f in added {
          var i :| 0 <= i < |added| && added[i] == f;
          assert addOps[i] in FieldOps(name, a, b);
        }
      }
    }
  }

  lemma AddInDiff(was: State, now: State, m: string, f: FieldState)
    requires WellFormed(was) && WellFormed(now)
    ensures AddField(m, f) in Diff(was, now) <==>
            m in now.models && m in was.models && f in AddedFields(was.models[m].fields, now.models[m].fields)
  {
    AddOpsOfChanged(now.order, was, now, m, f);
    NoAddInCreated(now.order, was, now, m, f);
    NoAddInDeleted(was.order, now, m, f);
  }

  /** Every field added to a surviving model is nullable. */
  ghost predicate AddedNullable(was: State, now: State) {
    forall m, f :: (m in was.models && m in now.models && f in now.models[m].fields &&
                    !HasField(was.models[m].fields, f.name)) ==> f.nullable
  }

  ghost predicate AddsNullable(ops: seq<Operation>) {
    forall op :: op in ops && op.AddField? ==> op.field.nullable
  }

  lemma NullableIfAdds(was: State, now: State, m: string, f: FieldState)
    requires WellFormed(was) && WellFormed(now) && AddsNullable(Diff(was, now))
    requires m in was.models && m in now.models && f in now.models[m].fields && !HasField(was.models[m].fields, f.name)
    ensures f.nullable
  {
    AddInDiff(was, now, m, f);
    assert AddField(m, f) in Diff(was, now);
  }

  lemma AddsIfNullable(was: State, now: State, op: Operation)
    requires WellFormed(was) && WellFormed(now) && AddedNullable(was, now)
    requires op in Diff(was, now) && op.AddField?
    ensures op.field.nullable
  {
    AddInDiff(was, now, op.model, op.field);
  }

  /** makemigrations can write a migration whose SQL is refused: it is rendered
      without error exactly when every field added to a surviving model is nullable. */
  lemma DiffRendersIff(d: Dialect, was: State, now: State)
    requires WellFormed(was) && WellFormed(now)
    ensures Renders(d, Diff(was, now), was) <==> AddedNullable(was, now)
  {
    var s := DiffSound(was, now);
    RendersIff(d, Diff(was, now), was);
    assert Renders(d, Diff(was, now), was) <==> AddsNullable(Diff(was, now));
    if AddsNullable(Diff(was, now)) {
      forall m, f | m in was.models && m in now.models && f in now.models[m].fields
        && !HasField(was.models[m].fields, f.name)
        ensures f.nullable
      {
        NullableIfAdds(was, now, m, f);
      }
    }
    if AddedNullable(was, now) {
      forall op | op in Diff(was, now) && op.AddField? ensures op.field.nullable {
        AddsIfNullable(was, now, op);
      }
    }
  }

  /** A surviving model gains a NOT NULL field: makemigrations writes the migration, and
      its SQL is refused. */
  lemma RequiredFieldIsRefused(d: Dialect)
    ensures var a, b := TextField("A", "a"), TextField("B", "b");
            var was := State(map["M" := ModelState("M", "m", [a])], ["M"]);
            var now := State(map["M" := ModelState("M", "m", [a, b])], ["M"]);
            WellFormed(was) && WellFormed(now) && !Renders(d, Diff(was, now), was)
  {
    var a, b := TextField("A", "a"), TextField("B", "b");
    var was := State(map["M" := ModelState("M", "m", [a])], ["M"]);
    var now := State(map["M" := ModelState("M", "m", [a, b])], ["M"]);
    DiffRendersIff(d, was, now);
    assert [a, b][1] in now.models["M"].fields && !HasField(was.models["M"].fields, b.name) && !b.nullable;
  }

  lemma {:induction false} NoAddInCreated(names: seq<string>, was: State, now: State, m: string, f: FieldState)
    requires forall n :: n in names ==> n in now.models
    ensures AddField(m, f) !in CreatedOps(names, was, now)
  {
    if names != [] {
      NoAddInCreated(names[1..], was, now, m, f);
    }
  }

  lemma {:induction false} NoAddInDeleted(names: seq<string>, now: State, m: string, f: FieldState)
    ensures AddField(m, f) !in DeletedOps(names, now)
  {
    if names != [] {
      NoAddInDeleted(names[1..], now, m, f);
    }
  }
}
