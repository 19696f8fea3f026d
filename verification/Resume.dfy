/** What interrupted and repeated runs of the migration runner add up to. */
module Resume {
  import opened Schema
  import opened Engine
  import opened Ddl
  import opened MakeMigrations
  import opened Runner
  import opened Commutation
  import Autodetect

  // ----- What a run records -----

  function KeySet(keys: seq<string>): set<string> {
    set k | k in keys
  }

  lemma AppliedSnoc(recorded: seq<Tracked>, t: Tracked)
    ensures AppliedKeys(recorded + [t]) == AppliedKeys(recorded) + {TrackedKey(t)}
  {
    assert forall x :: x in recorded + [t] <==> x in recorded || x == t;
  }

  /** The recorded keys are the initial ones and the migrations that were done. */
  lemma {:induction false} RecordedGrows(d: Dialect, applied: set<string>, migs: seq<Migration>, w: World)
    requires RunMigrations(d, applied, migs, w).Some?
    ensures AppliedKeys(RunMigrations(d, applied, migs, w).value.db.recorded)
            == AppliedKeys(w.db.recorded) + KeySet(Pending(applied, migs))
  {
    if migs != [] {
      var m := migs[0];
      var w' := RunMigration(d, applied, m, w).value;
      RecordedGrows(d, applied, migs[1..], w');
      if Key(m) !in applied {
        AppliedSnoc(w.db.recorded, Tracked(m.app, m.name));
      }
    }
  }

  lemma {:induction false} PendingKeys(applied: set<string>, migs: seq<Migration>)
    ensures forall k :: k in Pending(applied, migs) <==> k !in applied && exists m :: m in migs && Key(m) == k
  {
    if migs != [] {
      PendingKeys(applied, migs[1..]);
      assert forall m :: m in migs <==> m == migs[0] || m in migs[1..];
    }
  }

  // ----- What a run does to the project state -----

  lemma {:induction false} RunReplays(d: Dialect, applied: set<string>, migs: seq<Migration>, w: World)
    requires RunMigrations(d, applied, migs, w).Some?
    ensures ApplyAll(AllOps(migs), w.state) == Some(RunMigrations(d, applied, migs, w).value.state)
  {
    if migs != [] {
      var m := migs[0];
      var w' := RunMigration(d, applied, m, w).value;
      RunReplays(d, applied, migs[1..], w');
      if Key(m) !in applied {
        RunOpsApplies(d, m.operations, Run(w.state, w.db.tables));
      }
      ApplyAllConcat(m.operations, AllOps(migs[1..]), w.state);
    }
  }

  lemma {:induction false} RunSkips(d: Dialect, applied: set<string>, migs: seq<Migration>, w: World)
    requires forall m :: m in migs ==> Key(m) in applied
    ensures RunMigrations(d, applied, migs, w) ==
            match ApplyAll(AllOps(migs), w.state) case None => None case Some(s) => Some(w.(state := s))
  {
    if migs != [] {
      var m := migs[0];
      assert m in migs;
      ApplyAllConcat(m.operations, AllOps(migs[1..]), w.state);
      match ApplyAll(m.operations, w.state)
      case None =>
      case Some(s) => RunSkips(d, applied, migs[1..], w.(state := s));
    }
  }

  lemma {:induction false} RunCongruent(d: Dialect, a: set<string>, b: set<string>, migs: seq<Migration>, w: World)
    requires forall m :: m in migs ==> (Key(m) in a <==> Key(m) in b)
    ensures RunMigrations(d, a, migs, w) == RunMigrations(d, b, migs, w)
  {
    if migs != [] {
      assert migs[0] in migs;
      match RunMigration(d, a, migs[0], w)
      case None =>
      case Some(w') => RunCongruent(d, a, b, migs[1..], w');
    }
  }

  // ----- Resumption -----

  /** Where a fresh run of the migrations on a database starts. */
  function FullRun(d: Dialect, migs: seq<Migration>, db: Db): Option<World> {
    RunMigrations(d, AppliedKeys(db.recorded), migs, World(EMPTY, db))
  }

  function PartialRun(d: Dialect, migs: seq<Migration>, n: nat, db: Db): Option<World>
    requires n <= |migs|
  {
    RunMigrations(d, AppliedKeys(db.recorded), migs[..n], World(EMPTY, db))
  }

  lemma {:induction false} RecordedCount(d: Dialect, applied: set<string>, migs: seq<Migration>, w: World)
    requires RunMigrations(d, applied, migs, w).Some?
    ensures |RunMigrations(d, applied, migs, w).value.db.recorded| == |w.db.recorded| + |Pending(applied, migs)|
  {
    if migs != [] {
      RecordedCount(d, applied, migs[1..], RunMigration(d, applied, migs[0], w).value);
    }
  }

  /** With more keys applied fewer migrations are pending, and strictly fewer when one
      of the keys added is in the list. */
  lemma {:induction false} PendingShrinks(a: set<string>, b: set<string>, migs: seq<Migration>)
    requires a <= b
    ensures |Pending(b, migs)| <= |Pending(a, migs)|
    ensures (exists m :: m in migs && Key(m) in b - a) ==> |Pending(b, migs)| < |Pending(a, migs)|
  {
    if migs != [] {
      PendingShrinks(a, b, migs[1..]);
      assert forall m :: m in migs <==> m == migs[0] || m in migs[1..];
    }
  }

  lemma {:induction false} NothingPending(applied: set<string>, migs: seq<Migration>)
    requires forall m :: m in migs ==> Key(m) in applied
    ensures Pending(applied, migs) == []
  {
    if migs != [] {
      assert migs[0] in migs;
      NothingPending(applied, migs[1..]);
    }
  }

  /** The keys applied once a run has gone through the first n migrations. */
  function AppliedAfter(migs: seq<Migration>, n: nat, applied: set<string>): set<string>
    requires n <= |migs|
  {
    applied + KeySet(Pending(applied, migs[..n]))
  }

  /** No migration behind the stop has the key of one that was pending in front of it. */
  ghost predicate NoneLost(migs: seq<Migration>, n: nat, applied: set<string>)
    requires n <= |migs|
  {
    forall m :: m in migs[n..] ==> Key(m) !in Pending(applied, migs[..n])
  }

  lemma AppliedPrefix(migs: seq<Migration>, n: nat, applied: set<string>)
    requires n <= |migs|
    ensures forall m :: m in migs[..n] ==> Key(m) in AppliedAfter(migs, n, applied)
  {
    PendingKeys(applied, migs[..n]);
  }

  /** The database of a partial run has the keys of AppliedAfter. */
  lemma PartialRunKeys(d: Dialect, migs: seq<Migration>, n: nat, db: Db)
    requires n <= |migs| && PartialRun(d, migs, n, db).Some?
    ensures var w := PartialRun(d, migs, n, db).value;
            && AppliedKeys(w.db.recorded) == AppliedAfter(migs, n, AppliedKeys(db.recorded))
            && |w.db.recorded| == |db.recorded| + |Pending(AppliedKeys(db.recorded), migs[..n])|
  {
    var applied := AppliedKeys(db.recorded);
    RecordedGrows(d, applied, migs[..n], World(EMPTY, db));
    RecordedCount(d, applied, migs[..n], World(EMPTY, db));
  }

  /** What is pending after a stop is behind it, and less than without the stop exactly
      when the stop loses a migration. */
  lemma PendingAfter(migs: seq<Migration>, n: nat, applied: set<string>)
    requires n <= |migs|
    ensures var left := |Pending(applied, migs[..n])| + |Pending(AppliedAfter(migs, n, applied), migs)|;
            && left <= |Pending(applied, migs)|
            && (!NoneLost(migs, n, applied) ==> left < |Pending(applied, migs)|)
  {
    var a, b, after := migs[..n], migs[n..], AppliedAfter(migs, n, applied);
    assert migs == a + b;
    AppliedPrefix(migs, n, applied);
    NothingPending(after, a);
    PendingConcat(applied, a, b);
    PendingConcat(after, a, b);
    PendingShrinks(applied, after, b);
    PendingKeys(applied, a);
  }

  /** After a run that stopped behind the first n migrations, running the list again
      ends as one uninterrupted run does, with the same success, database and project
      state, if no migration behind the stop has the key of one pending in front of it.
      Whatever was recorded before need not be a prefix of the list. */
  lemma ResumedRun(d: Dialect, migs: seq<Migration>, n: nat, db: Db)
    requires n <= |migs| && PartialRun(d, migs, n, db).Some?
    requires NoneLost(migs, n, AppliedKeys(db.recorded))
    ensures FullRun(d, migs, PartialRun(d, migs, n, db).value.db) == FullRun(d, migs, db)
  {
    var a, b, start := migs[..n], migs[n..], World(EMPTY, db);
    var applied := AppliedKeys(db.recorded);
    var w := PartialRun(d, migs, n, db).value;
    var applied' := AppliedKeys(w.db.recorded);
    assert migs == a + b;
    PartialRunKeys(d, migs, n, db);
    AppliedPrefix(migs, n, applied);
    RunMigrationsConcat(d, applied, a, b, start);
    RunMigrationsConcat(d, applied', a, b, World(EMPTY, w.db));
    RunReplays(d, applied, a, start);
    RunSkips(d, applied', a, World(EMPTY, w.db));
    RunCongruent(d, applied, applied', b, w);
  }

  /** The condition is exact: where the uninterrupted run succeeds, a stop is made good
      by running again if and only if it loses no migration. */
  lemma ResumedRunIff(d: Dialect, migs: seq<Migration>, n: nat, db: Db)
    requires n <= |migs| && PartialRun(d, migs, n, db).Some? && FullRun(d, migs, db).Some?
    ensures FullRun(d, migs, PartialRun(d, migs, n, db).value.db) == FullRun(d, migs, db)
            <==> NoneLost(migs, n, AppliedKeys(db.recorded))
  {
    var applied, w := AppliedKeys(db.recorded), PartialRun(d, migs, n, db).value;
    if NoneLost(migs, n, applied) {
      ResumedRun(d, migs, n, db);
    } else {
      PartialRunKeys(d, migs, n, db);
      PendingAfter(migs, n, applied);
      RecordedCount(d, applied, migs, World(EMPTY, db));
      if FullRun(d, migs, w.db).Some? {
        RecordedCount(d, AppliedKeys(w.db.recorded), migs, World(EMPTY, w.db));
      }
    }
  }

  /** The database after runs that stopped behind stops[0], stops[1], .. migrations;
      None if one of them cannot get that far. */
  function Interrupted(d: Dialect, migs: seq<Migration>, stops: seq<nat>, db: Db): Option<Db>
    requires forall n :: n in stops ==> n <= |migs|
  {
    if stops == [] then Some(db)
    else
      assert stops[0] in stops;
      assert forall n :: n in stops[1..] ==> n in stops;
      match PartialRun(d, migs, stops[0], db)
      case None => None
      case Some(w) => Interrupted(d, migs, stops[1..], w.db)
  }

  /** No stop loses a migration, each seen from the keys applied up to it. */
  ghost predicate StopsLoseNone(migs: seq<Migration>, stops: seq<nat>, applied: set<string>)
    requires forall n :: n in stops ==> n <= |migs|
  {
    if stops == [] then true
    else
      assert stops[0] in stops;
      assert forall n :: n in stops[1..] ==> n in stops;
      NoneLost(migs, stops[0], applied) && StopsLoseNone(migs, stops[1..], AppliedAfter(migs, stops[0], applied))
  }

  /** Interrupted runs and a complete one record no more than one uninterrupted run. */
  lemma {:induction false} InterruptedCount(d: Dialect, migs: seq<Migration>, stops: seq<nat>, db: Db)
    requires forall n :: n in stops ==> n <= |migs|
    requires Interrupted(d, migs, stops, db).Some? && FullRun(d, migs, Interrupted(d, migs, stops, db).value).Some?
    ensures |FullRun(d, migs, Interrupted(d, migs, stops, db).value).value.db.recorded|
            <= |db.recorded| + |Pending(AppliedKeys(db.recorded), migs)|
    decreases |stops|
  {
    if stops == [] {
      RecordedCount(d, AppliedKeys(db.recorded), migs, World(EMPTY, db));
    } else {
      assert stops[0] in stops && forall n :: n in stops[1..] ==> n in stops;
      PartialRunKeys(d, migs, stops[0], db);
      PendingAfter(migs, stops[0], AppliedKeys(db.recorded));
      InterruptedCount(d, migs, stops[1..], PartialRun(d, migs, stops[0], db).value.db);
    }
  }

  /** Any number of interrupted runs followed by a complete one. */
  lemma {:induction false} InterruptedRuns(d: Dialect, migs: seq<Migration>, stops: seq<nat>, db: Db)
    requires forall n :: n in stops ==> n <= |migs|
    requires Interrupted(d, migs, stops, db).Some? && StopsLoseNone(migs, stops, AppliedKeys(db.recorded))
    ensures FullRun(d, migs, Interrupted(d, migs, stops, db).value) == FullRun(d, migs, db)
    decreases |stops|
  {
    if stops != [] {
      assert stops[0] in stops && forall n :: n in stops[1..] ==> n in stops;
      PartialRunKeys(d, migs, stops[0], db);
      ResumedRun(d, migs, stops[0], db);
      InterruptedRuns(d, migs, stops[1..], PartialRun(d, migs, stops[0], db).value.db);
    }
  }

  /** Any number of interruptions is made good exactly when none of them loses a
      migration. */
  lemma {:induction false} InterruptedRunsIff(d: Dialect, migs: seq<Migration>, stops: seq<nat>, db: Db)
    requires forall n :: n in stops ==> n <= |migs|
    requires Interrupted(d, migs, stops, db).Some? && FullRun(d, migs, db).Some?
    ensures FullRun(d, migs, Interrupted(d, migs, stops, db).value) == FullRun(d, migs, db)
            <==> StopsLoseNone(migs, stops, AppliedKeys(db.recorded))
    decreases |stops|
  {
    if stops != [] {
      assert stops[0] in stops && forall n :: n in stops[1..] ==> n in stops;
      var applied, next := AppliedKeys(db.recorded), PartialRun(d, migs, stops[0], db).value.db;
      PartialRunKeys(d, migs, stops[0], db);
      if NoneLost(migs, stops[0], applied) {
        ResumedRun(d, migs, stops[0], db);
        InterruptedRunsIff(d, migs, stops[1..], next);
      } else {
        PendingAfter(migs, stops[0], applied);
        RecordedCount(d, applied, migs, World(EMPTY, db));
        if FullRun(d, migs, Interrupted(d, migs, stops, db).value).Some? {
          InterruptedCount(d, migs, stops[1..], next);
        }
      }
    }
  }

  /** Where keys are distinct no stop loses anything. */
  lemma {:induction false} DistinctLoseNone(migs: seq<Migration>, stops: seq<nat>, applied: set<string>)
    requires DistinctKeys(migs) && forall n :: n in stops ==> n <= |migs|
    ensures StopsLoseNone(migs, stops, applied)
    decreases |stops|
  {
    if stops != [] {
      assert stops[0] in stops && forall n :: n in stops[1..] ==> n in stops;
      PendingKeys(applied, migs[..stops[0]]);
      forall m | m in migs[stops[0]..]
        ensures Key(m) !in Pending(applied, migs[..stops[0]])
      {
        KeysApart(migs, stops[0], m);
      }
      DistinctLoseNone(migs, stops[1..], AppliedAfter(migs, stops[0], applied));
    }
  }

  lemma KeysApart(migs: seq<Migration>, n: nat, m: Migration)
    requires DistinctKeys(migs) && n <= |migs| && m in migs[n..]
    ensures forall e :: e in migs[..n] ==> Key(e) != Key(m)
  {
    var j :| 0 <= j < |migs[n..]| && migs[n..][j] == m;
    forall e | e in migs[..n]
      ensures Key(e) != Key(m)
    {
      var i :| 0 <= i < n && migs[..n][i] == e;
      assert migs[i] == e && migs[n + j] == m;
    }
  }

  /** A stop that loses a migration: with one key used twice the second migration runs in
      an uninterrupted run but is skipped for good once the first has been recorded. */
  lemma SharedKeyIsLost(d: Dialect) returns (migs: seq<Migration>, db: Db)
    ensures |migs| == 2 && Key(migs[0]) == Key(migs[1])
    ensures PartialRun(d, migs, 1, db).Some? && FullRun(d, migs, db).Some?
    ensures var resumed := FullRun(d, migs, PartialRun(d, migs, 1, db).value.db);
            resumed.Some? && resumed.value.db.tables != FullRun(d, migs, db).value.db.tables
  {
    var fields := [TextField("A", "a")];
    var create := CreateModel("B", "b", fields);
    var m, n := Migration("app", "0001_initial", [], []), Migration("app", "0001_initial", [], [create]);
    var empty, row := Db(map[], []), Tracked("app", "0001_initial");
    migs, db := [m, n], empty;
    var once := Db(map[], [row]);
    assert migs[..1] == [m] && migs == [m] + [n];
    RunMigrationsConcat(d, {}, [m], [n], World(EMPTY, db));
    RunOne(d, {}, m, World(EMPTY, db));
    RunOne(d, {}, n, World(EMPTY, once));
    assert ForeignKeys(fields) == [] + ForeignKeys([]);
    ExecAllOne(d, CreateTableSql(d, "b", fields), map[]);
    assert [create][1..] == [];
    var run := StepOp(d, create, Run(EMPTY, map[]));
    assert RunOps(d, [], run.value) == run;
    AppliedSnoc([], row);
    var keys := AppliedKeys([row]);
    assert [] + [row] == [row] && AppliedKeys([]) == {} && keys == {Key(m)};
    RunSkips(d, keys, migs, World(EMPTY, once));
    assert AllOps([n]) == [create] + AllOps([]) && AllOps(migs) == [] + AllOps([n]);
    assert "b" in FullRun(d, migs, db).value.db.tables;
  }

  lemma RunOne(d: Dialect, applied: set<string>, m: Migration, w: World)
    ensures RunMigrations(d, applied, [m], w) == RunMigration(d, applied, m, w)
  {
    assert [m][1..] == [];
  }

  // ----- Schema after a run -----

  lemma {:induction false} FreshRunIsRunOps(d: Dialect, applied: set<string>, migs: seq<Migration>, w: World)
    requires forall m :: m in migs ==> Key(m) !in applied
    requires RunMigrations(d, applied, migs, w).Some?
    ensures var w' := RunMigrations(d, applied, migs, w).value;
            RunOps(d, AllOps(migs), Run(w.state, w.db.tables)) == Some(Run(w'.state, w'.db.tables))
  {
    if migs != [] {
      var m := migs[0];
      assert m in migs;
      FreshRunIsRunOps(d, applied, migs[1..], RunMigration(d, applied, m, w).value);
      RunOpsConcat(d, m.operations, AllOps(migs[1..]), Run(w.state, w.db.tables));
    }
  }

  /** However often migrating a new database was interrupted, once it succeeds the
      ordered columns of every model's table are those of the replayed migrations. */
  lemma SchemaAfterRuns(d: Dialect, migs: seq<Migration>, stops: seq<nat>, db: Db, w: World)
    requires (forall n :: n in stops ==> n <= |migs|) && StopsLoseNone(migs, stops, AppliedKeys(db.recorded))
    requires AddsNoDuplicates(AllOps(migs), EMPTY)
    requires forall m :: m in migs ==> Key(m) !in AppliedKeys(db.recorded)
    requires Interrupted(d, migs, stops, db).Some?
    requires FullRun(d, migs, Interrupted(d, migs, stops, db).value) == Some(w)
    ensures StateFromMigrations(migs) == Some(w.state)
    ensures Tracks(d, Run(w.state, w.db.tables))
  {
    InterruptedRuns(d, migs, stops, db);
    FreshRunIsRunOps(d, AppliedKeys(db.recorded), migs, World(EMPTY, db));
    RunCommutes(d, AllOps(migs), Run(EMPTY, db.tables));
  }

  /** End to end: the migrations made from a model registry, once applied, give each
      model a table whose columns are, up to order, the registry's. */
  lemma GeneratedSchema(d: Dialect, app: string, migs: seq<Migration>, registries: seq<State>, stops: seq<nat>, db: Db,
                        w: World)
    requires History(app, migs, registries) && (forall n :: n in stops ==> n <= |migs|)
    requires forall m :: m in migs ==> Key(m) !in AppliedKeys(db.recorded)
    requires Interrupted(d, migs, stops, db).Some?
    requires FullRun(d, migs, Interrupted(d, migs, stops, db).value) == Some(w)
    ensures Autodetect.SameSchema(w.state, LastOf(registries))
    ensures forall m :: m in LastOf(registries).models ==>
              && m in w.state.models && w.state.models[m].table in w.db.tables
              && multiset(w.db.tables[w.state.models[m].table].columns)
                 == multiset(Defs(d, LastOf(registries).models[m].fields))
  {
    HistoryKeysDistinct(app, migs, registries);
    var s := HistoryReplays(app, migs, registries);
    DistinctLoseNone(migs, stops, AppliedKeys(db.recorded));
    SchemaAfterRuns(d, migs, stops, db, w);
    forall m | m in LastOf(registries).models
      ensures multiset(w.db.tables[w.state.models[m].table].columns)
              == multiset(Defs(d, LastOf(registries).models[m].fields))
    {
      assert TrackedBy(d, w.state.models[m], w.db.tables);
      DefsPermute(d, w.state.models[m].fields, LastOf(registries).models[m].fields);
    }
  }

  lemma TakeOut(d: Dialect, fields: seq<FieldState>, j: nat, rest: seq<FieldState>)
    requires j < |fields| && rest == fields[..j] + fields[j + 1..]
    ensures multiset(fields) == multiset{fields[j]} + multiset(rest)
    ensures multiset(Defs(d, fields)) == multiset{Def(d, fields[j])} + multiset(Defs(d, rest))
  {
    var defs := Defs(d, fields);
    assert Defs(d, rest) == defs[..j] + defs[j + 1..];
    TakeOutOne(fields, j);
    TakeOutOne(defs, j);
  }

  lemma TakeOutOne<T>(xs: seq<T>, j: nat)
    requires j < |xs|
    ensures multiset(xs) == multiset{xs[j]} + multiset(xs[..j] + xs[j + 1..])
  {
    assert xs == xs[..j] + [xs[j]] + xs[j + 1..];
  }

  lemma CancelEqual<T>(m: multiset<T>, a: multiset<T>, b: multiset<T>)
    requires m + a == m + b
    ensures a == b
  {
    forall x ensures a[x] == b[x] {
      assert (m + a)[x] == (m + b)[x];
    }
  }

  lemma {:induction false} DefsPermute(d: Dialect, a: seq<FieldState>, b: seq<FieldState>)
    requires multiset(a) == multiset(b)
    ensures multiset(Defs(d, a)) == multiset(Defs(d, b))
    decreases |a|
  {
    if a == [] {
      assert |multiset(b)| == 0;
    } else {
      assert a[0] in multiset(b);
      var j :| 0 <= j < |b| && b[j] == a[0];
      var restA, restB := a[1..], b[..j] + b[j + 1..];
      TakeOut(d, a, 0, restA);
      TakeOut(d, b, j, restB);
      CancelEqual(multiset{a[0]}, multiset(restA), multiset(restB));
      DefsPermute(d, restA, restB);
    }
  }
}
