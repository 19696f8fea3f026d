/** Applying the registry after every added migration, in whatever order the apps'
    migrations arrive, ends like applying it once at the end. */
module Interleaving {
  import opened Schema
  import opened Engine
  import opened Ddl
  import opened MakeMigrations
  import opened Registry
  import opened Runner
  import opened Resume
  import opened Locality

  predicate LocalMigs(d: Dialect, o: Owners, migs: seq<Migration>) {
    forall m :: m in migs ==> LocalOps(d, o, m.operations, m.app)
  }

  /** The app's migrations alone, on the initial tables. */
  function Alone(d: Dialect, migs: seq<Migration>, start: Tables): Option<Run> {
    RunOps(d, AllOps(migs), Run(EMPTY, start))
  }

  lemma {:induction false} AllOpsConcat(a: seq<Migration>, b: seq<Migration>)
    ensures AllOps(a + b) == AllOps(a) + AllOps(b)
  {
    if a == [] {
      assert a + b == b;
    } else {
      assert (a + b)[0] == a[0] && (a + b)[1..] == a[1..] + b;
      AllOpsConcat(a[1..], b);
    }
  }

  lemma {:induction false} AllOpsLocal(d: Dialect, o: Owners, migs: seq<Migration>, app: string)
    requires forall m :: m in migs ==> LocalOps(d, o, m.operations, app)
    ensures LocalOps(d, o, AllOps(migs), app)
  {
    if migs != [] {
      assert migs[0] in migs;
      AllOpsLocal(d, o, migs[1..], app);
    }
  }

  lemma AloneSnoc(d: Dialect, migs: seq<Migration>, m: Migration, start: Tables)
    ensures Alone(d, migs + [m], start) ==
            match Alone(d, migs, start) case None => None case Some(r) => RunOps(d, m.operations, r)
  {
    AllOpsSnoc(migs, m);
    RunOpsConcat(d, AllOps(migs), m.operations, Run(EMPTY, start));
  }

  lemma AlonePrefix(d: Dialect, migs: seq<Migration>, k: nat, start: Tables)
    requires k <= |migs| && Alone(d, migs, start).Some?
    ensures Alone(d, migs[..k], start).Some?
  {
    assert migs == migs[..k] + migs[k..];
    AllOpsConcat(migs[..k], migs[k..]);
    RunOpsConcat(d, AllOps(migs[..k]), AllOps(migs[k..]), Run(EMPTY, start));
  }

  // ----- What one app's part of the state and of the tables is -----

  ghost predicate ModelsAre(o: Owners, app: string, migs: seq<Migration>, s: State) {
    && ApplyAll(AllOps(migs), EMPTY).Some?
    && SameModels(o, app, ApplyAll(AllOps(migs), EMPTY).value, s)
  }

  ghost predicate ShapesAre(d: Dialect, o: Owners, app: string, migs: seq<Migration>, start: Tables, tables: Tables) {
    && Alone(d, migs, start).Some? && KeysOwned(d, o, Alone(d, migs, start).value.tables)
    && SameShapes(o, app, Alone(d, migs, start).value.tables, tables)
  }

  lemma ModelsStay(o: Owners, app: string, migs: seq<Migration>, s: State, s': State)
    requires ModelsAre(o, app, migs, s) && SameModels(o, app, s, s')
    ensures ModelsAre(o, app, migs, s')
  {
  }

  lemma ShapesStay(d: Dialect, o: Owners, app: string, migs: seq<Migration>, start: Tables, t: Tables, t': Tables)
    requires ShapesAre(d, o, app, migs, start, t) && SameShapes(o, app, t, t')
    ensures ShapesAre(d, o, app, migs, start, t')
  {
  }

  lemma ModelsReplay(d: Dialect, migs: seq<Migration>, k: nat, start: Tables)
    requires k <= |migs| && Alone(d, migs, start).Some?
    ensures ApplyAll(AllOps(migs[..k]), EMPTY).Some?
  {
    AlonePrefix(d, migs, k, start);
    RunOpsApplies(d, AllOps(migs[..k]), Run(EMPTY, start));
  }

  lemma ModelsAdvance(d: Dialect, o: Owners, app: string, migs: seq<Migration>, m: Migration, s: State)
    requires ModelsAre(o, app, migs, s) && TablesOwned(d, o, s) && LocalOps(d, o, m.operations, app)
    requires ApplyAll(AllOps(migs + [m]), EMPTY).Some?
    ensures ApplyAll(m.operations, s).Some? && TablesOwned(d, o, ApplyAll(m.operations, s).value)
    ensures ModelsAre(o, app, migs + [m], ApplyAll(m.operations, s).value)
  {
    var alone := ApplyAll(AllOps(migs), EMPTY).value;
    AllOpsSnoc(migs, m);
    ApplyAllConcat(AllOps(migs), m.operations, EMPTY);
    ApplyAllLocal(d, o, m.operations, app, s, alone);
  }

  /** The next migration of an app runs exactly when it does alone, to the same effect. */
  lemma RunNext(d: Dialect, o: Owners, app: string, migs: seq<Migration>, m: Migration, start: Tables, r: Run)
    requires ModelsAre(o, app, migs, r.state) && ShapesAre(d, o, app, migs, start, r.tables)
    requires Owned(d, o, r) && LocalOps(d, o, m.operations, app)
    ensures var r' := RunOps(d, m.operations, r);
            && (r'.Some? <==> Alone(d, migs + [m], start).Some?)
            && (r'.Some? ==> ShapesAre(d, o, app, migs + [m], start, r'.value.tables) &&
                             ModelsAre(o, app, migs + [m], r'.value.state) && TablesOwned(d, o, r'.value.state))
  {
    var alone := Alone(d, migs, start).value;
    RunOpsApplies(d, AllOps(migs), Run(EMPTY, start));
    AloneSnoc(d, migs, m, start);
    RunOpsLocal(d, o, m.operations, app, r, alone);
    if Alone(d, migs + [m], start).Some? {
      RunOpsApplies(d, AllOps(migs + [m]), Run(EMPTY, start));
    }
  }

  // ----- One run of the list -----

  /** Of each app's migrations in the list the first have(app) are the applied ones. */
  ghost predicate AppliedFirst(list: seq<Migration>, applied: set<string>, have: string -> nat) {
    forall app {:trigger ForApp(list, app)} :: FirstOnes(ForApp(list, app), applied, have(app))
  }

  ghost predicate FirstOnes(migs: seq<Migration>, applied: set<string>, have: nat) {
    && have <= |migs|
    && forall j :: 0 <= j < |migs| ==> (Key(migs[j]) in applied <==> j < have)
  }

  function Max(a: nat, b: nat): nat {
    if a < b then b else a
  }

  /** With the first passed of an app's migrations gone through and the first have of
      them applied beforehand, the app's part is what they give alone. */
  ghost predicate AppAt(d: Dialect, o: Owners, app: string, migs: seq<Migration>, passed: nat, have: nat, start: Tables,
                        w: World) {
    && passed <= |migs| && have <= |migs|
    && ModelsAre(o, app, migs[..passed], w.state)
    && ShapesAre(d, o, app, migs[..Max(passed, have)], start, w.db.tables)
  }

  function Passed(list: seq<Migration>, i: nat, app: string): nat
    requires i <= |list|
  {
    |ForApp(list[..i], app)|
  }

  ghost predicate AllAt(d: Dialect, o: Owners, list: seq<Migration>, i: nat, have: string -> nat, start: Tables,
                        w: World)
    requires i <= |list|
  {
    && TablesOwned(d, o, w.state)
    && forall app {:trigger ForApp(list, app)} ::
         AppAt(d, o, app, ForApp(list, app), Passed(list, i, app), have(app), start, w)
  }

  /** The tables of the apps are all there are. */
  lemma AllOwned(d: Dialect, o: Owners, list: seq<Migration>, i: nat, have: string -> nat, start: Tables, w: World)
    requires i <= |list| && AllAt(d, o, list, i, have, start, w)
    ensures KeysOwned(d, o, w.db.tables)
  {
    if ChecksKeys(d) {
      forall t | t in w.db.tables ensures KeysLocal(o, w.db.tables[t].foreignKeys, o.tables(t)) {
        var app := o.tables(t);
        var migs, k := ForApp(list, app), Max(Passed(list, i, app), have(app));
        assert AppAt(d, o, app, migs, Passed(list, i, app), have(app), start, w);
        var alone := Alone(d, migs[..k], start).value.tables;
        assert t in alone && ShapeOf(alone[t]) == ShapeOf(w.db.tables[t]);
      }
    }
  }

  lemma PassedStep(list: seq<Migration>, i: nat, app: string)
    requires i < |list|
    ensures Passed(list, i + 1, app) == Passed(list, i, app) + if list[i].app == app then 1 else 0
    ensures Passed(list, i + 1, app) <= |ForApp(list, app)|
    ensures list[i].app == app ==> ForApp(list, app)[Passed(list, i, app)] == list[i]
  {
    assert list[..i + 1] == list[..i] + [list[i]];
    ForAppSnoc(list[..i], list[i], app);
    assert list == list[..i + 1] + list[i + 1..];
    ForAppConcat(list[..i + 1], list[i + 1..], app);
  }

  /** Going through an applied migration of the app. */
  lemma SkipOwn(d: Dialect, o: Owners, app: string, migs: seq<Migration>, passed: nat, have: nat, start: Tables,
                w: World)
    requires AppAt(d, o, app, migs, passed, have, start, w) && TablesOwned(d, o, w.state)
    requires passed < have && LocalOps(d, o, migs[passed].operations, app)
    ensures var s := ApplyAll(migs[passed].operations, w.state);
            && s.Some? && TablesOwned(d, o, s.value)
            && AppAt(d, o, app, migs, passed + 1, have, start, w.(state := s.value))
  {
    assert migs[..passed] + [migs[passed]] == migs[..passed + 1];
    assert migs[..have][..passed + 1] == migs[..passed + 1];
    ModelsReplay(d, migs[..have], passed + 1, start);
    ModelsAdvance(d, o, app, migs[..passed], migs[passed], w.state);
  }

  /** Running a pending migration of the app. */
  lemma RunOwn(d: Dialect, o: Owners, app: string, migs: seq<Migration>, passed: nat, have: nat, start: Tables,
               w: World, recorded: seq<Tracked>)
    requires AppAt(d, o, app, migs, passed, have, start, w) && TablesOwned(d, o, w.state)
             && KeysOwned(d, o, w.db.tables)
    requires have <= passed < |migs| && LocalOps(d, o, migs[passed].operations, app)
    ensures var r := RunOps(d, migs[passed].operations, Run(w.state, w.db.tables));
            && (Alone(d, migs, start).Some? ==> r.Some?)
            && (r.Some? ==> TablesOwned(d, o, r.value.state))
            && (r.Some? ==>
                  AppAt(d, o, app, migs, passed + 1, have, start, World(r.value.state, Db(r.value.tables, recorded))))
  {
    assert migs[..passed] + [migs[passed]] == migs[..passed + 1];
    RunNext(d, o, app, migs[..passed], migs[passed], start, Run(w.state, w.db.tables));
    if Alone(d, migs, start).Some? { AlonePrefix(d, migs, passed + 1, start); }
  }

  lemma OtherStays(d: Dialect, o: Owners, app: string, migs: seq<Migration>, passed: nat, have: nat, start: Tables,
                   w: World, w': World)
    requires AppAt(d, o, app, migs, passed, have, start, w)
    requires SameModels(o, app, w.state, w'.state) && SameShapes(o, app, w.db.tables, w'.db.tables)
    ensures AppAt(d, o, app, migs, passed, have, start, w')
  {
    ModelsStay(o, app, migs[..passed], w.state, w'.state);
    ShapesStay(d, o, app, migs[..Max(passed, have)], start, w.db.tables, w'.db.tables);
  }

  lemma OtherUntouched(d: Dialect, o: Owners, m: Migration, applied: set<string>, w: World, w': World, other: string)
    requires RunMigration(d, applied, m, w) == Some(w') && other != m.app
    requires LocalOps(d, o, m.operations, m.app) && TablesOwned(d, o, w.state) && KeysOwned(d, o, w.db.tables)
    ensures SameModels(o, other, w.state, w'.state) && SameShapes(o, other, w.db.tables, w'.db.tables)
  {
    if Key(m) in applied {
      ApplyAllElsewhere(d, o, m.operations, m.app, w.state, other);
    } else {
      RunOpsElsewhere(d, o, m.operations, m.app, Run(w.state, w.db.tables), other);
    }
  }

  lemma OwnMigration(d: Dialect, o: Owners, app: string, migs: seq<Migration>, passed: nat, next: nat, have: nat,
                     m: Migration, applied: set<string>, start: Tables, w: World)
    requires next == passed + 1 <= |migs| && m == migs[passed]
    requires AppAt(d, o, app, migs, passed, have, start, w) && TablesOwned(d, o, w.state)
             && KeysOwned(d, o, w.db.tables)
    requires LocalOps(d, o, m.operations, app) && (Key(m) in applied <==> passed < have)
    ensures var w' := RunMigration(d, applied, m, w);
            && (Alone(d, migs, start).Some? ==> w'.Some?)
            && (w'.Some? ==> TablesOwned(d, o, w'.value.state) && AppAt(d, o, app, migs, next, have, start, w'.value))
  {
    if Key(m) in applied {
      SkipOwn(d, o, app, migs, passed, have, start, w);
    } else {
      RunOwn(d, o, app, migs, passed, have, start, w, w.db.recorded + [Tracked(m.app, m.name)]);
    }
  }

  lemma OwnStep(d: Dialect, o: Owners, list: seq<Migration>, i: nat, applied: set<string>, have: string -> nat,
                start: Tables, w: World)
    requires i < |list| && LocalMigs(d, o, list) && AppliedFirst(list, applied, have)
    requires AllAt(d, o, list, i, have, start, w)
    ensures var app, w' := list[i].app, RunMigration(d, applied, list[i], w);
            && (Alone(d, ForApp(list, app), start).Some? ==> w'.Some?)
            && (w'.Some? ==> TablesOwned(d, o, w'.value.state))
            && (w'.Some? ==> AppAt(d, o, app, ForApp(list, app), Passed(list, i + 1, app), have(app), start, w'.value))
  {
    var app := list[i].app;
    AllOwned(d, o, list, i, have, start, w);
    assert list[i] in list && LocalOps(d, o, list[i].operations, app);
    PassedStep(list, i, app);
    var passed := Passed(list, i, app);
    KeyOfNext(ForApp(list, app), applied, have(app), passed);
    OwnMigration(d, o, app, ForApp(list, app), passed, Passed(list, i + 1, app), have(app), list[i], applied, start, w);
  }

  lemma AllStep(d: Dialect, o: Owners, list: seq<Migration>, i: nat, applied: set<string>, have: string -> nat,
                start: Tables, w: World)
    requires i < |list| && LocalMigs(d, o, list) && AppliedFirst(list, applied, have)
    requires AllAt(d, o, list, i, have, start, w)
    ensures var w' := RunMigration(d, applied, list[i], w);
            && (Alone(d, ForApp(list, list[i].app), start).Some? ==> w'.Some?)
            && (w'.Some? ==> AllAt(d, o, list, i + 1, have, start, w'.value))
  {
    OwnStep(d, o, list, i, applied, have, start, w);
    AllOwned(d, o, list, i, have, start, w);
    assert list[i] in list;
    var r := RunMigration(d, applied, list[i], w);
    if r.Some? {
      forall app {:trigger ForApp(list, app)}
        ensures AppAt(d, o, app, ForApp(list, app), Passed(list, i + 1, app), have(app), start, r.value)
      {
        if app != list[i].app { OtherStep(d, o, list, i, applied, have(app), start, w, r.value, app); }
      }
    }
  }

  lemma KeyOfNext(migs: seq<Migration>, applied: set<string>, have: nat, passed: nat)
    requires FirstOnes(migs, applied, have) && passed < |migs|
    ensures Key(migs[passed]) in applied <==> passed < have
  {
  }

  lemma OtherStep(d: Dialect, o: Owners, list: seq<Migration>, i: nat, applied: set<string>, have: nat, start: Tables,
                  w: World, w': World, other: string)
    requires i < |list| && other != list[i].app && LocalOps(d, o, list[i].operations, list[i].app)
    requires TablesOwned(d, o, w.state) && KeysOwned(d, o, w.db.tables)
    requires RunMigration(d, applied, list[i], w) == Some(w')
    requires AppAt(d, o, other, ForApp(list, other), Passed(list, i, other), have, start, w)
    ensures AppAt(d, o, other, ForApp(list, other), Passed(list, i + 1, other), have, start, w')
  {
    PassedStep(list, i, other);
    OtherUntouched(d, o, list[i], applied, w, w', other);
    OtherStays(d, o, other, ForApp(list, other), Passed(list, i, other), have, start, w, w');
  }

  lemma AllReached(d: Dialect, o: Owners, list: seq<Migration>, i: nat, applied: set<string>,
                                      have: string -> nat, start: Tables, db: Db)
    requires i <= |list| && LocalMigs(d, o, list) && AppliedFirst(list, applied, have)
    requires AllAt(d, o, list, 0, have, start, World(EMPTY, db))
    ensures Reached(d, o, list, i, have, start, RunMigrations(d, applied, list[..i], World(EMPTY, db)))
  {
    ReachedNone(d, o, list, applied, have, start, db);
    for k := 0 to i
      invariant Reached(d, o, list, k, have, start, RunMigrations(d, applied, list[..k], World(EMPTY, db)))
    {
      ReachedNext(d, o, list, k, applied, have, start, db);
    }
  }

  lemma ReachedNone(d: Dialect, o: Owners, list: seq<Migration>, applied: set<string>, have: string -> nat,
                    start: Tables, db: Db)
    requires AllAt(d, o, list, 0, have, start, World(EMPTY, db))
    ensures Reached(d, o, list, 0, have, start, RunMigrations(d, applied, list[..0], World(EMPTY, db)))
  {
    assert list[..0] == [];
    ReachedStart(d, o, list, have, start, World(EMPTY, db));
  }

  lemma ReachedNext(d: Dialect, o: Owners, list: seq<Migration>, i: nat, applied: set<string>, have: string -> nat,
                    start: Tables, db: Db)
    requires i < |list| && LocalMigs(d, o, list) && AppliedFirst(list, applied, have)
    requires Reached(d, o, list, i, have, start, RunMigrations(d, applied, list[..i], World(EMPTY, db)))
    ensures Reached(d, o, list, i + 1, have, start, RunMigrations(d, applied, list[..i + 1], World(EMPTY, db)))
  {
    RunMigrationsSnoc(d, applied, list, i, World(EMPTY, db));
    ReachedStep(d, o, list, i, applied, have, start, RunMigrations(d, applied, list[..i], World(EMPTY, db)),
                RunMigrations(d, applied, list[..i + 1], World(EMPTY, db)));
  }

  /** The run got behind the first i migrations if every app's do alone, and then every
      app is where they take it. */
  ghost predicate Reached(d: Dialect, o: Owners, list: seq<Migration>, i: nat, have: string -> nat, start: Tables,
                          w: Option<World>)
    requires i <= |list|
  {
    && ((forall app :: Alone(d, ForApp(list, app), start).Some?) ==> w.Some?)
    && (w.Some? ==> AllAt(d, o, list, i, have, start, w.value))
  }

  function Then(d: Dialect, applied: set<string>, m: Migration, w: Option<World>): Option<World> {
    match w case None => None case Some(v) => RunMigration(d, applied, m, v)
  }

  lemma ReachedStart(d: Dialect, o: Owners, list: seq<Migration>, have: string -> nat, start: Tables, w: World)
    requires AllAt(d, o, list, 0, have, start, w)
    ensures Reached(d, o, list, 0, have, start, Some(w))
  {
  }

  lemma ReachedStep(d: Dialect, o: Owners, list: seq<Migration>, i: nat, applied: set<string>,
                    have: string -> nat, start: Tables, w: Option<World>, next: Option<World>)
    requires i < |list| && LocalMigs(d, o, list) && AppliedFirst(list, applied, have)
    requires Reached(d, o, list, i, have, start, w) && next == Then(d, applied, list[i], w)
    ensures Reached(d, o, list, i + 1, have, start, next)
  {
    if w.Some? {
      AllStep(d, o, list, i, applied, have, start, w.value);
    }
  }

  /** Each app's tables have the shapes its first have(app) migrations give alone. */
  ghost predicate HoldsFirst(d: Dialect, o: Owners, list: seq<Migration>, have: string -> nat, start: Tables,
                             tables: Tables) {
    forall app {:trigger ForApp(list, app)} ::
      have(app) <= |ForApp(list, app)| && ShapesAre(d, o, app, ForApp(list, app)[..have(app)], start, tables)
  }

  ghost predicate HoldsAll(d: Dialect, o: Owners, list: seq<Migration>, start: Tables, tables: Tables) {
    forall app {:trigger ForApp(list, app)} :: ShapesAre(d, o, app, ForApp(list, app), start, tables)
  }

  /** A run from tables that hold each app's first migrations ends with all of them,
      and succeeds if every app's migrations do alone. */
  lemma RunHolds(d: Dialect, o: Owners, list: seq<Migration>, applied: set<string>, have: string -> nat, start: Tables,
                 db: Db)
    requires LocalMigs(d, o, list) && AppliedFirst(list, applied, have)
    requires HoldsFirst(d, o, list, have, start, db.tables)
    ensures var w := RunMigrations(d, applied, list, World(EMPTY, db));
            && ((forall app :: Alone(d, ForApp(list, app), start).Some?) ==> w.Some?)
            && (w.Some? ==> HoldsAll(d, o, list, start, w.value.db.tables))
  {
    forall app {:trigger ForApp(list, app)}
      ensures AppAt(d, o, app, ForApp(list, app), Passed(list, 0, app), have(app), start, World(EMPTY, db))
    {
      assert list[..0] == [] && Passed(list, 0, app) == 0 && have(app) <= |ForApp(list, app)|;
      assert ForApp(list, app)[..0] == [];
    }
    AllReached(d, o, list, |list|, applied, have, start, db);
    assert list[..|list|] == list;
    var w := RunMigrations(d, applied, list, World(EMPTY, db));
    if w.Some? {
      forall app {:trigger ForApp(list, app)}
        ensures ShapesAre(d, o, app, ForApp(list, app), start, w.value.db.tables)
      {
        var migs := ForApp(list, app);
        assert Passed(list, |list|, app) == |migs| && Max(|migs|, have(app)) == |migs|;
        assert migs[..|migs|] == migs;
      }
    }
  }

  // ----- Applying after every addition -----

  ghost predicate SameSchema(a: Tables, b: Tables) {
    forall t :: (t in a <==> t in b) && (t in a ==> ShapeOf(a[t]) == ShapeOf(b[t]))
  }

  /** One successful run of the whole registry; between runs the application may
      change rows, but neither the schema nor the tracking table. */
  ghost predicate Stage(d: Dialect, added: seq<Migration>, before: Db, after: Db) {
    var w := FullRun(d, AllOf(added), before);
    w.Some? && after.recorded == w.value.db.recorded && SameSchema(w.value.db.tables, after.tables)
  }

  ghost predicate Staged(d: Dialect, adds: seq<Migration>, dbs: seq<Db>) {
    |dbs| == |adds| + 1 && forall k :: 0 <= k < |adds| ==> StageAt(d, adds, dbs, k)
  }

  ghost predicate StageAt(d: Dialect, adds: seq<Migration>, dbs: seq<Db>, k: nat)
    requires k < |adds| && |dbs| == |adds| + 1
  {
    Stage(d, adds[..k + 1], dbs[k], dbs[k + 1])
  }

  function Keys(migs: seq<Migration>): set<string> {
    set m | m in migs :: Key(m)
  }

  ghost predicate NewAndDistinct(adds: seq<Migration>, db: Db) {
    DistinctKeys(adds) && forall m :: m in adds ==> Key(m) !in AppliedKeys(db.recorded)
  }

  /** After a full run every key of the list is recorded, besides the initial ones. */
  lemma RunRecords(d: Dialect, added: seq<Migration>, db: Db)
    requires FullRun(d, AllOf(added), db).Some?
    ensures AppliedKeys(FullRun(d, AllOf(added), db).value.db.recorded) == AppliedKeys(db.recorded) + Keys(added)
  {
    var applied := AppliedKeys(db.recorded);
    RecordedGrows(d, applied, AllOf(added), World(EMPTY, db));
    PendingKeys(applied, AllOf(added));
    forall m
      ensures m in AllOf(added) <==> m in added
    {
      MemberOfAll(added, m);
    }
  }

  function Counts(migs: seq<Migration>): string -> nat {
    app => |ForApp(migs, app)|
  }

  lemma AppSoFar(adds: seq<Migration>, k: nat, app: string)
    requires k < |adds|
    ensures ForApp(AllOf(adds[..k + 1]), app) == ForApp(adds[..k], app) + if adds[k].app == app then [adds[k]] else []
  {
    assert adds[..k + 1] == adds[..k] + [adds[k]];
    AppOfAllSnoc(adds[..k], adds[k], app);
  }

  lemma AppOfAllSnoc(migs: seq<Migration>, m: Migration, app: string)
    ensures ForApp(AllOf(migs + [m]), app) == ForApp(migs, app) + if m.app == app then [m] else []
  {
    ForAppOfAll(migs + [m], app);
    ForAppSnoc(migs, m, app);
  }

  lemma AppliedBefore(adds: seq<Migration>, k: nat, initial: set<string>)
    requires k < |adds| && DistinctKeys(adds) && forall m :: m in adds ==> Key(m) !in initial
    ensures AppliedFirst(AllOf(adds[..k + 1]), initial + Keys(adds[..k]), Counts(adds[..k]))
  {
    var applied := initial + Keys(adds[..k]);
    assert Key(adds[k]) !in applied by { assert adds[k] in adds; }
    forall app {:trigger ForApp(AllOf(adds[..k + 1]), app)}
      ensures FirstOnes(ForApp(AllOf(adds[..k + 1]), app), applied, Counts(adds[..k])(app))
    {
      AppSoFar(adds, k, app);
      FirstOnesSnoc(adds[..k], app, adds[k], applied);
    }
  }

  lemma FirstOnesSnoc(migs: seq<Migration>, app: string, m: Migration, applied: set<string>)
    requires Keys(migs) <= applied && Key(m) !in applied
    ensures FirstOnes(ForApp(migs, app) + if m.app == app then [m] else [], applied, |ForApp(migs, app)|)
  {
    var own := ForApp(migs, app);
    forall j | 0 <= j < |own|
      ensures Key(own[j]) in applied
    {
      assert own[j] in migs;
    }
  }

  lemma ShapesOfSchema(d: Dialect, o: Owners, migs: seq<Migration>, start: Tables, a: Tables, b: Tables)
    requires HoldsAll(d, o, AllOf(migs), start, a) && SameSchema(a, b)
    ensures HoldsAll(d, o, migs, start, b)
  {
    forall app {:trigger ForApp(migs, app)}
      ensures ShapesAre(d, o, app, ForApp(migs, app), start, b)
    {
      ForAppOfAll(migs, app);
      assert ShapesAre(d, o, app, ForApp(AllOf(migs), app), start, a);
      ShapesStay(d, o, app, ForApp(migs, app), start, a, b);
    }
  }

  lemma HoldsSoFar(d: Dialect, o: Owners, adds: seq<Migration>, k: nat, start: Tables, tables: Tables)
    requires k < |adds| && HoldsAll(d, o, adds[..k], start, tables)
    ensures HoldsFirst(d, o, AllOf(adds[..k + 1]), Counts(adds[..k]), start, tables)
  {
    forall app {:trigger ForApp(AllOf(adds[..k + 1]), app)}
      ensures Counts(adds[..k])(app) <= |ForApp(AllOf(adds[..k + 1]), app)|
      ensures ShapesAre(d, o, app, ForApp(AllOf(adds[..k + 1]), app)[..Counts(adds[..k])(app)], start, tables)
    {
      AppSoFar(adds, k, app);
      assert ForApp(AllOf(adds[..k + 1]), app)[..|ForApp(adds[..k], app)|] == ForApp(adds[..k], app);
      assert ShapesAre(d, o, app, ForApp(adds[..k], app), start, tables);
    }
  }

  lemma NothingAlone(d: Dialect, o: Owners, start: Tables)
    requires KeysOwned(d, o, start)
    ensures HoldsAll(d, o, [], start, start)
  {
    forall app {:trigger ForApp([], app)}
      ensures ShapesAre(d, o, app, ForApp([], app), start, start)
    {
      assert Alone(d, [], start) == Some(Run(EMPTY, start));
    }
  }

  lemma LocalAll(d: Dialect, o: Owners, migs: seq<Migration>, all: seq<Migration>)
    requires LocalMigs(d, o, all) && forall m :: m in migs ==> m in all
    ensures LocalMigs(d, o, AllOf(migs))
  {
    forall m | m in AllOf(migs)
      ensures LocalOps(d, o, m.operations, m.app)
    {
      MemberOfAll(migs, m);
    }
  }

  lemma StageHolds(d: Dialect, o: Owners, adds: seq<Migration>, dbs: seq<Db>, k: nat)
    requires Staged(d, adds, dbs) && LocalMigs(d, o, adds) && NewAndDistinct(adds, dbs[0]) && k <= |adds|
    requires KeysOwned(d, o, dbs[0].tables)
    ensures HoldsAll(d, o, adds[..k], dbs[0].tables, dbs[k].tables)
    ensures AppliedKeys(dbs[k].recorded) == AppliedKeys(dbs[0].recorded) + Keys(adds[..k])
  {
    StageHoldsNone(d, o, adds, dbs[0]);
    for i := 0 to k
      invariant HoldsAll(d, o, adds[..i], dbs[0].tables, dbs[i].tables)
      invariant AppliedKeys(dbs[i].recorded) == AppliedKeys(dbs[0].recorded) + Keys(adds[..i])
    {
      assert StageAt(d, adds, dbs, i);
      StageHoldsNext(d, o, adds, i, dbs[0], dbs[i], dbs[i + 1]);
    }
  }

  lemma StageHoldsNone(d: Dialect, o: Owners, adds: seq<Migration>, first: Db)
    requires KeysOwned(d, o, first.tables)
    ensures HoldsAll(d, o, adds[..0], first.tables, first.tables)
    ensures AppliedKeys(first.recorded) == AppliedKeys(first.recorded) + Keys(adds[..0])
  {
    assert adds[..0] == [];
    NothingAlone(d, o, first.tables);
  }

  lemma StageHoldsNext(d: Dialect, o: Owners, adds: seq<Migration>, k: nat, first: Db, before: Db, after: Db)
    requires LocalMigs(d, o, adds) && NewAndDistinct(adds, first) && k < |adds|
    requires HoldsAll(d, o, adds[..k], first.tables, before.tables)
    requires AppliedKeys(before.recorded) == AppliedKeys(first.recorded) + Keys(adds[..k])
    requires Stage(d, adds[..k + 1], before, after)
    ensures HoldsAll(d, o, adds[..k + 1], first.tables, after.tables)
    ensures AppliedKeys(after.recorded) == AppliedKeys(first.recorded) + Keys(adds[..k + 1])
  {
    StageShapes(d, o, adds, k, first, before, after);
    RunRecords(d, adds[..k + 1], before);
    KeysGrow(adds, k);
  }

  lemma KeysGrow(adds: seq<Migration>, k: nat)
    requires k < |adds|
    ensures Keys(adds[..k]) + Keys(adds[..k + 1]) == Keys(adds[..k + 1])
  {
    assert forall m :: m in adds[..k] ==> m in adds[..k + 1];
  }

  /** One more stage keeps every app's tables in the shapes its migrations give alone. */
  lemma StageShapes(d: Dialect, o: Owners, adds: seq<Migration>, k: nat, first: Db, before: Db, after: Db)
    requires LocalMigs(d, o, adds) && NewAndDistinct(adds, first) && k < |adds|
    requires HoldsAll(d, o, adds[..k], first.tables, before.tables)
    requires AppliedKeys(before.recorded) == AppliedKeys(first.recorded) + Keys(adds[..k])
    requires Stage(d, adds[..k + 1], before, after)
    ensures HoldsAll(d, o, adds[..k + 1], first.tables, after.tables)
  {
    LocalAll(d, o, adds[..k + 1], adds);
    AppliedBefore(adds, k, AppliedKeys(first.recorded));
    HoldsSoFar(d, o, adds, k, first.tables, before.tables);
    StageKeeps(d, o, adds[..k + 1], Counts(adds[..k]), first.tables, before, after);
  }

  lemma StageKeeps(d: Dialect, o: Owners, added: seq<Migration>, have: string -> nat, start: Tables, before: Db,
                   after: Db)
    requires Stage(d, added, before, after) && LocalMigs(d, o, AllOf(added))
    requires AppliedFirst(AllOf(added), AppliedKeys(before.recorded), have)
    requires HoldsFirst(d, o, AllOf(added), have, start, before.tables)
    ensures HoldsAll(d, o, added, start, after.tables)
  {
    RunHolds(d, o, AllOf(added), AppliedKeys(before.recorded), have, start, before);
    ShapesOfSchema(d, o, added, start, FullRun(d, AllOf(added), before).value.db.tables, after.tables);
  }

  function NoneOf(): string -> nat {
    (app: string) => 0
  }

  lemma NothingApplied(adds: seq<Migration>, db: Db)
    requires NewAndDistinct(adds, db)
    ensures AppliedFirst(AllOf(adds), AppliedKeys(db.recorded), NoneOf())
  {
    var list := AllOf(adds);
    forall app {:trigger ForApp(list, app)}
      ensures FirstOnes(ForApp(list, app), AppliedKeys(db.recorded), NoneOf()(app))
    {
      ForAppOfAll(adds, app);
      forall j | 0 <= j < |ForApp(list, app)|
        ensures Key(ForApp(list, app)[j]) !in AppliedKeys(db.recorded)
      {
        assert ForApp(list, app)[j] in adds;
      }
    }
  }

  lemma NothingHeld(d: Dialect, o: Owners, list: seq<Migration>, tables: Tables)
    requires KeysOwned(d, o, tables)
    ensures HoldsFirst(d, o, list, NoneOf(), tables, tables)
  {
    NothingAlone(d, o, tables);
    forall app {:trigger ForApp(list, app)}
      ensures NoneOf()(app) <= |ForApp(list, app)|
      ensures ShapesAre(d, o, app, ForApp(list, app)[..NoneOf()(app)], tables, tables)
    {
      assert ForApp(list, app)[..0] == [];
      assert Alone(d, [], tables) == Some(Run(EMPTY, tables));
    }
  }

  lemma AllAtOnce(d: Dialect, o: Owners, adds: seq<Migration>, db: Db)
    requires LocalMigs(d, o, adds) && NewAndDistinct(adds, db) && KeysOwned(d, o, db.tables)
    requires forall app :: Alone(d, ForApp(adds, app), db.tables).Some?
    ensures var w := FullRun(d, AllOf(adds), db);
            w.Some? && HoldsAll(d, o, adds, db.tables, w.value.db.tables)
  {
    var list := AllOf(adds);
    LocalAll(d, o, adds, adds);
    NothingApplied(adds, db);
    NothingHeld(d, o, list, db.tables);
    forall app ensures ForApp(list, app) == ForApp(adds, app) {
      ForAppOfAll(adds, app);
    }
    RunHolds(d, o, list, AppliedKeys(db.recorded), NoneOf(), db.tables, db);
    ShapesOfSchema(d, o, adds, db.tables, FullRun(d, list, db).value.db.tables, FullRun(d, list, db).value.db.tables);
  }

  /** What staged runs and one run at the end share. */
  ghost predicate SameEnd(w: World, end: Db) {
    SameSchema(w.db.tables, end.tables) && AppliedKeys(w.db.recorded) == AppliedKeys(end.recorded)
  }

  /** When no foreign key leaves its app, or none is checked, the single run succeeds
      because the staged ones did. */
  lemma StagedSucceedOnce(d: Dialect, o: Owners, adds: seq<Migration>, dbs: seq<Db>)
    requires Staged(d, adds, dbs) && LocalMigs(d, o, adds) && NewAndDistinct(adds, dbs[0])
    requires KeysOwned(d, o, dbs[0].tables)
    ensures var w := FullRun(d, AllOf(adds), dbs[0]);
            w.Some? && SameEnd(w.value, dbs[|adds|])
  {
    var n := |adds|;
    assert adds[..n] == adds;
    StageHolds(d, o, adds, dbs, n);
    forall app
      ensures Alone(d, ForApp(adds, app), dbs[0].tables).Some?
    {
      assert ShapesAre(d, o, app, ForApp(adds, app), dbs[0].tables, dbs[n].tables);
    }
    AllAtOnce(d, o, adds, dbs[0]);
    RunRecords(d, adds, dbs[0]);
    var tables := FullRun(d, AllOf(adds), dbs[0]).value.db.tables;
    forall t
      ensures (t in tables <==> t in dbs[n].tables) && (t in tables ==> ShapeOf(tables[t]) == ShapeOf(dbs[n].tables[t]))
    {
      var app := o.tables(t);
      assert ShapesAre(d, o, app, ForApp(adds, app), dbs[0].tables, dbs[n].tables);
      assert ShapesAre(d, o, app, ForApp(adds, app), dbs[0].tables, tables);
    }
  }

  // ----- Runs without the checks of foreign keys -----

  lemma {:induction false} RunUnchecked(d: Dialect, applied: set<string>, migs: seq<Migration>, w: World)
    requires RunMigrations(d, applied, migs, w).Some?
    ensures RunMigrations(Unchecked(d), applied, migs, w) == RunMigrations(d, applied, migs, w)
  {
    if migs != [] {
      if Key(migs[0]) !in applied {
        OpsUnchecked(d, migs[0].operations, Run(w.state, w.db.tables));
      }
      RunUnchecked(d, applied, migs[1..], RunMigration(d, applied, migs[0], w).value);
    }
  }

  lemma StagedUnchecked(d: Dialect, adds: seq<Migration>, dbs: seq<Db>)
    requires Staged(d, adds, dbs)
    ensures Staged(Unchecked(d), adds, dbs)
  {
    forall k | 0 <= k < |adds| ensures StageAt(Unchecked(d), adds, dbs, k) {
      assert StageAt(d, adds, dbs, k);
      RunUnchecked(d, AppliedKeys(dbs[k].recorded), AllOf(adds[..k + 1]), World(EMPTY, dbs[k]));
    }
  }

  /** Whatever the order in which several apps' migrations were added, applying the
      registry after each addition and applying it once at the end give the same schema
      for every table and the same recorded keys whenever the single run succeeds, and it
      succeeds, because the staged ones did, unless the database checks foreign keys and
      one leaves its app. Apps must own disjoint models and tables. */
  lemma StagedEqualsOnce(d: Dialect, o: Owners, adds: seq<Migration>, dbs: seq<Db>)
    requires Staged(d, adds, dbs) && LocalMigs(Unchecked(d), o, adds) && NewAndDistinct(adds, dbs[0])
    ensures var w := FullRun(d, AllOf(adds), dbs[0]);
            && (w.Some? ==> SameEnd(w.value, dbs[|adds|]))
            && (LocalMigs(d, o, adds) && KeysOwned(d, o, dbs[0].tables) ==> w.Some?)
  {
    if LocalMigs(d, o, adds) && KeysOwned(d, o, dbs[0].tables) {
      StagedSucceedOnce(d, o, adds, dbs);
    } else if FullRun(d, AllOf(adds), dbs[0]).Some? {
      StagedUnchecked(d, adds, dbs);
      StagedSucceedOnce(Unchecked(d), o, adds, dbs);
      RunUnchecked(d, AppliedKeys(dbs[0].recorded), AllOf(adds), World(EMPTY, dbs[0]));
    }
  }
}
