/** A foreign key that leaves its app: PostgreSQL accepts the migrations one addition at
    a time, but not all at once, since the registry groups them by app. */
module CrossApp {
  import opened Schema
  import opened Engine
  import opened Ddl
  import opened MakeMigrations
  import opened Registry
  import opened Runner
  import opened Resume
  import opened Locality
  import opened Interleaving

  /** A migration of an app that creates one model, named like its table. */
  function Creation(app: string, name: string, table: string, fields: seq<FieldState>): Migration {
    Migration(app, name, [], [CreateModel(table, table, fields)])
  }

  function CreatedWorld(d: Dialect, app: string, name: string, table: string, fields: seq<FieldState>,
                        w: World): World {
    World(ApplyOp(CreateModel(table, table, fields), w.state).value,
          Db(w.db.tables[table := Table(Defs(d, fields), ForeignKeys(fields), [])],
             w.db.recorded + [Tracked(app, name)]))
  }

  lemma CreationRuns(d: Dialect, applied: set<string>, app: string, name: string, table: string,
                     fields: seq<FieldState>, w: World)
    requires Key(Creation(app, name, table, fields)) !in applied
    ensures RunMigration(d, applied, Creation(app, name, table, fields), w) ==
            if table in w.db.tables || !Creatable(d, table, Defs(d, fields), ForeignKeys(fields), w.db.tables) then None
            else Some(CreatedWorld(d, app, name, table, fields, w))
  {
    var op, r := CreateModel(table, table, fields), Run(w.state, w.db.tables);
    ExecAllOne(d, CreateTableSql(d, table, fields), w.db.tables);
    assert [op][1..] == [];
    assert RunOps(d, [op], r) == match StepOp(d, op, r) case None => None case Some(x) => RunOps(d, [], x);
  }

  lemma CreationSkipped(d: Dialect, applied: set<string>, app: string, name: string, table: string,
                        fields: seq<FieldState>, w: World)
    requires Key(Creation(app, name, table, fields)) in applied
    ensures RunMigration(d, applied, Creation(app, name, table, fields), w) ==
            Some(World(ApplyOp(CreateModel(table, table, fields), w.state).value, w.db))
  {
    var op := CreateModel(table, table, fields);
    assert [op][1..] == [] && ApplyAll([op], w.state) == ApplyAll([], ApplyOp(op, w.state).value);
  }

  function FirstOfA(): Migration {
    Creation("a", "0001_initial", "a", [IdField()])
  }

  function FirstOfB(): Migration {
    Creation("b", "0001_initial", "b", [IdField()])
  }

  /** Creates a table that refers to the one of app b. */
  function SecondOfA(): Migration {
    Creation("a", "0002_auto", "c", [IdField(), KeyField("b")])
  }

  function Additions(): seq<Migration> {
    [FirstOfA(), FirstOfB(), SecondOfA()]
  }

  /** Table and model b belong to app b, all others to app a. */
  function TwoApps(): Owners {
    Owners(m => if m == "b" then "b" else "a", t => if t == "b" || t == TempName("b") then "b" else "a")
  }

  lemma KeysDiffer()
    ensures Key(FirstOfA()) != Key(FirstOfB()) && Key(FirstOfB()) != Key(SecondOfA())
            && Key(FirstOfA()) != Key(SecondOfA())
  {
    assert Key(FirstOfA())[0] == 'a' && Key(FirstOfB())[0] == 'b' && Key(SecondOfA())[0] == 'a';
    assert Key(FirstOfA())[5] == '1' && Key(SecondOfA())[5] == '2';
  }

  lemma OrderSnoc(migs: seq<Migration>, m: Migration)
    ensures AppOrder(migs + [m]) == Seen(AppOrder(migs), m.app)
  {
    assert (migs + [m])[..|migs|] == migs;
  }

  lemma OneInOrder(m: Migration)
    ensures AppOrder([m]) == [m.app] && AllOf([m]) == [m]
    ensures forall app :: ForApp([m], app) == if m.app == app then [m] else []
  {
    assert [] + [m] == [m] && [] + [m.app] == [m.app];
    OrderSnoc([], m);
    forall app ensures ForApp([m], app) == if m.app == app then [m] else [] {
      ForAppSnoc([], m, app);
    }
    assert [m.app][1..] == [];
    assert Gather([m.app], [m]) == ForApp([m], m.app) + Gather([], [m]);
  }

  lemma TwoInOrder(l: Migration, m: Migration)
    requires l.app != m.app
    ensures AppOrder([l, m]) == [l.app, m.app] && AllOf([l, m]) == [l, m]
    ensures forall app :: ForApp([l, m], app) == if l.app == app then [l] else if m.app == app then [m] else []
  {
    assert [l] + [m] == [l, m] && [l.app] + [m.app] == [l.app, m.app];
    OneInOrder(l);
    OrderSnoc([l], m);
    forall app ensures ForApp([l, m], app) == if l.app == app then [l] else if m.app == app then [m] else [] {
      ForAppSnoc([l], m, app);
      assert [] + [m] == [m] && [l] + [] == [l];
    }
    GatherTwo(l.app, m.app, [l, m]);
  }

  lemma ThreeGrouped(l: Migration, m: Migration, n: Migration)
    requires l.app == n.app != m.app
    ensures AppOrder([l, m, n]) == [l.app, m.app]
    ensures ForApp([l, m, n], l.app) == [l, n] && ForApp([l, m, n], m.app) == [m]
  {
    assert [l, m] + [n] == [l, m, n] && [l] + [n] == [l, n] && [m] + [] == [m];
    TwoInOrder(l, m);
    OrderSnoc([l, m], n);
    ForAppSnoc([l, m], n, l.app);
    ForAppSnoc([l, m], n, m.app);
  }

  /** The registry lists a later addition behind its app's first. */
  lemma ThreeInOrder(l: Migration, m: Migration, n: Migration)
    requires l.app == n.app != m.app
    ensures AllOf([l, m, n]) == [l, n, m]
  {
    ThreeGrouped(l, m, n);
    GatherTwo(l.app, m.app, [l, m, n]);
    assert [l, n] + [m] == [l, n, m];
  }

  lemma GatherTwo(a: string, b: string, migs: seq<Migration>)
    ensures Gather([a, b], migs) == ForApp(migs, a) + ForApp(migs, b)
  {
    assert [a, b][1..] == [b] && [b][1..] == [];
    assert Gather([b], migs) == ForApp(migs, b) + Gather([], migs);
  }

  // ----- The runs -----

  function DbAfter(app: string, name: string, table: string, fields: seq<FieldState>, db: Db): Db {
    Db(db.tables[table := Table(Defs(POSTGRES, fields), ForeignKeys(fields), [])], db.recorded + [Tracked(app, name)])
  }

  function Empty(): Db {
    Db(map[], [])
  }

  function WithA(): Db {
    DbAfter("a", "0001_initial", "a", [IdField()], Empty())
  }

  function WithB(): Db {
    DbAfter("b", "0001_initial", "b", [IdField()], WithA())
  }

  function WithC(): Db {
    DbAfter("a", "0002_auto", "c", [IdField(), KeyField("b")], WithB())
  }

  lemma IdTable()
    ensures ForeignKeys([IdField()]) == [] && WellDefined(POSTGRES, Defs(POSTGRES, [IdField()]))
  {
    assert [IdField()][1..] == [] && ForeignKeys([]) == [];
  }

  lemma KeyTable(table: string)
    requires table != ""
    ensures var fields := [IdField(), KeyField(table)];
            && WellDefined(POSTGRES, Defs(POSTGRES, fields))
            && ForeignKeys(fields) == [ForeignKey("target_id", table, "id", "")]
  {
    var fields := [IdField(), KeyField(table)];
    assert fields[1..] == [KeyField(table)] && fields[1..][1..] == [];
    var key := ForeignKey("target_id", table, "id", "");
    assert KeyOf(KeyField(table)) == [key] && [key] + [] == [key] && [] + [key] == [key];
    assert ForeignKeys(fields[1..]) == KeyOf(KeyField(table)) + ForeignKeys([]);
    assert ForeignKeys(fields) == KeyOf(IdField()) + ForeignKeys(fields[1..]);
  }

  /** A table with a key to b can be created exactly when b is there. */
  lemma KeyTableIff(table: string, db: Db)
    requires table != "b" && ("b" in db.tables ==> db.tables["b"].columns == Defs(POSTGRES, [IdField()]))
    ensures var fields := [IdField(), KeyField("b")];
            Creatable(POSTGRES, table, Defs(POSTGRES, fields), ForeignKeys(fields), db.tables) <==> "b" in db.tables
  {
    var fields := [IdField(), KeyField("b")];
    var defs, key := Defs(POSTGRES, fields), ForeignKey("target_id", "b", "id", "");
    KeyTable("b");
    assert key in ForeignKeys(fields);
    if "b" in db.tables {
      var targets := db.tables["b"].columns;
      assert defs[1] in defs && targets[0] in targets && Matches(key, defs[1], targets[0]);
      assert TargetColumns(key, table, defs, db.tables) == targets;
    } else {
      assert TargetColumns(key, table, defs, db.tables) == [];
      assert !RefersTo(key, defs, []);
    }
  }

  /** From any project state the migrations lead from one database to the other. */
  ghost predicate Leads(applied: set<string>, migs: seq<Migration>, db: Db, after: Db) {
    forall s: State {:trigger World(s, db)} ::
      var w := RunMigrations(POSTGRES, applied, migs, World(s, db));
      w.Some? && w.value.db == after
  }

  lemma LeadsNowhere(applied: set<string>, db: Db)
    ensures Leads(applied, [], db, db)
  {
  }

  lemma RunCons(applied: set<string>, m: Migration, rest: seq<Migration>, w: World)
    ensures RunMigrations(POSTGRES, applied, [m] + rest, w) ==
            match RunMigration(POSTGRES, applied, m, w)
            case None => None
            case Some(next) => RunMigrations(POSTGRES, applied, rest, next)
  {
    assert ([m] + rest)[1..] == rest;
  }

  /** An applied creation leaves the database as it is. */
  lemma LeadsSkip(applied: set<string>, app: string, name: string, table: string, fields: seq<FieldState>,
                  rest: seq<Migration>, db: Db, after: Db)
    requires Key(Creation(app, name, table, fields)) in applied && Leads(applied, rest, db, after)
    ensures Leads(applied, [Creation(app, name, table, fields)] + rest, db, after)
  {
    var m := Creation(app, name, table, fields);
    forall s: State
      ensures var w := RunMigrations(POSTGRES, applied, [m] + rest, World(s, db));
              w.Some? && w.value.db == after
    {
      CreationSkipped(POSTGRES, applied, app, name, table, fields, World(s, db));
      RunCons(applied, m, rest, World(s, db));
    }
  }

  /** A pending one that can be made adds its table. */
  lemma LeadsCreate(applied: set<string>, app: string, name: string, table: string, fields: seq<FieldState>,
                    rest: seq<Migration>, db: Db, after: Db)
    requires Key(Creation(app, name, table, fields)) !in applied && table !in db.tables
    requires Creatable(POSTGRES, table, Defs(POSTGRES, fields), ForeignKeys(fields), db.tables)
    requires Leads(applied, rest, DbAfter(app, name, table, fields, db), after)
    ensures Leads(applied, [Creation(app, name, table, fields)] + rest, db, after)
  {
    var m := Creation(app, name, table, fields);
    forall s: State
      ensures var w := RunMigrations(POSTGRES, applied, [m] + rest, World(s, db));
              w.Some? && w.value.db == after
    {
      CreationRuns(POSTGRES, applied, app, name, table, fields, World(s, db));
      RunCons(applied, m, rest, World(s, db));
    }
  }

  lemma StageFrom(added: seq<Migration>, list: seq<Migration>, applied: set<string>, before: Db, after: Db)
    requires AllOf(added) == list && AppliedKeys(before.recorded) == applied && Leads(applied, list, before, after)
    ensures Stage(POSTGRES, added, before, after)
  {
    assert World(EMPTY, before).db == before;
  }

  lemma AppliedAre()
    ensures AppliedKeys(Empty().recorded) == {}
    ensures AppliedKeys(WithA().recorded) == {Key(FirstOfA())}
    ensures AppliedKeys(WithB().recorded) == {Key(FirstOfA()), Key(FirstOfB())}
  {
    AppliedSnoc(Empty().recorded, Tracked("a", "0001_initial"));
    AppliedSnoc(WithA().recorded, Tracked("b", "0001_initial"));
  }

  lemma FirstStage()
    ensures Stage(POSTGRES, [FirstOfA()], Empty(), WithA())
  {
    IdTable();
    AppliedAre();
    OneInOrder(FirstOfA());
    LeadsNowhere({}, WithA());
    LeadsCreate({}, "a", "0001_initial", "a", [IdField()], [], Empty(), WithA());
    assert [FirstOfA()] + [] == [FirstOfA()];
    StageFrom([FirstOfA()], [FirstOfA()], {}, Empty(), WithA());
  }

  lemma SecondLeads(applied: set<string>)
    requires Key(FirstOfA()) in applied && Key(FirstOfB()) !in applied
    ensures Leads(applied, [FirstOfA(), FirstOfB()], WithA(), WithB())
  {
    IdTable();
    LeadsNowhere(applied, WithB());
    LeadsCreate(applied, "b", "0001_initial", "b", [IdField()], [], WithA(), WithB());
    assert [FirstOfB()] + [] == [FirstOfB()] && [FirstOfA()] + [FirstOfB()] == [FirstOfA(), FirstOfB()];
    LeadsSkip(applied, "a", "0001_initial", "a", [IdField()], [FirstOfB()], WithA(), WithB());
  }

  lemma SecondStage()
    ensures Stage(POSTGRES, [FirstOfA(), FirstOfB()], WithA(), WithB())
  {
    AppliedAre();
    KeysDiffer();
    TwoInOrder(FirstOfA(), FirstOfB());
    SecondLeads({Key(FirstOfA())});
    StageFrom([FirstOfA(), FirstOfB()], [FirstOfA(), FirstOfB()], {Key(FirstOfA())}, WithA(), WithB());
  }

  lemma ThirdLeads(applied: set<string>)
    requires Key(FirstOfA()) in applied && Key(FirstOfB()) in applied && Key(SecondOfA()) !in applied
    ensures Leads(applied, [SecondOfA(), FirstOfB()], WithB(), WithC())
  {
    KeyTableIff("c", WithB());
    LeadsNowhere(applied, WithC());
    LeadsSkip(applied, "b", "0001_initial", "b", [IdField()], [], WithC(), WithC());
    assert [FirstOfB()] + [] == [FirstOfB()] && [SecondOfA()] + [FirstOfB()] == [SecondOfA(), FirstOfB()];
    LeadsCreate(applied, "a", "0002_auto", "c", [IdField(), KeyField("b")], [FirstOfB()], WithB(), WithC());
  }

  lemma ThirdStage()
    ensures Stage(POSTGRES, Additions(), WithB(), WithC())
  {
    var applied, list := {Key(FirstOfA()), Key(FirstOfB())}, [FirstOfA(), SecondOfA(), FirstOfB()];
    AppliedAre();
    KeysDiffer();
    ThreeInOrder(FirstOfA(), FirstOfB(), SecondOfA());
    ThirdLeads(applied);
    LeadsSkip(applied, "a", "0001_initial", "a", [IdField()], [SecondOfA(), FirstOfB()], WithB(), WithC());
    assert [FirstOfA()] + [SecondOfA(), FirstOfB()] == list;
    StageFrom(Additions(), list, applied, WithB(), WithC());
  }

  /** Nothing follows a creation that is refused. */
  lemma CreationStops(applied: set<string>, app: string, name: string, table: string, fields: seq<FieldState>,
                      rest: seq<Migration>, w: World)
    requires Key(Creation(app, name, table, fields)) !in applied
    requires !Creatable(POSTGRES, table, Defs(POSTGRES, fields), ForeignKeys(fields), w.db.tables)
    ensures RunMigrations(POSTGRES, applied, [Creation(app, name, table, fields)] + rest, w).None?
  {
    CreationRuns(POSTGRES, applied, app, name, table, fields, w);
    RunCons(applied, Creation(app, name, table, fields), rest, w);
  }

  lemma SecondFails(w: World)
    requires w.db == WithA()
    ensures RunMigrations(POSTGRES, {}, [SecondOfA(), FirstOfB()], w).None?
  {
    KeyTableIff("c", WithA());
    CreationStops({}, "a", "0002_auto", "c", [IdField(), KeyField("b")], [FirstOfB()], w);
    assert [SecondOfA()] + [FirstOfB()] == [SecondOfA(), FirstOfB()];
  }

  lemma OnceInOrder()
    ensures AllOf(Additions()) == [FirstOfA()] + [SecondOfA(), FirstOfB()]
  {
    ThreeInOrder(FirstOfA(), FirstOfB(), SecondOfA());
  }

  lemma FirstRunsOnce() returns (w: World)
    ensures RunMigration(POSTGRES, {}, FirstOfA(), World(EMPTY, Empty())) == Some(w) && w.db == WithA()
  {
    IdTable();
    CreationRuns(POSTGRES, {}, "a", "0001_initial", "a", [IdField()], World(EMPTY, Empty()));
    w := CreatedWorld(POSTGRES, "a", "0001_initial", "a", [IdField()], World(EMPTY, Empty()));
  }

  lemma FailsBehind(first: Migration, rest: seq<Migration>, w: World, next: World)
    requires RunMigration(POSTGRES, {}, first, w) == Some(next) && RunMigrations(POSTGRES, {}, rest, next).None?
    ensures RunMigrations(POSTGRES, {}, [first] + rest, w).None?
  {
    RunCons({}, first, rest, w);
  }

  lemma OnceFails()
    ensures FullRun(POSTGRES, AllOf(Additions()), Empty()).None?
  {
    var next := FirstRunsOnce();
    SecondFails(next);
    FailsBehind(FirstOfA(), [SecondOfA(), FirstOfB()], World(EMPTY, Empty()), next);
    OnceInOrder();
    AppliedAre();
  }

  lemma CreationLocal(d: Dialect, o: Owners, app: string, name: string, table: string, fields: seq<FieldState>)
    requires !ChecksKeys(d) && o.models(table) == app && o.tables(table) == app && o.tables(TempName(table)) == app
    ensures LocalOps(d, o, Creation(app, name, table, fields).operations, app)
  {
  }

  lemma AdditionsLocal()
    ensures LocalMigs(Unchecked(POSTGRES), TwoApps(), Additions())
  {
    assert TempName("a")[0] == 'a' && TempName("b")[0] == 'b' && TempName("c")[0] == 'c';
    CreationLocal(Unchecked(POSTGRES), TwoApps(), "a", "0001_initial", "a", [IdField()]);
    CreationLocal(Unchecked(POSTGRES), TwoApps(), "b", "0001_initial", "b", [IdField()]);
    CreationLocal(Unchecked(POSTGRES), TwoApps(), "a", "0002_auto", "c", [IdField(), KeyField("b")]);
  }

  lemma AdditionsNew()
    ensures NewAndDistinct(Additions(), Empty())
  {
    KeysDiffer();
    AppliedAre();
  }

  lemma EarlierStage(d: Dialect, adds: seq<Migration>, dbs: seq<Db>, more: seq<Migration>, all: seq<Db>, k: nat)
    requires Staged(d, adds, dbs) && k < |adds| < |more| && |all| == |more| + 1
    requires more[..|adds|] == adds && all[..|dbs|] == dbs
    ensures StageAt(d, more, all, k)
  {
    assert StageAt(d, adds, dbs, k);
    assert more[..k + 1] == adds[..k + 1] && all[k] == dbs[k] && all[k + 1] == dbs[k + 1];
  }

  lemma LastStage(d: Dialect, adds: seq<Migration>, dbs: seq<Db>)
    requires |adds| > 0 && |dbs| == |adds| + 1 && Stage(d, adds, dbs[|adds| - 1], dbs[|adds|])
    ensures StageAt(d, adds, dbs, |adds| - 1)
  {
    assert adds[..|adds|] == adds;
  }

  lemma AnyStage(d: Dialect, adds: seq<Migration>, m: Migration, dbs: seq<Db>, next: Db, more: seq<Migration>,
                 all: seq<Db>, k: nat)
    requires Staged(d, adds, dbs) && Stage(d, adds + [m], dbs[|adds|], next)
    requires more == adds + [m] && all == dbs + [next] && k < |more|
    ensures StageAt(d, more, all, k)
  {
    if k < |adds| {
      EarlierStage(d, adds, dbs, more, all, k);
    } else {
      var n := |adds|;
      assert k == n && |more| == n + 1 && all[n] == dbs[n] && all[n + 1] == next;
      LastStage(d, more, all);
    }
  }

  lemma StagedNext(d: Dialect, adds: seq<Migration>, m: Migration, dbs: seq<Db>, next: Db)
    requires Staged(d, adds, dbs) && Stage(d, adds + [m], dbs[|adds|], next)
    ensures Staged(d, adds + [m], dbs + [next])
  {
    var more, all := adds + [m], dbs + [next];
    forall k | 0 <= k < |more| ensures StageAt(d, more, all, k) {
      AnyStage(d, adds, m, dbs, next, more, all, k);
    }
  }

  lemma TwoStaged()
    ensures Staged(POSTGRES, [FirstOfA(), FirstOfB()], [Empty(), WithA(), WithB()])
  {
    assert [] + [FirstOfA()] == [FirstOfA()] && [FirstOfA()] + [FirstOfB()] == [FirstOfA(), FirstOfB()];
    assert [Empty()] + [WithA()] == [Empty(), WithA()] && [Empty(), WithA()] + [WithB()] == [Empty(), WithA(), WithB()];
    FirstStage();
    StagedNext(POSTGRES, [], FirstOfA(), [Empty()], WithA());
    SecondStage();
    StagedNext(POSTGRES, [FirstOfA()], FirstOfB(), [Empty(), WithA()], WithB());
  }

  lemma AdditionsStaged()
    ensures Staged(POSTGRES, Additions(), [Empty(), WithA(), WithB(), WithC()])
  {
    assert [FirstOfA(), FirstOfB()] + [SecondOfA()] == Additions();
    assert [Empty(), WithA(), WithB()] + [WithC()] == [Empty(), WithA(), WithB(), WithC()];
    TwoStaged();
    ThirdStage();
    StagedNext(POSTGRES, [FirstOfA(), FirstOfB()], SecondOfA(), [Empty(), WithA(), WithB()], WithC());
  }

  /** Every addition is accepted when it comes, the run of all at once is not. */
  lemma LeavingKeyFails() returns (adds: seq<Migration>, dbs: seq<Db>)
    ensures Staged(POSTGRES, adds, dbs) && LocalMigs(Unchecked(POSTGRES), TwoApps(), adds)
            && NewAndDistinct(adds, dbs[0])
    ensures FullRun(POSTGRES, AllOf(adds), dbs[0]).None?
  {
    adds, dbs := Additions(), [Empty(), WithA(), WithB(), WithC()];
    AdditionsStaged();
    OnceFails();
    AdditionsLocal();
    AdditionsNew();
  }
}
