/** The migration runner: one transaction per pending migration, the project state
    threaded through applied and pending ones (migrations/runner.go, recorder.go). */
module Runner {
  import opened Schema
  import opened Engine
  import opened Ddl
  import opened MakeMigrations
  import opened ProjectStates
  import Commutation

  /** A row of the tracking table. */
  datatype Tracked = Tracked(app: string, name: string)

  datatype Db = Db(tables: Tables, recorded: seq<Tracked>)

  datatype World = World(state: State, db: Db)

  function TrackedKey(t: Tracked): string {
    t.app + "/" + t.name
  }

  function AppliedKeys(recorded: seq<Tracked>): (keys: set<string>)
  {
    set t | t in recorded :: TrackedKey(t)
  }

  // ----- The run without faults, as a function -----

  function RunMigration(d: Dialect, applied: set<string>, m: Migration, w: World): Option<World> {
    if Key(m) in applied then
      match ApplyAll(m.operations, w.state)
      case None => None
      case Some(s) => Some(w.(state := s))
    else
      match RunOps(d, m.operations, Run(w.state, w.db.tables))
      case None => None
      case Some(r) => Some(World(r.state, Db(r.tables, w.db.recorded + [Tracked(m.app, m.name)])))
  }

  function RunMigrations(d: Dialect, applied: set<string>, migs: seq<Migration>, w: World): Option<World> {
    if migs == [] then Some(w)
    else match RunMigration(d, applied, migs[0], w)
      case None => None
      case Some(w') => RunMigrations(d, applied, migs[1..], w')
  }

  /** Keys of the migrations that are not yet applied, in order. */
  function Pending(applied: set<string>, migs: seq<Migration>): seq<string> {
    if migs == [] then []
    else (if Key(migs[0]) in applied then [] else [Key(migs[0])]) + Pending(applied, migs[1..])
  }

  lemma {:induction false} RunMigrationsConcat(d: Dialect, applied: set<string>, a: seq<Migration>, b: seq<Migration>,
                                               w: World)
    ensures RunMigrations(d, applied, a + b, w) ==
            match RunMigrations(d, applied, a, w) case None => None case Some(w') => RunMigrations(d, applied, b, w')
  {
    if a == [] {
      assert a + b == b;
    } else {
      assert (a + b)[0] == a[0] && (a + b)[1..] == a[1..] + b;
      match RunMigration(d, applied, a[0], w) {
        case None =>
        case Some(w') => RunMigrationsConcat(d, applied, a[1..], b, w');
      }
    }
  }

  lemma {:induction false} PendingConcat(applied: set<string>, a: seq<Migration>, b: seq<Migration>)
    ensures Pending(applied, a + b) == Pending(applied, a) + Pending(applied, b)
  {
    if a == [] {
      assert a + b == b;
    } else {
      assert (a + b)[0] == a[0] && (a + b)[1..] == a[1..] + b;
      PendingConcat(applied, a[1..], b);
    }
  }

  lemma RunMigrationsSnoc(d: Dialect, applied: set<string>, migs: seq<Migration>, i: nat, w: World)
    requires i < |migs|
    ensures RunMigrations(d, applied, migs[..i + 1], w) ==
            match RunMigrations(d, applied, migs[..i], w) case None => None
            case Some(w') => RunMigration(d, applied, migs[i], w')
    ensures Pending(applied, migs[..i + 1])
            == Pending(applied, migs[..i]) + if Key(migs[i]) in applied then [] else [Key(migs[i])]
  {
    RunMigrationsConcat(d, applied, migs[..i], [migs[i]], w);
    PendingConcat(applied, migs[..i], [migs[i]]);
    assert migs[..i + 1] == migs[..i] + [migs[i]];
    assert [migs[i]][1..] == [];
    assert Pending(applied, []) == [];
  }

  lemma StopsEarly(d: Dialect, applied: set<string>, migs: seq<Migration>, i: nat, w: World)
    requires i < |migs| && RunMigrations(d, applied, migs[..i + 1], w).None?
    ensures RunMigrations(d, applied, migs, w).None?
  {
    RunMigrationsConcat(d, applied, migs[..i + 1], migs[i + 1..], w);
    assert migs == migs[..i + 1] + migs[i + 1..];
  }

  // ----- The database connection -----

  /** A database whose statements may be refused for reasons of its own; faulted
      records that it happened. DDL is transactional. */
  class Store {
    var committed: Db
    var working: Db
    var inTx: bool
    ghost var faulted: bool

    ghost predicate Idle()
      reads this
    {
      !inTx && working == committed
    }

    constructor (db: Db)
      ensures Idle() && committed == db && !faulted
    {
      committed, working, inTx, faulted := db, db, false, false;
    }

    /** Whether the database refuses the next statement. */
    method Refuses() returns (fault: bool)
      modifies this`faulted
      ensures faulted == (old(faulted) || fault)
    {
      fault := *;
      faulted := faulted || fault;
    }

    method EnsureTable() returns (ok: bool)
      modifies this`faulted
      ensures faulted == (old(faulted) || !ok)
    {
      var fault := Refuses();
      ok := !fault;
    }

    method AppliedSet() returns (ok: bool, keys: set<string>)
      modifies this`faulted
      ensures faulted == (old(faulted) || !ok)
      ensures ok ==> keys == AppliedKeys(working.recorded)
    {
      var fault := Refuses();
      ok := !fault;
      keys := {};
      if ok {
        var rows := working.recorded;
        for i := 0 to |rows|
          invariant keys == AppliedKeys(rows[..i])
        {
          keys := keys + {TrackedKey(rows[i])};
          assert rows[..i + 1] == rows[..i] + [rows[i]];
        }
        assert rows[..|rows|] == rows;
      }
    }

    method BeginTx() returns (ok: bool)
      requires Idle()
      modifies this`inTx, this`faulted
      ensures inTx == ok && faulted == (old(faulted) || !ok)
    {
      var fault := Refuses();
      ok := !fault;
      inTx := ok;
    }

    method ExecStmt(d: Dialect, stmt: Stmt) returns (ok: bool)
      requires inTx
      modifies this`working, this`faulted
      ensures old(faulted) ==> faulted
      ensures ok ==> Exec(d, stmt, old(working).tables).Some?
      ensures !ok ==> faulted || Exec(d, stmt, old(working).tables).None?
      ensures working == if ok then old(working).(tables := Exec(d, stmt, old(working).tables).value) else old(working)
    {
      var fault := Refuses();
      var r := Exec(d, stmt, working.tables);
      ok := !fault && r.Some?;
      if ok { working := working.(tables := r.value); }
    }

    method RecordApplied(app: string, name: string) returns (ok: bool)
      requires inTx
      modifies this`working, this`faulted
      ensures faulted == (old(faulted) || !ok)
      ensures working == if ok then old(working).(recorded := old(working).recorded + [Tracked(app, name)])
              else old(working)
    {
      var fault := Refuses();
      ok := !fault;
      if ok { working := working.(recorded := working.recorded + [Tracked(app, name)]); }
    }

    /** A refused COMMIT discards the transaction. */
    method Commit() returns (ok: bool)
      requires inTx
      modifies this
      ensures Idle() && faulted == (old(faulted) || !ok)
      ensures committed == if ok then old(working) else old(committed)
    {
      var fault := Refuses();
      ok := !fault;
      if ok { committed := working; } else { working := committed; }
      inTx := false;
    }

    method Rollback()
      requires inTx
      modifies this`working, this`inTx
      ensures Idle()
    {
      working, inTx := committed, false;
    }
  }

  // ----- migrations.Apply -----

  datatype Status = Finished | Failed | Panicked

  lemma ApplyStep(ops: seq<Operation>, j: nat, start: State)
    requires j < |ops| && ApplyAll(ops[..j], start).Some?
    ensures ApplyAll(ops[..j + 1], start) == ApplyOp(ops[j], ApplyAll(ops[..j], start).value)
    ensures ApplyAll(ops[..j + 1], start).None? ==> ApplyAll(ops, start).None?
  {
    var s := ApplyAll(ops[..j], start).value;
    assert ops[..j + 1] == ops[..j] + [ops[j]] && ops == ops[..j + 1] + ops[j + 1..];
    ApplyAllConcat(ops[..j], [ops[j]], start);
    ApplyAllConcat(ops[..j + 1], ops[j + 1..], start);
    ApplyAllOne(ops[j], s);
  }

  lemma ApplyAllOne(op: Operation, s: State)
    ensures ApplyAll([op], s) == ApplyOp(op, s)
  {
    assert [op][1..] == [];
  }

  /** Advances ps by the operations of an already applied migration. */
  method Advance(ps: ProjectState, ops: seq<Operation>) returns (ok: bool)
    modifies ps
    ensures ok <==> ApplyAll(ops, old(ps.View())).Some?
    ensures ok ==> Some(ps.View()) == ApplyAll(ops, old(ps.View()))
  {
    var start := ps.View();
    for j := 0 to |ops|
      invariant ApplyAll(ops[..j], start) == Some(ps.View())
    {
      ApplyStep(ops, j, start);
      var applied := ps.Apply(ops[j]);
      if !applied { return false; }
    }
    assert ops[..|ops|] == ops;
    ok := true;
  }

  /** Executes the statements of one operation in the open transaction. */
  method ExecStmts(store: Store, d: Dialect, stmts: seq<Stmt>) returns (ok: bool)
    requires store.inTx
    modifies store`working, store`faulted
    ensures old(store.faulted) ==> store.faulted
    ensures store.working.recorded == old(store.working).recorded
    ensures ok ==> ExecAll(d, stmts, old(store.working).tables) == Some(store.working.tables)
    ensures !ok ==> store.faulted || ExecAll(d, stmts, old(store.working).tables).None?
  {
    var start := store.working;
    for k := 0 to |stmts|
      invariant ExecAll(d, stmts[..k], start.tables) == Some(store.working.tables)
      invariant store.working.recorded == start.recorded
      invariant old(store.faulted) ==> store.faulted
    {
      ExecAllConcat(d, stmts[..k], stmts[k..], start.tables);
      assert stmts == stmts[..k] + stmts[k..];
      ExecAllConcat(d, stmts[..k], [stmts[k]], start.tables);
      assert stmts[..k + 1] == stmts[..k] + [stmts[k]];
      ExecAllOne(d, stmts[k], store.working.tables);
      var done := store.ExecStmt(d, stmts[k]);
      if !done { return false; }
    }
    assert stmts[..|stmts|] == stmts;
    ok := true;
  }

  lemma RunOpsOne(d: Dialect, op: Operation, r: Run)
    ensures RunOps(d, [op], r) == StepOp(d, op, r)
  {
    assert [op][1..] == [];
  }

  lemma RunOpsOnto(d: Dialect, ops: seq<Operation>, op: Operation, r: Run, r': Run)
    requires RunOps(d, ops, r) == Some(r')
    ensures RunOps(d, ops + [op], r) == StepOp(d, op, r')
  {
    RunOpsConcat(d, ops, [op], r);
    RunOpsOne(d, op, r');
  }

  lemma RunOpsSnoc(d: Dialect, ops: seq<Operation>, j: nat, r: Run, r': Run)
    requires j < |ops| && RunOps(d, ops[..j], r) == Some(r')
    ensures RunOps(d, ops[..j + 1], r) == StepOp(d, ops[j], r')
  {
    assert ops[..j + 1] == ops[..j] + [ops[j]];
    RunOpsOnto(d, ops[..j], ops[j], r, r');
  }

  lemma RunOpsStops(d: Dialect, ops: seq<Operation>, j: nat, r: Run, r': Run)
    requires j < |ops| && RunOps(d, ops[..j], r) == Some(r') && StepOp(d, ops[j], r').None?
    ensures RunOps(d, ops, r).None?
  {
    assert ops == ops[..j] + ops[j..];
    RunOpsConcat(d, ops[..j], ops[j..], r);
  }

  /** One pending migration: it commits as a whole or leaves the database as it was. */
  method RunPending(store: Store, d: Dialect, ps: ProjectState, mig: Migration) returns (ok: bool)
    requires store.Idle()
    modifies store, ps
    ensures store.Idle() && (old(store.faulted) ==> store.faulted)
    ensures var r := RunOps(d, mig.operations, Run(old(ps.View()), old(store.committed).tables));
            if ok then r.Some? && ps.View() == r.value.state &&
                       store.committed
                       == Db(r.value.tables, old(store.committed).recorded + [Tracked(mig.app, mig.name)])
            else store.committed == old(store.committed) && (store.faulted || r.None?)
  {
    var ops := mig.operations;
    var start := Run(ps.View(), store.committed.tables);
    ok := store.BeginTx();
    if !ok { return; }
    for j := 0 to |ops|
      invariant store.inTx && store.committed == old(store.committed)
      invariant store.working.recorded == store.committed.recorded
      invariant old(store.faulted) ==> store.faulted
      invariant RunOps(d, ops[..j], start) == Some(Run(ps.View(), store.working.tables))
    {
      RunOpsSnoc(d, ops, j, start, Run(ps.View(), store.working.tables));
      if StepOp(d, ops[j], Run(ps.View(), store.working.tables)).None? {
        RunOpsStops(d, ops, j, start, Run(ps.View(), store.working.tables));
      }
      var rendered := ps.Sql(d, ops[j]);
      if rendered.Refused? {
        store.Rollback();
        return false;
      }
      var executed := ExecStmts(store, d, rendered.stmts);
      if !executed {
        store.Rollback();
        return false;
      }
      RenderedOpApplies(d, ops[j], ps.View());
      var applied := ps.Apply(ops[j]);
      assert applied;
    }
    assert ops[..|ops|] == ops;
    ok := store.RecordApplied(mig.app, mig.name);
    if !ok {
      store.Rollback();
      return;
    }
    ok := store.Commit();
  }

  /** Runs every migration not yet recorded, in order. However it ends, the database
      is the fault-free result of the first n migrations, and done lists the pending
      ones among them; it ends at a panic, or at a migration that some statement
      refused, and otherwise at the end of the list. */
  method Apply(store: Store, d: Dialect, migs: seq<Migration>) returns (done: seq<string>, status: Status, ghost n: nat)
    requires store.Idle()
    modifies store
    ensures store.Idle() && n <= |migs|
    ensures var applied := AppliedKeys(old(store.committed).recorded);
            var start := World(EMPTY, old(store.committed));
            var reached := RunMigrations(d, applied, migs[..n], start);
            && reached.Some? && store.committed == reached.value.db
            && done == Pending(applied, migs[..n])
            && (status.Finished? ==> n == |migs|)
            && (status.Panicked? ==>
                  n < |migs| && Key(migs[n]) in applied && ApplyAll(migs[n].operations, reached.value.state).None?)
            && (status.Failed? ==> store.faulted || RunMigrations(d, applied, migs, start).None?)
  {
    done := [];
    n := 0;
    ghost var start := World(EMPTY, store.committed);
    var ensured := store.EnsureTable();
    if !ensured { return done, Failed, 0; }
    var read, applied := store.AppliedSet();
    if !read { return done, Failed, 0; }
    var ps := new ProjectState();
    for i := 0 to |migs|
      invariant n == i && fresh(ps) && store.Idle()
      invariant done == Pending(applied, migs[..i])
      invariant RunMigrations(d, applied, migs[..i], start) == Some(World(ps.View(), store.committed))
    {
      var mig := migs[i];
      RunMigrationsSnoc(d, applied, migs, i, start);
      var key := Key(mig);
      if key in applied {
        var advanced := Advance(ps, mig.operations);
        if !advanced { return done, Panicked, i; }
      } else {
        var ok := RunPending(store, d, ps, mig);
        if !ok {
          if RunMigrations(d, applied, migs[..i + 1], start).None? { StopsEarly(d, applied, migs, i, start); }
          return done, Failed, i;
        }
        done := done + [key];
      }
      n := i + 1;
    }
    assert migs[..|migs|] == migs;
    status := Finished;
  }
}
