/** The registry of known migrations (migrations/registry.go). */
module Registry {
  import opened MakeMigrations

  function ForApp(migs: seq<Migration>, app: string): (r: seq<Migration>)
    ensures forall m :: m in r <==> m in migs && m.app == app
  {
    if migs == [] then []
    else (if migs[0].app == app then [migs[0]] else []) + ForApp(migs[1..], app)
  }

  lemma {:induction false} ForAppConcat(a: seq<Migration>, b: seq<Migration>, app: string)
    ensures ForApp(a + b, app) == ForApp(a, app) + ForApp(b, app)
  {
    if a == [] {
      assert a + b == b;
    } else {
      assert (a + b)[0] == a[0] && (a + b)[1..] == a[1..] + b;
      ForAppConcat(a[1..], b, app);
    }
  }

  lemma ForAppSnoc(migs: seq<Migration>, m: Migration, app: string)
    ensures ForApp(migs + [m], app) == ForApp(migs, app) + if m.app == app then [m] else []
  {
    ForAppConcat(migs, [m], app);
    assert [m][1..] == [];
  }

  /** The apps in the order in which they were first added. */
  function AppOrder(migs: seq<Migration>): (apps: seq<string>)
    decreases |migs|
  {
    if migs == [] then [] else Seen(AppOrder(migs[..|migs| - 1]), migs[|migs| - 1].app)
  }

  function Seen(apps: seq<string>, app: string): seq<string> {
    if app in apps then apps else apps + [app]
  }

  /** Every app of a migration is listed, once. */
  lemma {:induction false} AppOrderIs(migs: seq<Migration>)
    ensures forall m :: m in migs ==> m.app in AppOrder(migs)
    ensures forall i, j :: 0 <= i < j < |AppOrder(migs)| ==> AppOrder(migs)[i] != AppOrder(migs)[j]
    decreases |migs|
  {
    if migs != [] {
      var init, last := migs[..|migs| - 1], migs[|migs| - 1];
      AppOrderIs(init);
      assert forall m :: m in migs <==> m in init || m == last;
    }
  }

  function Gather(apps: seq<string>, migs: seq<Migration>): seq<Migration> {
    if apps == [] then [] else ForApp(migs, apps[0]) + Gather(apps[1..], migs)
  }

  /** Every migration, by app in first-seen order and then in insertion order. */
  function AllOf(migs: seq<Migration>): seq<Migration> {
    Gather(AppOrder(migs), migs)
  }

  lemma {:induction false} ForAppOfForApp(migs: seq<Migration>, a: string, app: string)
    ensures ForApp(ForApp(migs, a), app) == if a == app then ForApp(migs, app) else []
  {
    if migs != [] {
      ForAppConcat(if migs[0].app == a then [migs[0]] else [], ForApp(migs[1..], a), app);
      ForAppOfForApp(migs[1..], a, app);
      assert [migs[0]][1..] == [];
    }
  }

  lemma {:induction false} ForAppOfGather(apps: seq<string>, migs: seq<Migration>, app: string)
    requires forall i, j :: 0 <= i < j < |apps| ==> apps[i] != apps[j]
    ensures ForApp(Gather(apps, migs), app) == if app in apps then ForApp(migs, app) else []
    decreases |apps|
  {
    if apps != [] {
      ForAppConcat(ForApp(migs, apps[0]), Gather(apps[1..], migs), app);
      ForAppOfForApp(migs, apps[0], app);
      ForAppOfGather(apps[1..], migs, app);
    }
  }

  lemma {:induction false} ForAppNone(migs: seq<Migration>, app: string)
    requires forall m :: m in migs ==> m.app != app
    ensures ForApp(migs, app) == []
  {
    if migs != [] {
      assert migs[0] in migs;
      ForAppNone(migs[1..], app);
    }
  }

  lemma NotSeen(migs: seq<Migration>, app: string)
    requires app !in AppOrder(migs)
    ensures ForApp(migs, app) == []
  {
    AppOrderIs(migs);
    ForAppNone(migs, app);
  }

  lemma AppOrderSnoc(migs: seq<Migration>, m: Migration)
    ensures AppOrder(migs + [m]) == Seen(AppOrder(migs), m.app)
  {
    assert (migs + [m])[..|migs + [m]| - 1] == migs;
  }

  /** Grouping by app keeps each app's migrations, in their order. */
  lemma ForAppOfAll(migs: seq<Migration>, app: string)
    ensures ForApp(AllOf(migs), app) == ForApp(migs, app)
  {
    AppOrderIs(migs);
    ForAppOfGather(AppOrder(migs), migs, app);
    if app !in AppOrder(migs) { NotSeen(migs, app); }
  }

  lemma MemberOfAll(migs: seq<Migration>, m: Migration)
    ensures m in AllOf(migs) <==> m in migs
  {
    ForAppOfAll(migs, m.app);
    assert m in AllOf(migs) <==> m in ForApp(AllOf(migs), m.app);
    assert m in migs <==> m in ForApp(migs, m.app);
  }

  /** The fields of a registry to which the migrations were added. */
  ghost predicate Represents(byApp: map<string, seq<Migration>>, appOrder: seq<string>, added: seq<Migration>) {
    && appOrder == AppOrder(added)
    && (forall a :: a in byApp <==> a in appOrder)
    && (forall a :: a in byApp ==> byApp[a] == ForApp(added, a))
  }

  function Bucket(byApp: map<string, seq<Migration>>, app: string): seq<Migration> {
    if app in byApp then byApp[app] else []
  }

  lemma BucketIs(byApp: map<string, seq<Migration>>, appOrder: seq<string>, added: seq<Migration>, app: string)
    requires Represents(byApp, appOrder, added)
    ensures Bucket(byApp, app) == ForApp(added, app)
  {
    if app !in byApp { NotSeen(added, app); }
  }

  lemma AddRepresents(byApp: map<string, seq<Migration>>, appOrder: seq<string>, added: seq<Migration>, m: Migration)
    requires Represents(byApp, appOrder, added)
    ensures Represents(byApp[m.app := Bucket(byApp, m.app) + [m]], Seen(appOrder, m.app), added + [m])
  {
    var more := byApp[m.app := Bucket(byApp, m.app) + [m]];
    AppOrderSnoc(added, m);
    forall a | a in more
      ensures more[a] == ForApp(added + [m], a)
    {
      BucketIs(byApp, appOrder, added, a);
      ForAppSnoc(added, m, a);
      assert ForApp(added, a) + [] == ForApp(added, a);
    }
  }

  lemma GatherStep(apps: seq<string>, i: nat, migs: seq<Migration>, out: seq<Migration>)
    requires i < |apps|
    ensures out + Gather(apps[i..], migs) == (out + ForApp(migs, apps[i])) + Gather(apps[i + 1..], migs)
  {
    assert apps[i..][1..] == apps[i + 1..];
    assert Gather(apps[i..], migs) == ForApp(migs, apps[i]) + Gather(apps[i + 1..], migs);
  }

  class Registry {
    var byApp: map<string, seq<Migration>>
    var appOrder: seq<string>
    ghost var added: seq<Migration>

    ghost predicate Valid()
      reads this
    {
      Represents(byApp, appOrder, added)
    }

    constructor ()
      ensures Valid() && added == []
    {
      byApp, appOrder, added := map[], [], [];
    }

    method Add(m: Migration)
      requires Valid()
      modifies this
      ensures Valid() && added == old(added) + [m]
    {
      AddRepresents(byApp, appOrder, added, m);
      if m.app !in byApp {
        appOrder := appOrder + [m.app];
      }
      byApp := byApp[m.app := Bucket(byApp, m.app) + [m]];
      added := added + [m];
    }

    method ForAppMigrations(app: string) returns (r: seq<Migration>)
      requires Valid()
      ensures r == ForApp(added, app)
    {
      BucketIs(byApp, appOrder, added, app);
      r := Bucket(byApp, app);
    }

    method All() returns (out: seq<Migration>)
      requires Valid()
      ensures out == AllOf(added)
    {
      out := [];
      for i := 0 to |appOrder|
        invariant out + Gather(appOrder[i..], added) == AllOf(added)
      {
        GatherStep(appOrder, i, added, out);
        var app := appOrder[i];
        assert app in appOrder && byApp[app] == ForApp(added, app);
        out := out + byApp[app];
      }
      assert out + [] == out;
    }
  }
}
