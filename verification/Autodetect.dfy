/** The autodetector: operations that turn one project state into another
    (migrations/autodetect.go, Diff). */
module Autodetect {
  import opened Schema

  // ----- Looking fields up by name -----

  function Lookup(fields: seq<FieldState>, name: string): (r: Option<FieldState>)
    ensures r.Some? <==> HasField(fields, name)
    ensures r.Some? ==> r.value in fields && r.value.name == name
  {
    var i := IndexOf(fields, name);
    if i < |fields| then Some(fields[i]) else None
  }

  function Filter(fields: seq<FieldState>, p: FieldState -> bool): (r: seq<FieldState>)
    ensures forall f :: f in r <==> f in fields && p(f)
  {
    if fields == [] then []
    else (if p(fields[0]) then [fields[0]] else []) + Filter(fields[1..], p)
  }

  lemma LookupUnique(fields: seq<FieldState>, f: FieldState)
    requires UniqueNames(fields) && f in fields
    ensures Lookup(fields, f.name) == Some(f)
  {
    var i :| 0 <= i < |fields| && fields[i] == f;
    IndexOfIs(fields, f.name, i);
  }

  lemma UniqueTail(fields: seq<FieldState>)
    requires UniqueNames(fields) && fields != []
    ensures UniqueNames(fields[1..]) && !HasField(fields[1..], fields[0].name)
  {
    forall k | 0 <= k < |fields[1..]|
      ensures fields[1..][k].name != fields[0].name
    {
      assert fields[1..][k] == fields[k + 1];
    }
  }

  lemma UniqueCons(f: FieldState, rest: seq<FieldState>)
    requires UniqueNames(rest) && !HasField(rest, f.name)
    ensures UniqueNames([f] + rest)
  {
    HasFieldIffNamed(rest);
    forall j | 0 <= j < |rest|
      ensures rest[j].name != f.name
    {
      assert rest[j] in rest;
    }
  }

  lemma {:induction false} FilterUnique(fields: seq<FieldState>, p: FieldState -> bool)
    requires UniqueNames(fields)
    ensures UniqueNames(Filter(fields, p))
  {
    if fields != [] {
      UniqueTail(fields);
      FilterUnique(fields[1..], p);
      HasFieldIffNamed(fields[1..]);
      HasFieldIffNamed(Filter(fields[1..], p));
      UniqueCons(fields[0], Filter(fields[1..], p));
    }
  }

  lemma LookupFilter(fields: seq<FieldState>, p: FieldState -> bool, name: string)
    requires UniqueNames(fields)
    ensures Lookup(Filter(fields, p), name) ==
            match Lookup(fields, name) case Some(f) => (if p(f) then Some(f) else None) case None => None
  {
    FilterUnique(fields, p);
    var kept := Filter(fields, p);
    if HasField(kept, name) {
      LookupUnique(fields, Lookup(kept, name).value);
    }
    if HasField(fields, name) && p(Lookup(fields, name).value) {
      LookupUnique(kept, Lookup(fields, name).value);
    }
  }

  /** Lists with unique names and the same field under every name are permutations. */
  lemma SameLookupsPermute(a: seq<FieldState>, b: seq<FieldState>)
    requires UniqueNames(a) && UniqueNames(b)
    requires forall n :: Lookup(a, n) == Lookup(b, n)
    ensures multiset(a) == multiset(b)
  {
    forall f: FieldState
      ensures multiset(a)[f] == multiset(b)[f]
    {
      assert Lookup(a, f.name) == Lookup(b, f.name);
      OccursOnce(a, f);
      OccursOnce(b, f);
    }
  }

  lemma {:induction false} OccursOnce(a: seq<FieldState>, f: FieldState)
    requires UniqueNames(a)
    ensures multiset(a)[f] == if Lookup(a, f.name) == Some(f) then 1 else 0
  {
    if a != [] {
      UniqueTail(a);
      OccursOnce(a[1..], f);
      assert a == [a[0]] + a[1..];
      if f in a { LookupUnique(a, f); }
      if f in a[1..] { LookupUnique(a[1..], f); }
    }
  }

  // ----- Diff -----

  function NotIn(fields: seq<FieldState>): FieldState -> bool {
    (f: FieldState) => !HasField(fields, f.name)
  }

  function DiffersFrom(fields: seq<FieldState>): FieldState -> bool {
    (f: FieldState) => HasField(fields, f.name) && Lookup(fields, f.name) != Some(f)
  }

  function AddedFields(was: seq<FieldState>, now: seq<FieldState>): seq<FieldState> {
    Filter(now, NotIn(was))
  }

  function AlteredFields(was: seq<FieldState>, now: seq<FieldState>): seq<FieldState> {
    Filter(now, DiffersFrom(was))
  }

  function RemovedFields(was: seq<FieldState>, now: seq<FieldState>): seq<FieldState> {
    Filter(was, NotIn(now))
  }

  function AddOps(model: string, fields: seq<FieldState>): (ops: seq<Operation>)
    ensures |ops| == |fields| && forall i :: 0 <= i < |ops| ==> ops[i] == AddField(model, fields[i])
  {
    seq(|fields|, i requires 0 <= i < |fields| => AddField(model, fields[i]))
  }

  function AlterOps(model: string, fields: seq<FieldState>): (ops: seq<Operation>)
    ensures |ops| == |fields| && forall i :: 0 <= i < |ops| ==> ops[i] == AlterField(model, fields[i])
  {
    seq(|fields|, i requires 0 <= i < |fields| => AlterField(model, fields[i]))
  }

  function RemoveOps(model: string, fields: seq<FieldState>): (ops: seq<Operation>)
    ensures |ops| == |fields| && forall i :: 0 <= i < |ops| ==> ops[i] == RemoveField(model, fields[i].name)
  {
    seq(|fields|, i requires 0 <= i < |fields| => RemoveField(model, fields[i].name))
  }

  function FieldOps(model: string, was: seq<FieldState>, now: seq<FieldState>): seq<Operation> {
    AddOps(model, AddedFields(was, now))
    + (AlterOps(model, AlteredFields(was, now)) + RemoveOps(model, RemovedFields(was, now)))
  }

  function CreatedOps(names: seq<string>, was: State, now: State): seq<Operation>
    requires forall n :: n in names ==> n in now.models
  {
    if names == [] then []
    else (if names[0] in was.models then []
          else [CreateModel(names[0], now.models[names[0]].table, now.models[names[0]].fields)])
         + CreatedOps(names[1..], was, now)
  }

  function ChangedOps(names: seq<string>, was: State, now: State): seq<Operation>
    requires forall n :: n in names ==> n in now.models
  {
    if names == [] then []
    else (if names[0] in was.models then FieldOps(names[0], was.models[names[0]].fields, now.models[names[0]].fields)
          else [])
         + ChangedOps(names[1..], was, now)
  }

  function DeletedOps(names: seq<string>, now: State): seq<Operation> {
    if names == [] then []
    else (if names[0] in now.models then [] else [DeleteModel(names[0])]) + DeletedOps(names[1..], now)
  }

  function Diff(was: State, now: State): seq<Operation>
    requires forall n :: n in now.order ==> n in now.models
  {
    CreatedOps(now.order, was, now) + (ChangedOps(now.order, was, now) + DeletedOps(was.order, now))
  }

  // ----- Every operation has a target -----

  /** The operation creates something new or changes something that is there. */
  predicate FindsTarget(op: Operation, s: State) {
    match op
    case CreateModel(name, _, fields) => name !in s.models && UniqueNames(fields)
    case DeleteModel(name) => name in s.models
    case AddField(model, field) => model in s.models && !HasField(s.models[model].fields, field.name)
    case RemoveField(model, name) => model in s.models && HasField(s.models[model].fields, name)
    case AlterField(model, field) => model in s.models && HasField(s.models[model].fields, field.name)
  }

  predicate FindTargets(ops: seq<Operation>, s: State) {
    ops == [] || (FindsTarget(ops[0], s) && ApplyOp(ops[0], s).Some? && FindTargets(ops[1..], ApplyOp(ops[0], s).value))
  }

  /** The operations find their targets one after the other and lead from s to s'. */
  predicate Leads(ops: seq<Operation>, s: State, s': State) {
    FindTargets(ops, s) && ApplyAll(ops, s) == Some(s')
  }

  lemma {:induction false} FindTargetsConcat(a: seq<Operation>, b: seq<Operation>, s: State, t: State)
    requires FindTargets(a, s) && ApplyAll(a, s) == Some(t) && FindTargets(b, t)
    ensures FindTargets(a + b, s)
  {
    if a == [] {
      assert a + b == b;
    } else {
      assert (a + b)[0] == a[0] && (a + b)[1..] == a[1..] + b;
      FindTargetsConcat(a[1..], b, ApplyOp(a[0], s).value, t);
    }
  }

  lemma LeadsConcat(a: seq<Operation>, b: seq<Operation>, s: State, t: State, u: State)
    requires Leads(a, s, t) && Leads(b, t, u)
    ensures Leads(a + b, s, u)
  {
    ApplyAllConcat(a, b, s);
    FindTargetsConcat(a, b, s, t);
  }

  lemma LeadsOne(op: Operation, s: State)
    requires FindsTarget(op, s)
    ensures ApplyOp(op, s).Some? && Leads([op], s, ApplyOp(op, s).value)
  {
    assert [op][1..] == [];
    assert ApplyAll([], ApplyOp(op, s).value) == Some(ApplyOp(op, s).value);
  }

  // ----- Field operations on one model -----

  function SetFields(s: State, model: string, fields: seq<FieldState>): State
    requires model in s.models
  {
    s.(models := s.models[model := s.models[model].(fields := fields)])
  }

  lemma SetFieldsTwice(s: State, model: string, a: seq<FieldState>, b: seq<FieldState>)
    requires model in s.models
    ensures SetFields(SetFields(s, model, a), model, b) == SetFields(s, model, b)
  {
    assert s.models[model := s.models[model].(fields := a)][model := s.models[model].(fields := b)]
        == s.models[model := s.models[model].(fields := b)];
  }

  function ReplaceAll(fields: seq<FieldState>, repl: seq<FieldState>): seq<FieldState>
    decreases |repl|
  {
    if repl == [] then fields else ReplaceAll(ReplaceFirst(fields, repl[0]), repl[1..])
  }

  function RemoveAll(fields: seq<FieldState>, gone: seq<FieldState>): seq<FieldState>
    decreases |gone|
  {
    if gone == [] then fields else RemoveAll(RemoveFirst(fields, gone[0].name), gone[1..])
  }

  lemma LookupConcat(a: seq<FieldState>, b: seq<FieldState>, name: string)
    ensures Lookup(a + b, name) == if HasField(a, name) then Lookup(a, name) else Lookup(b, name)
  {
    var i := IndexOf(a, name);
    if i < |a| {
      IndexOfIs(a + b, name, i);
    } else {
      var j := IndexOf(b, name);
      if j < |b| {
        IndexOfIs(a + b, name, |a| + j);
      } else {
        assert forall k :: 0 <= k < |a + b| ==> (a + b)[k].name != name;
      }
    }
  }

  lemma LookupReplaceFirst(fields: seq<FieldState>, f: FieldState, name: string)
    ensures Lookup(ReplaceFirst(fields, f), name) ==
            if name == f.name && HasField(fields, name) then Some(f) else Lookup(fields, name)
  {
    var i, r := IndexOf(fields, f.name), ReplaceFirst(fields, f);
    if i < |fields| {
      if name == f.name {
        IndexOfIs(r, name, i);
      } else {
        var j := IndexOf(fields, name);
        if j < |fields| { IndexOfIs(r, name, j); }
      }
    }
  }

  lemma LookupRemoveFirst(fields: seq<FieldState>, gone: string, name: string)
    requires UniqueNames(fields)
    ensures Lookup(RemoveFirst(fields, gone), name) == if name == gone then None else Lookup(fields, name)
  {
    var i, r := IndexOf(fields, gone), RemoveFirst(fields, gone);
    RemoveFirstUnique(fields, gone);
    if HasField(r, name) {
      LookupUnique(fields, Lookup(r, name).value);
    }
    if HasField(fields, name) && name != gone {
      var j := IndexOf(fields, name);
      assert if j < i then r[j] == fields[j] else r[j - 1] == fields[j];
      LookupUnique(r, fields[j]);
    }
  }

  lemma UniqueConcat(a: seq<FieldState>, b: seq<FieldState>)
    requires UniqueNames(a) && UniqueNames(b) && forall f :: f in b ==> !HasField(a, f.name)
    ensures UniqueNames(a + b)
  {
    HasFieldIffNamed(a);
    forall i, j | 0 <= i < j < |a + b|
      ensures (a + b)[i].name != (a + b)[j].name
    {
      if i < |a| <= j {
        assert a[i] in a && b[j - |a|] in b;
      }
    }
  }

  lemma AddOne(s: State, model: string, f: FieldState)
    requires model in s.models && !HasField(s.models[model].fields, f.name)
    ensures Leads([AddField(model, f)], s, SetFields(s, model, s.models[model].fields + [f]))
  {
    LeadsOne(AddField(model, f), s);
  }

  lemma StillAbsent(have: seq<FieldState>, fields: seq<FieldState>)
    requires UniqueNames(fields) && fields != []
    requires forall f :: f in fields ==> !HasField(have, f.name)
    ensures UniqueNames(fields[1..])
    ensures forall f :: f in fields[1..] ==> !HasField(have + [fields[0]], f.name)
  {
    UniqueTail(fields);
    HasFieldIffNamed(fields[1..]);
    forall f | f in fields[1..]
      ensures !HasField(have + [fields[0]], f.name)
    {
      LookupConcat(have, [fields[0]], f.name);
      assert f in fields;
    }
  }

  lemma {:induction false} AddPhase(s: State, model: string, fields: seq<FieldState>)
    requires model in s.models && UniqueNames(fields)
    requires forall f :: f in fields ==> !HasField(s.models[model].fields, f.name)
    ensures Leads(AddOps(model, fields), s, SetFields(s, model, s.models[model].fields + fields))
    decreases |fields|
  {
    var have := s.models[model].fields;
    if fields == [] {
      assert have + fields == have && SetFields(s, model, have) == s;
    } else {
      var more := have + [fields[0]];
      StillAbsent(have, fields);
      AddPhase(SetFields(s, model, more), model, fields[1..]);
      assert fields[0] in fields;
      AddOne(s, model, fields[0]);
      AddStep(s, model, fields, more);
    }
  }

  lemma AddStep(s: State, model: string, fields: seq<FieldState>, more: seq<FieldState>)
    requires model in s.models && fields != [] && more == s.models[model].fields + [fields[0]]
    requires Leads([AddField(model, fields[0])], s, SetFields(s, model, more))
    requires var s' := SetFields(s, model, more);
      Leads(AddOps(model, fields[1..]), s', SetFields(s', model, more + fields[1..]))
    ensures Leads(AddOps(model, fields), s, SetFields(s, model, s.models[model].fields + fields))
  {
    var all := more + fields[1..];
    assert all == s.models[model].fields + fields;
    SetFieldsTwice(s, model, more, all);
    assert [AddField(model, fields[0])] + AddOps(model, fields[1..]) == AddOps(model, fields);
    LeadsConcat([AddField(model, fields[0])], AddOps(model, fields[1..]), s, SetFields(s, model, more),
                SetFields(s, model, all));
  }

  lemma AlterOne(s: State, model: string, f: FieldState)
    requires model in s.models && HasField(s.models[model].fields, f.name)
    ensures Leads([AlterField(model, f)], s, SetFields(s, model, ReplaceFirst(s.models[model].fields, f)))
  {
    LeadsOne(AlterField(model, f), s);
  }

  lemma RemoveOne(s: State, model: string, name: string)
    requires model in s.models && HasField(s.models[model].fields, name)
    ensures Leads([RemoveField(model, name)], s, SetFields(s, model, RemoveFirst(s.models[model].fields, name)))
  {
    LeadsOne(RemoveField(model, name), s);
  }

  lemma {:induction false} AlterPhase(s: State, model: string, fields: seq<FieldState>)
    requires model in s.models
    requires forall f :: f in fields ==> HasField(s.models[model].fields, f.name)
    ensures Leads(AlterOps(model, fields), s, SetFields(s, model, ReplaceAll(s.models[model].fields, fields)))
    decreases |fields|
  {
    var have := s.models[model].fields;
    if fields == [] {
      assert SetFields(s, model, have) == s;
    } else {
      var next := ReplaceFirst(have, fields[0]);
      forall f | f in fields[1..]
        ensures HasField(next, f.name)
      {
        LookupReplaceFirst(have, fields[0], f.name);
        assert f in fields;
      }
      AlterPhase(SetFields(s, model, next), model, fields[1..]);
      assert fields[0] in fields;
      AlterOne(s, model, fields[0]);
      AlterStep(s, model, fields, next);
    }
  }

  lemma AlterStep(s: State, model: string, fields: seq<FieldState>, next: seq<FieldState>)
    requires model in s.models && fields != [] && next == ReplaceFirst(s.models[model].fields, fields[0])
    requires Leads([AlterField(model, fields[0])], s, SetFields(s, model, next))
    requires var s' := SetFields(s, model, next);
      Leads(AlterOps(model, fields[1..]), s', SetFields(s', model, ReplaceAll(next, fields[1..])))
    ensures Leads(AlterOps(model, fields), s, SetFields(s, model, ReplaceAll(s.models[model].fields, fields)))
  {
    var all := ReplaceAll(next, fields[1..]);
    assert all == ReplaceAll(s.models[model].fields, fields);
    SetFieldsTwice(s, model, next, all);
    assert [AlterField(model, fields[0])] + AlterOps(model, fields[1..]) == AlterOps(model, fields);
    LeadsConcat([AlterField(model, fields[0])], AlterOps(model, fields[1..]), s, SetFields(s, model, next),
                SetFields(s, model, all));
  }

  lemma StillThere(have: seq<FieldState>, fields: seq<FieldState>)
    requires UniqueNames(have) && UniqueNames(fields) && fields != []
    requires forall f :: f in fields ==> HasField(have, f.name)
    ensures UniqueNames(RemoveFirst(have, fields[0].name)) && UniqueNames(fields[1..])
    ensures forall f :: f in fields[1..] ==> HasField(RemoveFirst(have, fields[0].name), f.name)
  {
    UniqueTail(fields);
    HasFieldIffNamed(fields[1..]);
    RemoveFirstUnique(have, fields[0].name);
    forall f | f in fields[1..]
      ensures HasField(RemoveFirst(have, fields[0].name), f.name)
    {
      LookupRemoveFirst(have, fields[0].name, f.name);
      assert f in fields;
    }
  }

  lemma {:induction false} RemovePhase(s: State, model: string, fields: seq<FieldState>)
    requires model in s.models && UniqueNames(s.models[model].fields) && UniqueNames(fields)
    requires forall f :: f in fields ==> HasField(s.models[model].fields, f.name)
    ensures Leads(RemoveOps(model, fields), s, SetFields(s, model, RemoveAll(s.models[model].fields, fields)))
    decreases |fields|
  {
    var have := s.models[model].fields;
    if fields == [] {
      assert SetFields(s, model, have) == s;
    } else {
      var left := RemoveFirst(have, fields[0].name);
      var s' := SetFields(s, model, left);
      StillThere(have, fields);
      RemovePhase(s', model, fields[1..]);
      assert fields[0] in fields;
      RemoveOne(s, model, fields[0].name);
      RemoveStep(s, model, fields, left);
    }
  }

  lemma RemoveStep(s: State, model: string, fields: seq<FieldState>, left: seq<FieldState>)
    requires model in s.models && fields != [] && left == RemoveFirst(s.models[model].fields, fields[0].name)
    requires Leads([RemoveField(model, fields[0].name)], s, SetFields(s, model, left))
    requires var s' := SetFields(s, model, left);
      Leads(RemoveOps(model, fields[1..]), s', SetFields(s', model, RemoveAll(left, fields[1..])))
    ensures Leads(RemoveOps(model, fields), s, SetFields(s, model, RemoveAll(s.models[model].fields, fields)))
  {
    var all := RemoveAll(left, fields[1..]);
    assert all == RemoveAll(s.models[model].fields, fields);
    SetFieldsTwice(s, model, left, all);
    assert [RemoveField(model, fields[0].name)] + RemoveOps(model, fields[1..]) == RemoveOps(model, fields);
    LeadsConcat([RemoveField(model, fields[0].name)], RemoveOps(model, fields[1..]), s, SetFields(s, model, left),
                SetFields(s, model, all));
  }

  lemma {:induction false} LookupReplaceAll(fields: seq<FieldState>, repl: seq<FieldState>, name: string)
    requires UniqueNames(repl)
    ensures Lookup(ReplaceAll(fields, repl), name) ==
            if HasField(fields, name) && HasField(repl, name) then Lookup(repl, name) else Lookup(fields, name)
    decreases |repl|
  {
    if repl != [] {
      UniqueTail(repl);
      LookupReplaceFirst(fields, repl[0], name);
      LookupReplaceAll(ReplaceFirst(fields, repl[0]), repl[1..], name);
      LookupConcat([repl[0]], repl[1..], name);
      assert [repl[0]] + repl[1..] == repl;
    }
  }

  lemma {:induction false} ReplaceAllUnique(fields: seq<FieldState>, repl: seq<FieldState>)
    requires UniqueNames(fields)
    ensures UniqueNames(ReplaceAll(fields, repl))
    decreases |repl|
  {
    if repl != [] {
      ReplaceAllUnique(ReplaceFirst(fields, repl[0]), repl[1..]);
    }
  }

  lemma {:induction false} LookupRemoveAll(fields: seq<FieldState>, gone: seq<FieldState>, name: string)
    requires UniqueNames(fields)
    ensures UniqueNames(RemoveAll(fields, gone))
    ensures Lookup(RemoveAll(fields, gone), name) == if HasField(gone, name) then None else Lookup(fields, name)
    decreases |gone|
  {
    if gone != [] {
      RemoveFirstUnique(fields, gone[0].name);
      LookupRemoveFirst(fields, gone[0].name, name);
      LookupRemoveAll(RemoveFirst(fields, gone[0].name), gone[1..], name);
      LookupConcat([gone[0]], gone[1..], name);
      assert [gone[0]] + gone[1..] == gone;
    }
  }

  function FinalFields(was: seq<FieldState>, now: seq<FieldState>): seq<FieldState> {
    RemoveAll(ReplaceAll(was + AddedFields(was, now), AlteredFields(was, now)), RemovedFields(was, now))
  }

  /** Adding, altering and removing leaves a permutation of the new field list. */
  lemma FinalFieldsPermute(was: seq<FieldState>, now: seq<FieldState>)
    requires UniqueNames(was) && UniqueNames(now)
    ensures UniqueNames(FinalFields(was, now))
    ensures multiset(FinalFields(was, now)) == multiset(now)
  {
    var added, altered, removed := AddedFields(was, now), AlteredFields(was, now), RemovedFields(was, now);
    FilterUnique(now, NotIn(was));
    FilterUnique(now, DiffersFrom(was));
    UniqueConcat(was, added);
    ReplaceAllUnique(was + added, altered);
    forall n
      ensures UniqueNames(FinalFields(was, now))
      ensures Lookup(FinalFields(was, now), n) == Lookup(now, n)
    {
      LookupRemoveAll(ReplaceAll(was + added, altered), removed, n);
      LookupReplaceAll(was + added, altered, n);
      LookupConcat(was, added, n);
      LookupFilter(now, NotIn(was), n);
      LookupFilter(now, DiffersFrom(was), n);
      LookupFilter(was, NotIn(now), n);
    }
    LookupRemoveAll(ReplaceAll(was + added, altered), removed, "");
    SameLookupsPermute(FinalFields(was, now), now);
  }

  lemma ModelPhase(s: State, model: string, now: seq<FieldState>)
    requires model in s.models && UniqueNames(s.models[model].fields) && UniqueNames(now)
    ensures var was := s.models[model].fields;
            Leads(FieldOps(model, was, now), s, SetFields(s, model, FinalFields(was, now)))
  {
    var was := s.models[model].fields;
    var added, altered, removed := AddedFields(was, now), AlteredFields(was, now), RemovedFields(was, now);
    FilterUnique(now, NotIn(was));
    FilterUnique(now, DiffersFrom(was));
    FilterUnique(was, NotIn(now));
    UniqueConcat(was, added);
    ReplaceAllUnique(was + added, altered);
    AddPhase(s, model, added);
    var s1 := SetFields(s, model, was + added);
    forall f | f in altered
      ensures HasField(was + added, f.name)
    {
      LookupConcat(was, added, f.name);
    }
    AlterPhase(s1, model, altered);
    SetFieldsTwice(s, model, was + added, ReplaceAll(was + added, altered));
    var s2 := SetFields(s, model, ReplaceAll(was + added, altered));
    HasFieldIffNamed(was);
    forall f | f in removed
      ensures HasField(ReplaceAll(was + added, altered), f.name)
    {
      LookupReplaceAll(was + added, altered, f.name);
      LookupConcat(was, added, f.name);
    }
    RemovePhase(s2, model, removed);
    SetFieldsTwice(s, model, ReplaceAll(was + added, altered), FinalFields(was, now));
    var s3 := SetFields(s, model, FinalFields(was, now));
    LeadsConcat(AlterOps(model, altered), RemoveOps(model, removed), s1, s2, s3);
    LeadsConcat(AddOps(model, added), AlterOps(model, altered) + RemoveOps(model, removed), s, s1, s3);
  }

  // ----- The three parts of Diff, over all models -----

  lemma {:induction false} CreatedPhase(names: seq<string>, was: State, now: State, s: State) returns (s': State)
    requires Distinct(names) && FieldsUnique(now)
    requires forall n :: n in names ==> n in now.models && (n in s.models ==> n in was.models)
    ensures Leads(CreatedOps(names, was, now), s, s')
    ensures forall m :: m in s'.models <==> m in s.models || (m in names && m !in was.models)
    ensures forall m :: m in s'.models ==>
              s'.models[m] == if m in names && m !in was.models
                              then ModelState(m, now.models[m].table, now.models[m].fields) else s.models[m]
    decreases |names|
  {
    if names == [] {
      s' := s;
    } else {
      var name, rest := names[0], names[1..];
      assert name in names;
      if name in was.models {
        s' := CreatedPhase(rest, was, now, s);
        assert CreatedOps(names, was, now) == CreatedOps(rest, was, now);
      } else {
        var op := CreateModel(name, now.models[name].table, now.models[name].fields);
        LeadsOne(op, s);
        var s1 := ApplyOp(op, s).value;
        s' := CreatedPhase(rest, was, now, s1);
        LeadsConcat([op], CreatedOps(rest, was, now), s, s1, s');
      }
    }
  }

  lemma {:induction false} ChangedPhase(names: seq<string>, was: State, now: State, s: State) returns (s': State)
    requires Distinct(names) && FieldsUnique(was) && FieldsUnique(now)
    requires forall n :: n in names ==>
      n in now.models && (n in was.models ==> n in s.models && s.models[n] == was.models[n])
    ensures Leads(ChangedOps(names, was, now), s, s')
    ensures s'.models.Keys == s.models.Keys
    ensures forall m :: m in s'.models ==>
              s'.models[m] == if m in names && m in was.models
                              then was.models[m].(fields := FinalFields(was.models[m].fields, now.models[m].fields))
                              else s.models[m]
    decreases |names|
  {
    if names == [] {
      s' := s;
    } else {
      var name, rest := names[0], names[1..];
      assert name in names;
      if name !in was.models {
        s' := ChangedPhase(rest, was, now, s);
        assert ChangedOps(names, was, now) == ChangedOps(rest, was, now);
      } else {
        var ops := FieldOps(name, was.models[name].fields, now.models[name].fields);
        ModelPhase(s, name, now.models[name].fields);
        var s1 := SetFields(s, name, FinalFields(was.models[name].fields, now.models[name].fields));
        s' := ChangedPhase(rest, was, now, s1);
        LeadsConcat(ops, ChangedOps(rest, was, now), s, s1, s');
      }
    }
  }

  lemma {:induction false} DeletedPhase(names: seq<string>, now: State, s: State) returns (s': State)
    requires Distinct(names)
    requires forall n :: n in names && n !in now.models ==> n in s.models
    ensures Leads(DeletedOps(names, now), s, s')
    ensures forall m :: m in s'.models <==> m in s.models && !(m in names && m !in now.models)
    ensures forall m :: m in s'.models ==> s'.models[m] == s.models[m]
    decreases |names|
  {
    if names == [] {
      s' := s;
    } else {
      var name, rest := names[0], names[1..];
      assert name in names;
      if name in now.models {
        s' := DeletedPhase(rest, now, s);
        assert DeletedOps(names, now) == DeletedOps(rest, now);
      } else {
        LeadsOne(DeleteModel(name), s);
        var s1 := ApplyOp(DeleteModel(name), s).value;
        s' := DeletedPhase(rest, now, s1);
        LeadsConcat([DeleteModel(name)], DeletedOps(rest, now), s, s1, s');
      }
    }
  }

  // ----- The order list -----

  ghost predicate OrderOk(s: State) {
    Distinct(s.order) && forall m :: m in s.order <==> m in s.models
  }

  lemma DropFirstDistinct(order: seq<string>, name: string)
    requires Distinct(order)
    ensures Distinct(DropFirst(order, name))
    ensures forall m :: m in DropFirst(order, name) <==> m in order && m != name
  {
    var i, r := OrderIndex(order, name), DropFirst(order, name);
    if i < |order| {
      assert forall k :: 0 <= k < |r| ==> r[k] == order[if k < i then k else k + 1];
      forall m | m in order && m != name
        ensures m in r
      {
        var j :| 0 <= j < |order| && order[j] == m;
        assert r[if j < i then j else j - 1] == m;
      }
    }
  }

  lemma ApplyKeepsOrder(op: Operation, s: State)
    requires OrderOk(s) && ApplyOp(op, s).Some?
    ensures OrderOk(ApplyOp(op, s).value)
  {
    if op.DeleteModel? {
      DropFirstDistinct(s.order, op.name);
    }
  }

  lemma {:induction false} ApplyAllKeepsOrder(ops: seq<Operation>, s: State)
    requires OrderOk(s) && ApplyAll(ops, s).Some?
    ensures OrderOk(ApplyAll(ops, s).value)
  {
    if ops != [] {
      ApplyKeepsOrder(ops[0], s);
      ApplyAllKeepsOrder(ops[1..], ApplyOp(ops[0], s).value);
    }
  }

  // ----- Soundness -----

  /** The same models with the same fields, up to field order, and tables for the
      models that are new; models that survive keep their table. */
  ghost predicate SameSchema(s: State, now: State) {
    && s.models.Keys == now.models.Keys
    && forall m :: m in s.models ==> multiset(s.models[m].fields) == multiset(now.models[m].fields)
  }

  ghost predicate TablesFrom(s: State, was: State, now: State)
    requires s.models.Keys == now.models.Keys
  {
    forall m :: m in s.models ==>
      s.models[m].table == if m in was.models then was.models[m].table else now.models[m].table
  }

  /** The models a Diff leads to: new ones as they are, surviving ones with their
      final fields. */
  ghost predicate Reaches(s: State, was: State, now: State) {
    && s.models.Keys == now.models.Keys
    && forall m :: m in s.models ==>
         s.models[m] == if m in was.models
                        then was.models[m].(fields := FinalFields(was.models[m].fields, now.models[m].fields))
                        else now.models[m]
  }

  lemma DiffLeads(was: State, now: State) returns (s: State)
    requires WellFormed(was) && WellFormed(now)
    ensures Leads(Diff(was, now), was, s) && Reaches(s, was, now)
  {
    var s1 := CreatedPhase(now.order, was, now, was);
    var s2 := ChangedPhase(now.order, was, now, s1);
    s := DeletedPhase(was.order, now, s2);
    LeadsConcat(ChangedOps(now.order, was, now), DeletedOps(was.order, now), s1, s2, s);
    LeadsConcat(CreatedOps(now.order, was, now), ChangedOps(now.order, was, now) + DeletedOps(was.order, now),
                was, s1, s);
  }

  lemma ReachesSchema(s: State, was: State, now: State)
    requires WellFormed(was) && WellFormed(now) && Reaches(s, was, now) && OrderOk(s)
    ensures WellFormed(s) && SameSchema(s, now) && TablesFrom(s, was, now)
  {
    forall m | m in s.models
      ensures UniqueNames(s.models[m].fields)
      ensures multiset(s.models[m].fields) == multiset(now.models[m].fields)
    {
      if m in was.models {
        FinalFieldsPermute(was.models[m].fields, now.models[m].fields);
      }
    }
  }

  /** Applying Diff(was, now) to was gives a well-formed state with exactly now's
      models and fields, and every operation on the way finds its target. */
  lemma DiffSound(was: State, now: State) returns (s: State)
    requires WellFormed(was) && WellFormed(now)
    ensures Leads(Diff(was, now), was, s)
    ensures WellFormed(s) && SameSchema(s, now) && TablesFrom(s, was, now)
    ensures forall m :: m in s.models && m !in was.models ==> s.models[m] == now.models[m]
  {
    s := DiffLeads(was, now);
    ApplyAllKeepsOrder(Diff(was, now), was);
    ReachesSchema(s, was, now);
  }

  lemma PermutedLookup(a: seq<FieldState>, b: seq<FieldState>, name: string)
    requires UniqueNames(a) && multiset(a) == multiset(b)
    ensures UniqueNames(b) ==> Lookup(a, name) == Lookup(b, name)
  {
    if UniqueNames(b) {
      if HasField(a, name) {
        var f := Lookup(a, name).value;
        assert f in multiset(b);
        LookupUnique(b, f);
      }
      if HasField(b, name) {
        var f := Lookup(b, name).value;
        assert f in multiset(a);
        LookupUnique(a, f);
      }
    }
  }

  lemma {:induction false} FilterNone(fields: seq<FieldState>, p: FieldState -> bool)
    requires forall f :: f in fields ==> !p(f)
    ensures Filter(fields, p) == []
  {
    if fields != [] {
      FilterNone(fields[1..], p);
    }
  }

  lemma NoFieldOps(model: string, was: seq<FieldState>, now: seq<FieldState>)
    requires UniqueNames(was) && UniqueNames(now) && multiset(was) == multiset(now)
    ensures FieldOps(model, was, now) == []
  {
    forall f | f in now
      ensures Lookup(was, f.name) == Some(f)
    {
      PermutedLookup(was, now, f.name);
      LookupUnique(now, f);
    }
    forall f | f in was
      ensures Lookup(now, f.name) == Some(f)
    {
      PermutedLookup(was, now, f.name);
      LookupUnique(was, f);
    }
    FilterNone(now, NotIn(was));
    FilterNone(now, DiffersFrom(was));
    FilterNone(was, NotIn(now));
  }

  lemma {:induction false} NoOps(names: seq<string>, s: State, now: State)
    requires WellFormed(s) && WellFormed(now) && SameSchema(s, now)
    requires forall n :: n in names ==> n in now.models
    ensures CreatedOps(names, s, now) == ChangedOps(names, s, now) == DeletedOps(names, now) == []
  {
    if names != [] {
      assert names[0] in names;
      NoFieldOps(names[0], s.models[names[0]].fields, now.models[names[0]].fields);
      NoOps(names[1..], s, now);
    }
  }

  /** Diff is empty exactly when the state already has now's schema. */
  lemma DiffEmptyIff(s: State, now: State)
    requires WellFormed(s) && WellFormed(now)
    ensures Diff(s, now) == [] <==> SameSchema(s, now)
  {
    if SameSchema(s, now) {
      NoOps(now.order, s, now);
      NoOps(s.order, s, now);
    } else {
      var s' := DiffSound(s, now);
      assert Diff(s, now) == [] ==> s' == s;
    }
  }
}
