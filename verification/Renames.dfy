/** The loops of the autodetector: Diff, and the pairing of removed with added
    fields that look like renames (migrations/autodetect.go, migrations/state.go). */
module Renames {
  import opened Schema
  import opened Autodetect
  import Matching

  predicate Equal(f: FieldState, g: FieldState) {
    && f.name == g.name && f.column == g.column && f.kind == g.kind
    && f.primaryKey == g.primaryKey && f.nullable == g.nullable && f.unique == g.unique
    && f.maxLength == g.maxLength && f.relKind == g.relKind
    && f.relTargetTable == g.relTargetTable && f.relTargetColumn == g.relTargetColumn
    && f.relOnDelete == g.relOnDelete
  }

  /** The field without its name and column. */
  function TypeOf(f: FieldState): FieldState {
    f.(name := "", column := "")
  }

  predicate SameType(f: FieldState, g: FieldState) {
    Equal(TypeOf(f), TypeOf(g))
  }

  /** The fields are the same but for their names and columns. */
  predicate DifferInName(f: FieldState, g: FieldState) {
    f.(name := g.name, column := g.column) == g
  }

  lemma EqualIff(f: FieldState, g: FieldState)
    ensures Equal(f, g) <==> f == g
    ensures SameType(f, g) <==> DifferInName(f, g)
    ensures TypeOf(f) == TypeOf(g) <==> DifferInName(f, g)
  {
  }

  // ----- Renames -----

  datatype PotentialRename = PotentialRename(model: string, from: string, to: string)

  function Report(model: string, pairs: seq<(FieldState, FieldState)>): (out: seq<PotentialRename>)
    ensures |out| == |pairs|
    ensures forall i :: 0 <= i < |out| ==> out[i] == PotentialRename(model, pairs[i].0.name, pairs[i].1.name)
  {
    seq(|pairs|, i requires 0 <= i < |pairs| => PotentialRename(model, pairs[i].0.name, pairs[i].1.name))
  }

  function ModelPairs(was: seq<FieldState>, now: seq<FieldState>): seq<(FieldState, FieldState)> {
    Matching.FirstFit(RemovedFields(was, now), AddedFields(was, now), TypeOf)
  }

  function AllRenames(names: seq<string>, was: State, now: State): seq<PotentialRename>
    requires forall n :: n in names ==> n in now.models
  {
    if names == [] then []
    else (if names[0] in was.models
          then Report(names[0], ModelPairs(was.models[names[0]].fields, now.models[names[0]].fields)) else [])
         + AllRenames(names[1..], was, now)
  }

  /** The renames reported for a model pair removed with added fields of the same
      type, use no field twice, and no such pairing is larger. */
  lemma ModelPairsAreMaximum(was: seq<FieldState>, now: seq<FieldState>, other: seq<(FieldState, FieldState)>)
    ensures var removed, added := RemovedFields(was, now), AddedFields(was, now);
            var pairs := ModelPairs(was, now);
            && Matching.IsMatching(pairs, removed, added, TypeOf)
            && (forall p :: p in pairs ==> DifferInName(p.0, p.1))
            && |pairs| == |Matching.Bag(removed, TypeOf) * Matching.Bag(added, TypeOf)|
            && (Matching.IsMatching(other, removed, added, TypeOf) ==> |other| <= |pairs|)
  {
    var removed, added := RemovedFields(was, now), AddedFields(was, now);
    Matching.FirstFitMatches(removed, added, TypeOf);
    if Matching.IsMatching(other, removed, added, TypeOf) {
      Matching.FirstFitIsMaximum(other, removed, added, TypeOf);
    }
  }

  method FieldByName(fields: seq<FieldState>, name: string) returns (r: Option<FieldState>)
    ensures r == Lookup(fields, name)
  {
    for i := 0 to |fields|
      invariant forall k :: 0 <= k < i ==> fields[k].name != name
    {
      if fields[i].name == name {
        IndexOfIs(fields, name, i);
        return Some(fields[i]);
      }
    }
    r := None;
  }

  lemma FilterFrom(fields: seq<FieldState>, i: nat, p: FieldState -> bool)
    requires i < |fields|
    ensures var rest := Filter(fields[i + 1..], p);
            Filter(fields[i..], p) == if p(fields[i]) then [fields[i]] + rest else rest
  {
    assert fields[i..][1..] == fields[i + 1..];
  }

  /** The same, behind what has been filtered so far. */
  lemma FilterOnto(fields: seq<FieldState>, i: nat, p: FieldState -> bool, r: seq<FieldState>)
    requires i < |fields|
    ensures r + Filter(fields[i..], p) == (if p(fields[i]) then r + [fields[i]] else r) + Filter(fields[i + 1..], p)
  {
    FilterFrom(fields, i, p);
  }

  lemma FilterAll(fields: seq<FieldState>, p: FieldState -> bool)
    ensures Filter(fields[0..], p) == Filter(fields, p) && Filter(fields[|fields|..], p) == []
  {
    assert fields[0..] == fields;
  }

  method FieldsNotIn(these: seq<FieldState>, those: seq<FieldState>) returns (r: seq<FieldState>)
    ensures r == Filter(these, NotIn(those))
  {
    FilterAll(these, NotIn(those));
    r := [];
    for i := 0 to |these|
      invariant r + Filter(these[i..], NotIn(those)) == Filter(these, NotIn(those))
    {
      FilterOnto(these, i, NotIn(those), r);
      var found := FieldByName(those, these[i].name);
      if found.None? { r := r + [these[i]]; }
    }
  }

  /** Finds and claims the first unclaimed added field of the type of f. */
  method ClaimFor(f: FieldState, added: seq<FieldState>, claimed: array<bool>) returns (g: Option<FieldState>)
    requires claimed.Length == |added|
    modifies claimed
    ensures var free := Matching.Unclaimed(added, old(claimed[..]));
            match Matching.FindFirst(free, TypeOf, TypeOf(f))
            case None => g == None && claimed[..] == old(claimed[..])
            case Some(h) =>
              g == Some(h) && Matching.Unclaimed(added, claimed[..]) == Matching.TakeFirst(free, TypeOf, TypeOf(f))
  {
    ghost var flags := claimed[..];
    var i := 0;
    while i < |added|
      invariant 0 <= i <= |added| && claimed[..] == flags
      invariant Matching.NoneFree(added, flags, TypeOf, TypeOf(f), i)
    {
      EqualIff(f, added[i]);
      if !claimed[i] && SameType(f, added[i]) {
        Matching.ClaimFirst(added, flags, TypeOf, TypeOf(f), i);
        claimed[i] := true;
        assert claimed[..] == flags[i := true];
        return Some(added[i]);
      }
      i := i + 1;
    }
    Matching.ClaimNone(added, flags, TypeOf, TypeOf(f));
    g := None;
  }

  lemma FitFrom(was: seq<FieldState>, r: nat, now: seq<FieldState>, free: seq<FieldState>)
    requires r < |was|
    ensures PairsFrom(was, r, now, free) ==
            var f := was[r];
            if HasField(now, f.name) then PairsFrom(was, r + 1, now, free)
            else match Matching.FindFirst(free, TypeOf, TypeOf(f))
              case None => PairsFrom(was, r + 1, now, free)
              case Some(g) => [(f, g)] + PairsFrom(was, r + 1, now, Matching.TakeFirst(free, TypeOf, TypeOf(f)))
  {
    FilterFrom(was, r, NotIn(now));
    var rest := Filter(was[r + 1..], NotIn(now));
    assert ([was[r]] + rest)[1..] == rest;
  }

  lemma ReportSnoc(model: string, pairs: seq<(FieldState, FieldState)>, f: FieldState, g: FieldState)
    ensures Report(model, pairs + [(f, g)]) == Report(model, pairs) + [PotentialRename(model, f.name, g.name)]
  {
  }

  /** The pairs found from the r-th old field on, with the given fields unclaimed. */
  function PairsFrom(was: seq<FieldState>, r: nat, now: seq<FieldState>,
                     free: seq<FieldState>): seq<(FieldState, FieldState)>
    requires r <= |was|
  {
    Matching.FirstFit(Filter(was[r..], NotIn(now)), free, TypeOf)
  }

  lemma AppendPair(pairs: seq<(FieldState, FieldState)>, f: FieldState, g: FieldState,
                   rest: seq<(FieldState, FieldState)>)
    ensures pairs + [(f, g)] + rest == pairs + ([(f, g)] + rest)
  {
  }

  /** One turn of the loop over the old fields. */
  lemma PairStep(was: seq<FieldState>, r: nat, now: seq<FieldState>, free: seq<FieldState>,
                 pairs: seq<(FieldState, FieldState)>)
    requires r < |was|
    ensures pairs + PairsFrom(was, r, now, free) ==
            var f := was[r];
            if HasField(now, f.name) then pairs + PairsFrom(was, r + 1, now, free)
            else match Matching.FindFirst(free, TypeOf, TypeOf(f))
              case None => pairs + PairsFrom(was, r + 1, now, free)
              case Some(g) => pairs + [(f, g)] + PairsFrom(was, r + 1, now, Matching.TakeFirst(free, TypeOf, TypeOf(f)))
  {
    FitFrom(was, r, now, free);
    var f := was[r];
    match Matching.FindFirst(free, TypeOf, TypeOf(f))
    case None =>
    case Some(g) => AppendPair(pairs, f, g, PairsFrom(was, r + 1, now, Matching.TakeFirst(free, TypeOf, TypeOf(f))));
  }

  /** What the loop has found in front of the r-th old field. */
  ghost predicate DetectedUpTo(model: string, was: seq<FieldState>, now: seq<FieldState>, r: nat, free: seq<FieldState>,
                               pairs: seq<(FieldState, FieldState)>, out: seq<PotentialRename>) {
    r <= |was| && out == Report(model, pairs) && pairs + PairsFrom(was, r, now, free) == ModelPairs(was, now)
  }

  lemma DetectSkip(model: string, was: seq<FieldState>, now: seq<FieldState>, r: nat, free: seq<FieldState>,
                   pairs: seq<(FieldState, FieldState)>, out: seq<PotentialRename>)
    requires DetectedUpTo(model, was, now, r, free, pairs, out) && r < |was|
    requires HasField(now, was[r].name) || Matching.FindFirst(free, TypeOf, TypeOf(was[r])) == Matching.None
    ensures DetectedUpTo(model, was, now, r + 1, free, pairs, out)
  {
    PairStep(was, r, now, free, pairs);
  }

  lemma DetectClaim(model: string, was: seq<FieldState>, now: seq<FieldState>, r: nat, free: seq<FieldState>,
                    pairs: seq<(FieldState, FieldState)>, out: seq<PotentialRename>, g: FieldState)
    requires DetectedUpTo(model, was, now, r, free, pairs, out) && r < |was|
    requires !HasField(now, was[r].name) && Matching.FindFirst(free, TypeOf, TypeOf(was[r])) == Matching.Some(g)
    ensures DetectedUpTo(model, was, now, r + 1, Matching.TakeFirst(free, TypeOf, TypeOf(was[r])),
                         pairs + [(was[r], g)],
                         out + [PotentialRename(model, was[r].name, g.name)])
  {
    PairStep(was, r, now, free, pairs);
    ReportSnoc(model, pairs, was[r], g);
  }

  lemma DetectedStart(model: string, was: seq<FieldState>, now: seq<FieldState>)
    ensures DetectedUpTo(model, was, now, 0, AddedFields(was, now), [], [])
  {
    PairsAtEnds(was, now, []);
    assert [] + PairsFrom(was, 0, now, AddedFields(was, now)) == PairsFrom(was, 0, now, AddedFields(was, now));
  }

  lemma DetectedEnd(model: string, was: seq<FieldState>, now: seq<FieldState>, free: seq<FieldState>,
                    pairs: seq<(FieldState, FieldState)>, out: seq<PotentialRename>)
    requires DetectedUpTo(model, was, now, |was|, free, pairs, out)
    ensures out == Report(model, ModelPairs(was, now))
  {
    PairsAtEnds(was, now, free);
    assert pairs + [] == pairs;
  }

  method DetectInModel(model: string, was: seq<FieldState>, now: seq<FieldState>) returns (out: seq<PotentialRename>)
    ensures out == Report(model, ModelPairs(was, now))
  {
    var added := FieldsNotIn(now, was);
    var claimed := new bool[|added|](_ => false);
    Matching.NoneClaimed(added, claimed[..]);
    ghost var free := added;
    ghost var pairs: seq<(FieldState, FieldState)> := [];
    out := [];
    DetectedStart(model, was, now);
    for r := 0 to |was|
      invariant free == Matching.Unclaimed(added, claimed[..])
      invariant DetectedUpTo(model, was, now, r, free, pairs, out)
    {
      var f := was[r];
      var kept := FieldByName(now, f.name);
      if kept.None? {
        var g := ClaimFor(f, added, claimed);
        if g.Some? {
          DetectClaim(model, was, now, r, free, pairs, out, g.value);
          free := Matching.TakeFirst(free, TypeOf, TypeOf(f));
          out := out + [PotentialRename(model, f.name, g.value.name)];
          pairs := pairs + [(f, g.value)];
        } else {
          DetectSkip(model, was, now, r, free, pairs, out);
        }
      } else {
        DetectSkip(model, was, now, r, free, pairs, out);
      }
    }
    DetectedEnd(model, was, now, free, pairs, out);
  }

  lemma PairsAtEnds(was: seq<FieldState>, now: seq<FieldState>, free: seq<FieldState>)
    ensures PairsFrom(was, |was|, now, free) == []
    ensures PairsFrom(was, 0, now, AddedFields(was, now)) == ModelPairs(was, now)
  {
    FilterAll(was, NotIn(now));
  }

  lemma RenamesOnto(names: seq<string>, i: nat, was: State, now: State, out: seq<PotentialRename>)
    requires i < |names| && forall n :: n in names ==> n in now.models
    ensures out + AllRenames(names[i..], was, now) ==
            (if names[i] in was.models
             then out + Report(names[i], ModelPairs(was.models[names[i]].fields, now.models[names[i]].fields))
             else out) + AllRenames(names[i + 1..], was, now)
  {
    assert names[i..][0] == names[i] && names[i..][1..] == names[i + 1..];
    var found := if names[i] in was.models
                 then Report(names[i], ModelPairs(was.models[names[i]].fields, now.models[names[i]].fields)) else [];
    assert out + [] == out;
    AppendRenames(out, found, AllRenames(names[i + 1..], was, now));
  }

  lemma AppendRenames(out: seq<PotentialRename>, found: seq<PotentialRename>, rest: seq<PotentialRename>)
    ensures out + (found + rest) == (out + found) + rest
  {
  }

  method DetectPotentialRenames(was: State, now: State) returns (out: seq<PotentialRename>)
    requires forall n :: n in now.order ==> n in now.models
    ensures out == AllRenames(now.order, was, now)
  {
    out := [];
    for i := 0 to |now.order|
      invariant out + AllRenames(now.order[i..], was, now) == AllRenames(now.order, was, now)
    {
      var name := now.order[i];
      RenamesOnto(now.order, i, was, now, out);
      if name in was.models {
        var found := DetectInModel(name, was.models[name].fields, now.models[name].fields);
        out := out + found;
      }
    }
  }

  // ----- Diff -----

  method FieldsDiffering(was: seq<FieldState>, now: seq<FieldState>) returns (r: seq<FieldState>)
    ensures r == AlteredFields(was, now)
  {
    FilterAll(now, DiffersFrom(was));
    r := [];
    for i := 0 to |now|
      invariant r + Filter(now[i..], DiffersFrom(was)) == AlteredFields(was, now)
    {
      FilterOnto(now, i, DiffersFrom(was), r);
      var found := FieldByName(was, now[i].name);
      if found.Some? {
        EqualIff(found.value, now[i]);
        if !Equal(found.value, now[i]) { r := r + [now[i]]; }
      }
    }
  }

  method CollectAdds(model: string, added: seq<FieldState>) returns (ops: seq<Operation>)
    ensures ops == AddOps(model, added)
  {
    ops := [];
    for i := 0 to |added|
      invariant |ops| == i && forall k :: 0 <= k < i ==> ops[k] == AddField(model, added[k])
    {
      ops := ops + [AddField(model, added[i])];
    }
  }

  method CollectAlters(model: string, altered: seq<FieldState>) returns (ops: seq<Operation>)
    ensures ops == AlterOps(model, altered)
  {
    ops := [];
    for i := 0 to |altered|
      invariant |ops| == i && forall k :: 0 <= k < i ==> ops[k] == AlterField(model, altered[k])
    {
      ops := ops + [AlterField(model, altered[i])];
    }
  }

  method CollectRemoves(model: string, removed: seq<FieldState>) returns (ops: seq<Operation>)
    ensures ops == RemoveOps(model, removed)
  {
    ops := [];
    for i := 0 to |removed|
      invariant |ops| == i && forall k :: 0 <= k < i ==> ops[k] == RemoveField(model, removed[k].name)
    {
      ops := ops + [RemoveField(model, removed[i].name)];
    }
  }

  method DiffFields(model: string, was: seq<FieldState>, now: seq<FieldState>) returns (ops: seq<Operation>)
    ensures ops == FieldOps(model, was, now)
  {
    var added := FieldsNotIn(now, was);
    var adds := CollectAdds(model, added);
    var altered := FieldsDiffering(was, now);
    var alters := CollectAlters(model, altered);
    var removed := FieldsNotIn(was, now);
    var removes := CollectRemoves(model, removed);
    ops := adds + (alters + removes);
  }

  lemma CreatedOnto(names: seq<string>, i: nat, was: State, now: State, ops: seq<Operation>)
    requires i < |names| && forall n :: n in names ==> n in now.models
    ensures ops + CreatedOps(names[i..], was, now) ==
            (if names[i] in was.models then ops
             else ops + [CreateModel(names[i], now.models[names[i]].table, now.models[names[i]].fields)])
            + CreatedOps(names[i + 1..], was, now)
  {
    CreatedFrom(names, i, was, now);
  }

  function ModelOps(name: string, was: State, now: State): seq<Operation>
    requires name in now.models
  {
    if name in was.models then FieldOps(name, was.models[name].fields, now.models[name].fields) else []
  }

  lemma ChangedOnto(names: seq<string>, i: nat, was: State, now: State, ops: seq<Operation>)
    requires i < |names| && forall n :: n in names ==> n in now.models
    ensures ops + ChangedOps(names[i..], was, now)
            == (ops + ModelOps(names[i], was, now)) + ChangedOps(names[i + 1..], was, now)
  {
    assert names[i..][1..] == names[i + 1..];
    var own, rest := ModelOps(names[i], was, now), ChangedOps(names[i + 1..], was, now);
    assert ChangedOps(names[i..], was, now) == own + rest;
    AppendOps(ops, own, rest);
  }

  lemma AppendOps(a: seq<Operation>, b: seq<Operation>, c: seq<Operation>)
    ensures a + (b + c) == (a + b) + c
  {
  }

  lemma DeletedOnto(names: seq<string>, i: nat, now: State, ops: seq<Operation>)
    requires i < |names|
    ensures ops + DeletedOps(names[i..], now) ==
            (if names[i] in now.models then ops else ops + [DeleteModel(names[i])]) + DeletedOps(names[i + 1..], now)
  {
    assert names[i..][1..] == names[i + 1..];
  }

  lemma CreatedFrom(names: seq<string>, i: nat, was: State, now: State)
    requires i < |names| && forall n :: n in names ==> n in now.models
    ensures var rest := CreatedOps(names[i + 1..], was, now);
            CreatedOps(names[i..], was, now) ==
            if names[i] in was.models then rest
            else [CreateModel(names[i], now.models[names[i]].table, now.models[names[i]].fields)] + rest
  {
    assert names[i..][1..] == names[i + 1..];
  }

  method DiffCreated(was: State, now: State) returns (ops: seq<Operation>)
    requires forall n :: n in now.order ==> n in now.models
    ensures ops == CreatedOps(now.order, was, now)
  {
    ops := [];
    for i := 0 to |now.order|
      invariant ops + CreatedOps(now.order[i..], was, now) == CreatedOps(now.order, was, now)
    {
      var name := now.order[i];
      CreatedOnto(now.order, i, was, now, ops);
      if name !in was.models {
        ops := ops + [CreateModel(name, now.models[name].table, now.models[name].fields)];
      }
    }
  }

  method DiffChanged(was: State, now: State) returns (ops: seq<Operation>)
    requires forall n :: n in now.order ==> n in now.models
    ensures ops == ChangedOps(now.order, was, now)
  {
    ops := [];
    for i := 0 to |now.order|
      invariant ops + ChangedOps(now.order[i..], was, now) == ChangedOps(now.order, was, now)
    {
      var name := now.order[i];
      ChangedOnto(now.order, i, was, now, ops);
      var changes := [];
      if name in was.models {
        changes := DiffFields(name, was.models[name].fields, now.models[name].fields);
      }
      assert changes == ModelOps(name, was, now);
      ops := ops + changes;
    }
  }

  method DiffDeleted(was: State, now: State) returns (ops: seq<Operation>)
    ensures ops == DeletedOps(was.order, now)
  {
    ops := [];
    for i := 0 to |was.order|
      invariant ops + DeletedOps(was.order[i..], now) == DeletedOps(was.order, now)
    {
      var name := was.order[i];
      DeletedOnto(was.order, i, now, ops);
      if name !in now.models { ops := ops + [DeleteModel(name)]; }
    }
  }

  method DiffStates(was: State, now: State) returns (ops: seq<Operation>)
    requires forall n :: n in now.order ==> n in now.models
    ensures ops == Diff(was, now)
  {
    var created := DiffCreated(was, now);
    var changed := DiffChanged(was, now);
    var deleted := DiffDeleted(was, now);
    ops := created + (changed + deleted);
  }
}
