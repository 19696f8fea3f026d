/** The registry of lifecycle handlers (orm/signals.go): registering, cancelling and
    firing, with handlers that themselves register and cancel. */
module Signals {
  import opened GoSlices

  datatype Option<+T> = None | Some(value: T)

  /** A model type and the moment subscribed to. */
  datatype Key = Key(model: string, kind: Kind)

  datatype Kind = PreSave | PostSave | PreDelete | PostDelete

  datatype Entry<+H> = Entry(id: nat, fn: H)

  // ----- The registry as a value -----

  datatype State<+H> = State(next: nat, handlers: map<Key, seq<Entry<H>>>)

  function At<H>(s: State<H>, key: Key): seq<Entry<H>> {
    if key in s.handlers then s.handlers[key] else []
  }

  function Registered<H>(s: State<H>, key: Key, fn: H): State<H> {
    State(s.next + 1, s.handlers[key := At(s, key) + [Entry(s.next + 1, fn)]])
  }

  function Without<H>(entries: seq<Entry<H>>, id: nat): seq<Entry<H>> {
    if entries == [] then []
    else if entries[0].id == id then entries[1..]
    else [entries[0]] + Without(entries[1..], id)
  }

  function Removed<H>(s: State<H>, key: Key, id: nat): State<H> {
    if key in s.handlers then s.(handlers := s.handlers[key := Without(s.handlers[key], id)]) else s
  }

  lemma {:induction false} WithoutAt<H>(entries: seq<Entry<H>>, i: nat, id: nat)
    requires i <= |entries| && forall j :: 0 <= j < i ==> entries[j].id != id
    requires i < |entries| ==> entries[i].id == id
    ensures Without(entries, id) == entries[..i] + if i < |entries| then entries[i + 1..] else []
  {
    if i > 0 {
      WithoutAt(entries[1..], i - 1, id);
    }
  }

  lemma {:induction false} WithoutSnoc<H>(entries: seq<Entry<H>>, e: Entry<H>, id: nat)
    ensures e.id != id ==> Without(entries + [e], id) == Without(entries, id) + [e]
    ensures (forall x :: x in entries ==> x.id != id) ==>
      Without(entries, id) == entries && (e.id == id ==> Without(entries + [e], id) == entries)
  {
    if entries == [] {
      assert [e][1..] == [];
    } else {
      assert (entries + [e])[0] == entries[0] && (entries + [e])[1..] == entries[1..] + [e];
      WithoutSnoc(entries[1..], e, id);
      assert entries[0] in entries;
    }
  }

  lemma RemovedNothing<H>(s: State<H>, key: Key, id: nat)
    requires key in s.handlers && Without(s.handlers[key], id) == s.handlers[key]
    ensures Removed(s, key, id) == s
  {
  }

  ghost predicate Increasing<H>(entries: seq<Entry<H>>) {
    forall i, j :: 0 <= i < j < |entries| ==> entries[i].id < entries[j].id
  }

  // ----- Runs -----

  datatype Registration<+H> = Registration(key: Key, fn: H)

  /** Cancel calls the function that the reg-th registration, counted from 0, returned. */
  datatype Event<+H> = Register(key: Key, fn: H) | Cancel(reg: nat)

  /** The registrations of a run, in order. */
  function Registrations<H>(events: seq<Event<H>>): (r: seq<Registration<H>>) {
    if events == [] then []
    else
      var last := events[|events| - 1];
      Registrations(events[..|events| - 1]) + if last.Register? then [Registration(last.key, last.fn)] else []
  }

  /** The registrations whose cancel function the run calls. */
  function Cancelled<H>(events: seq<Event<H>>): set<nat> {
    if events == [] then {}
    else
      var last := events[|events| - 1];
      Cancelled(events[..|events| - 1]) + if last.Cancel? then {last.reg} else {}
  }

  /** Only cancel functions that have been handed out are called. */
  predicate Causal<H>(events: seq<Event<H>>) {
    events != [] ==>
    && Causal(events[..|events| - 1])
    && (events[|events| - 1].Cancel? ==> events[|events| - 1].reg < |Registrations(events[..|events| - 1])|)
  }

  function Step<H>(s: State<H>, regs: seq<Registration<H>>, e: Event<H>): State<H>
    requires e.Cancel? ==> e.reg < |regs|
  {
    match e
    case Register(key, fn) => Registered(s, key, fn)
    case Cancel(reg) => Removed(s, regs[reg].key, reg + 1)
  }

  function After<H>(events: seq<Event<H>>): State<H>
    requires Causal(events)
  {
    if events == [] then State(0, map[])
    else
      var front := events[..|events| - 1];
      Step(After(front), Registrations(front), events[|events| - 1])
  }

  function Own<H>(r: Registration<H>, n: nat, cancelled: set<nat>, key: Key): seq<Entry<H>> {
    if r.key == key && n !in cancelled then [Entry(n + 1, r.fn)] else []
  }

  /** The registrations for the key that are not among the cancelled. */
  function Live<H>(regs: seq<Registration<H>>, cancelled: set<nat>, key: Key): seq<Entry<H>> {
    if regs == [] then []
    else
      var n := |regs| - 1;
      Live(regs[..n], cancelled, key) + Own(regs[n], n, cancelled, key)
  }

  lemma {:induction false} LiveIds<H>(regs: seq<Registration<H>>, cancelled: set<nat>, key: Key)
    ensures forall e :: e in Live(regs, cancelled, key) ==> 1 <= e.id <= |regs|
    ensures Increasing(Live(regs, cancelled, key))
  {
    if regs != [] {
      LiveIds(regs[..|regs| - 1], cancelled, key);
    }
  }

  lemma {:induction false} CancelledAreRegistered<H>(events: seq<Event<H>>)
    requires Causal(events)
    ensures forall reg :: reg in Cancelled(events) ==> reg < |Registrations(events)|
  {
    if events != [] {
      CancelledAreRegistered(events[..|events| - 1]);
    }
  }

  lemma LiveRegister<H>(regs: seq<Registration<H>>, cancelled: set<nat>, r: Registration<H>, key: Key)
    requires |regs| !in cancelled
    ensures Live(regs + [r], cancelled, key)
            == Live(regs, cancelled, key) + if r.key == key then [Entry(|regs| + 1, r.fn)] else []
  {
    assert (regs + [r])[..|regs|] == regs;
  }

  /** What cancelling one registration makes of a live list. */
  function CancelOne<H>(live: seq<Entry<H>>, regs: seq<Registration<H>>, reg: nat, key: Key): seq<Entry<H>> {
    if reg < |regs| && regs[reg].key == key then Without(live, reg + 1) else live
  }

  lemma {:induction false} LiveCancel<H>(regs: seq<Registration<H>>, cancelled: set<nat>, reg: nat, key: Key)
    ensures Live(regs, cancelled + {reg}, key) == CancelOne(Live(regs, cancelled, key), regs, reg, key)
  {
    if regs != [] {
      var n := |regs| - 1;
      LiveCancel(regs[..n], cancelled, reg, key);
      LiveIds(regs[..n], cancelled, key);
      if reg == n {
        CancelLast(regs, cancelled, key);
      } else {
        CancelEarlier(regs, cancelled, reg, key);
      }
    }
  }

  lemma CancelLast<H>(regs: seq<Registration<H>>, cancelled: set<nat>, key: Key)
    requires regs != []
    requires var n := |regs| - 1; Live(regs[..n], cancelled + {n}, key) == Live(regs[..n], cancelled, key)
    requires forall e :: e in Live(regs[..|regs| - 1], cancelled, key) ==> e.id < |regs|
    ensures Live(regs, cancelled + {|regs| - 1}, key) == CancelOne(Live(regs, cancelled, key), regs, |regs| - 1, key)
  {
    var n := |regs| - 1;
    var live := Live(regs[..n], cancelled, key);
    WithoutSnoc(live, Entry(n + 1, regs[n].fn), n + 1);
    assert Own(regs[n], n, cancelled + {n}, key) == [] && live + [] == live;
  }

  lemma CancelEarlier<H>(regs: seq<Registration<H>>, cancelled: set<nat>, reg: nat, key: Key)
    requires regs != [] && reg != |regs| - 1
    requires var front := regs[..|regs| - 1];
      Live(front, cancelled + {reg}, key) == CancelOne(Live(front, cancelled, key), front, reg, key)
    ensures Live(regs, cancelled + {reg}, key) == CancelOne(Live(regs, cancelled, key), regs, reg, key)
  {
    var n := |regs| - 1;
    var own := Own(regs[n], n, cancelled, key);
    assert Own(regs[n], n, cancelled + {reg}, key) == own;
    WithoutAppend(Live(regs[..n], cancelled, key), own, reg + 1);
  }

  lemma WithoutAppend<H>(entries: seq<Entry<H>>, more: seq<Entry<H>>, id: nat)
    requires |more| <= 1 && forall e :: e in more ==> e.id != id
    ensures Without(entries + more, id) == Without(entries, id) + more
  {
    if more == [] {
      assert entries + more == entries;
    } else {
      assert more[0] in more && more == [more[0]];
      WithoutSnoc(entries, more[0], id);
    }
  }

  /** What the handlers of a key are after any run: exactly the registrations for it
      that were never cancelled, in registration order. So a cancel removes its own
      registration and nothing else, and calling it again changes nothing. */
  lemma {:induction false} HandlersAreLive<H>(events: seq<Event<H>>, key: Key)
    requires Causal(events)
    ensures After(events).next == |Registrations(events)|
    ensures At(After(events), key) == Live(Registrations(events), Cancelled(events), key)
  {
    if events != [] {
      var front, last := events[..|events| - 1], events[|events| - 1];
      var s, regs, cancelled := After(front), Registrations(front), Cancelled(front);
      HandlersAreLive(front, key);
      CancelledAreRegistered(front);
      StepIsLive(s, regs, cancelled, last, key);
      assert After(events) == Step(s, regs, last);
      match last {
        case Register(k, fn) => assert Cancelled(events) == cancelled;
        case Cancel(reg) => assert Registrations(events) == regs;
      }
    }
  }

  lemma RegisterIsLive<H>(s: State<H>, regs: seq<Registration<H>>, cancelled: set<nat>, k: Key, fn: H, key: Key)
    requires s.next == |regs| && At(s, key) == Live(regs, cancelled, key) && |regs| !in cancelled
    ensures At(Registered(s, k, fn), key) == Live(regs + [Registration(k, fn)], cancelled, key)
  {
    LiveRegister(regs, cancelled, Registration(k, fn), key);
    assert At(s, key) + [] == At(s, key);
  }

  lemma CancelIsLive<H>(s: State<H>, regs: seq<Registration<H>>, cancelled: set<nat>, reg: nat, key: Key)
    requires At(s, key) == Live(regs, cancelled, key) && reg < |regs|
    ensures At(Removed(s, regs[reg].key, reg + 1), key) == Live(regs, cancelled + {reg}, key)
  {
    LiveCancel(regs, cancelled, reg, key);
  }

  lemma StepIsLive<H>(s: State<H>, regs: seq<Registration<H>>, cancelled: set<nat>, e: Event<H>, key: Key)
    requires s.next == |regs| && At(s, key) == Live(regs, cancelled, key)
    requires |regs| !in cancelled && (e.Cancel? ==> e.reg < |regs|)
    ensures e.Register? ==> At(Step(s, regs, e), key) == Live(regs + [Registration(e.key, e.fn)], cancelled, key)
    ensures e.Cancel? ==> At(Step(s, regs, e), key) == Live(regs, cancelled + {e.reg}, key)
  {
    match e
    case Register(k, fn) => RegisterIsLive(s, regs, cancelled, k, fn, key);
    case Cancel(reg) => CancelIsLive(s, regs, cancelled, reg, key);
  }

  /** Every handler list is strictly increasing in id. */
  lemma HandlersIncrease<H>(events: seq<Event<H>>, key: Key)
    requires Causal(events)
    ensures Increasing(At(After(events), key))
  {
    HandlersAreLive(events, key);
    LiveIds(Registrations(events), Cancelled(events), key);
  }

  // ----- What a handler does while it runs -----

  datatype Action<+H> = Add(key: Key, fn: H) | Drop(key: Key, id: nat)

  function Act<H>(s: State<H>, a: Action<H>): State<H> {
    match a
    case Add(key, fn) => Registered(s, key, fn)
    case Drop(key, id) => Removed(s, key, id)
  }

  function ActAll<H>(s: State<H>, actions: seq<Action<H>>): State<H> {
    if actions == [] then s else Act(ActAll(s, actions[..|actions| - 1]), actions[|actions| - 1])
  }

  /** One call of a handler: what it did to the registry and how it ended. */
  datatype Call<+H> = Call(entry: Entry<H>, does: seq<Action<H>>, err: Option<string>)

  function CallAll<H>(s: State<H>, calls: seq<Call<H>>): State<H> {
    if calls == [] then s else ActAll(CallAll(s, calls[..|calls| - 1]), calls[|calls| - 1].does)
  }

  /** The calls run the entries in order and stop at the first error, which is the result. */
  ghost predicate FiresInOrder<H>(entries: seq<Entry<H>>, calls: seq<Call<H>>, err: Option<string>) {
    && |calls| <= |entries|
    && (forall i :: 0 <= i < |calls| ==> calls[i].entry == entries[i])
    && (forall i :: 0 <= i < |calls| - 1 ==> calls[i].err.None?)
    && (err.None? ==> |calls| == |entries| && (calls != [] ==> calls[|calls| - 1].err.None?))
    && (err.Some? ==> calls != [] && calls[|calls| - 1].err == err)
  }

  /** The calls run the first entries, none with an error, and lead from one state to
      the other. */
  ghost predicate FiredUpTo<H>(entries: seq<Entry<H>>, calls: seq<Call<H>>, was: State<H>, now: State<H>) {
    && |calls| <= |entries| && now == CallAll(was, calls)
    && forall i :: 0 <= i < |calls| ==> calls[i].entry == entries[i] && calls[i].err.None?
  }

  lemma FiresStep<H>(entries: seq<Entry<H>>, calls: seq<Call<H>>, was: State<H>, before: State<H>, call: Call<H>,
                     now: State<H>)
    requires |calls| < |entries| && FiredUpTo(entries, calls, was, before)
    requires call.entry == entries[|calls|] && now == ActAll(before, call.does)
    ensures now == CallAll(was, calls + [call])
    ensures call.err.None? ==> FiredUpTo(entries, calls + [call], was, now)
    ensures call.err.Some? ==> FiresInOrder(entries, calls + [call], call.err)
  {
    assert (calls + [call])[..|calls|] == calls;
  }

  // ----- The registry -----

  class Registry<H> {
    var nextID: nat
    var handlers: map<Key, GoSlice<Entry<H>>>
    ghost var state: State<H>
    ghost var arrays: set<object>

    /** The slices show the state, and every key has a backing array of its own. */
    ghost predicate Valid()
      reads this, arrays
    {
      && nextID == state.next && handlers.Keys == state.handlers.Keys
      && (forall k :: k in handlers ==>
            handlers[k].data in arrays && handlers[k].Valid() && handlers[k].View() == state.handlers[k])
      && (forall k, l :: k in handlers && l in handlers && k != l ==> handlers[k].data != handlers[l].data)
    }

    /** Valid, but for what the slice of one key shows. */
    ghost predicate ValidBut(key: Key)
      reads this, arrays
    {
      && nextID == state.next && handlers.Keys == state.handlers.Keys
      && (forall k :: k in handlers && k != key ==>
            handlers[k].data in arrays && handlers[k].Valid() && handlers[k].View() == state.handlers[k])
      && (forall k, l :: k in handlers && l in handlers && k != l ==> handlers[k].data != handlers[l].data)
    }

    method Put(key: Key, entries: GoSlice<Entry<H>>)
      requires ValidBut(key) && entries.Valid()
      requires forall k :: k in handlers && k != key ==> handlers[k].data != entries.data
      modifies this`handlers, this`state, this`arrays
      ensures Valid() && arrays == old(arrays) + {entries.data} && key in handlers && handlers[key] == entries
      ensures state == old(state).(handlers := old(state).handlers[key := entries.View()])
    {
      handlers, arrays := handlers[key := entries], arrays + {entries.data};
      state := state.(handlers := state.handlers[key := entries.View()]);
    }

    constructor ()
      ensures Valid() && state == State(0, map[]) && arrays == {}
    {
      nextID, handlers, state, arrays := 0, map[], State(0, map[]), {};
    }

    /** append to the front of the slice of a key, overwriting nothing it shows. */
    method AppendTo(key: Key, front: GoSlice<Entry<H>>, more: seq<Entry<H>>)
      requires Valid() && key in handlers && front.Valid() && front.data == handlers[key].data
      requires front.len + |more| <= front.cap ==> front.len == handlers[key].len || more == []
      modifies this`handlers, this`state, this`arrays, handlers[key].data
      ensures Valid() && fresh(arrays - old(arrays))
      ensures state == old(state).(handlers := old(state).handlers[key := old(front.View()) + more])
    {
      var r := Append(front, more);
      Put(key, r);
    }

    /** append to the slice of a key, or to nil for a key without one. */
    method Extend(key: Key, more: seq<Entry<H>>)
      requires Valid()
      modifies this`handlers, this`state, this`arrays, arrays
      ensures Valid() && fresh(arrays - old(arrays))
      ensures state == old(state).(handlers := old(state).handlers[key := At(old(state), key) + more])
    {
      if key in handlers {
        AppendTo(key, handlers[key], more);
      } else {
        var empty := new Entry<H>[0];
        var r := Append(GoSlice(empty, 0, 0), more);
        Put(key, r);
      }
    }

    method Register(key: Key, fn: H) returns (id: nat)
      requires Valid()
      modifies this, arrays
      ensures Valid() && fresh(arrays - old(arrays))
      ensures id == old(state).next + 1 && state == Registered(old(state), key, fn)
    {
      nextID, state := nextID + 1, state.(next := state.next + 1);
      id := nextID;
      Extend(key, [Entry(id, fn)]);
    }

    method Remove(key: Key, id: nat)
      requires Valid()
      modifies this, arrays
      ensures Valid() && fresh(arrays - old(arrays))
      ensures state == Removed(old(state), key, id)
    {
      if key !in handlers { return; }
      var entries := handlers[key];
      var i := 0;
      while i < entries.len && entries.data[i].id != id
        invariant i <= entries.len && forall j :: 0 <= j < i ==> entries.data[j].id != id
      {
        i := i + 1;
      }
      WithoutAt(entries.View(), i, id);
      if i < entries.len {
        assert entries.View()[..i] == entries.data[..i] && entries.View()[i + 1..] == entries.data[i + 1..entries.len];
        AppendTo(key, GoSlice(entries.data, i, i), entries.data[i + 1..entries.len]);
      } else {
        RemovedNothing(state, key, id);
      }
    }

    method Snapshot(key: Key) returns (out: GoSlice<Entry<H>>)
      requires Valid()
      ensures out.Valid() && fresh(out.data) && out.View() == At(state, key)
    {
      if key !in handlers || handlers[key].len == 0 {
        var empty := new Entry<H>[0];
        out := GoSlice(empty, 0, 0);
      } else {
        out := CopyOf(handlers[key]);
      }
    }

    method Has(key: Key) returns (b: bool)
      requires Valid()
      ensures b <==> At(state, key) != []
    {
      b := key in handlers && handlers[key].len > 0;
    }

    /** A handler: registers and cancels whatever it likes, itself or in what it fires,
        and may fail. */
    method Invoke(entry: Entry<H>) returns (err: Option<string>, ghost call: Call<H>)
      requires Valid()
      modifies this, arrays
      ensures call.entry == entry && call.err == err && state == ActAll(old(state), call.does)
      ensures Valid() && fresh(arrays - old(arrays))
    {
      var does: seq<Action<H>> := *;
      err := *;
      for i := 0 to |does|
        invariant state == ActAll(old(state), does[..i])
        invariant Valid() && fresh(arrays - old(arrays))
      {
        match does[i] {
          case Add(key, fn) => var _ := Register(key, fn);
          case Drop(key, id) => Remove(key, id);
        }
        assert does[..i + 1][..i] == does[..i];
      }
      assert does[..|does|] == does;
      call := Call(entry, does, err);
    }

    /** Runs the handlers registered when firing starts, in registration order up to
        the first error, whatever they register or cancel meanwhile. */
    method Fire(key: Key) returns (err: Option<string>, ghost calls: seq<Call<H>>)
      requires Valid()
      modifies this, arrays
      ensures FiresInOrder(At(old(state), key), calls, err)
      ensures state == CallAll(old(state), calls)
      ensures Valid() && fresh(arrays - old(arrays))
    {
      ghost var was, all := state, At(state, key);
      var entries := Snapshot(key);
      calls, err := [], None;
      for i := 0 to entries.len
        invariant entries.View() == all && entries.data !in arrays
        invariant |calls| == i && err == None && FiredUpTo(all, calls, was, state)
        invariant Valid() && fresh(arrays - old(arrays))
      {
        ghost var call, before := *, state;
        assert entries.data[i] == all[i];
        err, call := Invoke(entries.data[i]);
        FiresStep(all, calls, was, before, call, state);
        calls := calls + [call];
        if err.Some? { return; }
      }
    }
  }

  // ----- Runs on a registry -----

  lemma {:induction false} CausalPrefix<H>(events: seq<Event<H>>, i: nat)
    requires Causal(events) && i <= |events|
    ensures Causal(events[..i])
  {
    if i == |events| {
      assert events[..i] == events;
    } else {
      CausalPrefix(events[..|events| - 1], i);
      assert events[..|events| - 1][..i] == events[..i];
    }
  }

  lemma AfterStep<H>(events: seq<Event<H>>, i: nat)
    requires Causal(events) && i < |events|
    ensures Causal(events[..i]) && Causal(events[..i + 1])
    ensures events[i].Cancel? ==> events[i].reg < |Registrations(events[..i])|
    ensures After(events[..i + 1]) == Step(After(events[..i]), Registrations(events[..i]), events[i])
    ensures Registrations(events[..i + 1])
            == Registrations(events[..i])
               + if events[i].Register? then [Registration(events[i].key, events[i].fn)] else []
    ensures After(events[..i]).next == |Registrations(events[..i])|
  {
    CausalPrefix(events, i);
    CausalPrefix(events, i + 1);
    assert events[..i + 1][..i] == events[..i] && events[..i + 1][i] == events[i];
    HandlersAreLive(events[..i], Key("", PreSave));
  }

  /** The cancel functions handed out: each remembers its key and id. */
  ghost predicate Remembers<H>(cancels: seq<(Key, nat)>, regs: seq<Registration<H>>) {
    |cancels| == |regs| && forall j :: 0 <= j < |cancels| ==> cancels[j] == (regs[j].key, j + 1)
  }

  method PlayOne<H>(registry: Registry<H>, cancels: seq<(Key, nat)>, e: Event<H>, ghost regs: seq<Registration<H>>)
    returns (more: seq<(Key, nat)>)
    requires registry.Valid() && registry.state.next == |regs| && Remembers(cancels, regs)
    requires e.Cancel? ==> e.reg < |regs|
    modifies registry, registry.arrays
    ensures registry.Valid() && fresh(registry.arrays - old(registry.arrays))
    ensures registry.state == Step(old(registry.state), regs, e)
    ensures Remembers(more, regs + if e.Register? then [Registration(e.key, e.fn)] else [])
  {
    more := cancels;
    match e {
      case Register(key, fn) =>
        var id := registry.Register(key, fn);
        more := more + [(key, id)];
      case Cancel(reg) =>
        registry.Remove(cancels[reg].0, cancels[reg].1);
    }
  }

  /** Plays a run on a registry. */
  method Play<H>(events: seq<Event<H>>) returns (registry: Registry<H>)
    requires Causal(events)
    ensures registry.Valid()
    ensures forall key :: At(registry.state, key) == Live(Registrations(events), Cancelled(events), key)
  {
    registry := new Registry<H>();
    var cancels: seq<(Key, nat)> := [];
    ghost var done := events[..0];
    for i := 0 to |events|
      invariant done == events[..i] && Causal(done)
      invariant registry.Valid() && fresh(registry) && fresh(registry.arrays)
      invariant registry.state == After(done) && Remembers(cancels, Registrations(done))
    {
      AfterStep(events, i);
      cancels := PlayOne(registry, cancels, events[i], Registrations(done));
      done := events[..i + 1];
    }
    assert done == events;
    forall key ensures At(registry.state, key) == Live(Registrations(events), Cancelled(events), key) {
      HandlersAreLive(events, key);
    }
  }
}
