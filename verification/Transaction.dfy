/** Nested Atomic blocks over depth-named savepoints (orm/transaction.go). */
module Transaction {
  import Decimal

  /** How a callback, or the Atomic call around it, ends. */
  datatype Outcome = Success | Failure | Panic

  /** Whether the statement that opens a block (BEGIN or SAVEPOINT), the one that
      closes it (COMMIT or RELEASE) and the one that undoes a nested one (ROLLBACK TO,
      whose error nobody sees) are refused by the database. */
  datatype Faults = Faults(open: bool, close: bool, undo: bool)

  /** What the callback of an Atomic block does: write, look at the data, run a nested
      block and go on in one of three ways according to how that block ended
      (swallowing, handling or passing on its error or panic), and finally return. A
      nested block is given the context its callback was handed, outward 0, or the one
      of the enclosing block so many further out. Every terminating callback is such a
      tree. */
  datatype Body<!T> =
    | Return(outcome: Outcome)
    | Write(f: T -> T, next: Body<T>)
    | Branch(cond: T -> bool, yes: Body<T>, no: Body<T>)
    | Nested(child: Body<T>, faults: Faults, outward: nat,
             onSuccess: Body<T>, onFailure: Body<T>, onPanic: Body<T>)

  datatype Savepoint<T> = Savepoint(name: string, snapshot: T)

  /** The transaction and savepoint depth bound to a Go context. */
  datatype Context = Context(inTx: bool, depth: nat)

  function SavepointName(depth: nat): string {
    "sp_" + Decimal.NatText(depth)
  }

  lemma SavepointNamesDiffer(d: nat, e: nat)
    requires d != e
    ensures SavepointName(d) != SavepointName(e)
  {
    if SavepointName(d) == SavepointName(e) {
      assert SavepointName(d)[3..] == Decimal.NatText(d);
      assert SavepointName(e)[3..] == Decimal.NatText(e);
      Decimal.NatTextInjective(d, e);
    }
  }

  // ----- What nested blocks should mean: a failed block never happened -----

  function Continue<T>(body: Body<T>, o: Outcome): (next: Body<T>)
    requires body.Nested?
    ensures next < body
  {
    match o
    case Success => body.onSuccess
    case Failure => body.onFailure
    case Panic => body.onPanic
  }

  /** Data and outcome after a callback that starts from data. */
  function BodyMeaning<T>(body: Body<T>, data: T): (r: (T, Outcome))
    decreases body, 0
  {
    match body
    case Return(o) => (data, o)
    case Write(f, next) => BodyMeaning(next, f(data))
    case Branch(cond, yes, no) => if cond(data) then BodyMeaning(yes, data) else BodyMeaning(no, data)
    case Nested(child, faults, _, _, _, _) =>
      var (data', o) := BlockMeaning(child, faults, data);
      BodyMeaning(Continue(body, o), data')
  }

  /** A block keeps its callback's data only when the callback succeeds and the
      block could be opened and closed; otherwise the data is what it was. */
  function BlockMeaning<T>(child: Body<T>, faults: Faults, data: T): (r: (T, Outcome))
    decreases child, 1
  {
    if faults.open then (data, Failure) else
    var (data', o) := BodyMeaning(child, data);
    if o != Success then (data, o)
    else if faults.close then (data, Failure)
    else (data', Success)
  }

  // ----- What the statements do -----

  /** Data and outcome after a callback, a refused ROLLBACK TO included. */
  function BodyResult<T>(body: Body<T>, data: T): (r: (T, Outcome))
    decreases body, 0
  {
    match body
    case Return(o) => (data, o)
    case Write(f, next) => BodyResult(next, f(data))
    case Branch(cond, yes, no) => if cond(data) then BodyResult(yes, data) else BodyResult(no, data)
    case Nested(child, faults, _, _, _, _) =>
      var (data', o) := BlockResult(child, faults, data);
      BodyResult(Continue(body, o), data')
  }

  function BlockResult<T>(child: Body<T>, faults: Faults, data: T): (r: (T, Outcome))
    decreases child, 1
  {
    if faults.open then (data, Failure) else
    var (data', o) := BodyResult(child, data);
    var o' := if o == Success && faults.close then Failure else o;
    (if o' == Success || faults.undo then data' else data, o')
  }

  /** What is to be undone was undone, or there was nothing to undo. */
  predicate Undone<T(==)>(child: Body<T>, faults: Faults, data: T) {
    faults.open || BlockResult(child, faults, data).1 == Success || !faults.undo || BodyResult(child, data).0 == data
  }

  /** A block whose callback has its meaning has its own meaning exactly when its
      rollback was accepted or its callback left the data as it was. */
  lemma BlockResultIff<T>(child: Body<T>, faults: Faults, data: T)
    requires BodyResult(child, data) == BodyMeaning(child, data)
    ensures BlockResult(child, faults, data).1 == BlockMeaning(child, faults, data).1
    ensures BlockResult(child, faults, data) == BlockMeaning(child, faults, data) <==> Undone(child, faults, data)
  {
  }

  /** The same of every block that runs in a callback. */
  predicate AllUndone<T(==)>(body: Body<T>, data: T)
    decreases body
  {
    match body
    case Return(_) => true
    case Write(f, next) => AllUndone(next, f(data))
    case Branch(cond, yes, no) => if cond(data) then AllUndone(yes, data) else AllUndone(no, data)
    case Nested(child, faults, _, _, _, _) =>
      var (data', o) := BlockResult(child, faults, data);
      (!faults.open ==> AllUndone(child, data)) && Undone(child, faults, data) && AllUndone(Continue(body, o), data')
  }

  /** Then the statements do what the blocks mean. */
  lemma {:induction false} ResultIsMeaning<T>(body: Body<T>, data: T)
    requires AllUndone(body, data)
    ensures BodyResult(body, data) == BodyMeaning(body, data)
    decreases body
  {
    match body
    case Return(_) =>
    case Write(f, next) => ResultIsMeaning(next, f(data));
    case Branch(cond, yes, no) =>
      if cond(data) { ResultIsMeaning(yes, data); } else { ResultIsMeaning(no, data); }
    case Nested(child, faults, _, _, _, _) =>
      if !faults.open {
        ResultIsMeaning(child, data);
        BlockResultIff(child, faults, data);
      }
      var (data', o) := BlockResult(child, faults, data);
      ResultIsMeaning(Continue(body, o), data');
  }

  /** No ROLLBACK TO anywhere in the callback is refused. */
  predicate RollbacksAccepted<T>(body: Body<T>) {
    match body
    case Return(_) => true
    case Write(_, next) => RollbacksAccepted(next)
    case Branch(_, yes, no) => RollbacksAccepted(yes) && RollbacksAccepted(no)
    case Nested(child, faults, _, yes, no, panic) =>
      !faults.undo && RollbacksAccepted(child) && RollbacksAccepted(yes) && RollbacksAccepted(no)
        && RollbacksAccepted(panic)
  }

  lemma {:induction false} AcceptedIsUndone<T>(body: Body<T>, data: T)
    requires RollbacksAccepted(body)
    ensures AllUndone(body, data)
    decreases body
  {
    match body
    case Return(_) =>
    case Write(f, next) => AcceptedIsUndone(next, f(data));
    case Branch(cond, yes, no) =>
      if cond(data) { AcceptedIsUndone(yes, data); } else { AcceptedIsUndone(no, data); }
    case Nested(child, faults, _, _, _, _) =>
      var (data', o) := BlockResult(child, faults, data);
      AcceptedIsUndone(child, data);
      AcceptedIsUndone(Continue(body, o), data');
  }

  /** A failed block whose ROLLBACK TO is refused: its write stays with the parent, which
      goes on and succeeds. */
  lemma RefusedRollbackKeepsWrite()
    ensures var child := Write((x: int) => x + 1, Return(Failure));
            var body := Nested(child, Faults(false, false, true), 0, Return(Success), Return(Success), Return(Success));
            BodyResult(body, 0) == (1, Success) && BodyMeaning(body, 0) == (0, Success)
  {
    var child := Write((x: int) => x + 1, Return(Failure));
    assert BodyResult(child, 0) == (1, Failure) && BodyMeaning(child, 0) == (1, Failure);
  }

  // ----- The savepoints left behind -----

  ghost predicate Deeper(name: string, depth: nat) {
    exists e: nat :: e > depth && name == SavepointName(e)
  }

  /** The savepoints a callback at the given depth leaves behind: for each nested block
      that was opened and then failed, in the order they ran, its own, with those of its
      own callback behind it when they could not be rolled back to. */
  function Stale<T>(body: Body<T>, depth: nat, data: T): (s: seq<Savepoint<T>>)
    ensures forall k :: 0 <= k < |s| ==> Deeper(s[k].name, depth)
    decreases body, 0
  {
    match body
    case Return(_) => []
    case Write(f, next) => Stale(next, depth, f(data))
    case Branch(cond, yes, no) => if cond(data) then Stale(yes, depth, data) else Stale(no, depth, data)
    case Nested(child, faults, _, _, _, _) =>
      var (data', o) := BlockResult(child, faults, data);
      LeftBehind(child, faults, depth + 1, data) + Stale(Continue(body, o), depth, data')
  }

  function LeftBehind<T>(child: Body<T>, faults: Faults, depth: nat, data: T): (s: seq<Savepoint<T>>)
    requires depth > 0
    ensures forall k :: 0 <= k < |s| ==> Deeper(s[k].name, depth - 1)
    decreases child, 1
  {
    if faults.open || BlockResult(child, faults, data).1 == Success then []
    else
      var inner := if faults.undo then Stale(child, depth, data) else [];
      assert forall k :: 0 <= k < |inner| ==> Deeper(inner[k].name, depth - 1);
      [Savepoint(SavepointName(depth), data)] + inner
  }

  // ----- The meaning as a plain composition of the surviving writes -----

  /** The writes of a callback none of whose enclosing blocks failed, in order. */
  function Surviving<T>(body: Body<T>, data: T): seq<T -> T>
    decreases body
  {
    match body
    case Return(_) => []
    case Write(f, next) => [f] + Surviving(next, f(data))
    case Branch(cond, yes, no) => if cond(data) then Surviving(yes, data) else Surviving(no, data)
    case Nested(child, faults, _, _, _, _) =>
      var (data', o) := BlockMeaning(child, faults, data);
      (if o == Success then Surviving(child, data) else []) + Surviving(Continue(body, o), data')
  }

  function Compose<T>(writes: seq<T -> T>, data: T): T {
    if writes == [] then data else Compose(writes[1..], writes[0](data))
  }

  lemma {:induction false} ComposeConcat<T>(a: seq<T -> T>, b: seq<T -> T>, data: T)
    ensures Compose(a + b, data) == Compose(b, Compose(a, data))
  {
    if a == [] {
      assert a + b == b;
    } else {
      assert (a + b)[1..] == a[1..] + b;
      ComposeConcat(a[1..], b, a[0](data));
    }
  }

  /** Nested blocks act on the data exactly as the composition of their surviving
      writes: failed blocks are no-ops, successful ones are spliced in place. */
  lemma {:induction false} MeaningIsComposition<T>(body: Body<T>, data: T)
    ensures BodyMeaning(body, data).0 == Compose(Surviving(body, data), data)
    decreases body
  {
    match body
    case Return(_) =>
    case Write(f, next) =>
      MeaningIsComposition(next, f(data));
      assert ([f] + Surviving(next, f(data)))[1..] == Surviving(next, f(data));
    case Branch(cond, yes, no) =>
      if cond(data) { MeaningIsComposition(yes, data); } else { MeaningIsComposition(no, data); }
    case Nested(child, faults, _, _, _, _) =>
      var (data', o) := BlockMeaning(child, faults, data);
      var inner := if o == Success then Surviving(child, data) else [];
      MeaningIsComposition(child, data);
      MeaningIsComposition(Continue(body, o), data');
      ComposeConcat(inner, Surviving(Continue(body, o), data'), data);
  }

  // ----- The savepoint stack of the database -----

  /** Index of the most recent savepoint with the given name, or -1. */
  function LastNamed<T>(s: seq<Savepoint<T>>, name: string): (i: int)
    ensures -1 <= i < |s|
    ensures i >= 0 ==> s[i].name == name
    ensures forall k :: i < k < |s| ==> s[k].name != name
  {
    if s == [] then -1
    else if s[|s| - 1].name == name then |s| - 1
    else LastNamed(s[..|s| - 1], name)
  }

  lemma LastNamedIs<T>(s: seq<Savepoint<T>>, i: nat, name: string)
    requires i < |s| && s[i].name == name
    requires forall k :: i < k < |s| ==> s[k].name != name
    ensures LastNamed(s, name) == i
  {
  }

  /** Below deeper savepoints a block finds its own. */
  lemma OwnSavepoint<T>(base: seq<Savepoint<T>>, depth: nat, data: T, stale: seq<Savepoint<T>>)
    requires forall k :: 0 <= k < |stale| ==> Deeper(stale[k].name, depth)
    ensures var s := base + [Savepoint(SavepointName(depth), data)] + stale;
            LastNamed(s, SavepointName(depth)) == |base|
  {
    var s := base + [Savepoint(SavepointName(depth), data)] + stale;
    forall k | |base| < k < |s| ensures s[k].name != SavepointName(depth) {
      assert s[k] == stale[k - |base| - 1];
      var e: nat :| e > depth && stale[k - |base| - 1].name == SavepointName(e);
      SavepointNamesDiffer(depth, e);
    }
    LastNamedIs(s, |base|, SavepointName(depth));
  }

  lemma BehindIs<T>(base: seq<Savepoint<T>>, child: Body<T>, faults: Faults, depth: nat, data: T)
    requires depth > 0 && !faults.open
    ensures base + LeftBehind(child, faults, depth, data) ==
            if BlockResult(child, faults, data).1 == Success then base
            else base + [Savepoint(SavepointName(depth), data)] + if faults.undo then Stale(child, depth, data) else []
  {
    assert base + [] == base;
  }

  // ----- Running on the stack, with whatever context a block is given -----

  datatype Session<T> = Session(data: T, savepoints: seq<Savepoint<T>>)

  function Last(scope: seq<nat>): nat
    requires scope != []
  {
    scope[|scope| - 1]
  }

  /** The savepoint depth of the context taken so far out; scope holds those of the
      enclosing blocks, outermost first. */
  function Picked(scope: seq<nat>, outward: nat): nat
    requires scope != []
  {
    if outward < |scope| then scope[|scope| - 1 - outward] else scope[0]
  }

  function SessionBody<T>(body: Body<T>, scope: seq<nat>, s: Session<T>): (Session<T>, Outcome)
    requires scope != []
    decreases body, 0
  {
    match body
    case Return(o) => (s, o)
    case Write(f, next) => SessionBody(next, scope, s.(data := f(s.data)))
    case Branch(cond, yes, no) => if cond(s.data) then SessionBody(yes, scope, s) else SessionBody(no, scope, s)
    case Nested(child, faults, outward, _, _, _) =>
      var (s', o) := SessionBlock(child, faults, scope + [Picked(scope, outward) + 1], s);
      SessionBody(Continue(body, o), scope, s')
  }

  /** A nested block, whose own depth is the last of its scope. */
  function SessionBlock<T>(child: Body<T>, faults: Faults, scope: seq<nat>, s: Session<T>): (Session<T>, Outcome)
    requires scope != []
    decreases child, 1
  {
    if faults.open then (s, Failure) else
    var name := SavepointName(Last(scope));
    var (s', ended) := SessionBody(child, scope, s.(savepoints := s.savepoints + [Savepoint(name, s.data)]));
    Closed(name, faults, s', ended)
  }

  /** RELEASE after success, ROLLBACK TO of what is not released. */
  function Closed<T>(name: string, faults: Faults, s: Session<T>, ended: Outcome): (Session<T>, Outcome) {
    var i := LastNamed(s.savepoints, name);
    if ended == Success && !faults.close && i >= 0 then (s.(savepoints := s.savepoints[..i]), Success)
    else
      (if faults.undo || i < 0 then s else Session(s.savepoints[i].snapshot, s.savepoints[..i + 1]),
       if ended == Success then Failure else ended)
  }

  /** Every nested block is given the context its callback was handed. */
  predicate Handed<T>(body: Body<T>) {
    match body
    case Return(_) => true
    case Write(_, next) => Handed(next)
    case Branch(_, yes, no) => Handed(yes) && Handed(no)
    case Nested(child, _, outward, yes, no, panic) =>
      outward == 0 && Handed(child) && Handed(yes) && Handed(no) && Handed(panic)
  }

  /** Then the savepoints found are a block's own: the callback has its result and leaves
      exactly the stale savepoints of its failed children. */
  lemma {:induction false} SessionIsResult<T>(body: Body<T>, scope: seq<nat>, s: Session<T>)
    requires scope != [] && Handed(body)
    ensures SessionBody(body, scope, s) == Expected(body, Last(scope), s)
    decreases body, 1
  {
    match body
    case Return(_) => assert s.savepoints + [] == s.savepoints;
    case Write(f, next) => SessionIsResult(next, scope, s.(data := f(s.data)));
    case Branch(cond, yes, no) =>
      if cond(s.data) { SessionIsResult(yes, scope, s); } else { SessionIsResult(no, scope, s); }
    case Nested(_, _, _, _, _, _) => SessionIsNested(body, scope, s);
  }

  lemma {:induction false} SessionIsNested<T>(body: Body<T>, scope: seq<nat>, s: Session<T>)
    requires scope != [] && Handed(body) && body.Nested?
    ensures SessionBody(body, scope, s) == Expected(body, Last(scope), s)
    decreases body, 0
  {
    var depth := Last(scope) + 1;
    assert Last(scope + [depth]) == depth;
    SessionIsBlockResult(body.child, body.faults, scope + [depth], s);
    var (s', o) := ExpectedBlock(body.child, body.faults, depth, s);
    SessionIsResult(Continue(body, o), scope, s');
    ExpectedNext(body, Last(scope), s);
  }

  /** What a callback is expected to do to the session. */
  function Expected<T>(body: Body<T>, depth: nat, s: Session<T>): (Session<T>, Outcome) {
    (Session(BodyResult(body, s.data).0, s.savepoints + Stale(body, depth, s.data)), BodyResult(body, s.data).1)
  }

  function ExpectedBlock<T>(child: Body<T>, faults: Faults, depth: nat, s: Session<T>): (Session<T>, Outcome)
    requires depth > 0
  {
    (Session(BlockResult(child, faults, s.data).0, s.savepoints + LeftBehind(child, faults, depth, s.data)),
     BlockResult(child, faults, s.data).1)
  }

  lemma ExpectedNext<T>(body: Body<T>, depth: nat, s: Session<T>)
    requires body.Nested?
    ensures var (s', o) := ExpectedBlock(body.child, body.faults, depth + 1, s);
            Expected(body, depth, s) == Expected(Continue(body, o), depth, s')
  {
    var (s', o) := ExpectedBlock(body.child, body.faults, depth + 1, s);
    AppendTwice(s.savepoints, LeftBehind(body.child, body.faults, depth + 1, s.data),
      Stale(Continue(body, o), depth, s'.data));
  }

  lemma AppendTwice<T>(a: seq<T>, b: seq<T>, c: seq<T>)
    ensures (a + b) + c == a + (b + c)
  {
  }

  lemma {:induction false} SessionIsBlockResult<T>(child: Body<T>, faults: Faults, scope: seq<nat>, s: Session<T>)
    requires scope != [] && Last(scope) > 0 && Handed(child)
    ensures SessionBlock(child, faults, scope, s) == ExpectedBlock(child, faults, Last(scope), s)
    decreases child, 2
  {
    if faults.open {
      assert s.savepoints + [] == s.savepoints;
    } else {
      var depth := Last(scope);
      var own := s.savepoints + [Savepoint(SavepointName(depth), s.data)];
      SessionIsResult(child, scope, s.(savepoints := own));
      ClosedIs(child, faults, depth, s);
    }
  }

  /** What is above a block's own savepoint is deeper, so closing finds its own. */
  lemma ClosedIs<T>(child: Body<T>, faults: Faults, depth: nat, s: Session<T>)
    requires depth > 0 && !faults.open
    ensures var own := s.savepoints + [Savepoint(SavepointName(depth), s.data)];
            var ended := Session(BodyResult(child, s.data).0, own + Stale(child, depth, s.data));
            Closed(SavepointName(depth), faults, ended, BodyResult(child, s.data).1)
              == ExpectedBlock(child, faults, depth, s)
  {
    var stale := Stale(child, depth, s.data);
    OwnSavepoint(s.savepoints, depth, s.data, stale);
    BehindIs(s.savepoints, child, faults, depth, s.data);
    TakeOwn(s.savepoints, Savepoint(SavepointName(depth), s.data), stale);
  }

  lemma TakeOwn<T>(base: seq<T>, own: T, stale: seq<T>)
    ensures var all := base + [own] + stale;
            all[|base|] == own && all[..|base|] == base && all[..|base| + 1] == base + [own] + []
  {
  }

  /** Why a block must use the context it was handed. A nested block given its parent's
      context instead reuses the parent's savepoint name, and once it has failed, the
      failing parent rolls back to the wrong savepoint and keeps its write. */
  lemma ReusedContextKeepsWrite()
    ensures var child := Write((x: int) => x + 1, Return(Failure));
            var parent := Write((x: int) => x + 1,
              Nested(child, Faults(false, false, false), 1, Return(Failure), Return(Failure), Return(Failure)));
            && BlockMeaning(parent, Faults(false, false, false), 0) == (0, Failure)
            && SessionBlock(parent, Faults(false, false, false), [0, 1], Session(0, [])).0.data == 1
  {
    var name := SavepointName(1);
    var next: Body<int> := Return(Failure);
    var parent := Write((x: int) => x + 1,
                        Nested(Write((x: int) => x + 1, next), Faults(false, false, false), 1, next, next, next));
    var after := Session(1, [Savepoint(name, 0), Savepoint(name, 1)]);
    assert [] + [Savepoint(name, 0)] == [Savepoint(name, 0)];
    ReusedName();
    assert Picked([0, 1], 1) + 1 == 1;
    assert SessionBody(parent, [0, 1], Session(0, [Savepoint(name, 0)])) == (after, Failure);
    LastNamedIs(after.savepoints, 1, name);
  }

  /** The nested block sets and rolls back to a second savepoint of the name. */
  lemma ReusedName()
    ensures var name := SavepointName(1);
            SessionBlock(Write((x: int) => x + 1, Return(Failure)), Faults(false, false, false), [0, 1] + [1],
                         Session(1, [Savepoint(name, 0)]))
            == (Session(1, [Savepoint(name, 0), Savepoint(name, 1)]), Failure)
  {
    var name := SavepointName(1);
    var both := [Savepoint(name, 0), Savepoint(name, 1)];
    assert [Savepoint(name, 0)] + [Savepoint(name, 1)] == both && both[..2] == both;
    assert SessionBody(Write((x: int) => x + 1, Return(Failure)), [0, 1] + [1], Session(1, both))
           == (Session(2, both), Failure);
    LastNamedIs(both, 1, name);
  }

  // ----- What comes after a nested block, and callbacks that pass errors on -----

  /** A callback goes on with the body meant for the way its nested block ended. */
  lemma GoesOn<T>(child: Body<T>, faults: Faults, outward: nat, yes: Body<T>, no: Body<T>, panic: Body<T>, data: T)
    ensures var (after, o) := BlockMeaning(child, faults, data);
            BodyMeaning(Nested(child, faults, outward, yes, no, panic), data)
            == BodyMeaning(if o.Success? then yes else if o.Failure? then no else panic, after)
  {
    var body := Nested(child, faults, outward, yes, no, panic);
    var (after, o) := BlockMeaning(child, faults, data);
    assert BodyMeaning(body, data) == BodyMeaning(Continue(body, o), after);
  }

  lemma SessionGoesOn<T>(child: Body<T>, faults: Faults, outward: nat, yes: Body<T>, no: Body<T>, panic: Body<T>,
                         scope: seq<nat>, s: Session<T>)
    requires scope != []
    ensures var (after, o) := SessionBlock(child, faults, scope + [Picked(scope, outward) + 1], s);
            SessionBody(Nested(child, faults, outward, yes, no, panic), scope, s)
            == SessionBody(if o.Success? then yes else if o.Failure? then no else panic, scope, after)
  {
    var body := Nested(child, faults, outward, yes, no, panic);
    var (after, o) := SessionBlock(child, faults, scope + [Picked(scope, outward) + 1], s);
    assert SessionBody(body, scope, s) == SessionBody(Continue(body, o), scope, after);
  }

  /** Every nested block's error is returned and its panic not recovered. */
  predicate PassesOn<T>(body: Body<T>) {
    match body
    case Return(_) => true
    case Write(_, next) => PassesOn(next)
    case Branch(_, yes, no) => PassesOn(yes) && PassesOn(no)
    case Nested(child, _, _, yes, no, panic) =>
      PassesOn(child) && PassesOn(yes) && no == Return(Failure) && panic == Return(Panic)
  }

  /** One callback tree is the other or occurs somewhere in it. */
  ghost predicate Part<T>(part: Body<T>, body: Body<T>)
    decreases body
  {
    part == body
    || match body
       case Return(_) => false
       case Write(_, next) => Part(part, next)
       case Branch(_, yes, no) => Part(part, yes) || Part(part, no)
       case Nested(child, _, _, yes, no, panic) =>
         Part(part, child) || Part(part, yes) || Part(part, no) || Part(part, panic)
  }

  /** Blocks are given the contexts handed to them exactly if each one in the tree is. */
  lemma {:induction false} HandedIff<T(!new)>(body: Body<T>)
    ensures Handed(body) <==> forall b :: Part(b, body) && b.Nested? ==> b.outward == 0
    decreases body
  {
    match body
    case Return(_) =>
    case Write(_, next) => HandedIff(next);
    case Branch(_, yes, no) => HandedIff(yes); HandedIff(no);
    case Nested(child, _, _, yes, no, panic) => HandedIff(child); HandedIff(yes); HandedIff(no); HandedIff(panic);
  }

  lemma {:induction false} RollbacksAcceptedIff<T(!new)>(body: Body<T>)
    ensures RollbacksAccepted(body) <==> forall b :: Part(b, body) && b.Nested? ==> !b.faults.undo
    decreases body
  {
    match body
    case Return(_) =>
    case Write(_, next) => RollbacksAcceptedIff(next);
    case Branch(_, yes, no) => RollbacksAcceptedIff(yes); RollbacksAcceptedIff(no);
    case Nested(child, _, _, yes, no, panic) =>
      RollbacksAcceptedIff(child); RollbacksAcceptedIff(yes); RollbacksAcceptedIff(no); RollbacksAcceptedIff(panic);
  }

  /** What blocks return or panic with is passed on exactly if after each one in the tree
      it is. */
  lemma {:induction false} PassesOnIff<T(!new)>(body: Body<T>)
    ensures PassesOn(body) <==>
            forall b :: Part(b, body) && b.Nested? ==> b.onFailure == Return(Failure) && b.onPanic == Return(Panic)
    decreases body
  {
    match body
    case Return(_) =>
    case Write(_, next) => PassesOnIff(next);
    case Branch(_, yes, no) => PassesOnIff(yes); PassesOnIff(no);
    case Nested(child, _, _, yes, no, panic) => PassesOnIff(child); PassesOnIff(yes);
  }

  /** How the first block to fail, at any depth, failed on the path the callback takes
      while its blocks succeed. */
  function FirstFailure<T>(body: Body<T>, scope: seq<nat>, s: Session<T>): (o: Outcome)
    requires scope != []
    decreases body, 0
  {
    match body
    case Return(_) => Success
    case Write(f, next) => FirstFailure(next, scope, s.(data := f(s.data)))
    case Branch(cond, yes, no) => if cond(s.data) then FirstFailure(yes, scope, s) else FirstFailure(no, scope, s)
    case Nested(child, faults, outward, yes, _, _) =>
      var inner := scope + [Picked(scope, outward) + 1];
      var o := FirstInside(child, faults, inner, s);
      if o != Success then o else FirstFailure(yes, scope, SessionBlock(child, faults, inner, s).0)
  }

  /** The first to fail of a block and those inside it. */
  function FirstInside<T>(child: Body<T>, faults: Faults, scope: seq<nat>, s: Session<T>): (o: Outcome)
    requires scope != []
    decreases child, 1
  {
    if faults.open then Failure else
    var begun := s.(savepoints := s.savepoints + [Savepoint(SavepointName(Last(scope)), s.data)]);
    var o := FirstFailure(child, scope, begun);
    if o != Success then o else SessionBlock(child, faults, scope, s).1
  }

  /** One failure on the way is the outcome of the whole callback. */
  lemma {:induction false} FailurePassedOn<T>(body: Body<T>, scope: seq<nat>, s: Session<T>)
    requires scope != [] && PassesOn(body) && FirstFailure(body, scope, s) != Success
    ensures SessionBody(body, scope, s).1 == FirstFailure(body, scope, s)
    decreases body, 0
  {
    match body
    case Return(_) =>
    case Write(f, next) => FailurePassedOn(next, scope, s.(data := f(s.data)));
    case Branch(cond, yes, no) =>
      if cond(s.data) { FailurePassedOn(yes, scope, s); } else { FailurePassedOn(no, scope, s); }
    case Nested(child, faults, outward, yes, no, panic) =>
      var inner := scope + [Picked(scope, outward) + 1];
      SessionGoesOn(child, faults, outward, yes, no, panic, scope, s);
      if FirstInside(child, faults, inner, s) != Success {
        FailureFromInside(child, faults, inner, s);
      } else {
        SucceededInside(child, faults, inner, s);
        FailurePassedOn(yes, scope, SessionBlock(child, faults, inner, s).0);
      }
  }

  lemma {:induction false} FailureFromInside<T>(child: Body<T>, faults: Faults, scope: seq<nat>, s: Session<T>)
    requires scope != [] && PassesOn(child) && FirstInside(child, faults, scope, s) != Success
    ensures SessionBlock(child, faults, scope, s).1 == FirstInside(child, faults, scope, s)
    decreases child, 1
  {
    if !faults.open {
      var begun := s.(savepoints := s.savepoints + [Savepoint(SavepointName(Last(scope)), s.data)]);
      if FirstFailure(child, scope, begun) != Success {
        FailurePassedOn(child, scope, begun);
      }
    }
  }

  lemma SucceededInside<T>(child: Body<T>, faults: Faults, scope: seq<nat>, s: Session<T>)
    requires scope != [] && FirstInside(child, faults, scope, s) == Success
    ensures SessionBlock(child, faults, scope, s).1 == Success
  {
  }

  /** So when callbacks pass errors on, an outermost block in which any block fails
      changes nothing and ends as that block did, with any contexts and refusals. */
  lemma FailureUndoesAll<T>(fn: Body<T>, faults: Faults, data: T)
    requires PassesOn(fn) && !faults.open && FirstFailure(fn, [0], Session(data, [])) != Success
    ensures Outermost(fn, faults, data) == (data, FirstFailure(fn, [0], Session(data, [])))
  {
    FailurePassedOn(fn, [0], Session(data, []));
  }

  /** One database connection: the durable data, what the open transaction sees,
      and the savepoints it has set, oldest first. */
  class Connection<T> {
    var durable: T
    var data: T
    var inTx: bool
    var savepoints: seq<Savepoint<T>>

    constructor (initial: T)
      ensures durable == data == initial && !inTx && savepoints == []
    {
      durable, data, inTx, savepoints := initial, initial, false, [];
    }

    method BeginTx(fault: bool) returns (ok: bool)
      requires !inTx
      modifies this
      ensures ok == !fault && inTx == ok && durable == old(durable)
      ensures if ok then data == durable && savepoints == []
              else data == old(data) && savepoints == old(savepoints)
    {
      ok := !fault;
      if ok { data, inTx, savepoints := durable, true, []; }
    }

    /** A refused COMMIT discards the transaction. */
    method Commit(fault: bool) returns (ok: bool)
      requires inTx
      modifies this
      ensures ok == !fault && !inTx && savepoints == []
      ensures durable == data == if ok then old(data) else old(durable)
    {
      ok := !fault;
      if ok { durable := data; } else { data := durable; }
      inTx, savepoints := false, [];
    }

    /** Rolling back a finished transaction does nothing, as sql.ErrTxDone. */
    method Rollback()
      modifies this
      ensures !inTx && durable == old(durable)
      ensures old(inTx) ==> data == durable && savepoints == []
      ensures !old(inTx) ==> data == old(data) && savepoints == old(savepoints)
    {
      if inTx { data, inTx, savepoints := durable, false, []; }
    }

    method ExecSavepoint(name: string, fault: bool) returns (ok: bool)
      requires inTx
      modifies this`savepoints
      ensures ok == !fault
      ensures savepoints == if ok then old(savepoints) + [Savepoint(name, data)] else old(savepoints)
    {
      ok := !fault;
      if ok { savepoints := savepoints + [Savepoint(name, data)]; }
    }

    /** ROLLBACK TO restores the most recent savepoint of that name and keeps it; when
        it is refused nothing happens, and the caller does not look. */
    method ExecRollbackTo(name: string, fault: bool)
      requires inTx
      modifies this`data, this`savepoints
      ensures var i := LastNamed(old(savepoints), name);
              if fault || i < 0 then data == old(data) && savepoints == old(savepoints)
              else data == old(savepoints)[i].snapshot && savepoints == old(savepoints)[..i + 1]
    {
      var i := LastNamed(savepoints, name);
      if !fault && i >= 0 { data, savepoints := savepoints[i].snapshot, savepoints[..i + 1]; }
    }

    /** RELEASE drops the most recent savepoint of that name and all above it. */
    method ExecRelease(name: string, fault: bool) returns (ok: bool)
      requires inTx
      modifies this`savepoints
      ensures ok == (!fault && LastNamed(old(savepoints), name) >= 0)
      ensures savepoints == if ok then old(savepoints)[..LastNamed(old(savepoints), name)] else old(savepoints)
    {
      var i := LastNamed(savepoints, name);
      ok := !fault && i >= 0;
      if ok { savepoints := savepoints[..i]; }
    }

    // ----- orm.DB.Atomic -----

    function Open(): Session<T>
      reads this
    {
      Session(data, savepoints)
    }

    /** For every callback tree, however its blocks end, whatever is swallowed, whichever
        statements are refused and whatever contexts are used, data, savepoints and outcome
        are those of the statements on the stack. When every nested block uses the context
        it was handed, data and outcome are those of the tree. An outermost block makes its
        data durable or leaves the durable data alone, and its rollback cannot be refused; a
        nested one only adds, when it fails after opening, stale savepoints to the stack it
        found. When callbacks pass errors on, a block that fails inside an outermost one
        gives it its outcome, and no data changes. When every ROLLBACK TO inside is
        accepted or has nothing to undo,
        they are the meaning of the block, exactly when that is so of its own rollback. */
    method Atomic(ctx: Context, scope: seq<nat>, fn: Body<T>, faults: Faults) returns (o: Outcome)
      requires ctx.inTx == inTx
      requires !inTx ==> ctx.depth == 0 && data == durable && savepoints == []
      modifies this
      ensures inTx == old(inTx)
      ensures durable == if old(inTx) then old(durable) else data
      ensures if old(inTx) then (Open(), o) == SessionBlock(fn, faults, scope + [ctx.depth + 1], old(Open()))
              else (data, o) == Outermost(fn, faults, old(data)) && savepoints == []
      ensures Handed(fn) ==>
                && (data, o) == BlockResult(fn, if old(inTx) then faults else faults.(undo := false), old(data))
                && savepoints
                   == old(savepoints) + if old(inTx) then LeftBehind(fn, faults, ctx.depth + 1, old(data)) else []
      ensures !old(inTx) && PassesOn(fn) && !faults.open && FirstFailure(fn, [0], Session(old(data), [])) != Success ==>
                durable == data == old(data) && o == FirstFailure(fn, [0], Session(old(data), []))
      ensures Handed(fn) && AllUndone(fn, old(data)) ==>
                ((data, o) == BlockMeaning(fn, faults, old(data)) <==> !old(inTx) || Undone(fn, faults, old(data)))
      decreases fn, 2
    {
      ghost var was := Open();
      if ctx.inTx {
        o := AtomicSavepoint(ctx, scope, fn, faults);
        if Handed(fn) { SessionIsBlockResult(fn, faults, scope + [ctx.depth + 1], was); }
      } else {
        o := AtomicBegin(ctx, fn, faults);
        if Handed(fn) { OutermostIs(fn, faults, was.data); }
        if PassesOn(fn) && !faults.open && FirstFailure(fn, [0], Session(was.data, [])) != Success {
          FailureUndoesAll(fn, faults, was.data);
        }
      }
      if AllUndone(fn, was.data) {
        ResultIsMeaning(fn, was.data);
        BlockResultIff(fn, faults, was.data);
        BlockResultIff(fn, faults.(undo := false), was.data);
      }
    }

    method AtomicBegin(ctx: Context, fn: Body<T>, faults: Faults) returns (o: Outcome)
      requires !inTx && ctx.depth == 0 && data == durable && savepoints == []
      modifies this
      ensures (data, o) == Outermost(fn, faults, old(data))
      ensures !inTx && durable == data && savepoints == []
      decreases fn, 1
    {
      var began := BeginTx(faults.open);
      if !began { return Failure; }
      var committed := false;
      o := Run([ctx.depth], fn);
      if o == Success {
        committed := Commit(faults.close);
        if !committed { o := Failure; }
      }
      // the deferred rollback, on an error and on a panic alike
      if !committed { Rollback(); }
    }

    method AtomicSavepoint(ctx: Context, scope: seq<nat>, fn: Body<T>, faults: Faults) returns (o: Outcome)
      requires inTx && ctx.inTx
      modifies this
      ensures (Open(), o) == SessionBlock(fn, faults, scope + [ctx.depth + 1], old(Open()))
      ensures inTx && durable == old(durable)
      decreases fn, 1
    {
      var depth := ctx.depth + 1;
      var name := SavepointName(depth);
      var isOpen := ExecSavepoint(name, faults.open);
      if !isOpen { return Failure; }
      var ended := Run(scope + [depth], fn);
      o := CloseSavepoint(name, ended, faults);
    }

    /** The end of a nested block: RELEASE after success, and the deferred ROLLBACK TO
        whenever the savepoint was not released. */
    method CloseSavepoint(name: string, ended: Outcome, faults: Faults) returns (o: Outcome)
      requires inTx
      modifies this`data, this`savepoints
      ensures (Open(), o) == Closed(name, faults, old(Open()), ended)
    {
      var released := false;
      o := ended;
      if ended == Success {
        released := ExecRelease(name, faults.close);
        if !released { o := Failure; }
      }
      if !released { ExecRollbackTo(name, faults.undo); }
    }

    /** The callback. */
    method Run(scope: seq<nat>, body: Body<T>) returns (o: Outcome)
      requires inTx && scope != []
      modifies this
      ensures (Open(), o) == SessionBody(body, scope, old(Open()))
      ensures inTx && durable == old(durable)
      decreases body, 0
    {
      match body
      case Return(outcome) => o := outcome;
      case Write(f, next) =>
        data := f(data);
        o := Run(scope, next);
      case Branch(cond, yes, no) =>
        if cond(data) { o := Run(scope, yes); } else { o := Run(scope, no); }
      case Nested(child, faults, outward, _, _, _) =>
        var inner := Atomic(Context(true, Picked(scope, outward)), scope, child, faults);
        o := Run(scope, Continue(body, inner));
    }
  }

  /** An outermost block: BEGIN, and COMMIT or a rollback of everything. */
  function Outermost<T>(fn: Body<T>, faults: Faults, data: T): (T, Outcome) {
    if faults.open then (data, Failure) else
    var (s, ended) := SessionBody(fn, [0], Session(data, []));
    if ended == Success && !faults.close then (s.data, Success) else (data, if ended == Success then Failure else ended)
  }

  lemma OutermostIs<T>(fn: Body<T>, faults: Faults, data: T)
    requires Handed(fn)
    ensures Outermost(fn, faults, data) == BlockResult(fn, faults.(undo := false), data)
  {
    SessionIsResult(fn, [0], Session(data, []));
  }
}
