/** Compiling a list of conditions one after the other with a shared placeholder
    counter: the part of the query compiler that does not depend on what a single
    condition compiles to. */
module Clauses {
  import opened Lookups

  datatype Compiled<+V> = Compiled(preds: seq<Pred>, args: seq<Arg<V>>) | CompileFailed(error: CompileError)

  /** What one condition compiles to when n placeholders have been drawn before it. */
  type Builder<!C, !V> = (C, nat) -> Built<V>

  function CompileAll<C, V>(build: Builder<C, V>, conds: seq<C>, n: nat): Compiled<V> {
    if conds == [] then Compiled([], [])
    else match build(conds[0], n)
      case BuildFailed(e) => CompileFailed(e)
      case Built(pred, args) => Prepend([pred], args, CompileAll(build, conds[1..], n + |args|))
  }

  function Prepend<V>(preds: seq<Pred>, args: seq<Arg<V>>, c: Compiled<V>): Compiled<V> {
    match c
    case CompileFailed(e) => CompileFailed(e)
    case Compiled(morePreds, moreArgs) => Compiled(preds + morePreds, args + moreArgs)
  }

  /** One turn of the compiling loop. */
  lemma CompileStep<C, V>(build: Builder<C, V>, conds: seq<C>, i: nat, n: nat, preds: seq<Pred>, args: seq<Arg<V>>)
    requires i < |conds|
    ensures Prepend(preds, args, CompileAll(build, conds[i..], n)) ==
            match build(conds[i], n)
            case BuildFailed(e) => CompileFailed(e)
            case Built(pred, own) => Prepend(preds + [pred], args + own, CompileAll(build, conds[i + 1..], n + |own|))
  {
    assert conds[i..][1..] == conds[i + 1..];
    match build(conds[i], n)
    case BuildFailed(_) =>
    case Built(pred, own) =>
      var c := CompileAll(build, conds[i + 1..], n + |own|);
      if c.Compiled? {
        assert preds + ([pred] + c.preds) == preds + [pred] + c.preds;
        assert args + (own + c.args) == args + own + c.args;
      }
  }

  /** What the loop has compiled of the first i conditions. */
  ghost predicate CompiledUpTo<C, V>(build: Builder<C, V>, conds: seq<C>, n: nat, i: nat, preds: seq<Pred>,
                                     args: seq<Arg<V>>) {
    i <= |conds| && CompileAll(build, conds, n) == Prepend(preds, args, CompileAll(build, conds[i..], n + |args|))
  }

  lemma CompileStart<C, V>(build: Builder<C, V>, conds: seq<C>, n: nat)
    ensures CompiledUpTo(build, conds, n, 0, [], [])
  {
    var c := CompileAll(build, conds, n);
    if c.Compiled? { assert [] + c.preds == c.preds && [] + c.args == c.args; }
  }

  lemma CompileNext<C, V>(build: Builder<C, V>, conds: seq<C>, n: nat, i: nat, preds: seq<Pred>, args: seq<Arg<V>>,
                          m: nat, c: C, built: Built<V>)
    requires CompiledUpTo(build, conds, n, i, preds, args) && i < |conds|
    requires c == conds[i] && m == n + |args| && built == build(c, m)
    ensures built.BuildFailed? ==> CompileAll(build, conds, n) == CompileFailed(built.error)
    ensures built.Built? ==> CompiledUpTo(build, conds, n, i + 1, preds + [built.pred], args + built.args)
  {
    CompileStep(build, conds, i, n + |args|, preds, args);
  }

  lemma CompileEnd<C, V>(build: Builder<C, V>, conds: seq<C>, n: nat, preds: seq<Pred>, args: seq<Arg<V>>)
    requires CompiledUpTo(build, conds, n, |conds|, preds, args)
    ensures CompileAll(build, conds, n) == Compiled(preds, args)
  {
  }

  function Params(p: Pred): seq<Placeholder> {
    match p
    case Compare(_, _, param) => [param]
    case LikePattern(_, param) => [param]
    case In(_, params) => params
    case Not(inner) => Params(inner)
    case _ => []
  }

  function AllParams(preds: seq<Pred>): seq<Placeholder> {
    if preds == [] then [] else Params(preds[0]) + AllParams(preds[1..])
  }

  /** Every condition draws the next placeholders, one for each of its arguments. */
  ghost predicate DrawsInOrder<C(!new), V>(build: Builder<C, V>, d: Dialect) {
    forall c, n :: build(c, n).Built? ==> Params(build(c, n).pred) == Numbered(d, n, |build(c, n).args|)
  }

  lemma NumberedTwice(d: Dialect, n: nat, a: nat, b: nat)
    ensures Numbered(d, n, a) + Numbered(d, n + a, b) == Numbered(d, n, a + b)
  {
  }

  lemma AllParamsCons(p: Pred, rest: seq<Pred>)
    ensures AllParams([p] + rest) == Params(p) + AllParams(rest)
  {
    assert ([p] + rest)[1..] == rest;
  }

  /** The i-th placeholder of the clause, in text order, is the one for parameter
      n + i, and there are as many as arguments. */
  lemma {:induction false} ParamsInOrder<C(!new), V>(build: Builder<C, V>, d: Dialect, conds: seq<C>, n: nat,
                                                         c: Compiled<V>)
    requires DrawsInOrder(build, d) && c == CompileAll(build, conds, n) && c.Compiled?
    ensures AllParams(c.preds) == Numbered(d, n, |c.args|)
    decreases |conds|
  {
    if conds != [] {
      var b := build(conds[0], n);
      var rest := CompileAll(build, conds[1..], n + |b.args|);
      ParamsInOrder(build, d, conds[1..], n + |b.args|, rest);
      CompiledHead(build, conds, n);
      AllParamsCons(b.pred, rest.preds);
      NumberedTwice(d, n, |b.args|, |rest.args|);
    }
  }

  /** The AND of the predicates, whose placeholders start at position pos. */
  function EvalAll<V>(sem: Semantics<V>, preds: seq<Pred>, row: Row<V>, pos: nat, args: seq<Arg<V>>): Tri {
    if preds == [] then True
    else Conjunction(Eval(sem, preds[0], row, pos, args), EvalAll(sem, preds[1..], row, pos + |Params(preds[0])|, args))
  }

  ghost predicate ArgsAt<V>(args: seq<Arg<V>>, n: nat, own: seq<Arg<V>>) {
    n + |own| <= |args| && args[n..n + |own|] == own
  }

  /** With its arguments bound in place, a compiled condition is true on the row
      exactly when the condition holds. */
  ghost predicate Means<C(!new), V>(build: Builder<C, V>, sem: Semantics<V>, row: Row<V>, args: seq<Arg<V>>,
                                        holds: C -> bool) {
    forall c, n {:trigger build(c, n)} :: build(c, n).Built? && ArgsAt(args, n, build(c, n).args) ==>
      (Eval(sem, build(c, n).pred, row, n, args) == True <==> holds(c))
  }

  lemma SplitArgs<V>(args: seq<Arg<V>>, n: nat, a: seq<Arg<V>>, b: seq<Arg<V>>)
    requires ArgsAt(args, n, a + b)
    ensures ArgsAt(args, n, a) && ArgsAt(args, n + |a|, b)
  {
    var both := args[n..n + |a + b|];
    assert args[n..n + |a|] == both[..|a|] && args[n + |a|..n + |a| + |b|] == both[|a|..];
  }

  lemma EvalAllCons<V>(sem: Semantics<V>, p: Pred, rest: seq<Pred>, row: Row<V>, pos: nat, args: seq<Arg<V>>)
    ensures EvalAll(sem, [p] + rest, row, pos, args) == True <==>
            Eval(sem, p, row, pos, args) == True && EvalAll(sem, rest, row, pos + |Params(p)|, args) == True
  {
    assert ([p] + rest)[1..] == rest;
  }

  predicate AllHold<C>(conds: seq<C>, holds: C -> bool) {
    conds == [] || (holds(conds[0]) && AllHold(conds[1..], holds))
  }

  lemma {:induction false} AllHoldIff<C>(conds: seq<C>, holds: C -> bool)
    ensures AllHold(conds, holds) <==> forall i :: 0 <= i < |conds| ==> holds(conds[i])
    decreases |conds|
  {
    if conds != [] {
      AllHoldIff(conds[1..], holds);
      assert forall i :: 0 <= i < |conds| - 1 ==> conds[1..][i] == conds[i + 1];
      assert forall i :: 0 < i < |conds| ==> conds[i] == conds[1..][i - 1];
    }
  }

  lemma CompiledHead<C, V>(build: Builder<C, V>, conds: seq<C>, n: nat)
    requires conds != [] && CompileAll(build, conds, n).Compiled?
    ensures var b := build(conds[0], n);
            && b.Built?
            && var rest := CompileAll(build, conds[1..], n + |b.args|);
               rest.Compiled? && CompileAll(build, conds, n) == Compiled([b.pred] + rest.preds, b.args + rest.args)
  {
  }

  /** What AllMean says of the conditions behind n placeholders. */
  ghost predicate MeansAll<C, V>(build: Builder<C, V>, sem: Semantics<V>, row: Row<V>, args: seq<Arg<V>>,
                                 holds: C -> bool, conds: seq<C>, n: nat) {
    var c := CompileAll(build, conds, n);
    c.Compiled? && ArgsAt(args, n, c.args) ==> (EvalAll(sem, c.preds, row, n, args) == True <==> AllHold(conds, holds))
  }

  lemma MeansCons<C, V>(build: Builder<C, V>, sem: Semantics<V>, row: Row<V>, args: seq<Arg<V>>, holds: C -> bool,
                        conds: seq<C>, n: nat, b: Built<V>)
    requires conds != [] && b == build(conds[0], n)
    requires b.Built? ==>
      |Params(b.pred)| == |b.args| && MeansAll(build, sem, row, args, holds, conds[1..], n + |b.args|)
    requires b.Built? && ArgsAt(args, n, b.args) ==> (Eval(sem, b.pred, row, n, args) == True <==> holds(conds[0]))
    ensures MeansAll(build, sem, row, args, holds, conds, n)
  {
    var c := CompileAll(build, conds, n);
    if c.Compiled? && ArgsAt(args, n, c.args) {
      CompiledHead(build, conds, n);
      var rest := CompileAll(build, conds[1..], n + |b.args|);
      SplitArgs(args, n, b.args, rest.args);
      EvalAllCons(sem, b.pred, rest.preds, row, n, args);
    }
  }

  lemma {:induction false} AllMeanFrom<C(!new), V>(build: Builder<C, V>, d: Dialect, sem: Semantics<V>, row: Row<V>,
                                                       args: seq<Arg<V>>, holds: C -> bool, conds: seq<C>, n: nat)
    requires DrawsInOrder(build, d) && Means(build, sem, row, args, holds)
    ensures MeansAll(build, sem, row, args, holds, conds, n)
    decreases |conds|
  {
    if conds != [] {
      var b := build(conds[0], n);
      if b.Built? {
        AllMeanFrom(build, d, sem, row, args, holds, conds[1..], n + |b.args|);
      }
      MeansCons(build, sem, row, args, holds, conds, n, b);
    }
  }

  /** The compiled conjunction is true exactly when every condition holds. */
  lemma AllMean<C(!new), V>(build: Builder<C, V>, d: Dialect, sem: Semantics<V>, row: Row<V>, args: seq<Arg<V>>,
                            holds: C -> bool, conds: seq<C>, n: nat, c: Compiled<V>)
    requires DrawsInOrder(build, d) && Means(build, sem, row, args, holds)
    requires c == CompileAll(build, conds, n) && c.Compiled? && ArgsAt(args, n, c.args)
    ensures EvalAll(sem, c.preds, row, n, args) == True <==> AllHold(conds, holds)
  {
    AllMeanFrom(build, d, sem, row, args, holds, conds, n);
  }
}
