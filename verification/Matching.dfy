/** First-fit pairing of two lists by equality of a key, and why it pairs as many
    elements as any matching can. */
module Matching {
  datatype Option<+T> = None | Some(value: T)

  function FindFirst<T, K(==)>(items: seq<T>, key: T -> K, k: K): (r: Option<T>)
    ensures r.Some? ==> r.value in items && key(r.value) == k
  {
    if items == [] then None
    else if key(items[0]) == k then Some(items[0])
    else FindFirst(items[1..], key, k)
  }

  function TakeFirst<T, K(==)>(items: seq<T>, key: T -> K, k: K): seq<T> {
    if items == [] then []
    else if key(items[0]) == k then items[1..]
    else [items[0]] + TakeFirst(items[1..], key, k)
  }

  /** Each left element takes the first right element with its key that is still free. */
  function FirstFit<T, K(==)>(left: seq<T>, right: seq<T>, key: T -> K): seq<(T, T)> {
    if left == [] then []
    else match FindFirst(right, key, key(left[0]))
      case None => FirstFit(left[1..], right, key)
      case Some(g) => [(left[0], g)] + FirstFit(left[1..], TakeFirst(right, key, key(left[0])), key)
  }

  function Firsts<T>(pairs: seq<(T, T)>): seq<T> {
    if pairs == [] then [] else [pairs[0].0] + Firsts(pairs[1..])
  }

  function Seconds<T>(pairs: seq<(T, T)>): seq<T> {
    if pairs == [] then [] else [pairs[0].1] + Seconds(pairs[1..])
  }

  /** No left and no right element is used more often than it occurs, and paired
      elements share their key. */
  ghost predicate IsMatching<T, K>(pairs: seq<(T, T)>, left: seq<T>, right: seq<T>, key: T -> K) {
    && multiset(Firsts(pairs)) <= multiset(left)
    && multiset(Seconds(pairs)) <= multiset(right)
    && forall p :: p in pairs ==> key(p.0) == key(p.1)
  }

  /** How often each key occurs. */
  function Bag<T, K(==)>(items: seq<T>, key: T -> K): multiset<K> {
    if items == [] then multiset{} else multiset{key(items[0])} + Bag(items[1..], key)
  }

  lemma {:induction false} TakeFirstTakes<T, K>(items: seq<T>, key: T -> K, k: K)
    ensures match FindFirst(items, key, k)
            case None => k !in Bag(items, key)
            case Some(g) =>
              && multiset(items) == multiset{g} + multiset(TakeFirst(items, key, k))
              && Bag(items, key) == multiset{k} + Bag(TakeFirst(items, key, k), key)
  {
    if items != [] {
      assert items == [items[0]] + items[1..];
      TakeFirstTakes(items[1..], key, k);
      if key(items[0]) != k && FindFirst(items, key, k).Some? {
        var rest := TakeFirst(items[1..], key, k);
        assert ([items[0]] + rest)[1..] == rest;
      }
    }
  }

  lemma CommonKey<K>(k: K, a: multiset<K>, b: multiset<K>)
    ensures (multiset{k} + a) * (multiset{k} + b) == multiset{k} + a * b
    ensures k !in b ==> (multiset{k} + a) * b == a * b
  {
  }

  /** First fit is a matching, and the number of its pairs is, summed over the keys,
      the smaller of the numbers of left and of right elements with the key. */
  lemma {:induction false} FirstFitMatches<T, K>(left: seq<T>, right: seq<T>, key: T -> K)
    ensures IsMatching(FirstFit(left, right, key), left, right, key)
    ensures |FirstFit(left, right, key)| == |Bag(left, key) * Bag(right, key)|
    decreases |left|
  {
    if left != [] {
      var f, rest := left[0], left[1..];
      assert left == [f] + rest;
      TakeFirstTakes(right, key, key(f));
      match FindFirst(right, key, key(f))
      case None =>
        FirstFitMatches(rest, right, key);
        CommonKey(key(f), Bag(rest, key), Bag(right, key));
      case Some(g) =>
        var free := TakeFirst(right, key, key(f));
        FirstFitMatches(rest, free, key);
        var pairs := FirstFit(rest, free, key);
        assert ([(f, g)] + pairs)[1..] == pairs;
        CommonKey(key(f), Bag(rest, key), Bag(free, key));
    }
  }

  lemma {:induction false} PairsShareKeys<T, K>(pairs: seq<(T, T)>, key: T -> K)
    requires forall p :: p in pairs ==> key(p.0) == key(p.1)
    ensures Bag(Firsts(pairs), key) == Bag(Seconds(pairs), key) && |Bag(Firsts(pairs), key)| == |pairs|
  {
    if pairs != [] {
      assert pairs[0] in pairs;
      PairsShareKeys(pairs[1..], key);
      assert ([pairs[0].0] + Firsts(pairs[1..]))[1..] == Firsts(pairs[1..]);
      assert ([pairs[0].1] + Seconds(pairs[1..]))[1..] == Seconds(pairs[1..]);
    }
  }

  lemma {:induction false} BagConcat<T, K>(a: seq<T>, b: seq<T>, key: T -> K)
    ensures Bag(a + b, key) == Bag(a, key) + Bag(b, key)
  {
    if a == [] {
      assert a + b == b;
    } else {
      assert (a + b)[1..] == a[1..] + b;
      BagConcat(a[1..], b, key);
    }
  }

  lemma BagCons<T, K>(x: T, rest: seq<T>, key: T -> K)
    ensures Bag([x] + rest, key) == multiset{key(x)} + Bag(rest, key)
  {
    assert ([x] + rest)[1..] == rest;
  }

  lemma MultisetOut<T>(items: seq<T>, j: nat)
    requires j < |items|
    ensures multiset(items) == multiset{items[j]} + multiset(items[..j] + items[j + 1..])
  {
    assert items == items[..j] + [items[j]] + items[j + 1..];
  }

  lemma TakeOut<T, K>(items: seq<T>, j: nat, rest: seq<T>, key: T -> K)
    requires j < |items| && rest == items[..j] + items[j + 1..]
    ensures multiset(items) == multiset{items[j]} + multiset(rest)
    ensures Bag(items, key) == multiset{key(items[j])} + Bag(rest, key)
  {
    var front, back := items[..j], items[j + 1..];
    MultisetOut(items, j);
    assert items == front + ([items[j]] + back);
    BagConcat(front, [items[j]] + back, key);
    BagConcat(front, back, key);
    BagCons(items[j], back, key);
  }

  lemma {:induction false} BagMonotone<T, K>(a: seq<T>, b: seq<T>, key: T -> K)
    requires multiset(a) <= multiset(b)
    ensures Bag(a, key) <= Bag(b, key)
    decreases |a|
  {
    if a != [] {
      assert a[0] in multiset(b);
      var j :| 0 <= j < |b| && b[j] == a[0];
      var restA, restB := a[1..], b[..j] + b[j + 1..];
      assert restA == a[..0] + a[1..];
      TakeOut(a, 0, restA, key);
      TakeOut(b, j, restB, key);
      CancelLess(multiset{a[0]}, multiset(restA), multiset(restB));
      BagMonotone(restA, restB, key);
    }
  }

  lemma CancelLess<T>(m: multiset<T>, a: multiset<T>, b: multiset<T>)
    requires m + a <= m + b
    ensures a <= b
  {
    forall x ensures a[x] <= b[x] {
      assert (m + a)[x] <= (m + b)[x];
    }
  }

  lemma SubBagSize<K>(a: multiset<K>, b: multiset<K>)
    requires a <= b
    ensures |a| <= |b|
  {
    assert b == a + (b - a);
  }

  /** No matching pairs more elements than first fit. */
  lemma FirstFitIsMaximum<T, K>(pairs: seq<(T, T)>, left: seq<T>, right: seq<T>, key: T -> K)
    requires IsMatching(pairs, left, right, key)
    ensures |pairs| <= |FirstFit(left, right, key)|
  {
    FirstFitMatches(left, right, key);
    PairsShareKeys(pairs, key);
    BagMonotone(Firsts(pairs), left, key);
    BagMonotone(Seconds(pairs), right, key);
    SubBagSize(Bag(Firsts(pairs), key), Bag(left, key) * Bag(right, key));
  }

  // ----- Free elements as flags -----

  /** The elements whose flag is not set. */
  function Unclaimed<T>(items: seq<T>, claimed: seq<bool>): seq<T>
    requires |claimed| == |items|
  {
    if items == [] then []
    else (if claimed[0] then [] else [items[0]]) + Unclaimed(items[1..], claimed[1..])
  }

  lemma UnclaimedCons<T>(items: seq<T>, claimed: seq<bool>)
    requires |claimed| == |items| && items != []
    ensures var u := Unclaimed(items[1..], claimed[1..]);
            Unclaimed(items, claimed) == if claimed[0] then u else [items[0]] + u
  {
  }

  lemma FirstOfCons<T, K>(x: T, rest: seq<T>, key: T -> K, k: K)
    ensures FindFirst([x] + rest, key, k) == if key(x) == k then Some(x) else FindFirst(rest, key, k)
    ensures TakeFirst([x] + rest, key, k) == if key(x) == k then rest else [x] + TakeFirst(rest, key, k)
  {
    assert ([x] + rest)[1..] == rest;
  }

  ghost predicate NoneFree<T, K>(items: seq<T>, claimed: seq<bool>, key: T -> K, k: K, upTo: nat)
    requires |claimed| == |items| && upTo <= |items|
  {
    forall j :: 0 <= j < upTo ==> claimed[j] || key(items[j]) != k
  }

  lemma NoneFreeTail<T, K>(items: seq<T>, claimed: seq<bool>, key: T -> K, k: K, upTo: nat)
    requires |claimed| == |items| && 0 < upTo <= |items| && NoneFree(items, claimed, key, k, upTo)
    ensures NoneFree(items[1..], claimed[1..], key, k, upTo - 1)
  {
    forall j | 0 <= j < upTo - 1
      ensures claimed[1..][j] || key(items[1..][j]) != k
    {
      assert claimed[j + 1] || key(items[j + 1]) != k;
    }
  }

  /** Setting the flag of the first unclaimed element with the key takes it. */
  lemma {:induction false} ClaimFirst<T, K>(items: seq<T>, claimed: seq<bool>, key: T -> K, k: K, i: nat)
    requires |claimed| == |items| && i < |items|
    requires !claimed[i] && key(items[i]) == k && NoneFree(items, claimed, key, k, i)
    ensures FindFirst(Unclaimed(items, claimed), key, k) == Some(items[i])
    ensures TakeFirst(Unclaimed(items, claimed), key, k) == Unclaimed(items, claimed[i := true])
    decreases i
  {
    if i == 0 {
      ClaimHead(items, claimed, key, k);
    } else {
      NoneFreeTail(items, claimed, key, k, i);
      assert claimed[0] || key(items[0]) != k;
      ClaimFirst(items[1..], claimed[1..], key, k, i - 1);
      ClaimBehind(items, claimed, key, k, i);
    }
  }

  lemma ClaimHead<T, K>(items: seq<T>, claimed: seq<bool>, key: T -> K, k: K)
    requires |claimed| == |items| && items != [] && !claimed[0] && key(items[0]) == k
    ensures FindFirst(Unclaimed(items, claimed), key, k) == Some(items[0])
    ensures TakeFirst(Unclaimed(items, claimed), key, k) == Unclaimed(items, claimed[0 := true])
  {
    assert claimed[0 := true][1..] == claimed[1..];
    UnclaimedCons(items, claimed);
    UnclaimedCons(items, claimed[0 := true]);
    FirstOfCons(items[0], Unclaimed(items[1..], claimed[1..]), key, k);
  }

  lemma ClaimBehind<T, K>(items: seq<T>, claimed: seq<bool>, key: T -> K, k: K, i: nat)
    requires |claimed| == |items| && 0 < i < |items| && (claimed[0] || key(items[0]) != k)
    requires FindFirst(Unclaimed(items[1..], claimed[1..]), key, k) == Some(items[i])
    requires TakeFirst(Unclaimed(items[1..], claimed[1..]), key, k)
             == Unclaimed(items[1..], claimed[1..][i - 1 := true])
    ensures FindFirst(Unclaimed(items, claimed), key, k) == Some(items[i])
    ensures TakeFirst(Unclaimed(items, claimed), key, k) == Unclaimed(items, claimed[i := true])
  {
    assert claimed[i := true][1..] == claimed[1..][i - 1 := true];
    UnclaimedCons(items, claimed);
    UnclaimedCons(items, claimed[i := true]);
    FirstOfCons(items[0], Unclaimed(items[1..], claimed[1..]), key, k);
  }

  lemma {:induction false} ClaimNone<T, K>(items: seq<T>, claimed: seq<bool>, key: T -> K, k: K)
    requires |claimed| == |items| && NoneFree(items, claimed, key, k, |items|)
    ensures FindFirst(Unclaimed(items, claimed), key, k) == None
    decreases |items|
  {
    if items != [] {
      UnclaimedCons(items, claimed);
      assert claimed[0] || key(items[0]) != k;
      FirstOfCons(items[0], Unclaimed(items[1..], claimed[1..]), key, k);
      NoneFreeTail(items, claimed, key, k, |items|);
      ClaimNone(items[1..], claimed[1..], key, k);
    }
  }

  lemma {:induction false} NoneClaimed<T>(items: seq<T>, claimed: seq<bool>)
    requires |claimed| == |items| && forall j :: 0 <= j < |claimed| ==> !claimed[j]
    ensures Unclaimed(items, claimed) == items
  {
    if items != [] {
      NoneClaimed(items[1..], claimed[1..]);
    }
  }
}
