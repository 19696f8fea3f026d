/** Substitution of placeholders in a text, for any way of recognizing a placeholder
    at the front of it (the loop of Reverse in urls/router.go). */
module Templates {

  /** Length of the placeholder at the front of the text, 0 for none. */
  function Len(at: string -> nat, s: string): (n: nat)
    ensures n <= |s|
  {
    if at(s) <= |s| then at(s) else 0
  }

  /** FindAllStringIndex: the placeholders from position i on, leftmost first. */
  function FindAll(at: string -> nat, s: string, i: nat): seq<(nat, nat)>
    requires i <= |s|
    decreases |s| - i
  {
    var n := Len(at, s[i..]);
    if i == |s| then []
    else if n > 0 then [(i, i + n)] + FindAll(at, s, i + n)
    else FindAll(at, s, i + 1)
  }

  function Count(at: string -> nat, s: string): nat
    decreases |s|
  {
    var n := Len(at, s);
    if s == "" then 0 else if n > 0 then 1 + Count(at, s[n..]) else Count(at, s[1..])
  }

  /** The placeholders replaced, left to right, by the arguments. */
  function Fill(at: string -> nat, s: string, args: seq<string>): string
    requires |args| == Count(at, s)
    decreases |s|
  {
    var n := Len(at, s);
    if s == "" then ""
    else if n > 0 then args[0] + Fill(at, s[n..], args[1..])
    else [s[0]] + Fill(at, s[1..], args)
  }

  lemma {:induction false} CountIsMatches(at: string -> nat, s: string, i: nat)
    requires i <= |s|
    ensures |FindAll(at, s, i)| == Count(at, s[i..])
    decreases |s| - i
  {
    if i < |s| {
      var n := Len(at, s[i..]);
      if n > 0 {
        assert s[i..][n..] == s[i + n..];
        CountIsMatches(at, s, i + n);
      } else {
        assert s[i..][1..] == s[i + 1..];
        CountIsMatches(at, s, i + 1);
      }
    }
  }

  lemma FillHere(at: string -> nat, s: string, i: nat, args: seq<string>)
    requires i < |s| && |args| == Count(at, s[i..]) && Len(at, s[i..]) > 0
    ensures var n := Len(at, s[i..]);
            && args != [] && Count(at, s[i + n..]) == |args| - 1
            && Fill(at, s[i..], args) == args[0] + Fill(at, s[i + n..], args[1..])
  {
    assert s[i..][Len(at, s[i..])..] == s[i + Len(at, s[i..])..];
  }

  lemma FillLater(at: string -> nat, s: string, i: nat, args: seq<string>)
    requires i < |s| && |args| == Count(at, s[i..]) && Len(at, s[i..]) == 0
    ensures Count(at, s[i + 1..]) == |args| && Fill(at, s[i..], args) == [s[i]] + Fill(at, s[i + 1..], args)
  {
    assert s[i..][1..] == s[i + 1..];
  }

  /** The text up to the next match, that match, and what follows it. */
  ghost predicate NextMatch(at: string -> nat, s: string, i: nat, args: seq<string>, m: (nat, nat)) {
    && args != [] && i <= m.0 <= m.1 <= |s| && |args| == Count(at, s[i..])
    && Count(at, s[m.1..]) == |args| - 1
    && Fill(at, s[i..], args) == s[i..m.0] + args[0] + Fill(at, s[m.1..], args[1..])
  }

  lemma NextHere(at: string -> nat, s: string, i: nat, args: seq<string>)
    requires i < |s| && |args| == Count(at, s[i..]) && Len(at, s[i..]) > 0
    ensures NextMatch(at, s, i, args, (i, i + Len(at, s[i..])))
  {
    FillHere(at, s, i, args);
    NothingBefore(s, i, args[0], Fill(at, s[i + Len(at, s[i..])..], args[1..]));
  }

  lemma NothingBefore(s: string, i: nat, arg: string, rest: string)
    requires i <= |s|
    ensures s[i..i] + arg + rest == arg + rest
  {
  }

  lemma NextLater(at: string -> nat, s: string, i: nat, args: seq<string>, m: (nat, nat))
    requires i < |s| && |args| == Count(at, s[i..]) && Len(at, s[i..]) == 0
    requires NextMatch(at, s, i + 1, args, m)
    ensures NextMatch(at, s, i, args, m)
  {
    FillLater(at, s, i, args);
    OneBefore(s, i, m.0, args[0], Fill(at, s[m.1..], args[1..]));
  }

  lemma OneBefore(s: string, i: nat, j: nat, arg: string, rest: string)
    requires i < j <= |s|
    ensures [s[i]] + (s[i + 1..j] + arg + rest) == s[i..j] + arg + rest
  {
    assert [s[i]] + s[i + 1..j] == s[i..j];
  }

  /** Up to the next match there is nothing to replace. */
  lemma {:induction false} FillToMatch(at: string -> nat, s: string, i: nat, args: seq<string>)
    requires i <= |s| && |args| == Count(at, s[i..])
    ensures FindAll(at, s, i) == [] ==> args == [] && Fill(at, s[i..], args) == s[i..]
    ensures FindAll(at, s, i) != [] ==>
      var m := FindAll(at, s, i);
      NextMatch(at, s, i, args, m[0]) && m[1..] == FindAll(at, s, m[0].1)
    decreases |s| - i
  {
    CountIsMatches(at, s, i);
    if i < |s| {
      if Len(at, s[i..]) > 0 {
        NextHere(at, s, i, args);
      } else {
        FillLater(at, s, i, args);
        FillToMatch(at, s, i + 1, args);
        var m := FindAll(at, s, i);
        if m != [] {
          NextLater(at, s, i, args, m[0]);
        } else {
          assert s[i..] == [s[i]] + s[i + 1..];
        }
      }
    }
  }

  /** What the loop over the matches has built before the i-th one. */
  ghost predicate FilledUpTo(at: string -> nat, s: string, args: seq<string>, matches: seq<(nat, nat)>, i: nat,
                             pos: nat, out: string) {
    && |args| == |matches| == Count(at, s) && i <= |matches| && pos <= |s|
    && matches[i..] == FindAll(at, s, pos)
    && Count(at, s[pos..]) == |args| - i
    && out + Fill(at, s[pos..], args[i..]) == Fill(at, s, args)
  }

  lemma FillStep(at: string -> nat, s: string, args: seq<string>, matches: seq<(nat, nat)>, i: nat, pos: nat,
                 out: string)
    requires FilledUpTo(at, s, args, matches, i, pos, out) && i < |matches|
    ensures pos <= matches[i].0 <= matches[i].1 <= |s|
    ensures FilledUpTo(at, s, args, matches, i + 1, matches[i].1, out + s[pos..matches[i].0] + args[i])
  {
    FillToMatch(at, s, pos, args[i..]);
    assert NextMatch(at, s, pos, args[i..], matches[i]);
    assert matches[i..][0] == matches[i] && matches[i..][1..] == matches[i + 1..];
    assert args[i..][0] == args[i] && args[i..][1..] == args[i + 1..];
    AppendInOrder(out, s[pos..matches[i].0], args[i], Fill(at, s[matches[i].1..], args[i + 1..]));
  }

  lemma AppendInOrder(out: string, text: string, arg: string, rest: string)
    ensures out + (text + arg + rest) == (out + text + arg) + rest
  {
  }

  lemma FillEnd(at: string -> nat, s: string, args: seq<string>, matches: seq<(nat, nat)>, pos: nat, out: string)
    requires FilledUpTo(at, s, args, matches, |matches|, pos, out)
    ensures pos <= |s| && out + s[pos..] == Fill(at, s, args)
  {
    FillToMatch(at, s, pos, args[|matches|..]);
  }

  lemma {:induction false} CountPrefix(at: string -> nat, a: string, b: string)
    requires forall i :: 0 <= i < |a| ==> Len(at, a[i..] + b) == 0
    ensures Count(at, a + b) == Count(at, b)
  {
    if a == "" {
      assert a + b == b;
    } else {
      assert a[0..] == a && (a + b)[1..] == a[1..] + b;
      PrefixTail(at, a, b);
      CountPrefix(at, a[1..], b);
    }
  }

  lemma PrefixTail(at: string -> nat, a: string, b: string)
    requires a != "" && forall i :: 0 <= i < |a| ==> Len(at, a[i..] + b) == 0
    ensures forall i :: 0 <= i < |a[1..]| ==> Len(at, a[1..][i..] + b) == 0
  {
    forall i | 0 <= i < |a[1..]|
      ensures Len(at, a[1..][i..] + b) == 0
    {
      assert a[1..][i..] == a[i + 1..];
    }
  }

  /** A prefix in which no placeholder starts is copied. */
  lemma {:induction false} FillPrefix(at: string -> nat, a: string, b: string, args: seq<string>)
    requires forall i :: 0 <= i < |a| ==> Len(at, a[i..] + b) == 0
    requires |args| == Count(at, b)
    ensures Count(at, a + b) == |args| && Fill(at, a + b, args) == a + Fill(at, b, args)
  {
    CountPrefix(at, a, b);
    if a == "" {
      assert a + b == b && a + Fill(at, b, args) == Fill(at, b, args);
    } else {
      assert a[0..] == a && (a + b)[0] == a[0] && (a + b)[1..] == a[1..] + b;
      PrefixTail(at, a, b);
      FillPrefix(at, a[1..], b, args);
      assert [a[0]] + (a[1..] + Fill(at, b, args)) == a + Fill(at, b, args);
    }
  }
}
