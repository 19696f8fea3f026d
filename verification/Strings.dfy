/** Text functions of the host language's strings package, as far as they are used. */
module Strings {

  /** ToLower on ASCII letters. */
  function Lower(s: string): string {
    if s == "" then ""
    else [if 'A' <= s[0] <= 'Z' then (s[0] as int - 'A' as int + 'a' as int) as char else s[0]] + Lower(s[1..])
  }

  /** Every letter is replaced by its small form, whatever it was; other characters stay. */
  lemma {:induction false} LowerIs(s: string)
    ensures |Lower(s)| == |s|
    ensures forall i :: 0 <= i < |s| ==>
              Lower(s)[i] == if 'A' <= s[i] <= 'Z' then 'a' + (s[i] - 'A') else s[i]
  {
    if s != "" {
      LowerIs(s[1..]);
      assert forall i :: 0 < i < |s| ==> s[i] == s[1..][i - 1] && Lower(s)[i] == Lower(s[1..])[i - 1];
    }
  }

  /** unicode.IsSpace. */
  predicate Space(c: char) {
    var n := c as int;
    || 9 <= n <= 13 || n == 32 || n == 0x85 || n == 0xA0 || n == 0x1680 || 0x2000 <= n <= 0x200A
    || n == 0x2028 || n == 0x2029 || n == 0x202F || n == 0x205F || n == 0x3000
  }

  function TrimLeft(s: string): string {
    if s != "" && Space(s[0]) then TrimLeft(s[1..]) else s
  }

  function TrimRight(s: string): string {
    if s != "" && Space(s[|s| - 1]) then TrimRight(s[..|s| - 1]) else s
  }

  function TrimSpace(s: string): string {
    TrimRight(TrimLeft(s))
  }

  /** No space at either end. */
  predicate Trimmed(s: string) {
    s != "" ==> !Space(s[0]) && !Space(s[|s| - 1])
  }

  lemma {:induction false} TrimLeftIs(s: string)
    ensures TrimLeft(s) == s <==> s == "" || !Space(s[0])
    ensures |TrimLeft(s)| <= |s| && (TrimLeft(s) == "" || !Space(TrimLeft(s)[0]))
  {
    if s != "" && Space(s[0]) {
      TrimLeftIs(s[1..]);
    }
  }

  lemma {:induction false} TrimRightIs(s: string)
    ensures TrimRight(s) == s <==> s == "" || !Space(s[|s| - 1])
    ensures TrimRight(s) <= s && (TrimRight(s) == "" || !Space(TrimRight(s)[|TrimRight(s)| - 1]))
  {
    if s != "" && Space(s[|s| - 1]) {
      TrimRightIs(s[..|s| - 1]);
      assert s[..|s| - 1] <= s;
    }
  }

  /** Trimming leaves exactly the trimmed texts alone, and gives one. */
  lemma TrimSpaceIs(s: string)
    ensures Trimmed(TrimSpace(s))
    ensures TrimSpace(s) == s <==> Trimmed(s)
  {
    var left := TrimLeft(s);
    TrimLeftIs(s);
    TrimRightIs(left);
    assert TrimSpace(s) != "" ==> TrimSpace(s)[0] == left[0];
    assert TrimSpace(s) == s ==> |left| == |s|;
    TrimLeftShorter(s);
  }

  predicate AllSpace(s: string) {
    forall c :: c in s ==> Space(c)
  }

  lemma {:induction false} TrimLeftTakes(s: string)
    ensures |TrimLeft(s)| <= |s| && s[|s| - |TrimLeft(s)|..] == TrimLeft(s)
    ensures AllSpace(s[..|s| - |TrimLeft(s)|])
  {
    if s != "" && Space(s[0]) {
      TrimLeftTakes(s[1..]);
      var n := |s| - |TrimLeft(s)|;
      assert s[..n] == [s[0]] + s[1..][..n - 1];
    } else {
      assert s[..0] == "";
    }
  }

  lemma {:induction false} TrimRightTakes(s: string)
    ensures TrimRight(s) <= s && AllSpace(s[|TrimRight(s)|..])
  {
    if s != "" && Space(s[|s| - 1]) {
      var front := s[..|s| - 1];
      TrimRightTakes(front);
      assert s[|TrimRight(s)|..] == front[|TrimRight(front)|..] + [s[|s| - 1]];
    }
  }

  /** Trimming takes spaces off the ends and nothing else. */
  lemma TrimSpaceTakes(s: string) returns (before: string, after: string)
    ensures s == before + TrimSpace(s) + after && AllSpace(before) && AllSpace(after)
  {
    var left := TrimLeft(s);
    TrimLeftTakes(s);
    TrimRightTakes(left);
    before, after := s[..|s| - |left|], left[|TrimSpace(s)|..];
    assert s == before + left && left == TrimSpace(s) + after;
  }

  lemma {:induction false} TrimLeftShorter(s: string)
    ensures |TrimLeft(s)| == |s| ==> TrimLeft(s) == s
  {
    if s != "" && Space(s[0]) {
      TrimLeftIs(s[1..]);
    }
  }
}
