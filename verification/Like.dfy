/** LIKE patterns: the escaping of orm/lookups.go against the matching of LIKE with
    ESCAPE '\' (section 8.5 of ISO/IEC 9075-2). */
module Like {

  const ESCAPE: char := '\\'

  /** strings.ReplaceAll of a one-character string. */
  function ReplaceAll(s: string, c: char, by': string): string {
    if s == "" then "" else (if s[0] == c then by' else [s[0]]) + ReplaceAll(s[1..], c, by')
  }

  /** escapeLike: backslash first, then percent, then underscore. */
  function EscapeLike(s: string): string {
    ReplaceAll(ReplaceAll(ReplaceAll(s, '\\', "\\\\"), '%', "\\%"), '_', "\\_")
  }

  predicate Special(c: char) {
    c == '\\' || c == '%' || c == '_'
  }

  function Quoted(c: char): string {
    if Special(c) then ['\\', c] else [c]
  }

  /** One substitution per character. */
  function EscapeEach(s: string): string {
    if s == "" then "" else Quoted(s[0]) + EscapeEach(s[1..])
  }

  lemma {:induction false} ReplaceAllConcat(a: string, b: string, c: char, by': string)
    ensures ReplaceAll(a + b, c, by') == ReplaceAll(a, c, by') + ReplaceAll(b, c, by')
  {
    if a == "" {
      assert a + b == b;
    } else {
      assert (a + b)[1..] == a[1..] + b;
      ReplaceAllConcat(a[1..], b, c, by');
    }
  }

  lemma ReplaceAllOne(x: char, c: char, by': string)
    ensures ReplaceAll([x], c, by') == if x == c then by' else [x]
  {
    assert [x][1..] == "";
  }

  lemma EscapeOne(c: char)
    ensures EscapeLike([c]) == Quoted(c)
  {
    ReplaceAllOne(c, '\\', "\\\\");
    if c == '\\' {
      assert "\\\\" == ['\\'] + ['\\'];
      ReplaceAllConcat(['\\'], ['\\'], '%', "\\%");
      ReplaceAllOne('\\', '%', "\\%");
      ReplaceAllConcat(['\\'], ['\\'], '_', "\\_");
      ReplaceAllOne('\\', '_', "\\_");
    } else {
      ReplaceAllOne(c, '%', "\\%");
      if c == '%' {
        assert "\\%" == ['\\'] + ['%'];
        ReplaceAllConcat(['\\'], ['%'], '_', "\\_");
        ReplaceAllOne('\\', '_', "\\_");
        ReplaceAllOne('%', '_', "\\_");
      } else {
        ReplaceAllOne(c, '_', "\\_");
      }
    }
  }

  /** The three passes over the whole string are one substitution per character:
      no pass escapes what an earlier one has written. */
  lemma {:induction false} ThreePassesAreOne(s: string)
    ensures EscapeLike(s) == EscapeEach(s)
  {
    if s != "" {
      var c, rest := [s[0]], s[1..];
      assert s == c + rest;
      ReplaceAllConcat(c, rest, '\\', "\\\\");
      var c1, r1 := ReplaceAll(c, '\\', "\\\\"), ReplaceAll(rest, '\\', "\\\\");
      ReplaceAllConcat(c1, r1, '%', "\\%");
      ReplaceAllConcat(ReplaceAll(c1, '%', "\\%"), ReplaceAll(r1, '%', "\\%"), '_', "\\_");
      EscapeOne(s[0]);
      ThreePassesAreOne(rest);
    }
  }

  // ----- LIKE -----

  /** Whether text matches pattern, where literal characters are compared up to fold. */
  predicate Matches(pattern: string, text: string, fold: char -> char)
    decreases |pattern|, |text|
  {
    if pattern == "" then text == ""
    else if pattern[0] == '%' then
      Matches(pattern[1..], text, fold) || (text != "" && Matches(pattern, text[1..], fold))
    else if pattern[0] == '_' then
      text != "" && Matches(pattern[1..], text[1..], fold)
    else if pattern[0] == ESCAPE then
      |pattern| >= 2 && text != "" && fold(pattern[1]) == fold(text[0]) && Matches(pattern[2..], text[1..], fold)
    else
      text != "" && fold(pattern[0]) == fold(text[0]) && Matches(pattern[1..], text[1..], fold)
  }

  /** Equality of strings up to the fold. */
  predicate Same(a: string, b: string, fold: char -> char) {
    |a| == |b| && forall i :: 0 <= i < |a| ==> fold(a[i]) == fold(b[i])
  }

  predicate StartsWith(text: string, value: string, fold: char -> char) {
    |value| <= |text| && Same(value, text[..|value|], fold)
  }

  predicate EndsWith(text: string, value: string, fold: char -> char) {
    |value| <= |text| && Same(value, text[|text| - |value|..], fold)
  }

  predicate Contains(text: string, value: string, fold: char -> char) {
    exists i :: 0 <= i <= |text| && StartsWith(text[i..], value, fold)
  }

  lemma MatchesQuoted(c: char, rest: string, text: string, fold: char -> char)
    ensures Matches(Quoted(c) + rest, text, fold) <==>
            text != "" && fold(c) == fold(text[0]) && Matches(rest, text[1..], fold)
  {
    var p := Quoted(c) + rest;
    if Special(c) {
      assert p[0] == ESCAPE && p[1] == c && p[2..] == rest;
    } else {
      assert p[0] == c && p[1..] == rest;
    }
  }

  /** An escaped value followed by more pattern matches the value literally. */
  lemma {:induction false} MatchesEscaped(value: string, rest: string, text: string, fold: char -> char)
    ensures Matches(EscapeEach(value) + rest, text, fold) <==>
            StartsWith(text, value, fold) && Matches(rest, text[|value|..], fold)
    decreases |value|
  {
    if value == "" {
      assert EscapeEach(value) + rest == rest && text[0..] == text && text[..0] == "";
    } else {
      var tail := EscapeEach(value[1..]) + rest;
      assert EscapeEach(value) + rest == Quoted(value[0]) + tail;
      MatchesQuoted(value[0], tail, text, fold);
      if text != "" {
        MatchesEscaped(value[1..], rest, text[1..], fold);
        StartsWithCons(text, value, fold);
        if |value| <= |text| { assert text[1..][|value| - 1..] == text[|value|..]; }
      }
    }
  }

  lemma StartsWithCons(text: string, value: string, fold: char -> char)
    requires text != "" && value != ""
    ensures StartsWith(text, value, fold) <==>
            fold(value[0]) == fold(text[0]) && StartsWith(text[1..], value[1..], fold)
  {
    if |value| <= |text| {
      var t := text[..|value|];
      assert text[1..][..|value| - 1] == t[1..];
      if fold(value[0]) == fold(text[0]) && Same(value[1..], t[1..], fold) {
        forall i | 0 <= i < |value|
          ensures fold(value[i]) == fold(t[i])
        {
          if i > 0 { assert value[1..][i - 1] == value[i] && t[1..][i - 1] == t[i]; }
        }
      }
      if Same(value, t, fold) {
        forall i | 0 <= i < |value| - 1
          ensures fold(value[1..][i]) == fold(t[1..][i])
        {
          assert value[1..][i] == value[i + 1] && t[1..][i] == t[i + 1];
        }
      }
    }
  }

  lemma {:induction false} PercentMatches(text: string, fold: char -> char)
    ensures Matches("%", text, fold)
    decreases |text|
  {
    assert "%"[1..] == "";
    if text != "" { PercentMatches(text[1..], fold); }
  }

  /** A leading % lets the rest of the pattern match from any position. */
  lemma {:induction false} PercentSkips(rest: string, text: string, fold: char -> char)
    ensures Matches("%" + rest, text, fold) <==> exists i :: 0 <= i <= |text| && Matches(rest, text[i..], fold)
    decreases |text|
  {
    var p := "%" + rest;
    assert p[0] == '%' && p[1..] == rest;
    assert text[0..] == text;
    if text != "" {
      PercentSkips(rest, text[1..], fold);
      if i :| 0 <= i <= |text[1..]| && Matches(rest, text[1..][i..], fold) {
        assert text[1..][i..] == text[i + 1..];
      }
      if i :| 0 < i <= |text| && Matches(rest, text[i..], fold) {
        assert text[1..][i - 1..] == text[i..];
      }
    }
  }

  /** The startswith pattern. */
  lemma StartsWithExact(value: string, text: string, fold: char -> char)
    ensures Matches(EscapeLike(value) + "%", text, fold) <==> StartsWith(text, value, fold)
  {
    ThreePassesAreOne(value);
    MatchesEscaped(value, "%", text, fold);
    if |value| <= |text| { PercentMatches(text[|value|..], fold); }
  }

  /** The endswith pattern. */
  lemma EndsWithExact(value: string, text: string, fold: char -> char)
    ensures Matches("%" + EscapeLike(value), text, fold) <==> EndsWith(text, value, fold)
  {
    ThreePassesAreOne(value);
    PercentSkips(EscapeEach(value), text, fold);
    forall i | 0 <= i <= |text|
      ensures Matches(EscapeEach(value), text[i..], fold) <==> i == |text| - |value| && EndsWith(text, value, fold)
    {
      assert EscapeEach(value) + "" == EscapeEach(value);
      MatchesEscaped(value, "", text[i..], fold);
      if |value| == |text[i..]| { assert text[i..][..|value|] == text[|text| - |value|..]; }
    }
    if EndsWith(text, value, fold) { assert Matches(EscapeEach(value), text[|text| - |value|..], fold); }
  }

  /** The contains and icontains pattern. */
  lemma ContainsExact(value: string, text: string, fold: char -> char)
    ensures Matches("%" + EscapeLike(value) + "%", text, fold) <==> Contains(text, value, fold)
  {
    assert "%" + EscapeLike(value) + "%" == "%" + (EscapeLike(value) + "%");
    PercentSkips(EscapeLike(value) + "%", text, fold);
    forall i | 0 <= i <= |text|
      ensures Matches(EscapeLike(value) + "%", text[i..], fold) <==> StartsWith(text[i..], value, fold)
    {
      StartsWithExact(value, text[i..], fold);
    }
  }
}
