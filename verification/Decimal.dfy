/** Base-ten text of integers, as Go's strconv and fmt write and read it. */
module Decimal {

  datatype Parsed = NotANumber | Number(value: int)

  function Digit(n: nat): (c: char)
    requires n < 10
  {
    '0' + n as char
  }

  /** The text of a non-negative integer, without a sign or leading zeros. */
  function NatText(n: nat): (s: string)
    ensures s != "" && AllDigits(s)
    ensures if n == 0 then s == "0" else s[0] != '0'
  {
    if n < 10 then [Digit(n)] else NatText(n / 10) + [Digit(n % 10)]
  }

  predicate IsDigit(c: char) {
    '0' <= c <= '9'
  }

  predicate AllDigits(s: string) {
    forall c :: c in s ==> IsDigit(c)
  }

  function DigitsValue(s: string): (n: nat)
    requires AllDigits(s)
  {
    if s == "" then 0
    else
      assert s[|s| - 1] in s;
      10 * DigitsValue(s[..|s| - 1]) + (s[|s| - 1] as int - '0' as int)
  }

  /** Reading back the text of n gives n, so distinct numbers have distinct texts. */
  lemma {:induction false} NatTextRoundTrip(n: nat)
    ensures DigitsValue(NatText(n)) == n
  {
    var s := NatText(n);
    if n < 10 {
      assert s[..|s| - 1] == "";
    } else {
      NatTextRoundTrip(n / 10);
      assert s[..|s| - 1] == NatText(n / 10);
    }
  }

  lemma NatTextInjective(m: nat, n: nat)
    requires NatText(m) == NatText(n)
    ensures m == n
  {
    NatTextRoundTrip(m);
    NatTextRoundTrip(n);
  }

  predicate AllZeros(s: string) {
    forall c :: c in s ==> c == '0'
  }

  /** The text is the one of n behind any number of zeros. */
  ghost predicate Numeral(s: string, n: nat) {
    exists zeros :: AllZeros(zeros) && s == zeros + NatText(n)
  }

  lemma {:induction false} LeadingZeros(zeros: string, s: string)
    requires AllZeros(zeros) && AllDigits(s)
    ensures AllDigits(zeros + s) && DigitsValue(zeros + s) == DigitsValue(s)
    decreases |zeros|
  {
    var n := |zeros| - 1;
    if n < 0 {
      assert zeros + s == s;
    } else {
      assert zeros[n] in zeros && forall c :: c in zeros[..n] ==> c in zeros;
      assert zeros + s == zeros[..n] + ("0" + s);
      LeadingZero(s);
      LeadingZeros(zeros[..n], "0" + s);
    }
  }

  lemma {:induction false} LeadingZero(s: string)
    requires AllDigits(s)
    ensures AllDigits("0" + s) && DigitsValue("0" + s) == DigitsValue(s)
  {
    var t := "0" + s;
    assert forall c :: c in t ==> c == '0' || c in s;
    if s == "" {
      assert t[..0] == "";
    } else {
      assert t[..|t| - 1] == "0" + s[..|s| - 1];
      assert forall c :: c in s[..|s| - 1] ==> c in s;
      LeadingZero(s[..|s| - 1]);
      assert t[|t| - 1] == s[|s| - 1];
    }
  }

  /** Digits have the value n exactly when they are the text of n behind zeros. */
  lemma DigitsValueIff(s: string, n: nat)
    requires s != "" && AllDigits(s)
    ensures DigitsValue(s) == n <==> Numeral(s, n)
  {
    ValueNumeral(s);
    if Numeral(s, n) {
      var zeros :| AllZeros(zeros) && s == zeros + NatText(n);
      LeadingZeros(zeros, NatText(n));
      NatTextRoundTrip(n);
    }
  }

  lemma {:induction false} ValueNumeral(s: string)
    requires s != "" && AllDigits(s)
    ensures Numeral(s, DigitsValue(s))
  {
    var front, last := s[..|s| - 1], s[|s| - 1];
    assert last in s && forall c :: c in front ==> c in s;
    var n := last as int - '0' as int;
    assert s == front + [Digit(n)];
    if front == "" {
      assert s == "" + NatText(n);
    } else {
      ValueNumeral(front);
      var v := DigitsValue(front);
      var zeros :| AllZeros(zeros) && front == zeros + NatText(v);
      NextNumeral(zeros, v, n);
    }
  }

  lemma NextNumeral(zeros: string, v: nat, n: nat)
    requires AllZeros(zeros) && n < 10
    ensures Numeral(zeros + NatText(v) + [Digit(n)], 10 * v + n)
  {
    var s := zeros + NatText(v) + [Digit(n)];
    if v == 0 {
      assert s == (zeros + "0") + NatText(n) && AllZeros(zeros + "0");
    } else {
      NextText(v, n);
      assert s == zeros + (NatText(v) + [Digit(n)]);
    }
  }

  lemma NextText(v: nat, n: nat)
    requires v > 0 && n < 10
    ensures NatText(10 * v + n) == NatText(v) + [Digit(n)]
  {
    assert (10 * v + n) / 10 == v && (10 * v + n) % 10 == n;
  }

  /** The text of an integer, with a minus sign when it is negative. */
  function IntText(n: int): (s: string) {
    if n < 0 then "-" + NatText(-n) else NatText(n)
  }

  const MIN_INT64 := -0x8000_0000_0000_0000
  const MAX_INT64 := 0x7FFF_FFFF_FFFF_FFFF

  /** ParseInt(s, 10, 64): an optional sign, then digits, within range. */
  function ParseInt64(s: string): Parsed {
    var digits := if s != "" && (s[0] == '-' || s[0] == '+') then s[1..] else s;
    if digits == "" || !AllDigits(digits) then NotANumber
    else
      var n: int := if s[0] == '-' then 0 - DigitsValue(digits) else DigitsValue(digits);
      if MIN_INT64 <= n <= MAX_INT64 then Number(n) else NotANumber
  }

  /** The text writes n in digits, behind a minus sign if n is negative and perhaps behind a
      sign otherwise; a minus sign in front of zeros is zero. */
  ghost predicate Writes(s: string, n: int) {
    || (n >= 0 && Numeral(s, n))
    || (n >= 0 && "+" <= s && Numeral(s[1..], n))
    || (n <= 0 && "-" <= s && Numeral(s[1..], -n))
  }

  lemma NumeralDigits(s: string, n: nat)
    requires Numeral(s, n)
    ensures s != "" && AllDigits(s) && IsDigit(s[0])
  {
    var zeros :| AllZeros(zeros) && s == zeros + NatText(n);
    LeadingZeros(zeros, NatText(n));
    assert s[0] in s;
  }

  lemma ValueWritten(s: string, n: int)
    requires s != "" && AllDigits(s)
    ensures DigitsValue(s) == n <==> n >= 0 && Numeral(s, n)
  {
    if n >= 0 { DigitsValueIff(s, n); }
  }

  lemma WritesDigits(s: string, n: int)
    requires Writes(s, n)
    ensures var digits := if s != "" && (s[0] == '-' || s[0] == '+') then s[1..] else s;
            digits != "" && AllDigits(digits)
  {
    if n >= 0 && Numeral(s, n) {
      NumeralDigits(s, n);
    } else {
      NumeralDigits(s[1..], if n < 0 then -n else n);
    }
  }

  /** A text parses as n exactly when it writes n and n is in range; every other text is
      no number. */
  lemma ParseIntIff(s: string, n: int)
    ensures ParseInt64(s) == Number(n) <==> MIN_INT64 <= n <= MAX_INT64 && Writes(s, n)
    ensures ParseInt64(s).NotANumber? <==> forall m :: MIN_INT64 <= m <= MAX_INT64 ==> !Writes(s, m)
  {
    forall m ensures ParseInt64(s) == Number(m) <==> MIN_INT64 <= m <= MAX_INT64 && Writes(s, m) {
      ParsesAs(s, m);
    }
  }

  lemma ParsesAs(s: string, n: int)
    ensures ParseInt64(s) == Number(n) <==> MIN_INT64 <= n <= MAX_INT64 && Writes(s, n)
  {
    var signed := s != "" && (s[0] == '-' || s[0] == '+');
    var digits := if signed then s[1..] else s;
    if digits == "" || !AllDigits(digits) {
      if Writes(s, n) { WritesDigits(s, n); }
    } else {
      ValueWritten(digits, n);
      ValueWritten(digits, -n);
      if signed && n >= 0 && Numeral(s, n) {
        NumeralDigits(s, n);
      }
    }
  }

  /** Parsing undoes formatting exactly on the 64-bit range. */
  lemma ParseIntText(n: int)
    ensures ParseInt64(IntText(n)) == if MIN_INT64 <= n <= MAX_INT64 then Number(n) else NotANumber
  {
    var digits := NatText(if n < 0 then -n else n);
    NatTextRoundTrip(if n < 0 then -n else n);
    assert digits[0] in digits;
    if n < 0 {
      assert IntText(n)[1..] == digits;
    }
  }

  lemma IntTextInjective(m: int, n: int)
    requires IntText(m) == IntText(n)
    ensures m == n
  {
    var a, b := NatText(if m < 0 then -m else m), NatText(if n < 0 then -n else n);
    assert a[0] in a && b[0] in b;
    assert m < 0 ==> IntText(m)[1..] == a;
    assert n < 0 ==> IntText(n)[1..] == b;
    NatTextInjective(if m < 0 then -m else m, if n < 0 then -n else n);
  }

  /** The text of an integer starts and ends with a sign or a digit. */
  lemma IntTextEnds(n: int)
    ensures var s := IntText(n); s != "" && (s[0] == '-' || IsDigit(s[0])) && IsDigit(s[|s| - 1])
  {
    var digits := NatText(if n < 0 then -n else n);
    assert digits[0] in digits && digits[|digits| - 1] in digits;
  }
}
