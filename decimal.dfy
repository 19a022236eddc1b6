/**
 * Decimal rendering and parsing of integers: `String.valueOf(int)` and
 * `Integer.parseInt` restricted to ASCII digits, over unbounded integers.
 */
module Decimal {
  import opened Wrappers

  predicate IsDigit(c: char) {
    '0' <= c <= '9'
  }

  predicate AllDigits(s: string) {
    forall i :: 0 <= i < |s| ==> IsDigit(s[i])
  }

  function DigitChar(d: nat): (c: char)
    requires d < 10
    ensures IsDigit(c) && (c as int) - ('0' as int) == d
  {
    ('0' as int + d) as char
  }

  /** The value of a run of decimal digits, most significant first. */
  function DigitsValue(s: string): nat
    requires AllDigits(s)
  {
    if s == [] then 0
    else 10 * DigitsValue(s[..|s| - 1]) + ((s[|s| - 1] as int) - ('0' as int))
  }

  /** Shortest decimal rendering of a natural number. */
  function NatToString(n: nat): (s: string)
    ensures |s| >= 1 && AllDigits(s)
    ensures |s| > 1 ==> s[0] != '0'
    ensures s[0] == '0' <==> n == 0
  {
    if n < 10 then [DigitChar(n)]
    else NatToString(n / 10) + [DigitChar(n % 10)]
  }

  /** `String.valueOf(int)`: a minus sign for negative values, then the digits. */
  function IntToString(i: int): (s: string)
    ensures |s| >= 1
    ensures i >= 0 ==> AllDigits(s) && (|s| > 1 ==> s[0] != '0')
    ensures i < 0 ==> |s| >= 2 && s[0] == '-' && AllDigits(s[1..]) && s[1] != '0'
  {
    if i < 0 then "-" + NatToString(-i) else NatToString(i)
  }

  /**
   * `Integer.parseInt`: an optional sign followed by at least one digit;
   * anything else is a number format error (None).
   */
  function ParseInt(s: string): (r: Option<int>)
    ensures r.Some? <==> (|s| >= 1 && AllDigits(s)) ||
                         (|s| >= 2 && (s[0] == '-' || s[0] == '+') && AllDigits(s[1..]))
  {
    if |s| >= 1 && AllDigits(s) then Some(DigitsValue(s))
    else if |s| >= 2 && s[0] == '-' && AllDigits(s[1..]) then Some(-(DigitsValue(s[1..]) as int))
    else if |s| >= 2 && s[0] == '+' && AllDigits(s[1..]) then Some(DigitsValue(s[1..]))
    else None
  }

  lemma {:induction false} DigitsValueOfNatToString(n: nat)
    ensures DigitsValue(NatToString(n)) == n
  {
    var s := NatToString(n);
    if n >= 10 {
      DigitsValueOfNatToString(n / 10);
      assert s[..|s| - 1] == NatToString(n / 10);
    }
  }

  /**
   * The form `String.valueOf(int)` gives: digits with no leading zero, or a
   * minus sign followed by such digits that are not zero.
   */
  predicate Canonical(s: string) {
    || (|s| >= 1 && AllDigits(s) && (|s| > 1 ==> s[0] != '0'))
    || (|s| >= 2 && s[0] == '-' && AllDigits(s[1..]) && s[1] != '0')
  }

  /** Digits that do not start with zero have a positive value. */
  lemma {:induction false} LeadingDigitPositive(s: string)
    requires |s| >= 1 && AllDigits(s) && s[0] != '0'
    ensures DigitsValue(s) >= 1
    decreases |s|
  {
    if |s| > 1 {
      LeadingDigitPositive(s[..|s| - 1]);
    }
  }

  /** Digits with no leading zero are the rendering of their value. */
  lemma {:induction false} NatToStringOfDigits(s: string)
    requires |s| >= 1 && AllDigits(s) && (|s| > 1 ==> s[0] != '0')
    ensures NatToString(DigitsValue(s)) == s
    decreases |s|
  {
    var n := DigitsValue(s);
    if |s| == 1 {
      assert s[..|s| - 1] == [] && DigitsValue(s[..|s| - 1]) == 0;
      assert IsDigit(s[0]) && n == (s[0] as int) - ('0' as int) < 10;
      assert NatToString(n) == [DigitChar(n)];
    } else {
      var t := s[..|s| - 1];
      LeadingDigitPositive(t);
      NatToStringOfDigits(t);
      assert n / 10 == DigitsValue(t) && n % 10 == (s[|s| - 1] as int) - ('0' as int);
      assert s == t + [s[|s| - 1]];
    }
  }

  /**
   * The rendering is the only string of that form parsing to the integer, so
   * `Canonical` and `ParseInt` together pin down `IntToString`.
   */
  lemma {:induction false} IntToStringUnique(s: string, i: int)
    requires Canonical(s) && ParseInt(s) == Some(i)
    ensures s == IntToString(i)
  {
    if |s| >= 1 && AllDigits(s) && (|s| > 1 ==> s[0] != '0') {
      NatToStringOfDigits(s);
    } else {
      var t := s[1..];
      assert !IsDigit(s[0]);
      LeadingDigitPositive(t);
      NatToStringOfDigits(t);
      assert s == "-" + t;
    }
  }

  /** Parsing the rendering of any integer gives that integer back. */
  lemma {:induction false} ParseIntOfIntToString(i: int)
    ensures ParseInt(IntToString(i)) == Some(i)
  {
    var s := IntToString(i);
    if i < 0 {
      var digits := NatToString(-i);
      assert s == "-" + digits;
      assert s[1..] == digits;
      assert !IsDigit(s[0]);
      assert !AllDigits(s);
      DigitsValueOfNatToString(-i);
    } else {
      DigitsValueOfNatToString(i);
    }
  }
}
