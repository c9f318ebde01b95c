/**
 * `formatDate` of index.js: a date as `DD.MM.YYYY`. The calendar fields come
 * in as integers (what `getDate()`, `getMonth()` and `getFullYear()` return);
 * the number-to-text conversion is JavaScript's for integers, and
 * `('0' + n).slice(-2)` is written out as "the last two characters".
 * `ParseDate` reads such a string back; the round trip is proved.
 */
module Dates {
  import opened Wrappers

  predicate IsDigit(c: char) {
    '0' <= c <= '9'
  }

  predicate AllDigits(s: string) {
    forall i :: 0 <= i < |s| ==> IsDigit(s[i])
  }

  function DigitChar(d: nat): (c: char)
    requires d < 10
    ensures IsDigit(c) && c as int - '0' as int == d
  {
    ('0' as int + d) as char
  }

  /** The number a string of decimal digits denotes (leading zeros allowed). */
  function DigitsValue(s: string): nat
    requires AllDigits(s)
  {
    if s == [] then 0 else 10 * DigitsValue(s[..|s| - 1]) + (s[|s| - 1] as int - '0' as int)
  }

  /** `String(n)` for a non-negative integer: its decimal digits, no leading zero. */
  function NatToString(n: nat): (s: string)
    ensures |s| >= 1 && AllDigits(s)
    ensures |s| > 1 ==> s[0] != '0'
    ensures s[|s| - 1] == DigitChar(n % 10)
  {
    if n < 10 then [DigitChar(n)] else NatToString(n / 10) + [DigitChar(n % 10)]
  }

  /** `String(i)` for any integer: a minus sign before the digits of a negative one. */
  function IntToString(i: int): (s: string)
    ensures |s| >= 1
    ensures i < 0 <==> s[0] == '-'
  {
    if i < 0 then "-" + NatToString(-i) else NatToString(i)
  }

  /** Reads back what IntToString writes; None for any other text. */
  function ParseInt(s: string): (r: Option<int>)
  {
    if |s| >= 2 && s[0] == '-' && AllDigits(s[1..]) then Some(0 - DigitsValue(s[1..]))
    else if |s| >= 1 && AllDigits(s) then Some(DigitsValue(s))
    else None
  }

  lemma {:induction false} NatToStringValue(n: nat)
    ensures DigitsValue(NatToString(n)) == n
  {
    var s := NatToString(n);
    if n >= 10 {
      NatToStringValue(n / 10);
      assert s[..|s| - 1] == NatToString(n / 10);
    }
  }

  lemma IntToStringRoundTrip(i: int)
    ensures ParseInt(IntToString(i)) == Some(i)
  {
    var s := IntToString(i);
    if i < 0 {
      var digits := NatToString(-i);
      assert s == "-" + digits && s[1..] == digits;
      NatToStringValue(-i);
      assert ParseInt(s) == Some(0 - DigitsValue(digits));
    } else {
      assert s == NatToString(i) && IsDigit(s[0]);
      NatToStringValue(i);
      assert ParseInt(s) == Some(DigitsValue(s));
    }
  }

  lemma {:induction false} HundredsDropped(a: nat, b: nat)
    requires b < 100
    ensures (100 * a + b) % 100 == b
  {
    if a > 0 {
      HundredsDropped(a - 1, b);
      assert 100 * a + b == (100 * (a - 1) + b) + 100;
    }
  }

  lemma LastTwoDigitsValue(n: nat)
    ensures n % 100 == 10 * ((n / 10) % 10) + n % 10
  {
    var q := n / 10;
    var a, d1, d0 := q / 10, q % 10, n % 10;
    assert n == 10 * q + d0;
    assert q == 10 * a + d1;
    assert n == 100 * a + (10 * d1 + d0);
    HundredsDropped(a, 10 * d1 + d0);
  }

  /** `('0' + n).slice(-2)`: the last two characters of n's digits after a leading '0'. */
  function TwoDigits(n: nat): (r: string)
    ensures |r| == 2 && AllDigits(r)
    ensures DigitsValue(r) == n % 100
  {
    var s := "0" + NatToString(n);
    var r := s[|s| - 2..];
    assert r[1] == DigitChar(n % 10);
    if n < 10 then
      assert r == ['0', DigitChar(n)] && r[..1] == ['0'] && r[..1][..0] == [];
      assert DigitsValue(r[..1]) == 0;
      r
    else
      assert r[0] == NatToString(n / 10)[|NatToString(n / 10)| - 1] == DigitChar((n / 10) % 10);
      assert r[..1] == [r[0]] && r[..1][..0] == [];
      assert DigitsValue(r[..1]) == (n / 10) % 10;
      LastTwoDigitsValue(n);
      r
  }

  /** `formatDate`: day, then the 1-based month, each as two digits, then the year, joined by dots. */
  function FormatDate(day: nat, monthIndex: nat, year: int): (r: string)
    ensures |r| == 6 + |IntToString(year)|
    ensures r[2] == '.' && r[5] == '.'
    ensures AllDigits(r[..2]) && DigitsValue(r[..2]) == day % 100
    ensures AllDigits(r[3..5]) && DigitsValue(r[3..5]) == (monthIndex + 1) % 100
    ensures r[6..] == IntToString(year)
  {
    var r := TwoDigits(day) + "." + TwoDigits(monthIndex + 1) + "." + IntToString(year);
    assert r[..2] == TwoDigits(day);
    assert r[3..5] == TwoDigits(monthIndex + 1);
    r
  }

  /** Splits `DD.MM.YYYY` into day, month and year; None for any other text. */
  function ParseDate(s: string): (r: Option<(nat, nat, int)>)
  {
    if |s| >= 7 && s[2] == '.' && s[5] == '.' && AllDigits(s[..2]) && AllDigits(s[3..5]) && ParseInt(s[6..]).Some?
    then Some((DigitsValue(s[..2]), DigitsValue(s[3..5]), ParseInt(s[6..]).value))
    else None
  }

  /**
   * The formatted date reads back as the day, the 1-based month and the year
   * (day and month modulo 100, since only two characters of each are kept).
   */
  lemma FormatDateRoundTrip(day: nat, monthIndex: nat, year: int)
    ensures ParseDate(FormatDate(day, monthIndex, year)) == Some((day % 100, (monthIndex + 1) % 100, year))
  {
    IntToStringRoundTrip(year);
  }
}
