/** Decimal numerals as text: how an unsigned integer is printed, and how the
    standard unsigned parsers of the source language read one back. */
module Decimals {
  import opened Options

  const DIGITS: string := "0123456789"

  predicate IsDigit(c: char) {
    '0' <= c <= '9'
  }

  function DigitValue(c: char): (d: nat)
    requires IsDigit(c)
    ensures d < 10
  {
    (c - '0') as nat
  }

  predicate AllDigits(s: string) {
    forall i :: 0 <= i < |s| ==> IsDigit(s[i])
  }

  function Print(n: nat): (s: string)
    ensures |s| > 0 && AllDigits(s)
  {
    if n < 10 then [DIGITS[n]] else Print(n / 10) + [DIGITS[n % 10]]
  }

  function Value(s: string): nat
    requires AllDigits(s)
  {
    if s == "" then 0 else 10 * Value(s[..|s| - 1]) + DigitValue(s[|s| - 1])
  }

  /** Unsigned parsing with an upper bound: an optional plus sign, then at least
      one digit and nothing else; a value above the bound is an overflow. */
  function ParseUnsigned(s: string, bound: nat): Option<nat> {
    var digits := if |s| > 0 && s[0] == '+' then s[1..] else s;
    if digits == "" || !AllDigits(digits) || Value(digits) > bound then None else Some(Value(digits))
  }

  lemma {:induction false} ValueOfPrint(n: nat)
    ensures Value(Print(n)) == n
  {
    var s := Print(n);
    if n < 10 {
      assert s[..|s| - 1] == "";
    } else {
      ValueOfPrint(n / 10);
      assert s[..|s| - 1] == Print(n / 10);
    }
  }

  /** Printing and parsing are inverse, so numerals are distinct. */
  lemma PrintThenParse(n: nat, bound: nat)
    ensures ParseUnsigned(Print(n), bound) == if n <= bound then Some(n) else None
  {
    ValueOfPrint(n);
    assert Print(n)[0] != '+';
  }

  /** A numeral without redundant leading zeros is the printed form of its value. */
  lemma {:induction false} PrintOfValue(s: string)
    requires s != "" && AllDigits(s)
    requires s[0] != '0' || |s| == 1
    ensures Print(Value(s)) == s
  {
    var front, last := s[..|s| - 1], s[|s| - 1];
    assert s == front + [last];
    DigitIsPrinted(last);
    if front != "" {
      PositiveValue(front);
      PrintOfValue(front);
      assert Value(s) / 10 == Value(front) && Value(s) % 10 == DigitValue(last);
    }
  }

  lemma DigitIsPrinted(c: char)
    requires IsDigit(c)
    ensures DIGITS[DigitValue(c)] == c
  {
  }

  lemma {:induction false} PositiveValue(s: string)
    requires s != "" && AllDigits(s) && s[0] != '0'
    ensures Value(s) > 0
  {
    if |s| > 1 {
      PositiveValue(s[..|s| - 1]);
    }
  }

  /** A printed numeral never starts with a zero unless it is zero. */
  lemma {:induction false} PrintedLead(n: nat)
    ensures Print(n)[0] != '0' || |Print(n)| == 1
    ensures n > 0 ==> Print(n)[0] != '0'
  {
    if n >= 10 {
      PrintedLead(n / 10);
    }
  }
}
