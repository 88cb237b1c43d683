/**
 * Decimal rendering of natural numbers, as Python's `str(n)` / f-string
 * formatting writes them (no sign, no leading zeros), and the inverse
 * reading of a canonical digit string.
 */
module Decimal {

  predicate IsDigit(c: char) { '0' <= c <= '9' }

  function DigitChar(d: nat): (c: char)
    requires d < 10
    ensures IsDigit(c)
  {
    ('0' as int + d) as char
  }

  function DigitValue(c: char): (d: nat)
    requires IsDigit(c)
    ensures d < 10
  {
    (c as int - '0' as int) as nat
  }

  /** A digit string as Python prints a non-negative int: non-empty, and no leading zero unless it is "0". */
  predicate IsCanonical(s: string)
  {
    |s| > 0 && (forall i :: 0 <= i < |s| ==> IsDigit(s[i])) && (|s| == 1 || s[0] != '0')
  }

  /** `str(n)` for a non-negative Python int. */
  function Show(n: nat): (s: string)
    ensures IsCanonical(s)
    ensures |s| == 1 <==> n < 10
  {
    if n < 10 then [DigitChar(n)] else Show(n / 10) + [DigitChar(n % 10)]
  }

  /** The number a string of digits denotes, most significant digit first. */
  function Value(s: string): nat
    requires forall i :: 0 <= i < |s| ==> IsDigit(s[i])
  {
    if s == [] then 0 else Value(s[..|s| - 1]) * 10 + DigitValue(s[|s| - 1])
  }

  lemma {:induction false} ValueOfShow(n: nat)
    ensures Value(Show(n)) == n
  {
    if n >= 10 {
      var s := Show(n);
      assert s[..|s| - 1] == Show(n / 10);
      ValueOfShow(n / 10);
    }
  }

  lemma {:induction false} ValuePositive(s: string)
    requires IsCanonical(s) && s[0] != '0'
    ensures Value(s) >= 1
  {
    if |s| > 1 {
      ValuePositive(s[..|s| - 1]);
    }
  }

  lemma {:induction false} ShowOfValue(s: string)
    requires IsCanonical(s)
    ensures Show(Value(s)) == s
  {
    if |s| > 1 {
      var init := s[..|s| - 1];
      ValuePositive(init);
      ShowOfValue(init);
      assert Show(Value(s)) == Show(Value(init)) + [DigitChar(DigitValue(s[|s| - 1]))];
    }
  }

  /** Reading a canonical digit string is the exact inverse of printing a number. */
  lemma ShowIsBijective(n: nat, s: string)
    ensures Show(n) == s <==> (IsCanonical(s) && Value(s) == n)
  {
    ValueOfShow(n);
    if IsCanonical(s) { ShowOfValue(s); }
  }
}
