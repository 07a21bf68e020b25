/** Decimal rendering of natural numbers, as Python's `str()` renders a
    non-negative `int`, together with the parse that undoes it. The prompt
    labels use it for the 1-based resume number and the page number. */
module Decimal {

  predicate IsDigit(c: char) {
    '0' <= c <= '9'
  }

  predicate AllDigits(s: string) {
    forall i :: 0 <= i < |s| ==> IsDigit(s[i])
  }

  function DigitChar(d: nat): (c: char)
    requires d < 10
    ensures IsDigit(c)
  {
    (('0' as int) + d) as char
  }

  function DigitValue(c: char): (d: nat)
    requires IsDigit(c)
    ensures d < 10
  {
    (c as int) - ('0' as int)
  }

  /** The shortest decimal numeral of `n`: at least one digit, and no leading zero. */
  function FromNat(n: nat): (s: string)
    ensures |s| >= 1
    ensures AllDigits(s)
    ensures s[0] == '0' ==> n == 0 && |s| == 1
    decreases n
  {
    if n < 10 then [DigitChar(n)]
    else FromNat(n / 10) + [DigitChar(n % 10)]
  }

  /** A number below ten is written as its one digit. */
  lemma SingleDigit(n: nat)
    requires n < 10
    ensures FromNat(n) == [(('0' as int) + n) as char]
  {
  }

  /** The value of a string of decimal digits (the empty string reads as 0). */
  function ToNat(s: string): (n: nat)
    requires AllDigits(s)
    decreases |s|
  {
    if s == [] then 0
    else 10 * ToNat(s[..|s| - 1]) + DigitValue(s[|s| - 1])
  }

  /** Reading back a rendered number gives the number. */
  lemma {:induction false} ToNatFromNat(n: nat)
    ensures ToNat(FromNat(n)) == n
    decreases n
  {
    var s := FromNat(n);
    if n < 10 {
      assert s == [DigitChar(n)];
      assert s[..|s| - 1] == [];
    } else {
      assert s[..|s| - 1] == FromNat(n / 10);
      ToNatFromNat(n / 10);
    }
  }

  /** Distinct numbers get distinct numerals. */
  lemma FromNatInjective(a: nat, b: nat)
    ensures FromNat(a) == FromNat(b) ==> a == b
  {
    ToNatFromNat(a);
    ToNatFromNat(b);
  }

  /** The longest prefix of `s` made of digits. */
  function LeadingDigits(s: string): (d: string)
    ensures AllDigits(d)
    ensures d <= s
    ensures |d| < |s| ==> !IsDigit(s[|d|])
    decreases |s|
  {
    if s == [] || !IsDigit(s[0]) then []
    else [s[0]] + LeadingDigits(s[1..])
  }

  /** A numeral followed by a non-digit is exactly the leading digit run. */
  lemma {:induction false} LeadingDigitsOfNumeral(d: string, rest: string)
    requires AllDigits(d)
    requires rest == [] || !IsDigit(rest[0])
    ensures LeadingDigits(d + rest) == d
    decreases |d|
  {
    if d != [] {
      assert (d + rest)[1..] == d[1..] + rest;
      LeadingDigitsOfNumeral(d[1..], rest);
    }
  }

  /** `text` starts with `word` followed by the numeral of `n`. */
  predicate NumeralAfter(text: string, word: string, n: nat) {
    && word <= text
    && ToNat(LeadingDigits(text[|word|..])) == n
  }

  /** A numeral placed after a word and before a non-digit reads back as
      its number. */
  lemma NumeralReadsBack(word: string, n: nat, rest: string)
    requires rest == [] || !IsDigit(rest[0])
    ensures NumeralAfter(word + FromNat(n) + rest, word, n)
  {
    var text := word + FromNat(n) + rest;
    assert text[|word|..] == FromNat(n) + rest;
    LeadingDigitsOfNumeral(FromNat(n), rest);
    ToNatFromNat(n);
  }
}
