/** Decimal strings of non-negative integers: what a BigInt's `toString()` writes and
    what `BigInt(s)` reads back from a string of decimal digits. */
module Decimal {

  predicate IsDigit(c: char)
  {
    '0' <= c <= '9'
  }

  predicate IsDigits(s: string)
  {
    forall i :: 0 <= i < |s| ==> IsDigit(s[i])
  }

  /** A string `toString()` can produce: at least one digit and no leading zero. */
  predicate IsCanonical(s: string)
  {
    IsDigits(s) && |s| >= 1 && (s[0] == '0' ==> |s| == 1)
  }

  function DigitValue(c: char): (d: nat)
    requires IsDigit(c)
    ensures d < 10
  {
    c as int - '0' as int
  }

  function DigitChar(d: nat): (c: char)
    requires d < 10
    ensures IsDigit(c) && DigitValue(c) == d
  {
    ('0' as int + d) as char
  }

  /** The number a string of decimal digits denotes (leading zeros allowed, '' is 0). */
  function DigitsValue(s: string): (n: nat)
    requires IsDigits(s)
    ensures n == 0 <==> forall i :: 0 <= i < |s| ==> s[i] == '0'
  {
    if s == [] then 0
    else
      var init := s[..|s| - 1];
      assert forall i :: 0 <= i < |init| ==> init[i] == s[i];
      DigitsValue(init) * 10 + DigitValue(s[|s| - 1])
  }

  /** `n.toString()` for a non-negative BigInt `n`. */
  function ToDecimal(n: nat): (s: string)
    ensures IsCanonical(s)
    ensures |s| == 1 <==> n < 10
  {
    if n < 10 then [DigitChar(n)] else ToDecimal(n / 10) + [DigitChar(n % 10)]
  }

  /** Reading back what `toString()` wrote gives the number again. */
  lemma {:induction false} DigitsValueOfToDecimal(n: nat)
    ensures DigitsValue(ToDecimal(n)) == n
  {
    if n >= 10 {
      DigitsValueOfToDecimal(n / 10);
      var s := ToDecimal(n);
      assert s[..|s| - 1] == ToDecimal(n / 10);
    }
  }

  /** Writing out the value of a canonical string gives the same string back. */
  lemma {:induction false} ToDecimalOfDigitsValue(s: string)
    requires IsCanonical(s)
    ensures ToDecimal(DigitsValue(s)) == s
  {
    var p, c := s[..|s| - 1], s[|s| - 1];
    var n := DigitsValue(s);
    if |s| == 1 {
      assert p == [];
      assert DigitChar(DigitValue(c)) == c;
      assert s == [c];
    } else {
      assert p[0] == s[0] != '0';
      assert IsCanonical(p);
      ToDecimalOfDigitsValue(p);
      assert DigitsValue(p) != 0;
      var v, d := DigitsValue(p), DigitValue(c);
      assert n == v * 10 + d;
      assert n / 10 == v && n % 10 == d;
      assert DigitChar(d) == c;
      assert s == p + [c];
    }
  }
}
