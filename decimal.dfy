/** Decimal rendering of counts. Every id in the store is made by `String(n)` for a
    non-negative count `n`; this module defines that rendering, its inverse, and the
    shape of the strings it produces. */
module Decimal {

  predicate IsDigit(c: char) {
    '0' <= c <= '9'
  }

  predicate IsDecimal(s: string) {
    forall i :: 0 <= i < |s| ==> IsDigit(s[i])
  }

  /** The strings `String(n)` can produce: digits only, non-empty, no leading zero
      except in "0" itself. */
  predicate IsCanonicalDecimal(s: string) {
    |s| > 0 && IsDecimal(s) && (s[0] == '0' ==> |s| == 1)
  }

  function DigitValue(c: char): (d: nat)
    requires IsDigit(c)
    ensures d < 10
  {
    c as int - '0' as int
  }

  function DigitChar(d: nat): (c: char)
    requires d < 10
    ensures IsDigit(c) && DigitValue(c) == d
  {
    (d + '0' as int) as char
  }

  /** The number a string of digits denotes, most significant digit first. */
  function DecimalValue(s: string): nat
    requires IsDecimal(s)
  {
    if s == [] then 0 else DecimalValue(s[..|s| - 1]) * 10 + DigitValue(s[|s| - 1])
  }

  /** `String(n)` for a count `n`: a canonical decimal string that denotes `n`. */
  function NatToString(n: nat): (s: string)
    ensures IsCanonicalDecimal(s)
    ensures DecimalValue(s) == n
  {
    if n < 10 then
      var s := [DigitChar(n)];
      assert s[..0] == [];
      s
    else
      var t := NatToString(n / 10);
      var s := t + [DigitChar(n % 10)];
      assert s[..|s| - 1] == t;
      assert t[0] == '0' ==> t == "0" by {
        if t[0] == '0' { assert |t| == 1 && t[..0] == []; }
      }
      s
  }

  /** A canonical string that starts with a non-zero digit denotes a positive number. */
  lemma {:induction false} LeadingDigitPositive(s: string)
    requires IsDecimal(s) && |s| > 0 && s[0] != '0'
    ensures DecimalValue(s) >= 1
  {
    if |s| == 1 {
      assert s[..0] == [];
    } else {
      var t := s[..|s| - 1];
      assert t[0] == s[0];
      LeadingDigitPositive(t);
    }
  }

  /** Every canonical decimal string is `String` of its own value: reading an id back
      and rendering it again gives the same id. */
  lemma {:induction false} CanonicalRoundTrip(s: string)
    requires IsCanonicalDecimal(s)
    ensures NatToString(DecimalValue(s)) == s
  {
    var n := DecimalValue(s);
    if |s| == 1 {
      assert s[..0] == [] && DecimalValue(s[..0]) == 0;
      assert n == DigitValue(s[0]);
      assert DigitChar(n) == s[0];
    } else {
      var t := s[..|s| - 1];
      var d := DigitValue(s[|s| - 1]);
      assert t[0] == s[0];
      LeadingDigitPositive(t);
      CanonicalRoundTrip(t);
      assert n == DecimalValue(t) * 10 + d;
      assert n / 10 == DecimalValue(t) && n % 10 == d;
      assert DigitChar(d) == s[|s| - 1];
      assert s == t + [s[|s| - 1]];
    }
  }

  /** Distinct counts render to distinct ids. */
  lemma NatToStringInjective(m: nat, n: nat)
    requires m != n
    ensures NatToString(m) != NatToString(n)
  {
  }
}
