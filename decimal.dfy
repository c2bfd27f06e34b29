/**
  Decimal rendering of the task ids: the service turns the random number it
  draws into an id with Go's `strconv.Itoa`. This module models that step on
  natural numbers and gives its inverse, so that a generated id can be read
  back as the number it came from.
 */
module Decimal {

  predicate IsDigit(c: char) {
    '0' <= c <= '9'
  }

  predicate AllDigits(s: string) {
    forall i :: 0 <= i < |s| ==> IsDigit(s[i])
  }

  /** The form `strconv.Itoa` gives a non-negative number: at least one digit,
      and no leading zero unless the number is zero itself. */
  predicate IsCanonical(s: string) {
    |s| > 0 && AllDigits(s) && (s[0] == '0' ==> |s| == 1)
  }

  function DigitChar(d: nat): (c: char)
    requires d < 10
    ensures IsDigit(c)
  {
    ('0' as int + d) as char
  }

  function DigitValue(c: char): (d: nat)
    requires IsDigit(c)
    ensures d < 10
    ensures DigitChar(d) == c
  {
    c as int - '0' as int
  }

  function Pow10(k: nat): (p: nat)
    ensures p >= 1
  {
    if k == 0 then 1 else 10 * Pow10(k - 1)
  }

  /** `strconv.Itoa` on a number that is never negative. */
  function Itoa(n: nat): (s: string)
    ensures IsCanonical(s)
    ensures (s[0] == '0') == (n == 0)
    ensures (|s| == 1) == (n < 10)
    decreases n
  {
    if n < 10 then [DigitChar(n)] else Itoa(n / 10) + [DigitChar(n % 10)]
  }

  /** Reads a digit string, most significant digit first. */
  function Atoi(s: string): nat
    requires AllDigits(s)
  {
    if s == [] then 0 else Atoi(s[..|s| - 1]) * 10 + DigitValue(s[|s| - 1])
  }

  /** Reading a rendered number back gives the number. */
  lemma {:induction false} AtoiItoa(n: nat)
    ensures Atoi(Itoa(n)) == n
    decreases n
  {
    var s := Itoa(n);
    if n >= 10 {
      AtoiItoa(n / 10);
      assert s[..|s| - 1] == Itoa(n / 10);
    }
  }

  /** Distinct numbers give distinct ids, and the same number the same id. */
  lemma ItoaInjective(m: nat, n: nat)
    ensures Itoa(m) == Itoa(n) <==> m == n
  {
    AtoiItoa(m);
    AtoiItoa(n);
  }

  /** A canonical digit string of length k stands for a number of at least
      10^(k-1) (of at least 0 for the single digit "0"). */
  lemma {:induction false} AtoiLowerBound(s: string)
    requires IsCanonical(s)
    ensures |s| >= 2 ==> Atoi(s) >= Pow10(|s| - 1)
    ensures Atoi(s) < Pow10(|s|)
    decreases |s|
  {
    AtoiUpperBound(s);
    if |s| >= 2 {
      var p := s[..|s| - 1];
      assert p[0] == s[0];
      AtoiLowerBound(p);
    }
  }

  lemma {:induction false} AtoiUpperBound(s: string)
    requires AllDigits(s)
    ensures Atoi(s) < Pow10(|s|)
    decreases |s|
  {
    if s != [] {
      AtoiUpperBound(s[..|s| - 1]);
    }
  }

  /** Every canonical digit string is the rendering of the number it reads
      as: together with AtoiItoa, Itoa is a bijection from the naturals onto
      the canonical strings. */
  lemma {:induction false} ItoaAtoi(s: string)
    requires IsCanonical(s)
    ensures Itoa(Atoi(s)) == s
    decreases |s|
  {
    if |s| >= 2 {
      var p := s[..|s| - 1];
      assert p[0] == s[0];
      AtoiLowerBound(s);
      assert Pow10(|s| - 1) >= 10 by {
        assert Pow10(|s| - 1) == 10 * Pow10(|s| - 2);
      }
      ItoaAtoi(p);
      assert Atoi(s) / 10 == Atoi(p);
      assert Atoi(s) % 10 == DigitValue(s[|s| - 1]);
      assert s == p + [s[|s| - 1]];
    }
  }

  /** A number below 10^k is rendered with at most k digits; the ids the
      service draws below 10000 therefore have one to four digits. */
  lemma {:induction false} ItoaLength(n: nat, k: nat)
    requires 1 <= k && n < Pow10(k)
    ensures |Itoa(n)| <= k
    decreases n
  {
    if n >= 10 {
      assert k >= 2;
      assert n / 10 < Pow10(k - 1) by {
        assert Pow10(k) == 10 * Pow10(k - 1);
      }
      ItoaLength(n / 10, k - 1);
      assert Itoa(n) == Itoa(n / 10) + [DigitChar(n % 10)];
    }
  }
}
