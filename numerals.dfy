/** Decimal digit strings: the zero-padded fields of dates and times and the
    integer part of formatted numbers. */
module Numerals {

  predicate IsDigit(c: char) { '0' <= c <= '9' }

  /** The value of a digit character; other characters count as 0 and
      are rejected by the parsers before their value matters. */
  function DigitValue(c: char): (v: nat)
    ensures v < 10
  {
    if IsDigit(c) then c as int - '0' as int else 0
  }

  function DigitChar(v: nat): (c: char)
    requires v < 10
    ensures IsDigit(c) && DigitValue(c) == v
  {
    ('0' as int + v) as char
  }

  /** Every character is a decimal digit (stated recursively, from the
      last character, like ValueOf). */
  predicate AllDigits(s: string) {
    |s| == 0 || (AllDigits(s[..|s| - 1]) && IsDigit(s[|s| - 1]))
  }

  lemma {:induction false} AllDigitsAt(s: string)
    ensures AllDigits(s) <==> forall i :: 0 <= i < |s| ==> IsDigit(s[i])
  {
    if |s| > 0 {
      var init := s[..|s| - 1];
      AllDigitsAt(init);
      assert forall i :: 0 <= i < |init| ==> init[i] == s[i];
    }
  }

  /** Any slice of a digit string is a digit string. */
  lemma AllDigitsSlice(s: string, a: nat, b: nat)
    requires AllDigits(s) && a <= b <= |s|
    ensures AllDigits(s[a..b])
    ensures b == |s| ==> AllDigits(s[a..])
  {
    assert s[a..|s|] == s[a..];
    AllDigitsAt(s);
    AllDigitsAt(s[a..b]);
    assert forall i :: 0 <= i < b - a ==> s[a..b][i] == s[a + i];
  }

  function Pow10(n: nat): (p: nat)
    ensures p >= 1
  {
    if n == 0 then 1 else 10 * Pow10(n - 1)
  }

  /** The number a string of digits denotes, most significant digit first. */
  function ValueOf(s: string): nat {
    if |s| == 0 then 0 else 10 * ValueOf(s[..|s| - 1]) + DigitValue(s[|s| - 1])
  }

  lemma {:induction false} ValueOfBound(s: string)
    ensures ValueOf(s) < Pow10(|s|)
  {
    if |s| > 0 {
      ValueOfBound(s[..|s| - 1]);
    }
  }

  /** The low `width` digits of n, zero-padded on the left (Python's `%02d`
      and `%04d` for values that fit). */
  function Padded(n: nat, width: nat): (s: string)
    ensures |s| == width && AllDigits(s)
  {
    if width == 0 then "" else Padded(n / 10, width - 1) + [DigitChar(n % 10)]
  }

  lemma {:induction false} PaddedValue(n: nat, width: nat)
    requires n < Pow10(width)
    ensures ValueOf(Padded(n, width)) == n
  {
    if width > 0 {
      var s := Padded(n, width);
      assert s[..|s| - 1] == Padded(n / 10, width - 1);
      PaddedValue(n / 10, width - 1);
    }
  }

  lemma {:induction false} PaddedOfValue(s: string)
    requires AllDigits(s)
    ensures Padded(ValueOf(s), |s|) == s
  {
    if |s| > 0 {
      var init, last := s[..|s| - 1], s[|s| - 1];
      PaddedOfValue(init);
      LastDigit(ValueOf(init), DigitValue(last));
      assert DigitChar(DigitValue(last)) == last;
      assert s == init + [last];
    }
  }

  /** Splitting off the last decimal digit. */
  lemma LastDigit(a: nat, d: nat)
    requires d < 10
    ensures (10 * a + d) / 10 == a && (10 * a + d) % 10 == d
  {
  }

  /** Decimal numeral without leading zeros ("0" for zero), as `str(n)`. */
  function Numeral(n: nat): (s: string)
    ensures |s| >= 1 && AllDigits(s)
  {
    if n < 10 then [DigitChar(n)] else Numeral(n / 10) + [DigitChar(n % 10)]
  }

  lemma {:induction false} NumeralValue(n: nat)
    ensures ValueOf(Numeral(n)) == n
  {
    if n >= 10 {
      var s := Numeral(n);
      assert s[..|s| - 1] == Numeral(n / 10);
      NumeralValue(n / 10);
    }
  }
}
