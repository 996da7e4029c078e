/** Decimal digit strings: the ASCII reading of Python's `str.isdigit` and the
    value `int` gives such a string. */
module Decimal {

  predicate IsDigit(c: char) {
    '0' <= c <= '9'
  }

  /** Every character is a decimal digit (the empty string included). */
  predicate AllDigits(s: string) {
    forall i :: 0 <= i < |s| ==> IsDigit(s[i])
  }

  /** `str.isdigit` on ASCII text: at least one character, all of them digits. */
  predicate IsDigitString(s: string) {
    |s| > 0 && AllDigits(s)
  }

  function DigitValue(c: char): (d: nat)
    requires IsDigit(c)
    ensures d < 10
  {
    (c as int) - ('0' as int)
  }

  /** The digit character for `d`; the inverse of DigitValue. */
  function DigitChar(d: nat): (c: char)
    requires d < 10
    ensures IsDigit(c) && DigitValue(c) == d
  {
    (('0' as int) + d) as char
  }

  function Pow10(n: nat): (p: nat)
    ensures p >= 1
  {
    if n == 0 then 1 else 10 * Pow10(n - 1)
  }

  /** Positional base-10 value of a digit string, most significant digit
      first; the empty string has value 0. */
  function Value(s: string): (n: nat)
    requires AllDigits(s)
    ensures n < Pow10(|s|)
    decreases |s|
  {
    if |s| == 0 then 0
    else Value(s[..|s| - 1]) * 10 + DigitValue(s[|s| - 1])
  }

  /** Canonical decimal notation of `n`: no leading zero except for "0". */
  function ToDecimal(n: nat): (s: string)
    ensures IsDigitString(s)
    ensures Value(s) == n
    ensures s[0] == '0' ==> s == "0"
    decreases n
  {
    if n < 10 then [DigitChar(n)]
    else
      var front := ToDecimal(n / 10);
      var s := front + [DigitChar(n % 10)];
      assert s[..|s| - 1] == front;
      s
  }

  /** Value of a concatenation: the left part is shifted by the length of the
      right part. */
  lemma {:induction false} ValueAppend(a: string, b: string)
    requires AllDigits(a) && AllDigits(b)
    ensures AllDigits(a + b)
    ensures Value(a + b) == Value(a) * Pow10(|b|) + Value(b)
    decreases |b|
  {
    if |b| == 0 {
      assert a + b == a;
    } else {
      var b' := b[..|b| - 1];
      ValueAppend(a, b');
      assert (a + b)[..|a + b| - 1] == a + b';
      assert Pow10(|b|) == Pow10(|b'|) * 10;
      ShiftStep(Value(a), Pow10(|b'|), Value(b'), DigitValue(b[|b| - 1]));
    }
  }

  /** The arithmetic of one step of ValueAppend. */
  lemma ShiftStep(va: int, p: int, vb: int, d: int)
    ensures (va * p + vb) * 10 + d == va * (p * 10) + (vb * 10 + d)
  {
    assert (va * p + vb) * 10 == (va * p) * 10 + vb * 10;
    assert (va * p) * 10 == va * (p * 10);
  }

  /** A run of '0' characters, possibly empty. */
  predicate Zeros(z: string) {
    forall i :: 0 <= i < |z| ==> z[i] == '0'
  }

  /** A string of zeros has value 0. */
  lemma {:induction false} ZerosValue(z: string)
    requires Zeros(z)
    ensures AllDigits(z) && Value(z) == 0
    decreases |z|
  {
    if |z| > 0 {
      ZerosValue(z[..|z| - 1]);
    }
  }

  /** Leading zeros do not change the value: "007" and "7" are both 7. */
  lemma LeadingZeros(z: string, s: string)
    requires Zeros(z)
    requires AllDigits(s)
    ensures AllDigits(z + s)
    ensures Value(z + s) == Value(s)
  {
    ZerosValue(z);
    ValueAppend(z, s);
  }

  /** Two digit strings of the same length have the same value only if they
      are the same string: base-10 notation is unambiguous once the length is
      fixed. */
  lemma {:induction false} ValueInjective(a: string, b: string)
    requires AllDigits(a) && AllDigits(b) && |a| == |b|
    requires Value(a) == Value(b)
    ensures a == b
    decreases |a|
  {
    if |a| > 0 {
      var n := |a| - 1;
      assert Value(a) % 10 == DigitValue(a[n]);
      assert Value(b) % 10 == DigitValue(b[n]);
      assert a[n] == b[n];
      ValueInjective(a[..n], b[..n]);
      assert a == a[..n] + [a[n]];
      assert b == b[..n] + [b[n]];
    }
  }

  /** A digit string whose first digit is not '0' is worth at least
      10^(length - 1): it has no shorter notation. */
  lemma LeadingDigitBound(s: string)
    requires IsDigitString(s) && s[0] != '0'
    ensures Value(s) >= Pow10(|s| - 1)
  {
    var c, t := s[..1], s[1..];
    assert c + t == s;
    assert c[..0] == [];
    assert Value(c) == DigitValue(s[0]) >= 1;
    ValueAppend(c, t);
    AtLeastOnce(Value(c), Pow10(|t|));
  }

  lemma AtLeastOnce(k: int, p: int)
    requires k >= 1 && p >= 0
    ensures k * p >= p
  {
  }

  /** Two notations of the same number, neither with a leading zero, have
      the same length. */
  lemma SameLength(s: string, t: string)
    requires IsDigitString(s) && s[0] != '0'
    requires IsDigitString(t) && t[0] != '0'
    requires Value(s) == Value(t)
    ensures |s| == |t|
  {
    LeadingDigitBound(s);
    LeadingDigitBound(t);
  }

  /** A digit string without a superfluous leading zero is the canonical
      notation of its own value. */
  lemma CanonicalUnique(s: string)
    requires IsDigitString(s) && (s[0] != '0' || s == "0")
    ensures s == ToDecimal(Value(s))
  {
    var v := Value(s);
    var t := ToDecimal(v);
    if s == "0" {
      assert s[..0] == [];
      assert v == 0;
    } else {
      LeadingDigitBound(s);
      assert t[0] != '0';
      SameLength(s, t);
      ValueInjective(s, t);
    }
  }

  /** A decimal notation with zeros in front. */
  function Padded(z: string, n: nat): string {
    z + ToDecimal(n)
  }

  /** Every digit string is the canonical notation of its value with some
      zeros in front. */
  lemma {:induction false} DigitStringForm(s: string)
    requires IsDigitString(s)
    ensures exists z :: Zeros(z) && s == Padded(z, Value(s))
    decreases |s|
  {
    if s[0] != '0' || s == "0" {
      CanonicalUnique(s);
      assert Zeros([]) && s == Padded([], Value(s));
    } else {
      var t := s[1..];
      assert s == ['0'] + t;
      LeadingZeros(['0'], t);
      DigitStringForm(t);
      var z :| Zeros(z) && t == Padded(z, Value(t));
      assert Zeros(['0'] + z);
      assert s == Padded(['0'] + z, Value(s));
    }
  }

  /** `isdigit` on ASCII text holds exactly for the decimal notations of the
      naturals, each with any number of zeros in front; the padded notation
      of `n` is worth `n`. */
  lemma DigitStringIffPadded(s: string)
    ensures IsDigitString(s) <==> exists z, n :: Zeros(z) && s == Padded(z, n)
    ensures forall z, n :: Zeros(z) && s == Padded(z, n) ==> Value(s) == n
  {
    if IsDigitString(s) {
      DigitStringForm(s);
    }
    forall z, n | Zeros(z) && s == Padded(z, n)
      ensures IsDigitString(s) && Value(s) == n
    {
      LeadingZeros(z, ToDecimal(n));
    }
  }
}
