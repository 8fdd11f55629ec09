/** Decimal numerals: the value of a digit string, and the digits of a number. */
module Decimal {
  import opened Wrappers

  predicate IsDigit(c: char) {
    '0' <= c <= '9'
  }

  predicate AllDigits(s: string) {
    forall i :: 0 <= i < |s| ==> IsDigit(s[i])
  }

  function DigitValue(c: char): (d: nat)
    requires IsDigit(c)
    ensures d < 10
  {
    (c as int) - ('0' as int)
  }

  /** The number a digit string denotes; the empty string denotes zero. */
  function Value(s: string): nat
    requires AllDigits(s)
  {
    if s == [] then 0 else 10 * Value(s[..|s| - 1]) + DigitValue(s[|s| - 1])
  }

  function Pow10(n: nat): (p: nat)
    ensures p > 0
  {
    if n == 0 then 1 else 10 * Pow10(n - 1)
  }

  lemma {:induction false} ValueBelowPower(s: string)
    requires AllDigits(s)
    ensures Value(s) < Pow10(|s|)
  {
    if s != [] {
      ValueBelowPower(s[..|s| - 1]);
    }
  }

  lemma {:induction false} LeadingDigitBound(s: string)
    requires AllDigits(s) && s != [] && s[0] != '0'
    ensures Pow10(|s| - 1) <= Value(s)
  {
    if |s| > 1 {
      LeadingDigitBound(s[..|s| - 1]);
    } else {
      assert s[..0] == [];
    }
  }

  lemma {:induction false} PowerMonotone(m: nat, n: nat)
    requires m <= n
    ensures Pow10(m) <= Pow10(n)
  {
    if m < n {
      PowerMonotone(m, n - 1);
    }
  }

  /** Without leading zeros, the longer numeral denotes the larger number. */
  lemma LongerIsLarger(s: string, t: string)
    requires AllDigits(s) && AllDigits(t) && |s| < |t| && t[0] != '0'
    ensures Value(s) < Value(t)
  {
    ValueBelowPower(s);
    LeadingDigitBound(t);
    PowerMonotone(|s|, |t| - 1);
  }

  lemma ShiftDigit(v: nat, p: nat, w: nat, d: nat)
    ensures 10 * (v * p + w) + d == v * (10 * p) + (10 * w + d)
  {
    assert 10 * (v * p) == v * (10 * p);
  }

  lemma {:induction false} ValueOfConcat(s: string, t: string)
    requires AllDigits(s) && AllDigits(t)
    ensures AllDigits(s + t) && Value(s + t) == Value(s) * Pow10(|t|) + Value(t)
  {
    if t == [] {
      assert s + t == s;
    } else {
      var t' := t[..|t| - 1];
      assert (s + t)[..|s + t| - 1] == s + t';
      ValueOfConcat(s, t');
      ShiftDigit(Value(s), Pow10(|t'|), Value(t'), DigitValue(t[|t| - 1]));
    }
  }

  lemma {:induction false} ZerosHaveNoValue(s: string)
    requires forall i :: 0 <= i < |s| ==> s[i] == '0'
    ensures AllDigits(s) && Value(s) == 0
  {
    if s != [] {
      ZerosHaveNoValue(s[..|s| - 1]);
    }
  }

  lemma {:induction false} SameLengthSameValue(s: string, t: string)
    requires AllDigits(s) && AllDigits(t) && |s| == |t| && Value(s) == Value(t)
    ensures s == t
  {
    if s != [] {
      var n := |s| - 1;
      assert DigitValue(s[n]) == Value(s) % 10 && DigitValue(t[n]) == Value(t) % 10;
      SameLengthSameValue(s[..n], t[..n]);
      assert s == s[..n] + [s[n]] && t == t[..n] + [t[n]];
    }
  }

  /** `n.to_string()` for an unsigned integer. */
  function ToDecimal(n: nat): (s: string)
    ensures s != [] && AllDigits(s)
    ensures Value(s) == n
    ensures |s| > 1 ==> s[0] != '0'
  {
    var digit := '0' + ((n % 10) as char);
    if n < 10 then
      assert [digit][..0] == [];
      [digit]
    else
      var front := ToDecimal(n / 10);
      assert (front + [digit])[..|front|] == front;
      front + [digit]
  }

  /** `str::parse` for a `u64` or `usize`: an optional plus sign, at least one digit, and no overflow. */
  function ParseUnsigned(s: string): (r: Option<nat>)
    ensures r.Some? ==> r.value <= U64_MAX
  {
    var digits := if s != [] && s[0] == '+' then s[1..] else s;
    if digits != [] && AllDigits(digits) && Value(digits) <= U64_MAX then Some(Value(digits)) else None
  }

  /** Exactly the numerals up to the limit are parsed, with or without a plus sign. */
  lemma ParseUnsignedIff(s: string, n: nat)
    ensures ParseUnsigned(s) == Some(n)
        <==> n <= U64_MAX && exists t :: t != [] && AllDigits(t) && Value(t) == n && (s == t || s == "+" + t)
  {
    if ParseUnsigned(s) == Some(n) {
      var t := if s[0] == '+' then s[1..] else s;
      assert s == t || s == "+" + t;
    }
    if t :| t != [] && AllDigits(t) && Value(t) == n && (s == t || s == "+" + t) {
      assert IsDigit(t[0]) && ("+" + t)[1..] == t;
    }
  }

  lemma ParseInvertsToDecimal(n: nat)
    requires n <= U64_MAX
    ensures ParseUnsigned(ToDecimal(n)) == Some(n)
  {
    assert IsDigit(ToDecimal(n)[0]);
  }
}
