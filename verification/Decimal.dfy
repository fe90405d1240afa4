/** Decimal digit strings of any length, and the numbers they stand for. */
module Decimal {
  predicate IsDigit(c: char) { '0' <= c <= '9' }

  predicate AllDigits(s: string) { forall i :: 0 <= i < |s| ==> IsDigit(s[i]) }

  function DigitValue(c: char): nat
    requires IsDigit(c)
  {
    (c - '0') as nat
  }

  function Value(s: string): nat
    requires AllDigits(s)
  {
    if s == [] then 0 else 10 * Value(s[..|s| - 1]) + DigitValue(s[|s| - 1])
  }

  function Pow10(n: nat): nat
  {
    if n == 0 then 1 else 10 * Pow10(n - 1)
  }

  /** v * 10^n, one factor of ten at a time. */
  function Scaled(v: nat, n: nat): nat
  {
    if n == 0 then v else 10 * Scaled(v, n - 1)
  }

  lemma {:induction false} ScaledIsProduct(v: nat, n: nat)
    ensures Scaled(v, n) == v * Pow10(n)
  {
    if n > 0 {
      ScaledIsProduct(v, n - 1);
      var p := Pow10(n - 1);
      assert v * (10 * p) == 10 * (v * p);
    }
  }

  lemma {:induction false} ScaledZero(n: nat)
    ensures Scaled(0, n) == 0
  {
    if n > 0 { ScaledZero(n - 1); }
  }

  /** Different numbers stay a full power of ten apart. */
  lemma {:induction false} ScaledGap(x: nat, y: nat, n: nat)
    requires x < y
    ensures Scaled(x, n) + Scaled(1, n) <= Scaled(y, n)
  {
    if n > 0 { ScaledGap(x, y, n - 1); }
  }

  lemma {:induction false} ScaledMonotone(a: nat, b: nat)
    requires a <= b
    ensures 1 <= Scaled(1, a) <= Scaled(1, b)
    decreases b
  {
    if a < b { ScaledMonotone(a, b - 1); } else if a > 0 { ScaledMonotone(a - 1, b - 1); }
  }

  function Zeros(n: nat): string { seq(n, _ => '0') }

  /** `trim_start_matches('0')`. */
  function StripLeading(s: string): (r: string)
    ensures r == [] || r[0] != '0'
    ensures AllDigits(s) ==> AllDigits(r)
  {
    if s != [] && s[0] == '0' then StripLeading(s[1..]) else s
  }

  /** `trim_end_matches('0')`. */
  function StripTrailing(s: string): (r: string)
    ensures r == [] || r[|r| - 1] != '0'
    ensures r <= s
  {
    if s != [] && s[|s| - 1] == '0' then StripTrailing(s[..|s| - 1]) else s
  }

  lemma {:induction false} ValueConcat(a: string, b: string)
    requires AllDigits(a) && AllDigits(b)
    ensures AllDigits(a + b) && Value(a + b) == Scaled(Value(a), |b|) + Value(b)
    decreases |b|
  {
    if b == [] {
      assert a + b == a;
    } else {
      var init := b[..|b| - 1];
      ValueConcat(a, init);
      assert (a + b)[..|a + b| - 1] == a + init;
    }
  }

  lemma {:induction false} ValueZeros(n: nat)
    ensures AllDigits(Zeros(n)) && Value(Zeros(n)) == 0
  {
    if n > 0 {
      ValueZeros(n - 1);
      assert Zeros(n)[..n - 1] == Zeros(n - 1);
    }
  }

  lemma {:induction false} ValueBound(s: string)
    requires AllDigits(s)
    ensures Value(s) < Scaled(1, |s|)
  {
    if s != [] { ValueBound(s[..|s| - 1]); }
  }

  lemma {:induction false} StripLeadingValue(s: string)
    requires AllDigits(s)
    ensures Value(StripLeading(s)) == Value(s)
  {
    if s != [] && s[0] == '0' {
      StripLeadingValue(s[1..]);
      ValueConcat(s[..1], s[1..]);
      assert s[..1] + s[1..] == s;
      assert Value(s[..1]) == 0 by { assert s[..1][..0] == []; }
      ScaledZero(|s| - 1);
    }
  }

  /** What StripTrailing removes is a run of zeros. */
  lemma {:induction false} StripTrailingZeros(s: string)
    ensures StripTrailing(s) + Zeros(|s| - |StripTrailing(s)|) == s
  {
    if s != [] && s[|s| - 1] == '0' {
      var init := s[..|s| - 1];
      StripTrailingZeros(init);
      var n := |init| - |StripTrailing(init)|;
      assert Zeros(n + 1) == Zeros(n) + ['0'];
      assert s == init + ['0'];
    }
  }

  /** Padding with zeros on the right scales by a power of ten. */
  lemma PaddedValue(s: string, n: nat)
    requires AllDigits(s)
    ensures AllDigits(s + Zeros(n)) && Value(s + Zeros(n)) == Scaled(Value(s), n)
  {
    ValueZeros(n);
    ValueConcat(s, Zeros(n));
  }

  /** Among digit strings of one length, the value determines the string. */
  lemma {:induction false} SameLengthUnique(a: string, b: string)
    requires AllDigits(a) && AllDigits(b) && |a| == |b| && Value(a) == Value(b)
    ensures a == b
  {
    if a != [] {
      var x, y := a[..|a| - 1], b[..|b| - 1];
      assert 10 * Value(x) + DigitValue(a[|a| - 1]) == 10 * Value(y) + DigitValue(b[|b| - 1]);
      SameLengthUnique(x, y);
      assert forall i :: 0 <= i < |x| ==> a[i] == x[i] && b[i] == y[i];
    }
  }

  lemma {:induction false} LeadingDigitBound(s: string)
    requires AllDigits(s) && s != [] && s[0] != '0'
    ensures Value(s) >= Scaled(1, |s| - 1)
  {
    if |s| > 1 {
      LeadingDigitBound(s[..|s| - 1]);
    } else {
      assert s[..0] == [];
    }
  }

  /** Without leading zeros, the value determines the string. */
  lemma StrippedUnique(a: string, b: string)
    requires AllDigits(a) && AllDigits(b) && Value(a) == Value(b)
    requires (a == [] || a[0] != '0') && (b == [] || b[0] != '0')
    ensures a == b
  {
    if |a| < |b| {
      LeadingDigitBound(b);
      ValueBound(a);
      ScaledMonotone(|a|, |b| - 1);
    } else if |b| < |a| {
      LeadingDigitBound(a);
      ValueBound(b);
      ScaledMonotone(|b|, |a| - 1);
    } else {
      SameLengthUnique(a, b);
    }
  }

  /** `n.to_string()`. */
  function Print(n: nat): (s: string)
    ensures s != [] && AllDigits(s) && Value(s) == n
  {
    var digit := ['0' + (n % 10) as char];
    assert digit[..0] == [] && Value(digit) == n % 10;
    if n < 10 then digit else
      var front := Print(n / 10);
      assert (front + digit)[..|front|] == front;
      front + digit
  }
}
