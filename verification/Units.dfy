/** Decimal formatting of raw token amounts (crates/payments/src/units.rs). */
module Units {
  import opened Common
  import opened Decimal
  import Text

  /** The digits left after the leading zeros, one zero kept for nothing. */
  function Significant(t: string): string
  {
    if StripLeading(t) == [] then "0" else StripLeading(t)
  }

  /** The digits before the point. */
  function Whole(digits: string, d: nat): string
  {
    if |digits| > d then digits[..|digits| - d] else "0"
  }

  /** The d digits after the point, zero-padded on the left. */
  function Padded(digits: string, d: nat): string
  {
    if |digits| > d then digits[|digits| - d..] else Zeros(d - |digits|) + digits
  }

  /** Format a raw on-chain integer with the token's own decimals. */
  function FormatUnits(raw: string, decimals: nat): Option<string>
  {
    var trimmed := Text.Trim(raw);
    if trimmed == [] || !AllDigits(trimmed) then None else
      var digits := Significant(trimmed);
      if decimals == 0 then Some(digits) else
        var frac := StripTrailing(Padded(digits, decimals));
        Some(if frac == [] then Whole(digits, decimals) else Whole(digits, decimals) + "." + frac)
  }

  // ---- Reading the output back ----------------------------------------------------

  /** The whole and the fractional digits of a printed amount. */
  function Parts(s: string): (string, string)
  {
    match Text.SplitOnce(s, '.')
    case Some((whole, frac)) => (whole, frac)
    case None => (s, "")
  }

  /** A plain decimal with at most `decimals` fractional digits. */
  predicate Readable(s: string, decimals: nat)
  {
    AllDigits(Parts(s).0) && AllDigits(Parts(s).1) && |Parts(s).1| <= decimals
  }

  /** The printed amount times 10^decimals, which is a whole number. */
  function ScaledValue(s: string, decimals: nat): nat
    requires Readable(s, decimals)
  {
    Scaled(Value(Parts(s).0), decimals) + Scaled(Value(Parts(s).1), decimals - |Parts(s).1|)
  }

  /** No redundant leading zero, no trailing fractional zero, no bare point. */
  predicate Canonical(s: string, decimals: nat)
  {
    && Readable(s, decimals)
    && Parts(s).0 != []
    && (Parts(s).0 == "0" || Parts(s).0[0] != '0')
    && ('.' in s ==> Parts(s).1 != [])
    && (Parts(s).1 == [] || Parts(s).1[|Parts(s).1| - 1] != '0')
  }

  /** How a canonical string is put together again from its parts. */
  lemma CanonicalRebuilt(s: string, decimals: nat)
    requires Canonical(s, decimals)
    ensures s == if Parts(s).1 == [] then Parts(s).0 else Parts(s).0 + "." + Parts(s).1
  {
    var i := Text.IndexOf(s, '.');
    if i < |s| { assert s == s[..i] + [s[i]] + s[i + 1..]; }
  }

  lemma PartsOf(whole: string, frac: string)
    requires AllDigits(whole)
    ensures Parts(whole) == (whole, "")
    ensures Parts(whole + "." + frac) == (whole, frac)
  {
    Text.SplitOnceJoined(whole, '.', frac);
  }

  /** Cutting digits in two loses nothing. */
  lemma CutValue(digits: string, d: nat)
    requires AllDigits(digits) && |digits| > d
    ensures Value(digits) == Scaled(Value(digits[..|digits| - d]), d) + Value(digits[|digits| - d..])
  {
    var cut := |digits| - d;
    ValueConcat(digits[..cut], digits[cut..]);
    assert digits[..cut] + digits[cut..] == digits;
  }

  function Printed(whole: string, frac: string): string
  {
    if frac == [] then whole else whole + "." + frac
  }

  lemma PrintedParts(whole: string, frac: string)
    requires AllDigits(whole) && AllDigits(frac)
    ensures Parts(Printed(whole, frac)) == (whole, frac)
    ensures frac == [] ==> '.' !in Printed(whole, frac)
  {
    PartsOf(whole, frac);
  }

  /** Whole and padded fraction, printed with the fraction's zeros stripped. */
  lemma JoinedReads(whole: string, padded: string)
    requires AllDigits(whole) && AllDigits(padded)
    requires whole == "0" || (whole != [] && whole[0] != '0')
    ensures var s := Printed(whole, StripTrailing(padded));
      Canonical(s, |padded|) && ScaledValue(s, |padded|) == Scaled(Value(whole), |padded|) + Value(padded)
  {
    var frac := StripTrailing(padded);
    assert AllDigits(frac);
    PrintedParts(whole, frac);
    StripTrailingZeros(padded);
    PaddedValue(frac, |padded| - |frac|);
  }

  lemma SignificantValue(t: string)
    requires AllDigits(t) && t != []
    ensures AllDigits(Significant(t)) && Value(Significant(t)) == Value(t)
    ensures Significant(t) == "0" || (Significant(t) != [] && Significant(t)[0] != '0')
  {
    StripLeadingValue(t);
    assert Value("0") == 0 by { assert "0"[..0] == []; }
    assert Value([]) == 0;
  }

  lemma WholeAndPadded(digits: string, d: nat)
    requires AllDigits(digits) && (digits == "0" || (digits != [] && digits[0] != '0'))
    ensures var w, p := Whole(digits, d), Padded(digits, d);
      && AllDigits(w) && AllDigits(p) && |p| == d && (w == "0" || (w != [] && w[0] != '0'))
      && Scaled(Value(w), d) + Value(p) == Value(digits)
  {
    if |digits| > d {
      CutValue(digits, d);
    } else {
      assert Value("0") == 0 by { assert "0"[..0] == []; }
      ScaledZero(d);
      ScaledZero(|digits|);
      ValueZeros(d - |digits|);
      ValueConcat(Zeros(d - |digits|), digits);
    }
  }

  /** The early return for tokens without decimals prints like the rest. */
  lemma FormatShape(raw: string, decimals: nat)
    requires Text.Trim(raw) != [] && AllDigits(Text.Trim(raw))
    ensures var digits := Significant(Text.Trim(raw));
      FormatUnits(raw, decimals) == Some(Printed(Whole(digits, decimals), StripTrailing(Padded(digits, decimals))))
  {
    var digits := Significant(Text.Trim(raw));
    if decimals == 0 { assert digits[..|digits|] == digits && digits[|digits|..] == []; }
  }

  /** Exactness and canonical form: the output reads back as the raw value. */
  lemma FormatExact(raw: string, decimals: nat)
    ensures var t := Text.Trim(raw);
      match FormatUnits(raw, decimals)
      case None => t == [] || !AllDigits(t)
      case Some(s) => t != [] && AllDigits(t) && Canonical(s, decimals) && ScaledValue(s, decimals) == Value(t)
  {
    var t := Text.Trim(raw);
    if t != [] && AllDigits(t) {
      var digits := Significant(t);
      SignificantValue(t);
      WholeAndPadded(digits, decimals);
      JoinedReads(Whole(digits, decimals), Padded(digits, decimals));
      FormatShape(raw, decimals);
    }
  }

  /** Any two canonical decimals that read alike are the same string. */
  lemma CanonicalUnique(a: string, b: string, decimals: nat)
    requires Canonical(a, decimals) && Canonical(b, decimals)
    requires ScaledValue(a, decimals) == ScaledValue(b, decimals)
    ensures a == b
  {
    PaddedParts(a, decimals);
    PaddedParts(b, decimals);
    var pa, pb := Padding(Parts(a).1, decimals), Padding(Parts(b).1, decimals);
    MixedRadixUnique(Value(Parts(a).0), Value(Parts(b).0), Value(pa), Value(pb), decimals);
    SameLengthUnique(pa, pb);
    PaddingUnique(Parts(a).1, Parts(b).1, decimals);
    WholeUnique(Parts(a).0, Parts(b).0);
    CanonicalRebuilt(a, decimals);
    CanonicalRebuilt(b, decimals);
  }

  function Padding(frac: string, n: nat): string
    requires |frac| <= n
  {
    frac + Zeros(n - |frac|)
  }

  lemma PaddedParts(s: string, decimals: nat)
    requires Readable(s, decimals)
    ensures var p := Padding(Parts(s).1, decimals);
      && AllDigits(p) && |p| == decimals && Value(p) < Scaled(1, decimals)
      && ScaledValue(s, decimals) == Scaled(Value(Parts(s).0), decimals) + Value(p)
  {
    PaddedValue(Parts(s).1, decimals - |Parts(s).1|);
    ValueBound(Padding(Parts(s).1, decimals));
  }

  lemma MixedRadixUnique(x: nat, y: nat, r: nat, s: nat, n: nat)
    requires r < Scaled(1, n) && s < Scaled(1, n) && Scaled(x, n) + r == Scaled(y, n) + s
    ensures x == y && r == s
  {
    if x < y { ScaledGap(x, y, n); }
    if y < x { ScaledGap(y, x, n); }
  }

  lemma WholeUnique(a: string, b: string)
    requires AllDigits(a) && AllDigits(b) && a != [] && b != [] && Value(a) == Value(b)
    requires (a == "0" || a[0] != '0') && (b == "0" || b[0] != '0')
    ensures a == b
  {
    assert Value("0") == 0 by { assert "0"[..0] == []; }
    if a[0] != '0' { LeadingDigitBound(a); ScaledMonotone(0, |a| - 1); }
    if b[0] != '0' { LeadingDigitBound(b); ScaledMonotone(0, |b| - 1); }
    if a[0] != '0' && b[0] != '0' { StrippedUnique(a, b); }
  }

  lemma PaddingUnique(a: string, b: string, n: nat)
    requires |a| <= n && |b| <= n && Padding(a, n) == Padding(b, n)
    requires (a == [] || a[|a| - 1] != '0') && (b == [] || b[|b| - 1] != '0')
    ensures a == b
  {
    var p, q := Padding(a, n), Padding(b, n);
    assert forall i :: |a| <= i < n ==> p[i] == '0';
    assert forall i :: |b| <= i < n ==> q[i] == '0';
    assert p[..|a|] == a && q[..|b|] == b;
  }

  /** Two raw amounts print alike exactly when they are the same number. */
  lemma PrintsAlikeIffEqual(a: string, b: string, decimals: nat)
    requires FormatUnits(a, decimals).Some? && FormatUnits(b, decimals).Some?
    ensures AllDigits(Text.Trim(a)) && AllDigits(Text.Trim(b))
    ensures FormatUnits(a, decimals) == FormatUnits(b, decimals) <==> Value(Text.Trim(a)) == Value(Text.Trim(b))
  {
    FormatExact(a, decimals);
    FormatExact(b, decimals);
    if Value(Text.Trim(a)) == Value(Text.Trim(b)) {
      CanonicalUnique(FormatUnits(a, decimals).value, FormatUnits(b, decimals).value, decimals);
    }
  }
}
