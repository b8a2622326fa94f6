/**
 * Numeric coercion as `pd.to_numeric(..., errors='coerce')` does it on a single
 * text cell, over exact decimals instead of binary floating point. The accepted
 * grammar is an optional sign, one or more digits, and optionally a point
 * followed by one or more digits.
 */
module Numeric {
  import opened Wrappers

  /** The exact number `mantissa * 10^(-scale)`. */
  datatype Decimal = Decimal(mantissa: int, scale: nat) {
    function Value(): real {
      mantissa as real / Pow10(scale) as real
    }
  }

  function Pow10(k: nat): (p: nat)
    ensures p > 0
  {
    if k == 0 then 1 else 10 * Pow10(k - 1)
  }

  predicate IsDigit(c: char) {
    '0' <= c <= '9'
  }

  predicate AllDigits(s: string) {
    forall i :: 0 <= i < |s| ==> IsDigit(s[i])
  }

  /** The number a string of decimal digits denotes (most significant first). */
  function DigitsValue(s: string): nat
    requires AllDigits(s)
  {
    if s == [] then 0 else 10 * DigitsValue(s[..|s| - 1]) + (s[|s| - 1] as int - '0' as int)
  }

  /** The length of the longest all-digit prefix of `s`. */
  function LeadingDigits(s: string): (n: nat)
    ensures n <= |s| && AllDigits(s[..n])
    ensures n < |s| ==> !IsDigit(s[n])
  {
    if s != [] && IsDigit(s[0]) then
      assert s[1..][..LeadingDigits(s[1..])] == s[1..1 + LeadingDigits(s[1..])];
      1 + LeadingDigits(s[1..])
    else 0
  }

  /** Parses `digits` or `digits.digits`. */
  function ParseUnsigned(s: string): (r: Option<Decimal>)
    ensures r.Some? ==> r.value.mantissa >= 0
    ensures r.Some? ==> s != [] && IsDigit(s[0]) && IsDigit(s[|s| - 1])
    ensures r.Some? ==> forall i :: 0 <= i < |s| ==> IsDigit(s[i]) || s[i] == '.'
  {
    var n := LeadingDigits(s);
    if n == 0 then None
    else if n == |s| then
      assert s[..n] == s;
      Some(Decimal(DigitsValue(s), 0))
    else if s[n] == '.' && n + 1 < |s| && AllDigits(s[n + 1..]) then
      assert forall i | n + 1 <= i < |s| :: s[i] == s[n + 1..][i - n - 1];
      Some(Decimal(DigitsValue(s[..n] + s[n + 1..]), |s| - n - 1))
    else None
  }

  /** `s` has a point at `k` with digits on both sides and nowhere else. */
  predicate PointAt(s: string, k: int) {
    0 < k < |s| - 1 && s[k] == '.' && AllDigits(s[..k]) && AllDigits(s[k + 1..])
  }

  /** The digits of `s` without the point at `k`. */
  function Unpointed(s: string, k: int): (v: string)
    requires PointAt(s, k)
    ensures |v| == |s| - 1 && AllDigits(v)
  {
    var v := s[..k] + s[k + 1..];
    assert forall i | k <= i < |v| :: v[i] == s[i + 1];
    v
  }

  /** `digits` or `digits.digits`. */
  predicate UnsignedNumeral(s: string) {
    (s != [] && AllDigits(s)) || exists k :: 0 <= k < |s| && PointAt(s, k)
  }

  predicate Signed(s: string) {
    s != [] && (s[0] == '-' || s[0] == '+')
  }

  /** The part of `s` after an optional leading sign. */
  function Magnitude(s: string): string {
    if Signed(s) then s[1..] else s
  }

  /** The sign `s` starts with, as a factor. */
  function SignOf(s: string): int {
    if s != [] && s[0] == '-' then -1 else 1
  }

  /** An optional sign, then `digits` or `digits.digits`. */
  predicate Numeral(s: string) {
    UnsignedNumeral(Magnitude(s))
  }

  /** A text cell as `pd.to_numeric` reads it; `None` is the value that
      `errors='coerce'` turns into a missing value. */
  function ParseDecimal(s: string): (r: Option<Decimal>)
    ensures r.Some? ==> s != [] && IsDigit(s[|s| - 1])
    ensures r.Some? ==> forall i :: 0 <= i < |s| ==> IsDigit(s[i]) || s[i] == '.' || (i == 0 && s[i] in {'-', '+'})
  {
    if s != [] && (s[0] == '-' || s[0] == '+') then
      match ParseUnsigned(s[1..])
      case None => None
      case Some(d) =>
        assert forall i | 1 <= i < |s| :: s[i] == s[1..][i - 1];
        Some(if s[0] == '-' then Decimal(-d.mantissa, d.scale) else d)
    else ParseUnsigned(s)
  }

  function DigitChar(d: nat): (c: char)
    requires d < 10
    ensures IsDigit(c) && c as int - '0' as int == d
  {
    ('0' as int + d) as char
  }

  /** The shortest digit string that denotes `n`. */
  function NatToDigits(n: nat): (s: string)
    ensures s != [] && AllDigits(s) && DigitsValue(s) == n
  {
    var p := if n < 10 then [] else NatToDigits(n / 10);
    var s := p + [DigitChar(n % 10)];
    assert s[..|s| - 1] == p;
    s
  }

  function Zeros(k: nat): (z: string)
    ensures |z| == k && AllDigits(z) && DigitsValue(z) == 0
  {
    if k == 0 then []
    else
      var z := Zeros(k - 1) + ['0'];
      assert z[..k - 1] == Zeros(k - 1);
      z
  }

  /** Leading zeros do not change the value of a digit string. */
  lemma {:induction false} LeadingZeros(k: nat, s: string)
    requires AllDigits(s)
    ensures AllDigits(Zeros(k) + s) && DigitsValue(Zeros(k) + s) == DigitsValue(s)
  {
    var z := Zeros(k) + s;
    if s == [] {
      assert z == Zeros(k);
    } else {
      assert z[..|z| - 1] == Zeros(k) + s[..|s| - 1];
      LeadingZeros(k, s[..|s| - 1]);
    }
  }

  /** The digits of `n`, with leading zeros so that at least one digit precedes
      the last `scale` ones. */
  function Padded(n: nat, scale: nat): (p: string)
    ensures |p| > scale && AllDigits(p) && DigitsValue(p) == n
  {
    var digits := NatToDigits(n);
    if |digits| <= scale then
      LeadingZeros(scale + 1 - |digits|, digits);
      Zeros(scale + 1 - |digits|) + digits
    else digits
  }

  /** `n * 10^(-scale)` in decimal notation, with exactly `scale` fraction digits. */
  function FormatUnsigned(n: nat, scale: nat): string {
    var padded := Padded(n, scale);
    if scale == 0 then padded
    else padded[..|padded| - scale] + "." + padded[|padded| - scale..]
  }

  /** The text of a decimal, as `astype(str)` writes a number. */
  function Format(d: Decimal): string {
    if d.mantissa < 0 then "-" + FormatUnsigned(-d.mantissa, d.scale)
    else FormatUnsigned(d.mantissa, d.scale)
  }

  lemma AllDigitsLeading(s: string)
    requires AllDigits(s)
    ensures LeadingDigits(s) == |s|
  {
  }

  /** An integer part, a point and a fraction part parse to the decimal whose
      digits are both parts together. */
  lemma ParsePointed(ip: string, fp: string)
    requires ip != [] && fp != [] && AllDigits(ip) && AllDigits(fp)
    ensures AllDigits(ip + fp)
    ensures ParseUnsigned(ip + "." + fp) == Some(Decimal(DigitsValue(ip + fp), |fp|))
  {
    var t := ip + "." + fp;
    assert forall i | 0 <= i < |ip| :: t[i] == ip[i];
    assert !IsDigit(t[|ip|]);
    var k := LeadingDigits(t);
    assert k == |ip|;
    assert t[..k] == ip && t[k + 1..] == fp;
  }

  lemma SplitAtPoint(s: string, k: int)
    requires 0 <= k < |s| && s[k] == '.'
    ensures s == s[..k] + "." + s[k + 1..]
  {
    assert s == s[..k] + [s[k]] + s[k + 1..];
  }

  /** A numeral with its point at `k` parses to its digits, scaled by the number
      of digits after the point. */
  lemma ParseUnsignedPointed(s: string, k: int)
    requires PointAt(s, k)
    ensures ParseUnsigned(s) == Some(Decimal(DigitsValue(Unpointed(s, k)), |s| - k - 1))
  {
    var ip, fp := s[..k], s[k + 1..];
    SplitAtPoint(s, k);
    ParsePointed(ip, fp);
    assert Unpointed(s, k) == ip + fp;
  }

  /** `ParseUnsigned` accepts exactly the unsigned numerals, and gives the value
      their digits denote at their scale. */
  lemma ParseUnsignedSpec(s: string)
    ensures ParseUnsigned(s).Some? <==> UnsignedNumeral(s)
    ensures s != [] && AllDigits(s) ==> ParseUnsigned(s) == Some(Decimal(DigitsValue(s), 0))
    ensures forall k :: PointAt(s, k) ==>
      ParseUnsigned(s) == Some(Decimal(DigitsValue(Unpointed(s, k)), |s| - k - 1))
  {
    var n := LeadingDigits(s);
    if s != [] && AllDigits(s) {
      AllDigitsLeading(s);
    }
    forall k | PointAt(s, k)
      ensures ParseUnsigned(s) == Some(Decimal(DigitsValue(Unpointed(s, k)), |s| - k - 1))
    {
      ParseUnsignedPointed(s, k);
    }
    if ParseUnsigned(s).Some? && n < |s| {
      assert PointAt(s, n);
    }
  }

  /** `ParseDecimal` accepts exactly the numerals; the value is the magnitude's
      digits at its scale, negated after a minus sign. */
  lemma ParseDecimalSpec(s: string)
    ensures ParseDecimal(s).Some? <==> Numeral(s)
    ensures var m := Magnitude(s);
      m != [] && AllDigits(m) ==> ParseDecimal(s) == Some(Decimal(SignOf(s) * DigitsValue(m), 0))
    ensures var m := Magnitude(s);
      forall k :: PointAt(m, k) ==>
        ParseDecimal(s) == Some(Decimal(SignOf(s) * DigitsValue(Unpointed(m, k)), |m| - k - 1))
  {
    ParseUnsignedSpec(Magnitude(s));
  }
  lemma {:induction false} ParseFormatUnsigned(n: nat, scale: nat)
    ensures ParseUnsigned(FormatUnsigned(n, scale)) == Some(Decimal(n, scale))
  {
    var padded := Padded(n, scale);
    if scale == 0 {
      ParseUnsignedSpec(padded);
    } else {
      var k := |padded| - scale;
      SplitJoin(padded, k);
      ParsePointed(padded[..k], padded[k..]);
    }
  }

  lemma SplitJoin(s: string, k: int)
    requires 0 <= k <= |s|
    ensures s[..k] + s[k..] == s
  {
  }

  lemma ParseNegated(t: string, d: Decimal)
    requires ParseUnsigned(t) == Some(d)
    ensures ParseDecimal("-" + t) == Some(Decimal(-d.mantissa, d.scale))
  {
    assert ("-" + t)[1..] == t;
  }

  /** Reading back the text of a decimal gives the same decimal: formatting a
      cleaned number as text and coercing it again changes nothing. */
  lemma ParseFormat(d: Decimal)
    ensures ParseDecimal(Format(d)) == Some(d)
  {
    var n: nat := Abs(d.mantissa);
    var t := FormatUnsigned(n, d.scale);
    ParseFormatUnsigned(n, d.scale);
    if d.mantissa < 0 {
      ParseNegated(t, Decimal(n, d.scale));
      FormatSign(d);
    } else {
      ParseUnsignedText(t, d);
      FormatSign(d);
    }
  }

  function Abs(m: int): nat {
    if m < 0 then -m else m
  }

  /** The text of a decimal is its magnitude's text, after a minus sign when
      the decimal is negative. */
  lemma FormatSign(d: Decimal)
    ensures Format(d) == (if d.mantissa < 0 then "-" else "") + FormatUnsigned(Abs(d.mantissa), d.scale)
  {
    if d.mantissa >= 0 {
      assert "" + FormatUnsigned(d.mantissa, d.scale) == FormatUnsigned(d.mantissa, d.scale);
    }
  }

  /** Unsigned text reads the same with or without the sign check. */
  lemma ParseUnsignedText(t: string, d: Decimal)
    requires ParseUnsigned(t) == Some(d)
    ensures ParseDecimal(t) == Some(d)
  {
  }

  /** The text of a decimal is made of digits, a point and a leading minus sign. */
  lemma {:induction false} FormatChars(d: Decimal)
    ensures var t := Format(d);
      t != [] && IsDigit(t[|t| - 1]) && forall i :: 0 <= i < |t| ==> IsDigit(t[i]) || t[i] in {'.', '-'}
  {
    ParseFormat(d);
  }
}
