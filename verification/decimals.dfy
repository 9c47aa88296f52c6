/** Decimal numerals as the clients read them: Python's `float(str)`, and
    the `\d+(?:\.\d+)?` capture the chapter patterns share. Values are exact
    rationals, so `8` and `8.0` are equal and `8.1` differs from both. */
module Decimals {
  import opened Wrappers
  import opened Text

  function Pow10(n: nat): (p: nat)
    ensures p >= 1
  {
    if n == 0 then 1 else 10 * Pow10(n - 1)
  }

  /** The value of the numeral `whole.frac`. */
  function DecimalValue(whole: string, frac: string): (v: real)
    requires AllDigits(whole) && AllDigits(frac)
    ensures v >= DigitsValue(whole) as real
  {
    DigitsValue(whole) as real + DigitsValue(frac) as real / Pow10(|frac|) as real
  }

  /** A regular-expression capture of a numeral: its value and the number of
      characters it spans. */
  datatype Capture = Capture(value: real, length: nat)

  /** True when `s` starts with `.` followed by a digit, the optional
      fraction of `\d+(?:\.\d+)?`. */
  predicate StartsWithFraction(s: string) {
    |s| > 1 && s[0] == '.' && IsDigit(s[1])
  }

  /** The greedy match of `\d+(?:\.\d+)?` anchored at the start of `s`. */
  function LeadingDecimal(s: string): (r: Option<Capture>)
    ensures r.None? <==> |s| == 0 || !IsDigit(s[0])
    ensures r.Some? ==> 0 < r.value.length <= |s|
    ensures r.Some? ==> r.value.length == |s| || !IsDigit(s[r.value.length])
    ensures r.Some? ==> (StartsWithFraction(s[DigitRun(s)..]) <==> r.value.length > DigitRun(s))
    ensures r.Some? ==> r.value.value >= 0.0
  {
    var n := DigitRun(s);
    if n == 0 then None else Some(WithFraction(s[..n], s[n..]))
  }

  /** The capture for the digit run `whole` followed by `rest`: the optional
      fraction is taken when `rest` starts with one. */
  function WithFraction(whole: string, rest: string): (c: Capture)
    requires AllDigits(whole)
    requires |rest| == 0 || !IsDigit(rest[0])
    ensures |whole| <= c.length <= |whole| + |rest|
    ensures c.length == |whole| + |rest| || !IsDigit(rest[c.length - |whole|])
    ensures StartsWithFraction(rest) <==> c.length > |whole|
    ensures c.value >= 0.0
  {
    if StartsWithFraction(rest) then
      var m := DigitRun(rest[1..]);
      assert m > 0 by { assert rest[1..][0] == rest[1]; }
      Capture(DecimalValue(whole, rest[1..][..m]), |whole| + 1 + m)
    else
      Capture(DigitsValue(whole) as real, |whole|)
  }

  lemma LeadingDigitsThen(d: string, tail: string)
    requires |d| > 0 && AllDigits(d)
    requires |tail| == 0 || !IsDigit(tail[0])
    ensures LeadingDecimal(d + tail) == Some(WithFraction(d, tail))
  {
    DigitRunOf(d, tail);
    assert (d + tail)[..|d|] == d;
    assert (d + tail)[|d|..] == tail;
  }

  /** A run of digits not followed by a digit or a fraction is captured whole. */
  lemma LeadingWhole(d: string, tail: string)
    requires |d| > 0 && AllDigits(d)
    requires |tail| == 0 || !IsDigit(tail[0])
    requires !StartsWithFraction(tail)
    ensures LeadingDecimal(d + tail) == Some(Capture(DigitsValue(d) as real, |d|))
  {
    LeadingDigitsThen(d, tail);
  }

  lemma FractionThen(whole: string, frac: string, tail: string)
    requires AllDigits(whole)
    requires |frac| > 0 && AllDigits(frac)
    requires |tail| == 0 || !IsDigit(tail[0])
    ensures WithFraction(whole, "." + (frac + tail))
         == Capture(DecimalValue(whole, frac), |whole| + 1 + |frac|)
  {
    var rest := "." + (frac + tail);
    assert rest[1..] == frac + tail;
    DigitRunOf(frac, tail);
    assert (frac + tail)[..|frac|] == frac;
  }

  /** `whole.frac` followed by a non-digit is captured with its fraction. */
  lemma LeadingFraction(whole: string, frac: string, tail: string)
    requires |whole| > 0 && AllDigits(whole)
    requires |frac| > 0 && AllDigits(frac)
    requires |tail| == 0 || !IsDigit(tail[0])
    ensures LeadingDecimal(whole + ("." + (frac + tail)))
         == Some(Capture(DecimalValue(whole, frac), |whole| + 1 + |frac|))
  {
    LeadingDigitsThen(whole, "." + (frac + tail));
    FractionThen(whole, frac, tail);
  }

  /** Python's `float(...)` on a numeral without sign or surrounding space:
      digits with at most one decimal point and at least one digit. */
  function ParseUnsigned(t: string): (r: Option<real>)
    ensures r.Some? ==> exists i :: 0 <= i < |t| && IsDigit(t[i])
    ensures r.Some? ==> forall i :: 0 <= i < |t| ==> IsDigit(t[i]) || t[i] == '.'
    ensures r.Some? ==> r.value >= 0.0
  {
    var n := DigitRun(t);
    if n == |t| then
      if n == 0 then None else Some(DigitsValue(t) as real)
    else if t[n] == '.' && AllDigits(t[n + 1..]) && (n > 0 || n + 1 < |t|) then
      assert n > 0 ==> IsDigit(t[0]);
      assert n == 0 ==> IsDigit(t[n + 1..][0]);
      Some(DecimalValue(t[..n], t[n + 1..]))
    else None
  }

  /** Python's `float(s)` on a string: surrounding whitespace and one sign
      are allowed around an unsigned numeral. */
  function ParseFloat(s: string): (r: Option<real>)
    ensures ParseUnsigned(Strip(s)).Some? ==> r == ParseUnsigned(Strip(s))
    ensures r.Some? && r.value < 0.0 ==> |Strip(s)| > 0 && Strip(s)[0] == '-'
  {
    SignedNumeral(Strip(s))
  }

  /** `float` on a string without surrounding whitespace: one optional sign
      in front of an unsigned numeral. */
  function SignedNumeral(t: string): (r: Option<real>)
    ensures ParseUnsigned(t).Some? ==> r == ParseUnsigned(t)
    ensures r.Some? && r.value < 0.0 ==> |t| > 0 && t[0] == '-'
  {
    if |t| > 0 && (t[0] == '+' || t[0] == '-') then
      match ParseUnsigned(t[1..])
      case None => None
      case Some(v) => Some(if t[0] == '-' then -v else v)
    else ParseUnsigned(t)
  }

  /** An unsigned numeral reads as itself, and behind a sign as itself or
      its negation. */
  lemma ParseFloatSigned(s: string)
    requires |s| > 0 && (s[0] == '+' || s[0] == '-')
    requires ParseUnsigned(s[1..]).Some?
    ensures ParseFloat(s[1..]) == ParseUnsigned(s[1..])
    ensures ParseFloat(s) == Some(if s[0] == '-' then -ParseUnsigned(s[1..]).value else ParseUnsigned(s[1..]).value)
  {
    UnsignedRead(s[1..]);
    SignedRead(s);
  }

  lemma UnsignedRead(t: string)
    requires ParseUnsigned(t).Some?
    ensures ParseFloat(t) == ParseUnsigned(t)
  {
    NumeralEnds(t);
    NumeralUnstripped(t);
  }

  lemma SignedRead(s: string)
    requires |s| > 0 && (s[0] == '+' || s[0] == '-')
    requires ParseUnsigned(s[1..]).Some?
    ensures ParseFloat(s) == Some(if s[0] == '-' then -ParseUnsigned(s[1..]).value else ParseUnsigned(s[1..]).value)
  {
    var t := s[1..];
    NumeralEnds(t);
    assert s[|s| - 1] == t[|t| - 1];
    SignedUnstripped(s);
  }

  lemma SignedUnstripped(s: string)
    requires |s| > 1 && (s[0] == '+' || s[0] == '-')
    requires IsDigit(s[|s| - 1]) || s[|s| - 1] == '.'
    ensures Strip(s) == s
  {
    assert !IsSpace(s[0]);
    StripUnchanged(s);
  }

  /** A numeral starts and ends with a digit or a dot. */
  lemma NumeralEnds(t: string)
    requires ParseUnsigned(t).Some?
    ensures |t| > 0
    ensures IsDigit(t[0]) || t[0] == '.'
    ensures IsDigit(t[|t| - 1]) || t[|t| - 1] == '.'
  {
  }

  lemma NumeralUnstripped(t: string)
    requires |t| > 0
    requires IsDigit(t[0]) || t[0] == '.'
    requires IsDigit(t[|t| - 1]) || t[|t| - 1] == '.'
    ensures Strip(t) == t
  {
    StripUnchanged(t);
  }

  lemma DigitsValueOfNatToString(n: nat)
    ensures DigitsValue(NatToString(n)) == n
  {
    if n >= 10 {
      var s := NatToString(n);
      assert s[..|s| - 1] == NatToString(n / 10);
      DigitsValueOfNatToString(n / 10);
    }
  }

  lemma {:induction false} LeadingZeros(z: string, d: string)
    requires forall i :: 0 <= i < |z| ==> z[i] == '0'
    requires AllDigits(d)
    ensures AllDigits(z + d) && DigitsValue(z + d) == DigitsValue(d)
    decreases |z| + |d|
  {
    if |d| > 0 {
      assert (z + d)[..|z + d| - 1] == z + d[..|d| - 1];
      LeadingZeros(z, d[..|d| - 1]);
    } else if |z| > 0 {
      assert z + d == z;
      assert z[..|z| - 1] + [] == z[..|z| - 1];
      LeadingZeros(z[..|z| - 1], []);
    } else {
      assert z + d == [];
    }
  }

  /** Zero padding does not change the value a zero-padded numeral reads as. */
  lemma ZeroPadValue(n: nat, width: nat)
    ensures DigitsValue(ZeroPad(n, width)) == n
  {
    var d := NatToString(n);
    DigitsValueOfNatToString(n);
    if |d| < width {
      LeadingZeros(seq(width - |d|, _ => '0'), d);
    }
  }

  /** `float(str(n))` reads back `n`. */
  lemma ParseFloatOfNat(n: nat)
    ensures ParseFloat(NatToString(n)) == Some(n as real)
  {
    var s := NatToString(n);
    StripUnchanged(s);
    DigitRunOf(s, "");
    assert s + "" == s;
    DigitsValueOfNatToString(n);
  }
}
