/** Python's `int(s)` and `float(s)` on decimal text, as partial functions. */
module Numbers {
  import opened Wrappers
  import opened Strings

  function DigitValue(c: char): (d: nat)
    requires IsDigit(c)
    ensures d < 10
  {
    c as int - '0' as int
  }

  /** The value of a string of decimal digits, most significant first (0 for ""). */
  function DigitsValue(s: string): nat
    requires AllDigits(s)
  {
    if s == [] then 0 else DigitsValue(s[..|s| - 1]) * 10 + DigitValue(s[|s| - 1])
  }

  /** Reading back the decimal spelling of a number gives the number. */
  lemma {:induction false} DigitsValueOfDecimal(n: nat)
    ensures DigitsValue(DecimalString(n)) == n
  {
    if n >= 10 {
      var s := DecimalString(n);
      assert s[..|s| - 1] == DecimalString(n / 10);
      DigitsValueOfDecimal(n / 10);
    }
  }

  /** Splits a leading `+` or `-` off `s`: (is it negative, the rest). */
  function SplitSign(s: string): (r: (bool, string))
    ensures r.1 == s || (s != [] && (s[0] == '+' || s[0] == '-') && r.1 == s[1..] && r.0 == (s[0] == '-'))
    ensures !r.0 ==> r.1 == s || s[0] == '+'
  {
    if s != [] && (s[0] == '+' || s[0] == '-') then (s[0] == '-', s[1..]) else (false, s)
  }

  /**
   * `int(s)`: surrounding whitespace, an optional sign and at least one decimal digit.
   * None stands for the ValueError Python raises on any other text.
   */
  function ParseInt(s: string): (r: Option<int>)
    ensures r.Some? ==> Strip(s) != []
  {
    var (neg, t) := SplitSign(Strip(s));
    if t == [] || !AllDigits(t) then None
    else Some(if neg then -(DigitsValue(t) as int) else DigitsValue(t))
  }

  /** The value of the digits after a decimal point: `0.d1d2...` */
  function FractionValue(s: string): (r: real)
    requires AllDigits(s)
    ensures 0.0 <= r <= 1.0
  {
    if s == [] then 0.0 else (DigitValue(s[0]) as real + FractionValue(s[1..])) / 10.0
  }

  /** `digits [ "." digits ]` or `"." digits`, with at least one digit somewhere. */
  function ParseMantissa(m: string): Option<real> {
    var d := Run(m, 0, AllBut('.'));
    var ip := m[..d];
    if d == |m| then
      if ip != [] && AllDigits(ip) then Some(DigitsValue(ip) as real) else None
    else
      var fp := m[d + 1..];
      if AllDigits(ip) && AllDigits(fp) && (ip != [] || fp != [])
      then Some(DigitsValue(ip) as real + FractionValue(fp))
      else None
  }

  /** `[sign] digits` after the exponent mark. */
  function ParseExponent(e: string): Option<int> {
    var (neg, t) := SplitSign(e);
    if t != [] && AllDigits(t) then Some(if neg then -(DigitsValue(t) as int) else DigitsValue(t)) else None
  }

  /** `v * 10 ** e` */
  function Scale(v: real, e: int): real
    decreases if e < 0 then -e else e
  {
    if e == 0 then v else if e > 0 then 10.0 * Scale(v, e - 1) else Scale(v, e + 1) / 10.0
  }

  /** An unsigned decimal literal: mantissa, then optionally `e`/`E` and an exponent. */
  function ParseUnsignedReal(s: string): Option<real> {
    var i := Run(s, 0, NonExponent);
    match ParseMantissa(s[..i])
    case None => None
    case Some(m) =>
      if i == |s| then Some(m)
      else match ParseExponent(s[i + 1..])
        case None => None
        case Some(e) => Some(Scale(m, e))
  }

  /**
   * `float(s)` on decimal notation: surrounding whitespace, an optional sign, a mantissa and an
   * optional exponent. None stands for ValueError.
   */
  function ParseReal(s: string): (r: Option<real>)
    ensures r.Some? ==> Strip(s) != []
  {
    var (neg, t) := SplitSign(Strip(s));
    match ParseUnsignedReal(t)
    case None => None
    case Some(v) => Some(if neg then -v else v)
  }

  /** Text without whitespace at its ends is not changed by `strip()`; digits have none. */
  lemma StripDigits(s: string)
    requires AllDigits(s)
    ensures Strip(s) == s
  {
    if s != [] {
      PrintableNotSpace(s[0]);
      PrintableNotSpace(s[|s| - 1]);
    }
    StripTrimmed(s);
  }

  /** A run of digits holds no dot and no exponent mark. */
  lemma DigitsRuns(s: string)
    requires AllDigits(s)
    ensures Run(s, 0, NonExponent) == |s| && Run(s, 0, AllBut('.')) == |s|
  {
    RunExact(s, 0, NonExponent, |s|);
    RunExact(s, 0, AllBut('.'), |s|);
  }

  /** A plain string of digits parses as its value under `float()`. */
  lemma DigitsParseAsReal(s: string)
    requires s != [] && AllDigits(s)
    ensures ParseReal(s) == Some(DigitsValue(s) as real)
  {
    StripDigits(s);
    assert SplitSign(s) == (false, s);
    DigitsRuns(s);
    assert s[..|s|] == s;
  }

  /** A plain string of digits parses as its value under `int()`. */
  lemma DigitsParseAsInt(s: string)
    requires s != [] && AllDigits(s)
    ensures ParseInt(s) == Some(DigitsValue(s))
  {
    StripDigits(s);
    assert SplitSign(s) == (false, s);
  }

  /** `float(str(n))` is `n`. */
  lemma DecimalParsesAsReal(n: nat)
    ensures ParseReal(DecimalString(n)) == Some(n as real)
  {
    DigitsParseAsReal(DecimalString(n));
    DigitsValueOfDecimal(n);
  }

  /** `int(str(n))` is `n`. */
  lemma DecimalParsesAsInt(n: nat)
    ensures ParseInt(DecimalString(n)) == Some(n)
  {
    DigitsParseAsInt(DecimalString(n));
    DigitsValueOfDecimal(n);
  }

  /** Text that `strip()` leaves alone and that has no sign parses as an unsigned literal. */
  lemma ParseRealPlain(s: string)
    requires Strip(s) == s && (s == [] || (s[0] != '+' && s[0] != '-'))
    ensures ParseReal(s) == ParseUnsignedReal(s)
  {
    assert SplitSign(s) == (false, s);
  }

  /** Without an exponent mark the literal is its mantissa. */
  lemma UnsignedNoExponent(s: string)
    requires Run(s, 0, NonExponent) == |s|
    ensures ParseUnsignedReal(s) == ParseMantissa(s)
  {
    assert s[..|s|] == s;
  }

  /** A mantissa with a dot: the digits before it and the digits after it. */
  lemma MantissaWithDot(m: string, d: nat)
    requires 0 < d < |m| && d == Run(m, 0, AllBut('.'))
    requires AllDigits(m[..d]) && AllDigits(m[d + 1..])
    ensures ParseMantissa(m) == Some(DigitsValue(m[..d]) as real + FractionValue(m[d + 1..]))
  {
  }

  /** `float(s)` for digits, a dot at position `d`, and digits: the integer part plus the fraction. */
  lemma ParseRealDecimal(s: string, d: nat)
    requires 0 < d < |s| && s[d] == '.' && AllDigits(s[..d]) && AllDigits(s[d + 1..])
    ensures ParseReal(s) == Some(DigitsValue(s[..d]) as real + FractionValue(s[d + 1..]))
  {
    DecimalRuns(s, d);
    assert s[0] == s[..d][0];
    if d + 1 < |s| {
      assert s[|s| - 1] == s[d + 1..][|s| - d - 2];
    }
    PrintableNotSpace(s[0]);
    PrintableNotSpace(s[|s| - 1]);
    StripTrimmed(s);
    ParseRealPlain(s);
    UnsignedNoExponent(s);
    MantissaWithDot(s, d);
  }

  lemma DecimalRuns(s: string, d: nat)
    requires 0 < d < |s| && s[d] == '.' && AllDigits(s[..d]) && AllDigits(s[d + 1..])
    ensures Run(s, 0, NonExponent) == |s| && Run(s, 0, AllBut('.')) == d
  {
    assert forall j | 0 <= j < d :: s[j] == s[..d][j];
    assert forall j | d < j < |s| :: s[j] == s[d + 1..][j - d - 1];
    RunExact(s, 0, NonExponent, |s|);
    RunExact(s, 0, AllBut('.'), d);
  }
}
