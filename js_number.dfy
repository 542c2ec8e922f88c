/**
 * `parseFloat` and the conversion of its result back to text.
 *
 * `parseFloat` skips leading white space and reads the longest prefix that is
 * a StrDecimalLiteral (section 21.1.2.12 of ECMA-262): an optional sign, then
 * `Infinity` or digits with an optional fraction and an optional exponent.
 * Values are exact; rounding to the nearest double is not modelled.
 */
module JsNumber {
  import opened JsString

  datatype Number = NaN | Infinite(negative: bool) | Finite(value: real)

  /** `n === 0` (true for -0 too); `NaN === 0` is false. */
  predicate IsZero(n: Number) {
    n == Finite(0.0)
  }

  /** The longest prefix of `s` made of digits. */
  function DigitPrefix(s: string): (d: string)
    ensures |d| <= |s| && d == s[..|d|]
    ensures forall i :: 0 <= i < |d| ==> IsDigit(d[i])
    ensures |d| < |s| ==> !IsDigit(s[|d|])
  {
    if |s| > 0 && IsDigit(s[0]) then [s[0]] + DigitPrefix(s[1..]) else ""
  }

  predicate AllDigits(ds: string) {
    forall i :: 0 <= i < |ds| ==> IsDigit(ds[i])
  }

  predicate AllZeros(ds: string) {
    forall i :: 0 <= i < |ds| ==> ds[i] == '0'
  }

  /** The value of a run of decimal digits. */
  function DigitsValue(ds: string): nat
    requires AllDigits(ds)
  {
    if |ds| == 0 then 0
    else DigitsValue(ds[..|ds| - 1]) * 10 + (ds[|ds| - 1] as int - '0' as int)
  }

  /** The value of the digits after a decimal point. */
  function FractionValue(ds: string): (v: real)
    requires AllDigits(ds)
    ensures 0.0 <= v
  {
    if |ds| == 0 then 0.0
    else ((ds[0] as int - '0' as int) as real + FractionValue(ds[1..])) / 10.0
  }

  /** `x` times 10 to the power `e`. */
  function Scale(x: real, e: int): (v: real)
    ensures x >= 0.0 ==> v >= 0.0
    decreases if e < 0 then -e else e
  {
    if e == 0 then x else if e > 0 then Scale(10.0 * x, e - 1) else Scale(x / 10.0, e + 1)
  }

  /** A leading `+` or `-`, if any: whether it was `-`, and what follows. */
  function Sign(s: string): (bool, string) {
    if |s| > 0 && (s[0] == '+' || s[0] == '-') then (s[0] == '-', s[1..]) else (false, s)
  }

  /** The exponent `e`/`E`, sign, digits at the start of `s`; 0 when there is none. */
  function Exponent(s: string): int {
    if |s| > 0 && (s[0] == 'e' || s[0] == 'E') then
      var (negative, rest) := Sign(s[1..]);
      var ds := DigitPrefix(rest);
      if negative then -(DigitsValue(ds) as int) else DigitsValue(ds)
    else 0
  }

  /** The integer digits and the fraction digits at the start of `s`, and what follows them. */
  function Mantissa(s: string): (m: (string, string, string))
    ensures AllDigits(m.0) && AllDigits(m.1)
  {
    var whole := DigitPrefix(s);
    var rest := s[|whole|..];
    if |rest| > 0 && rest[0] == '.' then
      var fraction := DigitPrefix(rest[1..]);
      (whole, fraction, rest[1 + |fraction|..])
    else (whole, "", rest)
  }

  /** The value of the mantissa and exponent `Mantissa` found. */
  function Magnitude(m: (string, string, string)): (v: real)
    requires AllDigits(m.0) && AllDigits(m.1)
    ensures v >= 0.0
  {
    Scale(DigitsValue(m.0) as real + FractionValue(m.1), Exponent(m.2))
  }

  /** `parseFloat` on what follows the white space and the sign. */
  function ParseUnsigned(body: string, negative: bool): Number {
    if StartsWith(body, "Infinity") then Infinite(negative)
    else
      var m := Mantissa(body);
      if |m.0| + |m.1| == 0 then NaN
      else Finite(if negative then -Magnitude(m) else Magnitude(m))
  }

  /** `parseFloat(s)` */
  function ParseFloat(s: string): Number {
    var signed := Sign(TrimStart(s));
    ParseUnsigned(signed.1, signed.0)
  }

  /** `String(n)`; `show` stands for Number::toString on finite values (section 6.1.6.1.20 of ECMA-262). */
  function ToText(n: Number, show: real -> string): string {
    match n
    case NaN => "NaN"
    case Infinite(negative) => if negative then "-Infinity" else "Infinity"
    case Finite(v) => show(v)
  }

  lemma {:induction false} DigitsValueZero(ds: string)
    requires AllDigits(ds)
    ensures DigitsValue(ds) == 0 <==> AllZeros(ds)
  {
    if |ds| > 0 {
      DigitsValueZero(ds[..|ds| - 1]);
      assert AllZeros(ds) <==> AllZeros(ds[..|ds| - 1]) && ds[|ds| - 1] == '0';
    }
  }

  lemma {:induction false} FractionValueZero(ds: string)
    requires AllDigits(ds)
    ensures FractionValue(ds) == 0.0 <==> AllZeros(ds)
  {
    if |ds| > 0 {
      FractionValueZero(ds[1..]);
      assert AllZeros(ds) <==> ds[0] == '0' && AllZeros(ds[1..]);
    }
  }

  /** A magnitude is zero exactly when all its digits are zeros, whatever the exponent. */
  lemma MagnitudeZero(m: (string, string, string))
    requires AllDigits(m.0) && AllDigits(m.1)
    ensures Magnitude(m) == 0.0 <==> AllZeros(m.0) && AllZeros(m.1)
  {
    DigitsValueZero(m.0);
    FractionValueZero(m.1);
    ScaleZero(DigitsValue(m.0) as real + FractionValue(m.1), Exponent(m.2));
  }

  /** Scaling by a power of ten keeps zero and non-zero apart. */
  lemma {:induction false} ScaleZero(x: real, e: int)
    ensures Scale(x, e) == 0.0 <==> x == 0.0
    decreases if e < 0 then -e else e
  {
    if e > 0 {
      ScaleZero(10.0 * x, e - 1);
    } else if e < 0 {
      ScaleZero(x / 10.0, e + 1);
    }
  }

  /** What follows the sign parses to zero exactly when its numeral has only zero digits. */
  lemma ParseUnsignedZero(body: string, negative: bool)
    ensures var m := Mantissa(body);
      IsZero(ParseUnsigned(body, negative)) <==>
        !StartsWith(body, "Infinity") && |m.0| + |m.1| > 0 && AllZeros(m.0) && AllZeros(m.1)
  {
    MagnitudeZero(Mantissa(body));
  }

  /**
   * `parseFloat(s) === 0` exactly when `s` starts (after white space and a
   * sign) with a numeral whose digits are all zero, whatever follows.
   */
  lemma ParseFloatZero(s: string)
    ensures var body := Sign(TrimStart(s)).1; var m := Mantissa(body);
      IsZero(ParseFloat(s)) <==>
        !StartsWith(body, "Infinity") && |m.0| + |m.1| > 0 && AllZeros(m.0) && AllZeros(m.1)
  {
    var signed := Sign(TrimStart(s));
    ParseUnsignedZero(signed.1, signed.0);
  }

  /** A string without any digit parses to NaN or an infinity, never to a number. */
  lemma NoDigitsNoNumber(s: string)
    requires forall i :: 0 <= i < |s| ==> !IsDigit(s[i])
    ensures !ParseFloat(s).Finite?
  {
  }

  /** A zero followed by anything but a digit or a point parses as zero. */
  lemma {:induction false} ParseZeroThen(rest: string)
    requires |rest| == 0 || (!IsDigit(rest[0]) && rest[0] != '.')
    ensures IsZero(ParseFloat("0" + rest))
  {
    var s := "0" + rest;
    assert s[0] == '0' && s[1..] == rest;
    assert !IsWhiteSpace(s[0]);
    assert TrimStart(s) == s;
    assert Sign(s) == (false, s);
    assert !StartsWith(s, "Infinity") by { assert "Infinity"[0] != s[0]; }
    assert DigitPrefix(rest) == "";
    assert DigitPrefix(s) == "0";
    assert Mantissa(s) == ("0", "", rest);
    assert AllZeros("0") && AllZeros("");
    ParseUnsignedZero(s, false);
  }

  /** A zero followed by a unit parses as zero. */
  lemma ParseFloatZeroUnit()
    ensures IsZero(ParseFloat("0px"))
  {
    assert "0px" == "0" + "px";
    ParseZeroThen("px");
  }

  /** Minus zero is zero for `===`. */
  lemma ParseFloatMinusZero()
    ensures IsZero(ParseFloat("-0"))
  {
    assert TrimStart("-0") == "-0" && Sign("-0") == (true, "0");
    assert ParseFloat("-0") == ParseUnsigned("0", true);
    assert !StartsWith("0", "Infinity");
    assert DigitPrefix("0") == "0" && Mantissa("0") == ("0", "", "");
    assert AllZeros("0") && AllZeros("");
    ParseUnsignedZero("0", true);
  }

  /** The zero the letter-spacing rewrite writes parses as zero again. */
  lemma ParseFloatZeroDigit()
    ensures IsZero(ParseFloat("0"))
  {
    assert "0" == "0" + "";
    ParseZeroThen("");
  }

  /** Leading white space is skipped. */
  lemma TrimStartSpace()
    ensures TrimStart(" 0.0") == "0.0"
  {
    assert IsWhiteSpace(' ') && !IsWhiteSpace('0');
    assert " 0.0"[0] == ' ' && " 0.0"[1..] == "0.0";
    assert TrimStart("0.0") == "0.0";
  }

  /** A zero with a fraction behind leading white space parses as zero. */
  lemma ParseFloatZeroFraction()
    ensures IsZero(ParseFloat(" 0.0"))
  {
    TrimStartSpace();
    assert Sign("0.0") == (false, "0.0");
    assert ParseFloat(" 0.0") == ParseUnsigned("0.0", false);
    assert !StartsWith("0.0", "Infinity");
    assert DigitPrefix("0.0") == "0";
    assert "0.0"[1..] == ".0" && ".0"[1..] == "0";
    assert Mantissa("0.0") == ("0", "0", "");
    assert AllZeros("0");
    ParseUnsignedZero("0.0", false);
  }

  /** `parseFloat("24")` is 24. */
  lemma ParseFloatInteger()
    ensures ParseFloat("24") == Finite(24.0)
  {
    assert TrimStart("24") == "24" && Sign("24") == (false, "24");
    assert DigitPrefix("24") == "24" && Mantissa("24") == ("24", "", "");
    assert DigitsValue("24") == 24 by { assert "24"[..1] == "2"; }
    assert Magnitude(("24", "", "")) == 24.0;
  }

  /** `parseFloat("1.5px")` is 1.5: the unit after the numeral is ignored. */
  lemma ParseFloatWithUnit()
    ensures ParseFloat("1.5px") == Finite(1.5)
  {
    assert TrimStart("1.5px") == "1.5px" && Sign("1.5px") == (false, "1.5px");
    assert ParseFloat("1.5px") == ParseUnsigned("1.5px", false);
    assert !StartsWith("1.5px", "Infinity");
    MantissaWithUnit();
    MagnitudeOneHalf();
  }

  /** The digits "1", "5" and the unit "px" make one and a half. */
  lemma MagnitudeOneHalf()
    ensures Magnitude(("1", "5", "px")) == 1.5
  {
    assert DigitsValue("1") == 1;
    assert FractionValue("5") == 0.5;
    assert Exponent("px") == 0;
  }

  /** The digits of "1.5px": one whole digit, one fraction digit, then the unit. */
  lemma MantissaWithUnit()
    ensures Mantissa("1.5px") == ("1", "5", "px")
  {
    assert DigitPrefix(".5px") == "";
    assert DigitPrefix("1.5px") == "1";
    assert "1.5px"[1..] == ".5px" && ".5px"[1..] == "5px";
    assert DigitPrefix("px") == "";
    assert DigitPrefix("5px") == "5";
    assert "5px"[1..] == "px";
  }

  /** A keyword is not a numeral: NaN. */
  lemma ParseFloatKeyword()
    ensures ParseFloat("normal") == NaN
  {
    assert TrimStart("normal") == "normal" && Sign("normal") == (false, "normal");
    assert DigitPrefix("normal") == "" && Mantissa("normal") == ("", "", "normal");
  }

  /** A point without digits is not a numeral: NaN. */
  lemma ParseFloatPoint()
    ensures ParseFloat(".") == NaN
  {
    assert TrimStart(".") == "." && Sign(".") == (false, ".");
    assert Mantissa(".") == ("", "", "");
  }
}
