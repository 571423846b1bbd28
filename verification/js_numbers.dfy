/**
  The JavaScript number conversions the handlers and the dashboard rely on:
  `Number.prototype.toFixed(1)`, `parseFloat` and `parseInt` (radix left undefined).
  Finite numbers are exact reals: the model has no rounding error, no overflow to
  Infinity and no negative zero ("-0" reads as 0).
*/
module JsNumbers {
  import opened Wrappers
  import opened Strings

  /** A JavaScript number as the conversions produce it. */
  datatype JsFloat = NaN | Num(value: real) | Infinity(negative: bool) {
    function Negate(): JsFloat {
      match this
      case NaN => NaN
      case Num(v) => Num(-v)
      case Infinity(neg) => Infinity(!neg)
    }
  }

  function Abs(x: real): (r: real)
    ensures r >= 0.0 && (r == x || r == -x)
  {
    if x < 0.0 then -x else x
  }

  // toFixed(1)

  /**
    The number of tenths `toFixed(1)` keeps: the integer n nearest to 10 |x|, the larger one
    when two are equally near.
  */
  function Tenths(x: real): (n: nat)
    ensures n as real - 0.5 <= Abs(x) * 10.0 < n as real + 0.5
  {
    (Abs(x) * 10.0 + 0.5).Floor
  }

  /** The value `toFixed(1)` denotes: x rounded to one decimal, keeping the sign of x. */
  function Rounded(x: real): real {
    SignedTenthsValue(x < 0.0, Tenths(x))
  }

  /** The value of n tenths, negated when `negative`. */
  function SignedTenthsValue(negative: bool, n: nat): real {
    if negative then -(n as real / 10.0) else n as real / 10.0
  }

  /** Rounding to one decimal moves a number by at most half a tenth. */
  lemma RoundedIsNearest(x: real)
    ensures Abs(Rounded(x) - x) <= 0.05
    ensures Rounded(x) > 0.0 <==> x >= 0.05
    ensures Rounded(x) < 0.0 <==> x <= -0.05
  {
  }

  /**
    `x.toFixed(1)`: "-" for a negative x, the integer part of the rounded magnitude without
    leading zeros ("0" when it is zero), a point and one digit. A negative x that rounds to
    zero gives "-0.0".
  */
  function ToFixed1(x: real): (s: string)
    ensures |s| >= 3 && s[|s| - 2] == '.' && IsDigit(s[|s| - 1])
    ensures s[0] == '-' <==> x < 0.0
    ensures '%' !in s
  {
    SignedTenths(x < 0.0, Tenths(x))
  }

  /** n tenths written out, behind a "-" when `negative`. */
  function SignedTenths(negative: bool, n: nat): (s: string)
    ensures |s| >= 3 && s[|s| - 2] == '.' && IsDigit(s[|s| - 1])
    ensures s[0] == '-' <==> negative
    ensures '%' !in s
  {
    if negative then "-" + DecimalTenths(n) else DecimalTenths(n)
  }

  /** n tenths written as "<n / 10>.<n % 10>". */
  function DecimalTenths(n: nat): (s: string)
    ensures |s| >= 3 && s[|s| - 2] == '.' && IsDigit(s[|s| - 1]) && IsDigit(s[0])
    ensures '%' !in s && '-' !in s
  {
    NatToString(n / 10) + "." + [DigitChar(n % 10)]
  }

  // parseFloat

  /** The longest prefix of s made of decimal digits. */
  function DigitRun(s: string): (r: string)
    ensures AllDigits(r) && |r| <= |s| && r == s[..|r|]
    ensures |r| == |s| || !IsDigit(s[|r|])
  {
    if |s| > 0 && IsDigit(s[0]) then [s[0]] + DigitRun(s[1..]) else ""
  }

  /** A run of digits followed by a non-digit is read up to that non-digit. */
  lemma {:induction false} DigitRunOf(ds: string, rest: string)
    requires AllDigits(ds)
    requires rest == [] || !IsDigit(rest[0])
    ensures DigitRun(ds + rest) == ds
    decreases |ds|
  {
    if ds != [] {
      assert (ds + rest)[1..] == ds[1..] + rest;
      DigitRunOf(ds[1..], rest);
    }
  }

  /** True when s starts with an exponent part: "e" or "E", an optional sign and a digit. */
  predicate HasExponent(s: string) {
    && |s| >= 2 && (s[0] == 'e' || s[0] == 'E')
    && var signed := s[1] == '+' || s[1] == '-';
       DigitRun(if signed then s[2..] else s[1..]) != []
  }

  /** The power of ten the exponent part at the head of s names. */
  function ExponentOf(s: string): int
    requires HasExponent(s)
  {
    var ds := DigitRun(if s[1] == '+' || s[1] == '-' then s[2..] else s[1..]);
    var k: int := DigitsValue(ds);
    if s[1] == '-' then -k else k
  }

  /** m times 10 to the power e, one factor of ten at a time. */
  function Scale(m: real, e: int): (r: real)
    ensures m >= 0.0 ==> r >= 0.0
    decreases if e >= 0 then e else -e
  {
    if e > 0 then Scale(m * 10.0, e - 1)
    else if e < 0 then Scale(m / 10.0, e + 1)
    else m
  }

  /** The value of the digits after a decimal point: "25" is 0.25. */
  function FractionValue(ds: string): (r: real)
    requires AllDigits(ds)
    ensures 0.0 <= r < 1.0
  {
    if ds == [] then 0.0 else (DigitValue(ds[0]) as real + FractionValue(ds[1..])) / 10.0
  }

  /** The unsigned decimal literal at the head of t: "Infinity", or digits, point, digits and an exponent. */
  function ParseUnsigned(t: string): JsFloat {
    if StartsWith(t, "Infinity") then Infinity(false)
    else
      var whole := DigitRun(t);
      var after := t[|whole|..];
      var point := |after| > 0 && after[0] == '.';
      var frac := if point then DigitRun(after[1..]) else "";
      if |whole| + |frac| == 0 then NaN
      else
        var rest := if point then after[1 + |frac|..] else after;
        var mantissa := DigitsValue(whole) as real + FractionValue(frac);
        if HasExponent(rest) then Num(Scale(mantissa, ExponentOf(rest))) else Num(mantissa)
  }

  /**
    `parseFloat(s)`: skips leading white space, reads an optional sign and the longest
    decimal literal that follows; NaN when there is none.
  */
  function ParseFloat(s: string): JsFloat {
    ParseSigned(TrimStart(s))
  }

  /** An optional sign, then the unsigned literal it applies to. */
  function ParseSigned(t: string): JsFloat {
    if |t| > 0 && t[0] == '-' then ParseUnsigned(t[1..]).Negate()
    else if |t| > 0 && t[0] == '+' then ParseUnsigned(t[1..])
    else ParseUnsigned(t)
  }

  /** A rendering of n tenths reads back as n / 10. */
  lemma ParseDecimalTenths(n: nat)
    ensures ParseUnsigned(DecimalTenths(n)) == Num(n as real / 10.0)
  {
    var q := NatToString(n / 10);
    var d := [DigitChar(n % 10)];
    var t := DecimalTenths(n);
    assert t == q + ("." + d);
    DigitRunOf(q, "." + d);
    assert t[|q|..] == "." + d;
    assert ("." + d)[1..] == d + "";
    DigitRunOf(d, "");
    DigitsValueOfNatToString(n / 10);
    assert FractionValue(d) == (n % 10) as real / 10.0 by {
      assert d[1..] == [];
    }
    assert !StartsWith(t, "Infinity") by {
      assert IsDigit(t[0]);
    }
  }

  /** A literal that starts with a digit is read as it stands, behind no sign. */
  lemma ParseUnsignedBody(body: string, v: real)
    requires |body| > 0 && IsDigit(body[0]) && ParseUnsigned(body) == Num(v)
    ensures ParseFloat(body) == Num(v)
  {
    DigitIsNotWhitespace(body[0]);
    TrimStartNoop(body);
  }

  /** A literal that starts with a digit, behind a minus sign, is read negated. */
  lemma ParseMinusBody(body: string, v: real)
    requires |body| > 0 && IsDigit(body[0]) && ParseUnsigned(body) == Num(v)
    ensures ParseFloat("-" + body) == Num(-v)
  {
    TrimStartNoop("-" + body);
    SignedBody('-', body);
  }

  /** A literal that starts with a digit, behind a plus sign, is read as it stands. */
  lemma ParsePlusBody(body: string, v: real)
    requires |body| > 0 && IsDigit(body[0]) && ParseUnsigned(body) == Num(v)
    ensures ParseFloat("+" + body) == Num(v)
  {
    TrimStartNoop("+" + body);
    SignedBody('+', body);
  }

  /** A sign in front of a literal applies to the literal behind it. */
  lemma SignedBody(sign: char, body: string)
    requires sign == '-' || sign == '+'
    ensures ParseSigned([sign] + body)
            == if sign == '-' then ParseUnsigned(body).Negate() else ParseUnsigned(body)
  {
    assert ([sign] + body)[1..] == body;
  }

  /** `parseFloat` reads back what `toFixed(1)` writes: the rounded value. */
  lemma ParseToFixed1(x: real)
    ensures ParseFloat(ToFixed1(x)) == Num(Rounded(x))
  {
    ParseSignedTenths(x < 0.0, Tenths(x));
  }

  /** `parseFloat` reads n tenths, written behind an optional "-", back as their signed value. */
  lemma ParseSignedTenths(negative: bool, n: nat)
    ensures ParseFloat(SignedTenths(negative, n)) == Num(SignedTenthsValue(negative, n))
  {
    if negative {
      ParseNegativeTenths(n);
    } else {
      ParsePositiveTenths(n);
    }
  }

  lemma ParseNegativeTenths(n: nat)
    ensures ParseFloat("-" + DecimalTenths(n)) == Num(-(n as real / 10.0))
  {
    ParseDecimalTenths(n);
    ParseMinusBody(DecimalTenths(n), n as real / 10.0);
  }

  lemma ParsePositiveTenths(n: nat)
    ensures ParseFloat(DecimalTenths(n)) == Num(n as real / 10.0)
  {
    ParseDecimalTenths(n);
    ParseUnsignedBody(DecimalTenths(n), n as real / 10.0);
  }

  /** A '+' in front of a non-negative rendering is read as a sign and changes nothing. */
  lemma ParsePlusToFixed1(x: real)
    requires x >= 0.0
    ensures ParseFloat("+" + ToFixed1(x)) == Num(Rounded(x))
  {
    var n := Tenths(x);
    assert ToFixed1(x) == DecimalTenths(n);
    assert Rounded(x) == n as real / 10.0;
    ParsePlusTenths(n);
  }

  lemma ParsePlusTenths(n: nat)
    ensures ParseFloat("+" + DecimalTenths(n)) == Num(n as real / 10.0)
  {
    ParseDecimalTenths(n);
    ParsePlusBody(DecimalTenths(n), n as real / 10.0);
  }

  // parseInt

  /**
    `parseInt(s, 10)`: skips leading white space, reads an optional sign and the longest run
    of decimal digits after it. None stands for NaN, returned when there is no digit.
  */
  function ParseInt(s: string): Option<int>
  {
    var t := TrimStart(s);
    var signed := |t| > 0 && (t[0] == '-' || t[0] == '+');
    var ds := DigitRun(if signed then t[1..] else t);
    if ds == [] then None
    else if signed && t[0] == '-' then Some(-(DigitsValue(ds) as int))
    else Some(DigitsValue(ds))
  }

  /** `parseInt` reads back the decimal rendering of a natural number. */
  lemma ParseIntOfNat(n: nat)
    ensures ParseInt(NatToString(n)) == Some(n)
  {
    ParseIntOfDigits(NatToString(n));
    DigitsValueOfNatToString(n);
  }

  /** `parseInt` reads a run of digits as its decimal value. */
  lemma ParseIntOfDigits(ds: string)
    requires |ds| > 0 && AllDigits(ds)
    ensures ParseInt(ds) == Some(DigitsValue(ds))
  {
    DigitIsNotWhitespace(ds[0]);
    TrimStartNoop(ds);
    DigitRunOf(ds, "");
    assert ds + "" == ds;
    assert IsDigit(ds[0]);
    assert !(ds[0] == '-' || ds[0] == '+');
    assert DigitRun(ds) == ds;
  }
}
