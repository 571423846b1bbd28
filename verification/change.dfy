/**
  Percent change between a current and a previous count, and its rendering as a signed
  percentage string. The range-comparison handler and the weekly project summary each have
  their own `calcPercentChange`; they differ only on a zero baseline.
*/
module Change {
  import opened Wrappers
  import opened Strings
  import opened JsNumbers

  /**
    `calcPercentChange` of the analytics handler: null on a zero baseline, otherwise the
    difference as a percentage of the magnitude of the baseline.
  */
  function PercentChange(current: int, previous: int): Option<real> {
    if previous == 0 then None
    else Some((current - previous) as real / Abs(previous as real) * 100.0)
  }

  /**
    The analytics handler's percent change is absent exactly on a zero baseline; otherwise
    it is the unique r with r * |previous| == 100 * (current - previous), so it is zero
    exactly when nothing changed and has the sign of the difference.
  */
  lemma PercentChangeMeaning(current: int, previous: int)
    ensures PercentChange(current, previous).None? <==> previous == 0
    ensures previous != 0 ==>
      var r := PercentChange(current, previous).value;
      && r * Abs(previous as real) == (current - previous) as real * 100.0
      && (r == 0.0 <==> current == previous)
      && (r > 0.0 <==> current > previous)
      && (r < 0.0 <==> current < previous)
  {
    if previous != 0 {
      var a := Abs(previous as real);
      var d := (current - previous) as real;
      QuotientSign(d, a);
      assert d / a * 100.0 * a == d * 100.0 by {
        assert d / a * a == d;
      }
    }
  }

  /** Dividing by a positive number keeps the sign of the dividend. */
  lemma QuotientSign(d: real, a: real)
    requires a > 0.0
    ensures (d / a * 100.0 == 0.0 <==> d == 0.0)
    ensures (d / a * 100.0 > 0.0 <==> d > 0.0)
    ensures (d / a * 100.0 < 0.0 <==> d < 0.0)
  {
    assert d / a * a == d;
  }

  /**
    `calcPercentChange` of the weekly summary: on a zero baseline 0 when the current count is
    also zero and 100 otherwise; else the difference as a percentage of the (signed) baseline.
    It never yields null.
  */
  function WeeklyPercentChange(current: int, previous: int): real {
    if previous == 0 then (if current == 0 then 0.0 else 100.0)
    else (current - previous) as real / previous as real * 100.0
  }

  /** The weekly variant on a zero baseline, and its defining equation otherwise. */
  lemma WeeklyPercentChangeMeaning(current: int, previous: int)
    ensures previous == 0 && current == 0 ==> WeeklyPercentChange(current, previous) == 0.0
    ensures previous == 0 && current != 0 ==> WeeklyPercentChange(current, previous) == 100.0
    ensures previous != 0 ==>
      WeeklyPercentChange(current, previous) * previous as real == (current - previous) as real * 100.0
  {
    if previous != 0 {
      var p := previous as real;
      var d := (current - previous) as real;
      assert d / p * 100.0 * p == d * 100.0 by {
        assert d / p * p == d;
      }
    }
  }

  /**
    On the counts both handlers feed them (never negative), the two variants agree whenever
    the baseline is non-zero; they part only on a zero baseline, where the handler's gives
    null and the weekly one 0 or 100.
  */
  lemma PercentChangeVariants(current: nat, previous: nat)
    ensures previous != 0 ==> PercentChange(current, previous) == Some(WeeklyPercentChange(current, previous))
    ensures previous == 0 ==> PercentChange(current, previous).None?
  {
  }

  /**
    `formatChange`: null stays null; a number v becomes "+" (only when v > 0), then
    `v.toFixed(1)`, then "%".
  */
  function FormatChange(v: Option<real>): Option<string> {
    match v
    case None => None
    case Some(x) => Some((if x > 0.0 then "+" else "") + ToFixed1(x) + "%")
  }

  /**
    A formatted change is present exactly when the value is; it ends in "%", has exactly one
    "%", starts with "+" exactly for a positive value and with "-" exactly for a negative
    one, and what lies between the sign and the "%" is the one-decimal rendering of |v|.
  */
  lemma FormatChangeShape(v: Option<real>)
    ensures FormatChange(v).None? <==> v.None?
    ensures v.Some? ==>
      var s := FormatChange(v).value;
      && |s| >= 4 && s[|s| - 1] == '%' && '%' !in s[..|s| - 1]
      && (s[0] == '+' <==> v.value > 0.0)
      && (s[0] == '-' <==> v.value < 0.0)
      && s[..|s| - 1] == (if v.value > 0.0 then "+" else "") + ToFixed1(v.value)
  {
    if v.Some? {
      var x := v.value;
      var body := (if x > 0.0 then "+" else "") + ToFixed1(x);
      assert FormatChange(v).value == body + "%";
      assert (body + "%")[..|body|] == body;
      assert '%' !in body;
      if x > 0.0 {
        assert body[0] == '+';
      } else {
        assert body[0] == ToFixed1(x)[0];
      }
    }
  }
}
