/**
  The dashboard's `getTrend`: classifies a formatted change string ("+12.5%", "-3.0%",
  "0.0%") as an up trend, a down trend or no change, with the CSS class and label the
  stat cards show.
*/
module Trend {
  import opened Wrappers
  import opened Strings
  import opened JsNumbers
  import opened Change

  datatype Direction = Neutral | Uptrend | Downtrend

  datatype TrendInfo = TrendInfo(trend: Direction, className: string, labelText: string)

  const NoChange := TrendInfo(Neutral, "text-muted-foreground", "No change")

  predicate IsPositive(v: JsFloat) {
    (v.Num? && v.value > 0.0) || v == Infinity(false)
  }

  predicate IsNegative(v: JsFloat) {
    (v.Num? && v.value < 0.0) || v == Infinity(true)
  }

  /** The number `getTrend` reads from a change string: "%" removed, trimmed, parsed. */
  function TrendValue(change: string): JsFloat {
    ParseFloat(Trim(ReplaceFirst(change, '%', "")))
  }

  /**
    `getTrend(change)`: no change for a missing or empty string and for one that does not
    parse; "Up " + the string for a positive value; "Down " + the string without its first
    "-" for a negative one; no change for zero.
  */
  function GetTrend(change: Option<string>): TrendInfo {
    if change.None? || change.value == "" then NoChange
    else Classify(change.value, TrendValue(change.value))
  }

  /** The branches of `getTrend` after the parse, for a non-empty change string. */
  function Classify(change: string, value: JsFloat): TrendInfo {
    if value.NaN? then NoChange
    else if IsPositive(value) then TrendInfo(Uptrend, "text-green-500", "Up " + change)
    else if IsNegative(value) then TrendInfo(Downtrend, "text-red-500", "Down " + ReplaceFirst(change, '-', ""))
    else NoChange
  }

  /** Every trend `getTrend` returns is consistent; missing, empty and unparsable strings are neutral. */
  lemma GetTrendConsistent(change: Option<string>)
    ensures Consistent(GetTrend(change))
    ensures change.None? || change == Some("") ==> GetTrend(change) == NoChange
    ensures change.Some? && TrendValue(change.value).NaN? ==> GetTrend(change) == NoChange
  {
    if change.Some? && change.value != "" {
      ClassifyConsistent(change.value, TrendValue(change.value));
    }
  }

  /**
    The fields of a trend agree: each direction has its own class, and the label is
    "No change" exactly for the neutral direction, starts with "Up " for an up trend and with
    "Down " for a down trend.
  */
  predicate Consistent(t: TrendInfo) {
    && (t.trend == Neutral <==> t.className == "text-muted-foreground")
    && (t.trend == Uptrend <==> t.className == "text-green-500")
    && (t.trend == Downtrend <==> t.className == "text-red-500")
    && (t.trend == Neutral <==> t.labelText == "No change")
    && (t.trend == Uptrend ==> StartsWith(t.labelText, "Up "))
    && (t.trend == Downtrend ==> StartsWith(t.labelText, "Down "))
  }

  lemma ClassifyConsistent(change: string, value: JsFloat)
    ensures Consistent(Classify(change, value))
  {
    var t := Classify(change, value);
    if t.trend == Uptrend {
      assert t.labelText[..3] == "Up " && t.labelText[0] == 'U';
    } else if t.trend == Downtrend {
      assert t.labelText[..5] == "Down " && t.labelText[0] == 'D';
    }
  }

  /**
    Reading back a formatted change: the trend of `formatChange(v)` is up exactly when v
    rounds to a positive tenth (v >= 0.05), down exactly when it rounds to a negative one
    (v <= -0.05) and neutral otherwise, "-0.0%" included. An up label repeats the string, a
    down label shows the magnitude without its "-".
  */
  lemma TrendOfFormattedChange(v: real)
    ensures var s := FormatChange(Some(v)).value;
      var t := GetTrend(Some(s));
      && (t.trend == Uptrend <==> v >= 0.05)
      && (t.trend == Downtrend <==> v <= -0.05)
      && (t.trend == Neutral <==> -0.05 < v < 0.05)
      && (t.trend == Uptrend ==> t.labelText == "Up " + s)
      && (t.trend == Downtrend ==> t.labelText == "Down " + ToFixed1(-v) + "%")
  {
    var s := FormatChange(Some(v)).value;
    var body := (if v > 0.0 then "+" else "") + ToFixed1(v);
    FormattedValue(v, body, s);
    assert GetTrend(Some(s)) == Classify(s, Num(Rounded(v)));
    ClassifyRounded(v, s);
  }

  /**
    The direction and class `getTrend` gives a non-empty string depend only on the number read
    from it: two strings that read as the same number get the same ones, and an up label
    repeats its own string.
  */
  lemma GetTrendDependsOnValue(s1: string, s2: string)
    requires s1 != "" && s2 != "" && TrendValue(s1) == TrendValue(s2)
    ensures GetTrend(Some(s1)).trend == GetTrend(Some(s2)).trend
    ensures GetTrend(Some(s1)).className == GetTrend(Some(s2)).className
    ensures GetTrend(Some(s1)).trend == Neutral ==> GetTrend(Some(s1)).labelText == GetTrend(Some(s2)).labelText
    ensures GetTrend(Some(s1)).trend == Uptrend ==> GetTrend(Some(s1)).labelText == "Up " + s1
  {
    var v := TrendValue(s1);
    assert GetTrend(Some(s1)) == Classify(s1, v);
    assert GetTrend(Some(s2)) == Classify(s2, v);
    ClassifyIgnoresText(s1, s2, v);
  }

  /** The branch `Classify` takes depends on the value alone. */
  lemma ClassifyIgnoresText(s1: string, s2: string, v: JsFloat)
    ensures Classify(s1, v).trend == Classify(s2, v).trend
    ensures Classify(s1, v).className == Classify(s2, v).className
    ensures Classify(s1, v).trend == Neutral ==> Classify(s1, v).labelText == Classify(s2, v).labelText
    ensures Classify(s1, v).trend == Uptrend ==> Classify(s1, v).labelText == "Up " + s1
  {
  }

  /** The branch `getTrend` takes on the rounded value of v, with the label it builds. */
  lemma ClassifyRounded(v: real, s: string)
    requires s == FormatChange(Some(v)).value
    ensures var t := Classify(s, Num(Rounded(v)));
      && (t.trend == Uptrend <==> v >= 0.05)
      && (t.trend == Downtrend <==> v <= -0.05)
      && (t.trend == Neutral <==> -0.05 < v < 0.05)
      && (t.trend == Uptrend ==> t.labelText == "Up " + s)
      && (t.trend == Downtrend ==> t.labelText == "Down " + ToFixed1(-v) + "%")
  {
    RoundedIsNearest(v);
    if v <= -0.05 {
      MinusDropped(v, s);
    }
  }

  /** The number read back from `formatChange(v)` is v rounded to one decimal. */
  lemma FormattedValue(v: real, body: string, s: string)
    requires body == (if v > 0.0 then "+" else "") + ToFixed1(v)
    requires s == FormatChange(Some(v)).value
    ensures s == body + "%" && s != ""
    ensures TrendValue(s) == Num(Rounded(v))
  {
    assert s == body + "%";
    StripPercent(body);
    FormattedBodyTrimmed(v, body);
    TrendValueOf(s, body);
    if v > 0.0 {
      ParsePlusToFixed1(v);
    } else {
      ParseToFixed1(v);
    }
  }

  /** Replacing the first "%" of `body + "%"` removes that closing "%" when body has none. */
  lemma StripPercent(body: string)
    requires '%' !in body
    ensures ReplaceFirst(body + "%", '%', "") == body
  {
    IndexOfAfter(body, '%', "%");
    var s := body + "%";
    assert s[..|body|] == body && s[|body| + 1..] == "";
  }

  /** A formatted change without its "%" has no white space to trim. */
  lemma FormattedBodyTrimmed(v: real, body: string)
    requires body == (if v > 0.0 then "+" else "") + ToFixed1(v)
    ensures Trim(body) == body
  {
    var t := ToFixed1(v);
    assert !IsJsWhitespace(body[0]) by {
      if v <= 0.0 {
        assert body[0] == t[0];
        assert t[0] == '-' || IsDigit(t[0]);
      }
    }
    assert !IsJsWhitespace(body[|body| - 1]) by {
      assert body[|body| - 1] == t[|t| - 1];
    }
    TrimOfTrimmed(body);
  }

  /** The number `getTrend` reads is the parse of the string stripped of "%" and trimmed. */
  lemma TrendValueOf(s: string, body: string)
    requires ReplaceFirst(s, '%', "") == body && Trim(body) == body
    ensures TrendValue(s) == ParseFloat(body)
  {
  }

  /** Removing the leading "-" of a negative formatted change leaves the magnitude's rendering. */
  lemma MinusDropped(v: real, s: string)
    requires v < 0.0
    requires s == FormatChange(Some(v)).value
    ensures ReplaceFirst(s, '-', "") == ToFixed1(-v) + "%"
  {
    var n := Tenths(v);
    assert Tenths(-v) == n;
    assert s == "-" + DecimalTenths(n) + "%";
    assert IndexOf(s, '-') == Some(0);
    assert s[1..] == DecimalTenths(n) + "%";
  }
}
