/**
  Go's reference-layout date formatting as the server uses it: `t.Format("2006-01-02")` for
  the visitor-id date and `t.Format("2006-01")` for the monthly event counter.
*/
module GoFormat {
  import opened Calendar
  import opened Strings

  /** The "2006" element: four digits at least, a minus sign before a year before year 0. */
  function YearText(y: int): string {
    if y < 0 then "-" + PadNat(-y, 4) else PadNat(y, 4)
  }

  /** Years 0 to 9999 take exactly four digits. */
  lemma YearTextWidth(y: int)
    requires 0 <= y <= 9999
    ensures |YearText(y)| == 4 && YearText(y) == PadNat(y, 4)
  {
    FourDigits(y);
  }

  /** `Format("2006-01")`: the year and the 1-based month. */
  function MonthKey(t: Instant): string {
    var c := CivilOfDay(Day(t));
    YearText(c.year) + "-" + PadNat(c.month + 1, 2)
  }

  /** `Format("2006-01-02")`: the year, the 1-based month and the day of the month. */
  function DateKey(t: Instant): string {
    var c := CivilOfDay(Day(t));
    YearText(c.year) + "-" + PadNat(c.month + 1, 2) + "-" + PadNat(c.date, 2)
  }

  /** Leading zeros do not change the value of a run of digits. */
  lemma {:induction false} DigitsValueOfPadded(zeros: nat, ds: string)
    requires AllDigits(ds)
    ensures AllDigits(seq(zeros, _ => '0') + ds)
    ensures DigitsValue(seq(zeros, _ => '0') + ds) == DigitsValue(ds)
    decreases |ds|, zeros
  {
    var z := seq(zeros, _ => '0');
    var s := z + ds;
    assert AllDigits(s) by {
      forall i | 0 <= i < |s|
        ensures IsDigit(s[i])
      {
        if i >= |z| {
          assert s[i] == ds[i - |z|];
        }
      }
    }
    if |ds| > 0 {
      DigitsValueOfPadded(zeros, ds[..|ds| - 1]);
      assert s[..|s| - 1] == z + ds[..|ds| - 1];
    } else if zeros > 0 {
      DigitsValueOfPadded(zeros - 1, ds);
      assert s[..|s| - 1] == seq(zeros - 1, _ => '0') + ds;
    }
  }

  /** A zero-padded rendering reads back as its number. */
  lemma PadNatValue(n: nat, width: nat)
    ensures DigitsValue(PadNat(n, width)) == n
  {
    var digits := NatToString(n);
    var s := PadNat(n, width);
    DigitsValueOfNatToString(n);
    if |digits| < width {
      var z := seq(width - |digits|, _ => '0');
      assert s == z + digits;
      DigitsValueOfPadded(width - |digits|, digits);
      assert DigitsValue(z + digits) == n;
    } else {
      assert s == digits;
    }
  }

  /** Padded renderings of the same width coincide only for the same number. */
  lemma PadNatInjective(a: nat, b: nat, width: nat)
    requires PadNat(a, width) == PadNat(b, width)
    ensures a == b
  {
    PadNatValue(a, width);
    PadNatValue(b, width);
  }

  lemma TwoDigits(n: nat)
    requires n < 100
    ensures |PadNat(n, 2)| == 2
  {
    if n >= 10 {
      assert NatToString(n) == NatToString(n / 10) + [DigitChar(n % 10)];
    }
  }

  lemma FourDigits(n: nat)
    requires n < 10000
    ensures |NatToString(n)| <= 4
  {
    if n >= 10 {
      FourDigits(n / 10);
      assert |NatToString(n / 10)| <= 3 by {
        if n / 10 >= 10 {
          ShorterThan(n / 10, 1000);
        }
      }
    }
  }

  lemma ShorterThan(n: nat, bound: nat)
    requires n < 1000 && bound == 1000
    ensures |NatToString(n)| <= 3
  {
    if n >= 10 {
      assert NatToString(n) == NatToString(n / 10) + [DigitChar(n % 10)];
      if n / 10 >= 10 {
        assert NatToString(n / 10) == NatToString(n / 100) + [DigitChar(n / 10 % 10)];
      }
    }
  }

  /** Two dashed keys with fields of the same widths agree only field by field. */
  lemma DashedFields(y1: string, m1: string, d1: string, y2: string, m2: string, d2: string)
    requires |y1| == |y2| == 4 && |m1| == |m2| == 2 && |d1| == |d2| == 2
    requires y1 + "-" + m1 + "-" + d1 == y2 + "-" + m2 + "-" + d2
    ensures y1 == y2 && m1 == m2 && d1 == d2
  {
    var k1, k2 := y1 + "-" + m1 + "-" + d1, y2 + "-" + m2 + "-" + d2;
    assert k1[..4] == y1 && k2[..4] == y2;
    assert k1[5..7] == m1 && k2[5..7] == m2;
    assert k1[8..] == d1 && k2[8..] == d2;
  }

  /**
    The date key names the calendar day and nothing finer: two instants of the same day share
    it, and for years 0 to 9999 two instants share it only when they fall on the same day.
  */
  lemma DateKeyIsTheDay(t: Instant, u: Instant)
    ensures Day(t) == Day(u) ==> DateKey(t) == DateKey(u)
    ensures 0 <= YearOf(t) <= 9999 && 0 <= YearOf(u) <= 9999 && DateKey(t) == DateKey(u) ==> Day(t) == Day(u)
  {
    var ct, cu := CivilOfDay(Day(t)), CivilOfDay(Day(u));
    if 0 <= ct.year <= 9999 && 0 <= cu.year <= 9999 && DateKey(t) == DateKey(u) {
      DaysInMonthBound(ct);
      DaysInMonthBound(cu);
      YearTextWidth(ct.year);
      YearTextWidth(cu.year);
      TwoDigits(ct.month + 1);
      TwoDigits(cu.month + 1);
      TwoDigits(ct.date);
      TwoDigits(cu.date);
      DashedFields(YearText(ct.year), PadNat(ct.month + 1, 2), PadNat(ct.date, 2),
                   YearText(cu.year), PadNat(cu.month + 1, 2), PadNat(cu.date, 2));
      PadNatInjective(ct.year, cu.year, 4);
      PadNatInjective(ct.month + 1, cu.month + 1, 2);
      PadNatInjective(ct.date, cu.date, 2);
      assert ct == cu;
    }
  }

  /**
    The month key names the calendar month: two instants of the same month share it, and for
    years 0 to 9999 two instants share it only when year and month agree.
  */
  lemma MonthKeyIsTheMonth(t: Instant, u: Instant)
    ensures YearOf(t) == YearOf(u) && MonthOf(t) == MonthOf(u) ==> MonthKey(t) == MonthKey(u)
    ensures 0 <= YearOf(t) <= 9999 && 0 <= YearOf(u) <= 9999 && MonthKey(t) == MonthKey(u) ==>
      YearOf(t) == YearOf(u) && MonthOf(t) == MonthOf(u)
  {
    var ct, cu := CivilOfDay(Day(t)), CivilOfDay(Day(u));
    if 0 <= ct.year <= 9999 && 0 <= cu.year <= 9999 && MonthKey(t) == MonthKey(u) {
      YearTextWidth(ct.year);
      YearTextWidth(cu.year);
      TwoDigits(ct.month + 1);
      TwoDigits(cu.month + 1);
      var kt, ku := MonthKey(t), MonthKey(u);
      assert kt[..4] == YearText(ct.year) && ku[..4] == YearText(cu.year);
      assert kt[5..] == PadNat(ct.month + 1, 2) && ku[5..] == PadNat(cu.month + 1, 2);
      PadNatInjective(ct.year, cu.year, 4);
      PadNatInjective(ct.month + 1, cu.month + 1, 2);
    }
  }

  /** The first instant of a month formats to that month's key. */
  lemma MonthKeyOfMonthStart(t: Instant)
    ensures MonthKey(StartOfMonth(t)) == MonthKey(t)
  {
    var c := Civil(YearOf(t), MonthOf(t), 1);
    GettersOfMakeDate(c, 0);
    MonthKeyIsTheMonth(StartOfMonth(t), t);
  }

  lemma DaysInMonthBound(c: Civil)
    requires ValidCivil(c)
    ensures c.date <= 31
  {
  }
}
