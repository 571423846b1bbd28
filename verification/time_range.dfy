/**
  Resolution of a relative range token into an absolute window and a bucket size, and of a
  resolved window into the comparison window before it (the `getTimeRange` and
  `getPreviousTimeRange` helpers of the analytics handler).
*/
module TimeRange {
  import opened Wrappers
  import opened Calendar

  /** The time unit a frequency series is grouped by (`bucketFormat`). */
  datatype Granularity = Seconds | Minutes | Hours | Days | Months

  /** A resolved range: `end` is None for the open-ended "10secs" and "5mins" ranges. */
  datatype Range = Range(start: Instant, end: Option<Instant>, bucket: Granularity)

  /** A closed comparison window. */
  datatype Window = Window(start: Instant, end: Instant)

  /** The eight range tokens (`allowedFilters`). */
  datatype Filter = TenSecs | FiveMins | Today | Yesterday | ThisWeek | ThisMonth | ThisYear | Last3Years {
    function Name(): string {
      match this
      case TenSecs => "10secs"
      case FiveMins => "5mins"
      case Today => "today"
      case Yesterday => "yesterday"
      case ThisWeek => "thisweek"
      case ThisMonth => "thismonth"
      case ThisYear => "thisyear"
      case Last3Years => "last3years"
    }

    /** The tokens whose range runs from a midnight to a 23:59:59.999. */
    predicate IsCalendar() {
      this in {Today, Yesterday, ThisWeek, ThisMonth, ThisYear}
    }
  }

  const AllowedFilters: seq<string> :=
    ["10secs", "5mins", "today", "yesterday", "thisweek", "thismonth", "thisyear", "last3years"]

  /** The token a filter string names, if it is one of the eight (exact, case-sensitive). */
  function ParseFilter(s: string): (r: Option<Filter>)
    ensures r.Some? <==> s in AllowedFilters
    ensures r.Some? ==> r.value.Name() == s
  {
    if s == "10secs" then Some(TenSecs)
    else if s == "5mins" then Some(FiveMins)
    else if s == "today" then Some(Today)
    else if s == "yesterday" then Some(Yesterday)
    else if s == "thisweek" then Some(ThisWeek)
    else if s == "thismonth" then Some(ThisMonth)
    else if s == "thisyear" then Some(ThisYear)
    else if s == "last3years" then Some(Last3Years)
    else None
  }

  /** Every token's name parses back to that token. */
  lemma ParseFilterOfName(f: Filter)
    ensures ParseFilter(f.Name()) == Some(f)
  {
  }

  /** The range of a token at instant `now` (the switch of `getTimeRange`). */
  function Resolve(f: Filter, now: Instant): (r: Range)
    ensures r.end.None? <==> f in {TenSecs, FiveMins}
  {
    match f
    case TenSecs => Range(now - 10 * 1000, None, Seconds)
    case FiveMins => Range(now - 5 * 60 * 1000, None, Minutes)
    case Today => Range(StartOfDay(now), Some(EndOfDay(now)), Hours)
    case Yesterday =>
      var y := SetDate(now, DateOf(now) - 1);
      Range(StartOfDay(y), Some(EndOfDay(y)), Hours)
    case ThisWeek => Range(StartOfWeek(now), Some(EndOfWeek(now)), Days)
    case ThisMonth => Range(StartOfMonth(now), Some(EndOfMonth(now)), Days)
    case ThisYear => Range(StartOfYear(now), Some(EndOfYear(now)), Months)
    case Last3Years => Range(StartOfYearNYearsAgo(now, 3), Some(now), Months)
  }

  /**
    `getTimeRange`: the range of a filter string at instant `now`; any string outside the
    eight allowed tokens is an "Invalid filter" error.
  */
  function GetTimeRange(filter: string, now: Instant): (r: Result<Range, string>)
    ensures r.Ok? <==> filter in AllowedFilters
    ensures r.Err? ==> r.error == "Invalid filter"
    ensures r.Ok? ==> (r.value.end.None? <==> filter in ["10secs", "5mins"])
  {
    match ParseFilter(filter)
    case Some(f) => Ok(Resolve(f, now))
    case None => Err("Invalid filter")
  }

  /** A day-aligned range: from 00:00:00.000 of one day to 23:59:59.999 of a day not before it. */
  predicate DayAligned(start: Instant, end: Instant) {
    start % MsPerDay == 0 && TimeWithinDay(end) == MsPerDay - 1 && start < end
  }

  /** 00:00:00.000 to 23:59:59.999 of the day of t. */
  lemma WholeDay(t: Instant)
    ensures DayAligned(StartOfDay(t), EndOfDay(t))
  {
    DayOfMakeDate(Day(t), MsPerDay - 1);
  }

  /**
    Every calendar token starts at 00:00:00.000 of its first day and ends at
    23:59:59.999 of its last day, so its start lies strictly before its end.
  */
  lemma CalendarRangeBounds(f: Filter, now: Instant)
    requires f.IsCalendar()
    ensures Resolve(f, now).end.Some?
    ensures DayAligned(Resolve(f, now).start, Resolve(f, now).end.value)
  {
    match f
    case Today => DayBounds(now);
    case Yesterday => DayBounds(SetDate(now, DateOf(now) - 1));
    case ThisWeek =>
      WeekBounds(now);
      DayOfMakeDate(Day(now) + 7 - IsoWeekDay(now), MsPerDay - 1);
    case ThisMonth => MonthBounds(now);
    case ThisYear => YearBounds(now);
  }

  /** "today", "thisweek", "thismonth", "thisyear" and "last3years" contain `now`; "yesterday" ends before it. */
  lemma RangeHoldsNow(f: Filter, now: Instant)
    ensures var r := Resolve(f, now);
      && (f == Yesterday ==> r.end.value < now)
      && (f != Yesterday ==> r.start <= now && (r.end.Some? ==> now <= r.end.value))
  {
    match f
    case TenSecs =>
    case FiveMins =>
    case Today => DayBounds(now);
    case Yesterday =>
      SetDateShift(now, -1);
      DayOfShift(now, -1);
      DaySplit(now);
    case ThisWeek => WeekBounds(now);
    case ThisMonth => MonthBounds(now);
    case ThisYear => YearBounds(now);
    case Last3Years =>
      YearsAgoBounds(now, 3);
      YearBounds(now);
  }

  /** "yesterday" is the "today" range moved back exactly one day. */
  lemma YesterdayIsTodayMinusOneDay(now: Instant)
    ensures Resolve(Yesterday, now).start == Resolve(Today, now).start - MsPerDay
    ensures Resolve(Yesterday, now).end.value == Resolve(Today, now).end.value - MsPerDay
  {
    var y := SetDate(now, DateOf(now) - 1);
    SetDateShift(now, -1);
    DaySplit(now);
    DaySplit(y);
    assert Day(y) == Day(now) - 1;
  }

  /** Any two instants of the same Monday-to-Sunday week resolve "thisweek" identically. */
  lemma ThisWeekStable(now: Instant, other: Instant)
    requires StartOfWeek(now) <= other < StartOfWeek(now) + 7 * MsPerDay
    ensures Resolve(ThisWeek, other) == Resolve(ThisWeek, now)
  {
    WeekStable(now, other);
  }

  /**
    `getPreviousTimeRange`: the comparison window of a resolved range. The source reads the
    end of a "thismonth" or "thisyear" range with a non-null assertion, so it must be present.
  */
  function PreviousWindow(f: Filter, currentStart: Instant, currentEnd: Option<Instant>): (w: Window)
    requires f in {ThisMonth, ThisYear} ==> currentEnd.Some?
    ensures f in {TenSecs, FiveMins} ==> w.end == currentStart
    ensures f == Last3Years ==> w.end == currentStart - 1
  {
    match f
    case TenSecs => Window(currentStart - 10 * 1000, currentStart)
    case FiveMins => Window(currentStart - 5 * 60 * 1000, currentStart)
    case Today | Yesterday =>
      Window(currentStart - 24 * 60 * 60 * 1000, currentEnd.GetOr(currentStart) - 24 * 60 * 60 * 1000)
    case ThisWeek =>
      Window(currentStart - 7 * 24 * 60 * 60 * 1000, currentEnd.GetOr(currentStart) - 7 * 24 * 60 * 60 * 1000)
    case ThisMonth =>
      var prevMonthStart := SetMonth(currentStart, MonthOf(currentStart) - 1);
      var prevMonthEnd := SetMonth(currentEnd.value, MonthOf(currentEnd.value) - 1);
      Window(prevMonthStart, prevMonthEnd)
    case ThisYear =>
      var prevYearStart := SetFullYear(currentStart, YearOf(currentStart) - 1);
      var prevYearEnd := SetFullYear(currentEnd.value, YearOf(currentEnd.value) - 1);
      Window(prevYearStart, prevYearEnd)
    case Last3Years =>
      var prevEnd := currentStart - 1;
      var prevStart := SetFullYear(prevEnd, YearOf(prevEnd) - 3);
      Window(prevStart, prevEnd)
  }

  /** `getPreviousTimeRange` on a filter string: "Invalid filter" for any other string. */
  function GetPreviousTimeRange(filter: string, currentStart: Instant, currentEnd: Option<Instant>): (r: Result<Window, string>)
    requires filter in ["thismonth", "thisyear"] ==> currentEnd.Some?
    ensures r.Ok? <==> filter in AllowedFilters
    ensures r.Err? ==> r.error == "Invalid filter"
  {
    match ParseFilter(filter)
    case Some(f) => Ok(PreviousWindow(f, currentStart, currentEnd))
    case None => Err("Invalid filter")
  }

  /** The comparison window of the range `f` resolves to at `now`. */
  function PreviousOf(f: Filter, now: Instant): Window {
    var r := Resolve(f, now);
    PreviousWindow(f, r.start, r.end)
  }

  /**
    The sliding ranges: the previous window of "10secs" / "5mins" ends where the current one
    starts and is 10 s / 5 min long.
  */
  lemma SlidingPrevious(f: Filter, now: Instant)
    requires f in {TenSecs, FiveMins}
    ensures PreviousOf(f, now).end == Resolve(f, now).start
    ensures PreviousOf(f, now).end - PreviousOf(f, now).start
         == (if f == TenSecs then 10 * MsPerSecond else 5 * MsPerMinute)
  {
  }

  /**
    "today" and "yesterday" compare with the window one day (24 h) earlier, "thisweek" with
    the one seven days earlier; the previous window ends one millisecond before the
    current start.
  */
  lemma ShiftedPrevious(f: Filter, now: Instant)
    requires f in {Today, Yesterday, ThisWeek}
    ensures var r := Resolve(f, now);
      var p := PreviousOf(f, now);
      var shift := if f == ThisWeek then 7 * MsPerDay else MsPerDay;
      && p.start == r.start - shift
      && p.end == r.end.value - shift
      && p.end == r.start - 1
  {
    if f == Today {
      assert EndOfDay(now) == StartOfDay(now) + MsPerDay - 1;
    } else if f == Yesterday {
      var y := SetDate(now, DateOf(now) - 1);
      assert EndOfDay(y) == StartOfDay(y) + MsPerDay - 1;
    } else {
      assert EndOfWeek(now) == StartOfWeek(now) + 7 * MsPerDay - 1;
    }
  }

  /** The month before month m of year y, January rolling back to December of y - 1. */
  function PreviousMonth(y: int, m: int): (p: (int, int))
    requires 0 <= m < 12
    ensures 0 <= p.1 < 12
  {
    if m == 0 then (y - 1, 11) else (y, m - 1)
  }

  /** Day d of month m - 1, as MakeDay normalises it, is day d of the preceding month, which month m follows. */
  lemma PreviousMonthDay(y: int, m: int, d: int)
    requires 0 <= m < 12
    ensures var (py, pm) := PreviousMonth(y, m);
      && MakeDay(y, m - 1, d) == MakeDay(py, pm, d)
      && MakeDay(py, pm + 1, d) == MakeDay(y, m, d)
  {
    assert m / 12 == 0 && m % 12 == m;
    if m == 0 {
      assert (m - 1) / 12 == -1 && (m - 1) % 12 == 11;
      assert 12 / 12 == 1 && 12 % 12 == 0;
    } else {
      assert (m - 1) / 12 == 0 && (m - 1) % 12 == m - 1;
    }
  }

  /**
    "thismonth" compares with a window that starts on the 1st of the preceding month. Its
    end keeps the current month's last day-of-month L and is normalised by `setMonth`: when
    the preceding month has at least L days it is day L of that month, otherwise it rolls
    forward into the current month (L minus the preceding month's length), and the two
    windows then overlap.
  */
  lemma ThisMonthPrevious(now: Instant)
    ensures var r := Resolve(ThisMonth, now);
      var p := PreviousOf(ThisMonth, now);
      var y, m := YearOf(now), MonthOf(now);
      var (py, pm) := PreviousMonth(y, m);
      var last := DaysInMonth(y, m);
      && p.start % MsPerDay == 0
      && CivilOfDay(Day(p.start)) == Civil(py, pm, 1)
      && TimeWithinDay(p.end) == MsPerDay - 1
      && (last <= DaysInMonth(py, pm) ==>
            CivilOfDay(Day(p.end)) == Civil(py, pm, last) && p.end < r.start)
      && (last > DaysInMonth(py, pm) ==>
            CivilOfDay(Day(p.end)) == Civil(y, m, last - DaysInMonth(py, pm)) && p.end > r.start)
  {
    var p := PreviousOf(ThisMonth, now);
    PreviousMonthDays(now);
    MonthBackStart(YearOf(now), MonthOf(now), p.start);
    MonthBackEnd(YearOf(now), MonthOf(now), p.end);
  }

  /** Midnight of the 1st of month m - 1 is midnight of the 1st of the preceding month. */
  lemma MonthBackStart(y: int, m: int, s: Instant)
    requires 0 <= m < 12
    requires s == MakeDate(MakeDay(y, m - 1, 1), 0)
    ensures var (py, pm) := PreviousMonth(y, m);
      s % MsPerDay == 0 && CivilOfDay(Day(s)) == Civil(py, pm, 1)
  {
    var (py, pm) := PreviousMonth(y, m);
    PreviousMonthDay(y, m, 1);
    GettersOfMakeDate(Civil(py, pm, 1), 0);
    CivilOfDayOfCivil(Civil(py, pm, 1));
  }

  /**
    23:59:59.999 of day L (the length of month m) of month m - 1: day L of the preceding
    month when it is that long, else a day of month m itself, after midnight of its 1st.
  */
  lemma MonthBackEnd(y: int, m: int, e: Instant)
    requires 0 <= m < 12
    requires e == MakeDate(MakeDay(y, m - 1, DaysInMonth(y, m)), MsPerDay - 1)
    ensures var (py, pm) := PreviousMonth(y, m);
      var last := DaysInMonth(y, m);
      && TimeWithinDay(e) == MsPerDay - 1
      && (last <= DaysInMonth(py, pm) ==>
            CivilOfDay(Day(e)) == Civil(py, pm, last) && e < MakeDate(MakeDay(y, m, 1), 0))
      && (last > DaysInMonth(py, pm) ==>
            CivilOfDay(Day(e)) == Civil(y, m, last - DaysInMonth(py, pm)) && e > MakeDate(MakeDay(y, m, 1), 0))
  {
    var (py, pm) := PreviousMonth(y, m);
    var last := DaysInMonth(y, m);
    PreviousMonthDay(y, m, last);
    DayOfMakeDate(MakeDay(py, pm, last), MsPerDay - 1);
    if last <= DaysInMonth(py, pm) {
      CivilOfDayOfCivil(Civil(py, pm, last));
      MonthBackEndBefore(y, m);
    } else {
      MonthBackEndAfter(y, m);
    }
  }

  /** Day L of the preceding month, when it has that many days, comes before the 1st of month m. */
  lemma MonthBackEndBefore(y: int, m: int)
    requires 0 <= m < 12
    requires DaysInMonth(y, m) <= DaysInMonth(PreviousMonth(y, m).0, PreviousMonth(y, m).1)
    ensures var (py, pm) := PreviousMonth(y, m);
      MakeDay(py, pm, DaysInMonth(y, m)) < MakeDay(y, m, 1)
  {
    var (py, pm) := PreviousMonth(y, m);
    MakeDayPastMonthEnd(py, pm, DaysInMonth(y, m));
    PreviousMonthDay(y, m, DaysInMonth(y, m) - DaysInMonth(py, pm));
  }

  /** Day L of a shorter preceding month, counted on, is day L - length of month m, after its 1st. */
  lemma MonthBackEndAfter(y: int, m: int)
    requires 0 <= m < 12
    requires DaysInMonth(y, m) > DaysInMonth(PreviousMonth(y, m).0, PreviousMonth(y, m).1)
    ensures var (py, pm) := PreviousMonth(y, m);
      var over := DaysInMonth(y, m) - DaysInMonth(py, pm);
      && CivilOfDay(MakeDay(py, pm, DaysInMonth(y, m))) == Civil(y, m, over)
      && MakeDay(py, pm, DaysInMonth(y, m)) >= MakeDay(y, m, 1)
  {
    var (py, pm) := PreviousMonth(y, m);
    var over := DaysInMonth(y, m) - DaysInMonth(py, pm);
    MakeDayPastMonthEnd(py, pm, DaysInMonth(y, m));
    PreviousMonthDay(y, m, over);
    CivilOfDayOfCivil(Civil(y, m, over));
  }

  /** The "thismonth" comparison window in day numbers: from the 1st of month m - 1 to its day L. */
  lemma PreviousMonthDays(now: Instant)
    ensures var y, m := YearOf(now), MonthOf(now);
      var p := PreviousOf(ThisMonth, now);
      && p.start == MakeDate(MakeDay(y, m - 1, 1), 0)
      && p.end == MakeDate(MakeDay(y, m - 1, DaysInMonth(y, m)), MsPerDay - 1)
  {
    PreviousMonthWindow(now);
    PreviousMonthStart(now);
    PreviousMonthEnd(now);
  }

  /** The "thismonth" comparison window moves both ends of the current range back a month. */
  lemma PreviousMonthWindow(now: Instant)
    ensures var s, e := StartOfMonth(now), EndOfMonth(now);
      PreviousOf(ThisMonth, now) == Window(SetMonth(s, MonthOf(s) - 1), SetMonth(e, MonthOf(e) - 1))
  {
    assert Resolve(ThisMonth, now) == Range(StartOfMonth(now), Some(EndOfMonth(now)), Days);
  }

  /**
    "thisyear" compares with the previous calendar year: from 00:00:00.000 on 1 January to
    23:59:59.999 on 31 December of the year before now's, which ends just before the
    current range starts.
  */
  lemma ThisYearPrevious(now: Instant)
    ensures var p := PreviousOf(ThisYear, now);
      && p.start == MakeDate(MakeDay(YearOf(now) - 1, 0, 1), 0)
      && p.end == MakeDate(MakeDay(YearOf(now) - 1, 11, 31), MsPerDay - 1)
      && p.end == Resolve(ThisYear, now).start - 1
  {
    PreviousYearDays(now);
    YearBackEnd(YearOf(now), PreviousOf(ThisYear, now).end);
  }

  /** The "thisyear" comparison window: the current range moved back one year by `setFullYear`. */
  lemma PreviousYearDays(now: Instant)
    ensures var p := PreviousOf(ThisYear, now);
      && p.start == MakeDate(MakeDay(YearOf(now) - 1, 0, 1), 0)
      && p.end == MakeDate(MakeDay(YearOf(now) - 1, 11, 31), MsPerDay - 1)
  {
    PreviousYearWindow(now);
    PreviousYearStart(now);
    PreviousYearEnd(now);
  }

  /** The "thisyear" comparison window moves both ends of the current range back a year. */
  lemma PreviousYearWindow(now: Instant)
    ensures var s, e := StartOfYear(now), EndOfYear(now);
      PreviousOf(ThisYear, now) == Window(SetFullYear(s, YearOf(s) - 1), SetFullYear(e, YearOf(e) - 1))
  {
    assert Resolve(ThisYear, now) == Range(StartOfYear(now), Some(EndOfYear(now)), Months);
  }

  /** 23:59:59.999 on 31 December of year y - 1 is the millisecond before 1 January of year y. */
  lemma YearBackEnd(y: int, e: Instant)
    requires e == MakeDate(MakeDay(y - 1, 11, 31), MsPerDay - 1)
    ensures e == MakeDate(MakeDay(y, 0, 1), 0) - 1
  {
    NewYearsEve(y - 1);
    EndOfDayBeforeNext(MakeDay(y - 1, 11, 31));
  }

  /**
    "last3years" compares with the window that ends one millisecond before the current
    start (23:59:59.999 on 31 December, four years before now's year) and starts three
    years before that end.
  */
  lemma Last3YearsPrevious(now: Instant)
    ensures var r := Resolve(Last3Years, now);
      var p := PreviousOf(Last3Years, now);
      && p.end == r.start - 1
      && TimeWithinDay(p.end) == MsPerDay - 1
      && CivilOfDay(Day(p.end)) == Civil(YearOf(now) - 4, 11, 31)
      && TimeWithinDay(p.start) == MsPerDay - 1
      && CivilOfDay(Day(p.start)) == Civil(YearOf(now) - 7, 11, 31)
  {
    var y := YearOf(now);
    var r := Resolve(Last3Years, now);
    var e := r.start - 1;
    assert r.start == StartOfYearNYearsAgo(now, 3);
    NewYearsEve(y - 4);
    EndOfDayBeforeNext(MakeDay(y - 4, 11, 31));
    assert e == MakeDate(DayOfCivil(Civil(y - 4, 11, 31)), MsPerDay - 1);
    GettersOfMakeDate(Civil(y - 4, 11, 31), MsPerDay - 1);
    var p := PreviousOf(Last3Years, now);
    assert p == PreviousWindow(Last3Years, r.start, r.end);
    assert p.end == e;
    assert p.start == SetFullYear(e, y - 7);
    assert p.start == MakeDate(DayOfCivil(Civil(y - 7, 11, 31)), MsPerDay - 1);
    GettersOfMakeDate(Civil(y - 7, 11, 31), MsPerDay - 1);
    CivilOfDayOfCivil(Civil(y - 4, 11, 31));
    CivilOfDayOfCivil(Civil(y - 7, 11, 31));
  }

  /**
    For every token except "thismonth" the comparison window ends no later than the current
    range starts.
  */
  lemma PreviousEndsBeforeStart(f: Filter, now: Instant)
    requires f != ThisMonth
    ensures PreviousOf(f, now).end <= Resolve(f, now).start
  {
    match f
    case TenSecs =>
    case FiveMins =>
    case Today => ShiftedPrevious(f, now);
    case Yesterday => ShiftedPrevious(f, now);
    case ThisWeek => ShiftedPrevious(f, now);
    case ThisYear => ThisYearPrevious(now);
    case Last3Years =>
  }

  /** In a 31-day month that follows a shorter one, the "thismonth" comparison window overlaps the current month. */
  lemma ThisMonthPreviousCanOverlap(now: Instant)
    requires MonthOf(now) in {2, 4, 6, 9, 11}
    ensures PreviousOf(ThisMonth, now).end > Resolve(ThisMonth, now).start
  {
    LongMonthAfterShort(YearOf(now), MonthOf(now));
    PreviousMonthDays(now);
    MonthBackEnd(YearOf(now), MonthOf(now), PreviousOf(ThisMonth, now).end);
  }

  /** March, May, July, October and December have 31 days and follow a shorter month. */
  lemma LongMonthAfterShort(y: int, m: int)
    requires m in {2, 4, 6, 9, 11}
    ensures DaysInMonth(y, m) > DaysInMonth(PreviousMonth(y, m).0, PreviousMonth(y, m).1)
  {
  }
}
