/**
  The time ranges of the Go read endpoint (`getTimeRange` in the Go handler). It accepts five
  calendar tokens and falls back to "today" for any other string. Its instants live in the
  same naive calendar as the TypeScript handler's, and `AddDate(0, 0, k)` moves an instant by
  k whole days.
*/
module GoTimeRange {
  import opened Wrappers
  import opened Calendar
  import TimeRange

  /** The five tokens the Go handler accepts (`allowedFilters`). */
  const GoAllowedFilters: seq<string> := ["today", "yesterday", "thisweek", "thismonth", "thisyear"]

  /** A resolved Go range; `bucketFormat` is the `date_trunc` unit: "hour", "day" or "month". */
  datatype GoRange = GoRange(start: Instant, end: Instant, bucketFormat: string)

  /** `t.AddDate(0, 0, k)`: same year and month, day of month moved by k (normalised). */
  function AddDays(t: Instant, k: int): (r: Instant)
    ensures r == t + k * MsPerDay
  {
    SetDateShift(t, k);
    SetDate(t, DateOf(t) + k)
  }

  /** Days back from `now` to the Monday of its week: Monday 0, ..., Sunday 6. */
  function DaysToMonday(now: Instant): (d: int)
    ensures 0 <= d < 7
    ensures d == IsoWeekDay(now) - 1
  {
    var dtm := WeekDayOf(now) - 1;
    if dtm < 0 then dtm + 7 else dtm
  }

  /** `endOfMonth`: `time.Date(y, m + 1, 0, 23, 59, 59, 999000000)`, the last millisecond of t's month. */
  function GoEndOfMonth(t: Instant): (r: Instant)
    ensures r == EndOfMonth(t)
  {
    MakeDate(MakeDay(YearOf(t), MonthOf(t) + 1, 0), MsPerDay - 1)
  }

  /** `endOfYear`: 23:59:59.999 on 31 December of t's year. */
  function GoEndOfYear(t: Instant): (r: Instant)
    ensures r == EndOfYear(t)
  {
    MakeDate(MakeDay(YearOf(t), 11, 31), MsPerDay - 1)
  }

  /** The `switch` of `getTimeRange` on one of its five tokens. */
  function GoResolve(f: TimeRange.Filter, now: Instant): (r: GoRange)
    requires f.IsCalendar()
    ensures r.bucketFormat in {"hour", "day", "month"}
  {
    match f
    case Today => GoRange(StartOfDay(now), EndOfDay(now), "hour")
    case Yesterday =>
      var y := AddDays(now, -1);
      GoRange(StartOfDay(y), EndOfDay(y), "hour")
    case ThisWeek =>
      var dtm := DaysToMonday(now);
      GoRange(StartOfDay(AddDays(now, -dtm)), EndOfDay(AddDays(now, 6 - dtm)), "day")
    case ThisMonth =>
      GoRange(MakeDate(MakeDay(YearOf(now), MonthOf(now), 1), 0), GoEndOfMonth(now), "day")
    case ThisYear =>
      GoRange(MakeDate(MakeDay(YearOf(now), 0, 1), 0), GoEndOfYear(now), "month")
  }

  /**
    `getTimeRange`: the range of a filter at instant `now`. Any string other than the five
    tokens (the two sliding tokens included) takes the `default` branch, which is "today".
  */
  function GoGetTimeRange(filter: string, now: Instant): (r: GoRange)
    ensures filter in GoAllowedFilters ==> r == GoResolve(TimeRange.ParseFilter(filter).value, now)
    ensures filter !in GoAllowedFilters ==> r == GoResolve(TimeRange.Today, now)
  {
    match TimeRange.ParseFilter(filter)
    case Some(f) => if f.IsCalendar() then GoResolve(f, now) else GoResolve(TimeRange.Today, now)
    case None => GoResolve(TimeRange.Today, now)
  }

  /** The Go bucket unit of each TypeScript granularity. */
  function BucketFormatOf(g: TimeRange.Granularity): string {
    match g
    case Seconds => "second"
    case Minutes => "minute"
    case Hours => "hour"
    case Days => "day"
    case Months => "month"
  }

  /** Go and TypeScript resolve `f` to the same instants with the same bucket unit. */
  predicate SameRange(f: TimeRange.Filter, filter: string, now: Instant) {
    var g := GoGetTimeRange(filter, now);
    var r := TimeRange.Resolve(f, now);
    && r.end.Some?
    && g.start == r.start && g.end == r.end.value
    && g.bucketFormat == BucketFormatOf(r.bucket)
  }

  /**
    On the five tokens both handlers accept, the Go and the TypeScript ranges are the same
    instants with the same bucket unit, and any other string gets the "today" range in Go.
    In particular the Go "thisweek" range is the TypeScript Monday-to-Sunday week.
  */
  lemma GoAgreesWithTs(f: TimeRange.Filter, now: Instant)
    requires f.IsCalendar()
    ensures SameRange(f, f.Name(), now)
  {
    assert f.Name() in GoAllowedFilters;
    match f
    case Today =>
    case Yesterday => SetDateShift(now, -1);
    case ThisWeek => GoWeekIsTsWeek(now);
    case ThisMonth =>
    case ThisYear =>
  }

  /** Every string outside the five tokens resolves, in Go, to the TypeScript "today" range. */
  lemma GoFallbackIsToday(filter: string, now: Instant)
    requires filter !in GoAllowedFilters
    ensures SameRange(TimeRange.Today, filter, now)
  {
  }

  lemma GoWeekIsTsWeek(now: Instant)
    ensures SameRange(TimeRange.ThisWeek, "thisweek", now)
  {
    assert TimeRange.ParseFilter("thisweek") == Some(TimeRange.ThisWeek);
    GoWeekStart(now);
    GoWeekEnd(now);
  }

  /** Going back DaysToMonday days and taking midnight gives the TypeScript week start. */
  lemma GoWeekStart(now: Instant)
    ensures GoResolve(TimeRange.ThisWeek, now).start == StartOfWeek(now)
  {
    GoWeek(now);
    DayOfShift(now, -DaysToMonday(now));
  }

  /** Going forward 6 - DaysToMonday days and taking 23:59:59.999 gives the TypeScript week end. */
  lemma GoWeekEnd(now: Instant)
    ensures GoResolve(TimeRange.ThisWeek, now).end == EndOfWeek(now)
  {
    var dtm := DaysToMonday(now);
    GoWeek(now);
    SundayEnd(now, dtm, AddDays(now, 6 - dtm), EndOfDay(AddDays(now, 6 - dtm)));
  }

  /** The last millisecond of the day 6 - dtm days after `now` is the end of its ISO week. */
  lemma SundayEnd(now: Instant, dtm: int, sunday: Instant, end: Instant)
    requires dtm == IsoWeekDay(now) - 1
    requires sunday == now + (6 - dtm) * MsPerDay
    requires end == MakeDate(Day(sunday), MsPerDay - 1)
    ensures end == MakeDate(Day(now) + 1 - IsoWeekDay(now), 0) + 7 * MsPerDay - 1
  {
    DayOfShift(now, 6 - dtm);
    WeekEndFromMonday(Day(now) - dtm);
  }

  /** The "thisweek" branch of the switch. */
  lemma GoWeek(now: Instant)
    ensures var dtm := DaysToMonday(now);
      GoResolve(TimeRange.ThisWeek, now) == GoRange(StartOfDay(AddDays(now, -dtm)), EndOfDay(AddDays(now, 6 - dtm)), "day")
  {
  }

  /** The last millisecond of the Sunday after Monday `monday` ends seven days after that Monday starts. */
  lemma WeekEndFromMonday(monday: int)
    ensures MakeDate(monday + 6, MsPerDay - 1) == MakeDate(monday, 0) + 7 * MsPerDay - 1
  {
  }

  /** Two instants of the same day share their midnight. */
  lemma SameDaySameMidnight(t: Instant, u: Instant)
    requires Day(t) == Day(u)
    ensures StartOfDay(t) == StartOfDay(u) && EndOfDay(t) == EndOfDay(u)
  {
    DaySplit(StartOfDay(t));
    DaySplit(StartOfDay(u));
  }
}
