/**
  Civil-calendar arithmetic behind the analytics date helpers.

  An instant is a whole number of milliseconds since 1970-01-01 00:00:00.000 of one naive
  (time-zone free) proleptic Gregorian calendar, which is what a JavaScript `Date` holds.
  `new Date(y, m, d, h, mi, s, ms)`, `setDate`, `setMonth` and `setFullYear` are modelled
  after ECMAScript's MakeDay/MakeDate: a month outside 0..11 moves the year
  (floor(m / 12), m mod 12) and a day outside the month simply counts on from day 1, so
  `new Date(y, m + 1, 0)` is the last day of month m. Months are 0-based (January = 0), as
  `getMonth` returns them; days of the month are 1-based.
*/
module Calendar {

  type Instant = int

  const MsPerSecond: int := 1000
  const MsPerMinute: int := 60000
  const MsPerHour: int := 3600000
  const MsPerDay: int := 86400000

  predicate IsLeapYear(y: int) {
    y % 4 == 0 && (y % 100 != 0 || y % 400 == 0)
  }

  function DaysInYear(y: int): int {
    if IsLeapYear(y) then 366 else 365
  }

  /** Length of month m (0-based) of year y. */
  function DaysInMonth(y: int, m: int): int
    requires 0 <= m < 12
  {
    if m == 1 then (if IsLeapYear(y) then 29 else 28)
    else if m == 3 || m == 5 || m == 8 || m == 10 then 30
    else 31
  }

  /** Days of year y before the first of month m: the lengths of months 0..m-1 added up. */
  function DaysBeforeMonth(y: int, m: int): (r: int)
    requires 0 <= m <= 12
    ensures 28 * m <= r <= 31 * m
  {
    if m > 0 then DaysBeforeMonth(y, m - 1) + DaysInMonth(y, m - 1) else 0
  }

  lemma DaysBeforeMonthStep(y: int, m: int)
    requires 0 <= m < 12
    ensures DaysBeforeMonth(y, m + 1) == DaysBeforeMonth(y, m) + DaysInMonth(y, m)
  {
  }

  /** December starts 31 days before the year ends, and the twelve months fill the year. */
  lemma DaysBeforeDecember(y: int)
    ensures DaysBeforeMonth(y, 11) == DaysInYear(y) - 31
    ensures DaysBeforeMonth(y, 12) == DaysInYear(y)
  {
    var leap := if IsLeapYear(y) then 1 else 0;
    assert DaysBeforeMonth(y, 1) == 31;
    assert DaysBeforeMonth(y, 2) == 59 + leap;
    assert DaysBeforeMonth(y, 3) == 90 + leap;
    assert DaysBeforeMonth(y, 4) == 120 + leap;
    assert DaysBeforeMonth(y, 5) == 151 + leap;
    assert DaysBeforeMonth(y, 6) == 181 + leap;
    assert DaysBeforeMonth(y, 7) == 212 + leap;
    assert DaysBeforeMonth(y, 8) == 243 + leap;
    assert DaysBeforeMonth(y, 9) == 273 + leap;
    assert DaysBeforeMonth(y, 10) == 304 + leap;
    assert DaysBeforeMonth(y, 11) == 334 + leap;
  }

  /** Days from 1970-01-01 to January 1st of year y (negative before 1970). */
  function DaysBeforeYear(y: int): int
    decreases if y >= 1970 then y - 1970 else 1970 - y
  {
    if y > 1970 then DaysBeforeYear(y - 1) + DaysInYear(y - 1)
    else if y < 1970 then DaysBeforeYear(y + 1) - DaysInYear(y)
    else 0
  }

  lemma DaysBeforeNextYear(y: int)
    ensures DaysBeforeYear(y + 1) == DaysBeforeYear(y) + DaysInYear(y)
  {
  }

  lemma {:induction false} DaysBeforeYearGrows(a: int, b: int)
    requires a < b
    ensures DaysBeforeYear(a) + DaysInYear(a) <= DaysBeforeYear(b)
    decreases b - a
  {
    DaysBeforeNextYear(a);
    if a + 1 < b {
      DaysBeforeYearGrows(a + 1, b);
    }
  }

  lemma DaysBeforeYearMonotone(a: int, b: int)
    ensures a <= b ==> DaysBeforeYear(a) <= DaysBeforeYear(b)
  {
    if a < b {
      DaysBeforeYearGrows(a, b);
    }
  }

  /** ECMAScript MakeDay: the day number of date `date` of month `month` of year `year`. */
  function MakeDay(year: int, month: int, date: int): int {
    var y := year + month / 12;
    var m := month % 12;
    DaysBeforeYear(y) + DaysBeforeMonth(y, m) + date - 1
  }

  function MakeDate(day: int, time: int): Instant {
    day * MsPerDay + time
  }

  /** The day number of an instant (floor division). */
  function Day(t: Instant): int {
    t / MsPerDay
  }

  function TimeWithinDay(t: Instant): int {
    t % MsPerDay
  }

  lemma DayOfMakeDate(n: int, time: int)
    requires 0 <= time < MsPerDay
    ensures Day(MakeDate(n, time)) == n && TimeWithinDay(MakeDate(n, time)) == time
  {
  }

  lemma DaySplit(t: Instant)
    ensures t == MakeDate(Day(t), TimeWithinDay(t))
    ensures 0 <= TimeWithinDay(t) < MsPerDay
  {
  }

  /** A calendar date: month 0..11, date 1..length of the month. */
  datatype Civil = Civil(year: int, month: int, date: int)

  predicate ValidCivil(c: Civil) {
    0 <= c.month < 12 && 1 <= c.date <= DaysInMonth(c.year, c.month)
  }

  function DayOfCivil(c: Civil): int {
    MakeDay(c.year, c.month, c.date)
  }

  /**
    Splits a day offset n from January 1st of year y into a year and a day of that year.
    The result names the same day and lies inside its year.
  */
  function YearSplit(y: int, n: int): (r: (int, int))
    ensures 0 <= r.1 < DaysInYear(r.0)
    ensures DaysBeforeYear(r.0) + r.1 == DaysBeforeYear(y) + n
    decreases if n < 0 then 400 - n else n
  {
    if n < 0 then
      DaysBeforeNextYear(y - 1);
      YearSplit(y - 1, n + DaysInYear(y - 1))
    else if n >= DaysInYear(y) then
      DaysBeforeNextYear(y);
      YearSplit(y + 1, n - DaysInYear(y))
    else
      (y, n)
  }

  /** Splits day k of year y, counted from the first of month m, into a month and a day offset. */
  function MonthSplit(y: int, m: int, k: int): (r: (int, int))
    requires 0 <= m < 12 && 0 <= k
    requires DaysBeforeMonth(y, m) + k < DaysInYear(y)
    ensures 0 <= r.0 < 12 && 0 <= r.1 < DaysInMonth(y, r.0)
    ensures DaysBeforeMonth(y, r.0) + r.1 == DaysBeforeMonth(y, m) + k
    decreases 12 - m
  {
    DaysBeforeMonthStep(y, m);
    DaysBeforeDecember(y);
    if k < DaysInMonth(y, m) then (m, k)
    else MonthSplit(y, m + 1, k - DaysInMonth(y, m))
  }

  /** Some valid date has day number n: the one YearSplit and MonthSplit find. */
  lemma CivilOfDayExists(n: int)
    ensures exists c :: ValidCivil(c) && DayOfCivil(c) == n
  {
    var (y, k) := YearSplit(1970, n);
    DaysBeforeMonthStep(y, 0);
    var (m, d) := MonthSplit(y, 0, k);
    var c := Civil(y, m, d + 1);
    assert ValidCivil(c);
    DayOfCivilBounds(c);
  }

  /** No two valid dates share a day number. */
  lemma CivilOfDayUnique(n: int)
    ensures forall c1, c2 :: ValidCivil(c1) && ValidCivil(c2) && DayOfCivil(c1) == n && DayOfCivil(c2) == n ==> c1 == c2
  {
    forall c1, c2 | ValidCivil(c1) && ValidCivil(c2) && DayOfCivil(c1) == n && DayOfCivil(c2) == n
      ensures c1 == c2
    {
      DayOfCivilInjective(c1, c2);
    }
  }

  /**
    The calendar date of day number n: the one valid date whose day number is n
    (ECMAScript's YearFromTime, MonthFromTime and DateFromTime).
  */
  function CivilOfDay(n: int): (c: Civil)
    ensures ValidCivil(c) && DayOfCivil(c) == n
  {
    CivilOfDayExists(n);
    CivilOfDayUnique(n);
    var c :| ValidCivil(c) && DayOfCivil(c) == n;
    c
  }

  lemma {:induction false} DaysBeforeMonthGrows(y: int, a: int, b: int)
    requires 0 <= a < b <= 12
    ensures DaysBeforeMonth(y, a) + DaysInMonth(y, a) <= DaysBeforeMonth(y, b)
    decreases b - a
  {
    DaysBeforeMonthStep(y, a);
    if a + 1 < b {
      DaysBeforeMonthGrows(y, a + 1, b);
    }
  }

  /** The day number of a valid date lies inside its year, and inside its month. */
  lemma DayOfCivilBounds(c: Civil)
    requires ValidCivil(c)
    ensures DaysBeforeYear(c.year) <= DayOfCivil(c) < DaysBeforeYear(c.year) + DaysInYear(c.year)
    ensures DayOfCivil(c) == DaysBeforeYear(c.year) + DaysBeforeMonth(c.year, c.month) + c.date - 1
  {
    DaysBeforeMonthGrows(c.year, c.month, 12);
    DaysBeforeDecember(c.year);
  }

  /** Different valid dates have different day numbers. */
  lemma DayOfCivilInjective(c1: Civil, c2: Civil)
    requires ValidCivil(c1) && ValidCivil(c2)
    requires DayOfCivil(c1) == DayOfCivil(c2)
    ensures c1 == c2
  {
    DayOfCivilBounds(c1);
    DayOfCivilBounds(c2);
    if c1.year < c2.year {
      DaysBeforeYearGrows(c1.year, c2.year);
      assert false;
    } else if c2.year < c1.year {
      DaysBeforeYearGrows(c2.year, c1.year);
      assert false;
    }
    if c1.month < c2.month {
      DaysBeforeMonthGrows(c1.year, c1.month, c2.month);
      assert false;
    } else if c2.month < c1.month {
      DaysBeforeMonthGrows(c1.year, c2.month, c1.month);
      assert false;
    }
  }

  /** Reading back the date of a valid date's day number gives that date. */
  lemma CivilOfDayOfCivil(c: Civil)
    requires ValidCivil(c)
    ensures CivilOfDay(DayOfCivil(c)) == c
  {
    DayOfCivilInjective(CivilOfDay(DayOfCivil(c)), c);
  }

  // The getters of a Date.

  function YearOf(t: Instant): int {
    CivilOfDay(Day(t)).year
  }

  function MonthOf(t: Instant): int {
    CivilOfDay(Day(t)).month
  }

  function DateOf(t: Instant): int {
    CivilOfDay(Day(t)).date
  }

  /** `getDay`: 0 = Sunday, 1 = Monday, ..., 6 = Saturday (1970-01-01 was a Thursday). */
  function WeekDayOf(t: Instant): int {
    (Day(t) + 4) % 7
  }

  // The constructor and setters of a Date.

  /** `t.setDate(dt)`: same year, month and time of day, day of month dt (normalised). */
  function SetDate(t: Instant, dt: int): Instant {
    MakeDate(MakeDay(YearOf(t), MonthOf(t), dt), TimeWithinDay(t))
  }

  /** `t.setMonth(m)`: same year, day of month and time of day, month m (normalised). */
  function SetMonth(t: Instant, m: int): Instant {
    MakeDate(MakeDay(YearOf(t), m, DateOf(t)), TimeWithinDay(t))
  }

  /** `t.setFullYear(y)`: same month, day of month and time of day, year y (normalised). */
  function SetFullYear(t: Instant, y: int): Instant {
    MakeDate(MakeDay(y, MonthOf(t), DateOf(t)), TimeWithinDay(t))
  }

  /** Moving the day of the month by k moves the instant by exactly k whole days. */
  lemma SetDateShift(t: Instant, k: int)
    ensures SetDate(t, DateOf(t) + k) == t + k * MsPerDay
  {
    var d := Day(t);
    assert MakeDay(YearOf(t), MonthOf(t), DateOf(t) + k) == d + k;
    DaySplit(t);
    assert (d + k) * MsPerDay == d * MsPerDay + k * MsPerDay;
  }

  /** The getters read back the date and time of day an instant was built from. */
  lemma GettersOfMakeDate(c: Civil, time: int)
    requires ValidCivil(c) && 0 <= time < MsPerDay
    ensures var t := MakeDate(DayOfCivil(c), time);
      && Day(t) == DayOfCivil(c) && TimeWithinDay(t) == time
      && YearOf(t) == c.year && MonthOf(t) == c.month && DateOf(t) == c.date
  {
    DayOfMakeDate(DayOfCivil(c), time);
    CivilOfDayOfCivil(c);
  }

  /** Moving an instant by k whole days moves its day number by k. */
  lemma DayOfShift(t: Instant, k: int)
    ensures Day(t + k * MsPerDay) == Day(t) + k
  {
    DaySplit(t);
    DayOfMakeDate(Day(t) + k, TimeWithinDay(t));
  }

  /** `setFullYear` on an instant built from a date keeps that date's month, day and time. */
  lemma SetFullYearOfCivil(c: Civil, time: int, y: int)
    requires ValidCivil(c) && 0 <= time < MsPerDay
    ensures var t := MakeDate(DayOfCivil(c), time);
      && YearOf(t) == c.year
      && SetFullYear(t, y) == MakeDate(MakeDay(y, c.month, c.date), time)
  {
    GettersOfMakeDate(c, time);
  }

  /** `setFullYear(getFullYear() - 1)` on midnight of 1 January gives midnight of 1 January a year earlier. */
  lemma PreviousYearStart(t: Instant)
    ensures SetFullYear(StartOfYear(t), YearOf(StartOfYear(t)) - 1) == MakeDate(MakeDay(YearOf(t) - 1, 0, 1), 0)
  {
    SetFullYearOfCivil(Civil(YearOf(t), 0, 1), 0, YearOf(t) - 1);
  }

  /** `setFullYear(getFullYear() - 1)` on the last millisecond of a year gives that of the year before. */
  lemma PreviousYearEnd(t: Instant)
    ensures SetFullYear(EndOfYear(t), YearOf(EndOfYear(t)) - 1)
         == MakeDate(MakeDay(YearOf(t) - 1, 11, 31), MsPerDay - 1)
  {
    SetFullYearOfCivil(Civil(YearOf(t), 11, 31), MsPerDay - 1, YearOf(t) - 1);
  }

  /** `setMonth` on an instant built from a date keeps that date's year, day and time. */
  lemma SetMonthOfCivil(c: Civil, time: int, m: int)
    requires ValidCivil(c) && 0 <= time < MsPerDay
    ensures var t := MakeDate(DayOfCivil(c), time);
      && MonthOf(t) == c.month
      && SetMonth(t, m) == MakeDate(MakeDay(c.year, m, c.date), time)
  {
    GettersOfMakeDate(c, time);
  }

  /** `setMonth(getMonth() - 1)` on midnight of the 1st gives midnight of the 1st of month m - 1 (normalised). */
  lemma PreviousMonthStart(t: Instant)
    ensures SetMonth(StartOfMonth(t), MonthOf(StartOfMonth(t)) - 1)
         == MakeDate(MakeDay(YearOf(t), MonthOf(t) - 1, 1), 0)
  {
    SetMonthOfCivil(Civil(YearOf(t), MonthOf(t), 1), 0, MonthOf(t) - 1);
  }

  /**
    `setMonth(getMonth() - 1)` on the last millisecond of a month keeps its day of the
    month, which MakeDay normalises in month m - 1.
  */
  lemma PreviousMonthEnd(t: Instant)
    ensures var y, m := YearOf(t), MonthOf(t);
      SetMonth(EndOfMonth(t), MonthOf(EndOfMonth(t)) - 1)
         == MakeDate(MakeDay(y, m - 1, DaysInMonth(y, m)), MsPerDay - 1)
  {
    SetMonthOfCivil(Civil(YearOf(t), MonthOf(t), DaysInMonth(YearOf(t), MonthOf(t))), MsPerDay - 1, MonthOf(t) - 1);
  }

  /** The last millisecond of day d is the one just before midnight of day d + 1. */
  lemma EndOfDayBeforeNext(d: int)
    ensures MakeDate(d, MsPerDay - 1) == MakeDate(d + 1, 0) - 1
  {
  }

  /** 31 December of year y is the day just before 1 January of year y + 1. */
  lemma NewYearsEve(y: int)
    ensures MakeDay(y, 11, 31) + 1 == MakeDay(y + 1, 0, 1)
  {
    DaysBeforeDecember(y);
    DaysBeforeNextYear(y);
  }

  /** Day n of a month counted past its end is day n - length of the next month. */
  lemma MakeDayPastMonthEnd(y: int, m: int, n: int)
    requires 0 <= m < 12
    ensures MakeDay(y, m, n) == MakeDay(y, m + 1, n - DaysInMonth(y, m))
  {
    assert m / 12 == 0 && m % 12 == m;
    if m == 11 {
      assert (m + 1) / 12 == 1 && (m + 1) % 12 == 0;
      DaysBeforeDecember(y);
      DaysBeforeNextYear(y);
    } else {
      assert (m + 1) / 12 == 0 && (m + 1) % 12 == m + 1;
      DaysBeforeMonthStep(y, m);
    }
  }


  // The date helpers of the analytics handler.

  /** Midnight that opens the day of t. */
  function StartOfDay(t: Instant): (r: Instant)
    ensures r == MakeDate(Day(t), 0)
  {
    MakeDate(MakeDay(YearOf(t), MonthOf(t), DateOf(t)), 0)
  }

  /** 23:59:59.999 of the day of t: the last millisecond of that day. */
  function EndOfDay(t: Instant): (r: Instant)
    ensures r == MakeDate(Day(t), MsPerDay - 1)
  {
    MakeDate(MakeDay(YearOf(t), MonthOf(t), DateOf(t)), MsPerDay - 1)
  }

  /** The day of t runs from its midnight to its last millisecond, both of the same day. */
  lemma DayBounds(t: Instant)
    ensures StartOfDay(t) % MsPerDay == 0 && Day(StartOfDay(t)) == Day(t)
    ensures StartOfDay(t) <= t <= EndOfDay(t) == StartOfDay(t) + MsPerDay - 1
    ensures TimeWithinDay(EndOfDay(t)) == MsPerDay - 1
  {
    DayOfMakeDate(Day(t), 0);
    DayOfMakeDate(Day(t), MsPerDay - 1);
  }

  /** ISO weekday: Monday = 1, ..., Sunday = 7 (`getDay() || 7`). */
  function IsoWeekDay(t: Instant): (d: int)
    ensures 1 <= d <= 7
    ensures d == 7 <==> WeekDayOf(t) == 0
    ensures d < 7 ==> d == WeekDayOf(t)
  {
    var day := WeekDayOf(t);
    if day == 0 then 7 else day
  }

  /** Midnight of the Monday of t's week, IsoWeekDay(t) - 1 days before t's day. */
  function StartOfWeek(t: Instant): (r: Instant)
    ensures r == MakeDate(Day(t) + 1 - IsoWeekDay(t), 0)
  {
    var diff := 1 - IsoWeekDay(t);
    var monday := SetDate(t, DateOf(t) + diff);
    SetDateShift(t, diff);
    DayOfShift(t, diff);
    StartOfDay(monday)
  }

  /** Going back IsoWeekDay(t) - 1 whole days from t lands on a Monday. */
  lemma MondayOfWeek(t: Instant)
    ensures (Day(t) + 1 - IsoWeekDay(t) + 4) % 7 == 1
  {
    var n := Day(t) + 4;
    var q := n / 7;
    assert n == 7 * q + WeekDayOf(t);
    if WeekDayOf(t) == 0 {
      assert n + 1 - IsoWeekDay(t) == 7 * (q - 1) + 1;
    } else {
      assert n + 1 - IsoWeekDay(t) == 7 * q + 1;
    }
  }

  /** The week of t starts at a Monday midnight at most t and less than seven days before it. */
  lemma WeekBounds(t: Instant)
    ensures StartOfWeek(t) % MsPerDay == 0 && WeekDayOf(StartOfWeek(t)) == 1
    ensures StartOfWeek(t) <= t < StartOfWeek(t) + 7 * MsPerDay
  {
    var d := Day(t) + 1 - IsoWeekDay(t);
    DayOfMakeDate(d, 0);
    MondayOfWeek(t);
    DaySplit(t);
  }

  /**
    Week stability: any instant of the week that starts at StartOfWeek(t) has that same
    week start, so every day of one week resolves to the same Monday.
  */
  lemma WeekStable(t: Instant, u: Instant)
    requires StartOfWeek(t) <= u < StartOfWeek(t) + 7 * MsPerDay
    ensures StartOfWeek(u) == StartOfWeek(t)
  {
    WeekBounds(t);
    WeekBounds(u);
    MondaysWithinAWeek(StartOfWeek(t), StartOfWeek(u), u);
  }

  /** Two Monday midnights that both start a seven-day span holding u are the same instant. */
  lemma MondaysWithinAWeek(a: Instant, b: Instant, u: Instant)
    requires a % MsPerDay == 0 && WeekDayOf(a) == 1 && a <= u < a + 7 * MsPerDay
    requires b % MsPerDay == 0 && WeekDayOf(b) == 1 && b <= u < b + 7 * MsPerDay
    ensures a == b
  {
    var da, db := Day(a), Day(b);
    assert a == da * MsPerDay && b == db * MsPerDay;
    assert -7 < da - db < 7;
    var qa, qb := (da + 4) / 7, (db + 4) / 7;
    assert da + 4 == 7 * qa + 1 && db + 4 == 7 * qb + 1;
    assert da - db == 7 * (qa - qb);
  }

  /** 23:59:59.999 of the Sunday closing t's week. */
  function EndOfWeek(t: Instant): (r: Instant)
    ensures r == StartOfWeek(t) + 7 * MsPerDay - 1
  {
    var monday := StartOfWeek(t);
    var sunday := SetDate(monday, DateOf(monday) + 6);
    DayOfMakeDate(Day(t) + 1 - IsoWeekDay(t), 0);
    SetDateShift(monday, 6);
    DayOfShift(monday, 6);
    EndOfDay(sunday)
  }

  /** Midnight of the first day of t's month, DateOf(t) - 1 days before t's day. */
  function StartOfMonth(t: Instant): (r: Instant)
    ensures r == MakeDate(Day(t) + 1 - DateOf(t), 0)
  {
    MakeDate(MakeDay(YearOf(t), MonthOf(t), 1), 0)
  }

  /**
    `new Date(y, m + 1, 0, 23, 59, 59, 999)`: day 0 of the next month, which is the last
    day of t's month (29 February in a leap year, 31 December for December).
  */
  function EndOfMonth(t: Instant): (r: Instant)
    ensures r == MakeDate(MakeDay(YearOf(t), MonthOf(t), DaysInMonth(YearOf(t), MonthOf(t))), MsPerDay - 1)
  {
    MakeDayPastMonthEnd(YearOf(t), MonthOf(t), DaysInMonth(YearOf(t), MonthOf(t)));
    MakeDate(MakeDay(YearOf(t), MonthOf(t) + 1, 0), MsPerDay - 1)
  }

  /**
    The month of t runs from 00:00:00.000 on its 1st to 23:59:59.999 on its last day (the
    29th of February in a leap year), and holds t.
  */
  lemma MonthBounds(t: Instant)
    ensures var y, m := YearOf(t), MonthOf(t);
      && CivilOfDay(Day(StartOfMonth(t))) == Civil(y, m, 1)
      && CivilOfDay(Day(EndOfMonth(t))) == Civil(y, m, DaysInMonth(y, m))
      && StartOfMonth(t) % MsPerDay == 0 && TimeWithinDay(EndOfMonth(t)) == MsPerDay - 1
      && StartOfMonth(t) <= t <= EndOfMonth(t)
  {
    var c := CivilOfDay(Day(t));
    var first, last := Civil(c.year, c.month, 1), Civil(c.year, c.month, DaysInMonth(c.year, c.month));
    GettersOfMakeDate(first, 0);
    GettersOfMakeDate(last, MsPerDay - 1);
    DaySplit(t);
  }

  /** Midnight of January 1st of t's year. */
  function StartOfYear(t: Instant): Instant {
    MakeDate(MakeDay(YearOf(t), 0, 1), 0)
  }

  /** 23:59:59.999 of December 31st of t's year. */
  function EndOfYear(t: Instant): Instant {
    MakeDate(MakeDay(YearOf(t), 11, 31), MsPerDay - 1)
  }

  /** Midnight of January 1st, n years before t's year. */
  function StartOfYearNYearsAgo(t: Instant, n: int): Instant {
    MakeDate(MakeDay(YearOf(t) - n, 0, 1), 0)
  }

  /** The year of t runs from 00:00:00.000 on 1 January to 23:59:59.999 on 31 December, and holds t. */
  lemma YearBounds(t: Instant)
    ensures var y := YearOf(t);
      && CivilOfDay(Day(StartOfYear(t))) == Civil(y, 0, 1)
      && CivilOfDay(Day(EndOfYear(t))) == Civil(y, 11, 31)
      && StartOfYear(t) % MsPerDay == 0 && TimeWithinDay(EndOfYear(t)) == MsPerDay - 1
      && StartOfYear(t) <= t <= EndOfYear(t)
  {
    var c := CivilOfDay(Day(t));
    GettersOfMakeDate(Civil(c.year, 0, 1), 0);
    GettersOfMakeDate(Civil(c.year, 11, 31), MsPerDay - 1);
    DayOfCivilBounds(c);
    DaysBeforeMonthGrows(c.year, c.month, 12);
    DaysBeforeDecember(c.year);
    DaySplit(t);
  }

  /** n years back, January 1st opens year YearOf(t) - n, which starts no later than t's year when n >= 0. */
  lemma YearsAgoBounds(t: Instant, n: int)
    ensures CivilOfDay(Day(StartOfYearNYearsAgo(t, n))) == Civil(YearOf(t) - n, 0, 1)
    ensures StartOfYearNYearsAgo(t, n) % MsPerDay == 0
    ensures n >= 0 ==> StartOfYearNYearsAgo(t, n) <= StartOfYear(t)
  {
    GettersOfMakeDate(Civil(YearOf(t) - n, 0, 1), 0);
    DaysBeforeYearMonotone(YearOf(t) - n, YearOf(t));
  }
}
