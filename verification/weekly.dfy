/**
  `getWeeklyProjectAggregate`: the visits and visitors of a project over the last seven days,
  compared with the seven days before, with the weekly variant of the percent change.
*/
module Weekly {
  import opened Wrappers
  import opened Calendar
  import opened Events
  import opened Change
  import opened Strings
  import opened JsNumbers

  /** `weekStart`: seven calendar days before `now` (same time of day). */
  function WeekStart(now: Instant): Instant {
    SetDate(now, DateOf(now) - 7)
  }

  /** `prevWeekStart`: seven calendar days before `weekStart`. */
  function PrevWeekStart(now: Instant): Instant {
    var w := WeekStart(now);
    SetDate(w, DateOf(w) - 7)
  }

  /** The current window is [weekStart, +inf): no upper bound. */
  predicate InCurrentWeek(e: Event, projectId: string, now: Instant) {
    e.projectId == projectId && e.timestamp.Some? && WeekStart(now) <= e.timestamp.value
  }

  /** The previous window is [prevWeekStart, weekStart), half-open. */
  predicate InPreviousWeek(e: Event, projectId: string, now: Instant) {
    && e.projectId == projectId && e.timestamp.Some?
    && PrevWeekStart(now) <= e.timestamp.value < WeekStart(now)
  }

  /** The rows of the store that satisfy p, in store order. */
  function Select(rows: seq<Event>, p: Event -> bool): (r: seq<Event>)
    ensures |r| <= |rows|
  {
    if |rows| == 0 then []
    else
      var init := Select(rows[..|rows| - 1], p);
      if p(rows[|rows| - 1]) then init + [rows[|rows| - 1]] else init
  }

  lemma {:induction false} SelectMembership(rows: seq<Event>, p: Event -> bool)
    ensures forall e :: e in Select(rows, p) <==> e in rows && p(e)
    decreases |rows|
  {
    if |rows| > 0 {
      SelectMembership(rows[..|rows| - 1], p);
      assert rows == rows[..|rows| - 1] + [rows[|rows| - 1]];
    }
  }

  /** `new Set(rows.map(e => e.visitorId).filter(Boolean))`: the non-null, non-empty visitor ids. */
  function TruthyVisitors(rows: seq<Event>): set<string> {
    if |rows| == 0 then {}
    else
      var v := rows[|rows| - 1].visitorId;
      TruthyVisitors(rows[..|rows| - 1]) + (if v.Some? && v.value != "" then {v.value} else {})
  }

  /**
    A visitor id is counted exactly when some row carries it and it is not empty (a null or
    empty id never counts), so there are never more unique visitors than rows.
  */
  lemma {:induction false} TruthyVisitorsSpec(rows: seq<Event>)
    ensures forall v :: v in TruthyVisitors(rows) <==> v != "" && exists i :: 0 <= i < |rows| && rows[i].visitorId == Some(v)
    ensures |TruthyVisitors(rows)| <= |rows|
    decreases |rows|
  {
    if |rows| > 0 {
      var init := rows[..|rows| - 1];
      TruthyVisitorsSpec(init);
      forall v
        ensures v in TruthyVisitors(rows) <==> v != "" && exists i :: 0 <= i < |rows| && rows[i].visitorId == Some(v)
      {
        if v in TruthyVisitors(rows) && v !in TruthyVisitors(init) {
          assert rows[|rows| - 1].visitorId == Some(v);
        }
        if v != "" && exists i :: 0 <= i < |rows| && rows[i].visitorId == Some(v) {
          var i :| 0 <= i < |rows| && rows[i].visitorId == Some(v);
          if i < |rows| - 1 {
            assert init[i] == rows[i];
          }
        }
      }
    }
  }

  datatype WeeklyAggregate = WeeklyAggregate(
    totalVisitors: nat,
    uniqueVisitors: nat,
    totalVisitsChange: Option<string>,
    uniqueVisitorsChange: Option<string>)

  /** `getWeeklyProjectAggregate(projectId)` over the store at instant `now`. */
  function GetWeeklyProjectAggregate(store: seq<Event>, projectId: string, now: Instant): WeeklyAggregate {
    var current := Select(store, e => InCurrentWeek(e, projectId, now));
    var previous := Select(store, e => InPreviousWeek(e, projectId, now));
    var total := |current|;
    var unique := |TruthyVisitors(current)|;
    var prevTotal := |previous|;
    var prevUnique := |TruthyVisitors(previous)|;
    WeeklyAggregate(
      total, unique,
      FormatChange(Some(WeeklyPercentChange(total, prevTotal))),
      FormatChange(Some(WeeklyPercentChange(unique, prevUnique))))
  }

  /**
    The windows: weekStart is exactly seven days of milliseconds before now, prevWeekStart
    seven days before that, and no row is in both the current and the previous window.
  */
  lemma WeeklyWindows(now: Instant, projectId: string)
    ensures WeekStart(now) == now - 7 * MsPerDay
    ensures PrevWeekStart(now) == now - 14 * MsPerDay
    ensures forall e :: !(InCurrentWeek(e, projectId, now) && InPreviousWeek(e, projectId, now))
  {
    SetDateShift(now, -7);
    SetDateShift(WeekStart(now), -7);
  }

  /**
    The summary counts the rows of the current window; unique visitors are its distinct
    non-empty visitor ids, never more than the rows; both changes are always present (the
    weekly percent change is never null), and a week with no visits after a week with none
    reports "0.0%".
  */
  lemma WeeklyAggregateSpec(store: seq<Event>, projectId: string, now: Instant)
    ensures var a := GetWeeklyProjectAggregate(store, projectId, now);
      var current := Select(store, e => InCurrentWeek(e, projectId, now));
      && a.totalVisitors == |current|
      && (forall e :: e in current <==> e in store && InCurrentWeek(e, projectId, now))
      && a.uniqueVisitors == |TruthyVisitors(current)| <= a.totalVisitors
      && a.totalVisitsChange.Some? && a.uniqueVisitorsChange.Some?
      && (a.totalVisitors == 0 && Select(store, e => InPreviousWeek(e, projectId, now)) == [] ==>
            a.totalVisitsChange == Some("0.0%") && a.uniqueVisitorsChange == Some("0.0%"))
  {
    var current := Select(store, e => InCurrentWeek(e, projectId, now));
    var previous := Select(store, e => InPreviousWeek(e, projectId, now));
    SelectMembership(store, e => InCurrentWeek(e, projectId, now));
    TruthyVisitorsSpec(current);
    if |current| == 0 && previous == [] {
      assert TruthyVisitors([]) == {};
      ZeroChange();
    }
  }

  /** No change over an empty baseline renders as "0.0%". */
  lemma ZeroChange()
    ensures FormatChange(Some(WeeklyPercentChange(0, 0))) == Some("0.0%")
  {
    assert WeeklyPercentChange(0, 0) == 0.0;
    assert Tenths(0.0) == 0;
    assert NatToString(0) == "0" && DigitChar(0) == '0';
    assert DecimalTenths(0) == "0.0";
    assert ToFixed1(0.0) == "0.0";
    assert "" + "0.0" + "%" == "0.0%";
  }
}
