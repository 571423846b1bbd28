/**
  The Go read endpoint `GetAnalytics`: the filter whitelist loop, the WHERE clause and its
  positional arguments, the summary query with its tolerated "no rows" error, and the loop
  that collects the frequency rows and skips the ones that fail to scan.
*/
module GoAnalyticsHandler {
  import opened Wrappers
  import opened Calendar
  import opened Events
  import TimeRange
  import opened GoTimeRange
  import opened Aggregation

  /** `c.Query("filter", "today")`: an absent or empty parameter takes the default. */
  function FilterParam(query: Option<string>): string {
    if query.None? || query.value == "" then "today" else query.value
  }

  /** The whitelist loop: is `filter` one of the five tokens (exact, case-sensitive match)? */
  method IsValidFilter(filter: string) returns (ok: bool)
    ensures ok <==> filter in GoAllowedFilters
  {
    ok := false;
    var i := 0;
    while i < |GoAllowedFilters|
      invariant 0 <= i <= |GoAllowedFilters|
      invariant ok <==> filter in GoAllowedFilters[..i]
      invariant ok ==> i > 0
      decreases |GoAllowedFilters| - i
    {
      if GoAllowedFilters[i] == filter {
        ok := true;
        assert filter in GoAllowedFilters[..i + 1];
        return;
      }
      assert GoAllowedFilters[..i + 1] == GoAllowedFilters[..i] + [GoAllowedFilters[i]];
      i := i + 1;
    }
    assert GoAllowedFilters[..i] == GoAllowedFilters;
  }

  /** A positional query argument. */
  datatype Arg = Text(s: string) | Time(t: Instant)

  const BaseWhere := "project_id = $1 AND timestamp >= $2 AND timestamp <= $3"
  const EventNameWhere := " AND event_name = $4"

  /** SQL truth of the WHERE clause on a row, reading its placeholders from `args`. */
  predicate ClauseHolds(clause: string, args: seq<Arg>, e: Event) {
    && |args| >= 3 && args[0].Text? && args[1].Time? && args[2].Time?
    && e.projectId == args[0].s
    && e.timestamp.Some? && args[1].t <= e.timestamp.value <= args[2].t
    && (clause == BaseWhere + EventNameWhere ==> |args| == 4 && args[3].Text? && e.eventName == Some(args[3].s))
  }

  /**
    Building the clause: the three base placeholders always, both timestamp bounds
    included; " AND event_name = $4" with a fourth argument only for a non-empty event name.
    The clause selects exactly the rows of the corresponding conditions.
  */
  method BuildWhere(projectId: string, start: Instant, end: Instant, eventName: string)
    returns (clause: string, args: seq<Arg>)
    ensures |BaseWhere| <= |clause| && clause[..|BaseWhere|] == BaseWhere
    ensures |args| >= 3 && args[..3] == [Text(projectId), Time(start), Time(end)]
    ensures eventName == "" ==> clause == BaseWhere && |args| == 3
    ensures eventName != "" ==> clause == BaseWhere + EventNameWhere && args == [Text(projectId), Time(start), Time(end), Text(eventName)]
    ensures forall e :: ClauseHolds(clause, args, e) <==> Matches(e, GoConditions(projectId, start, end, eventName))
  {
    clause := BaseWhere;
    args := [Text(projectId), Time(start), Time(end)];
    if eventName != "" {
      clause := clause + EventNameWhere;
      args := args + [Text(eventName)];
    }
    assert BaseWhere != BaseWhere + EventNameWhere by {
      assert |BaseWhere| < |BaseWhere + EventNameWhere|;
    }
  }

  /** The conditions the Go clause stands for: both bounds, and the event name when non-empty. */
  function GoConditions(projectId: string, start: Instant, end: Instant, eventName: string): Conditions {
    Conditions(projectId, start, Some(end), if eventName != "" then Some(eventName) else None)
  }

  /** The frequency rows as scanned: None for a row whose Scan fails. */
  function Scanned(rows: seq<Option<FrequencyPoint>>): (r: seq<FrequencyPoint>)
    ensures |r| <= |rows|
  {
    if |rows| == 0 then []
    else
      var last := rows[|rows| - 1];
      Scanned(rows[..|rows| - 1]) + (if last.Some? then [last.value] else [])
  }

  /** The scan loop: append every row that scans, skip (and log) every row that does not. */
  method CollectFrequency(rows: seq<Option<FrequencyPoint>>) returns (data: seq<FrequencyPoint>)
    ensures data == Scanned(rows)
  {
    data := [];
    var i := 0;
    while i < |rows|
      invariant 0 <= i <= |rows|
      invariant data == Scanned(rows[..i])
      decreases |rows| - i
    {
      assert rows[..i + 1][..i] == rows[..i];
      if rows[i].Some? {
        data := data + [rows[i].value];
      }
      i := i + 1;
    }
    assert rows[..i] == rows;
  }

  /**
    A failed scan only drops its own row: every collected point is a scanned row, and when no
    scan fails the collected points are exactly the rows, in order.
  */
  lemma {:induction false} ScannedSpec(rows: seq<Option<FrequencyPoint>>)
    ensures forall p :: p in Scanned(rows) ==> Some(p) in rows
    ensures (forall i :: 0 <= i < |rows| ==> rows[i].Some?) ==>
      |Scanned(rows)| == |rows| && forall i :: 0 <= i < |rows| ==> Scanned(rows)[i] == rows[i].value
    decreases |rows|
  {
    if |rows| > 0 {
      var init := rows[..|rows| - 1];
      ScannedSpec(init);
      assert rows == init + [rows[|rows| - 1]];
    }
  }

  /** The row a scan returns at index i: failed when i is in `failed`. */
  function ScanOutcome(points: seq<FrequencyPoint>, failed: set<nat>): (rows: seq<Option<FrequencyPoint>>)
    ensures |rows| == |points|
  {
    seq(|points|, i requires 0 <= i < |points| => if i in failed then None else Some(points[i]))
  }

  /** With no failed scan every point is collected. */
  lemma ScanAll(points: seq<FrequencyPoint>, failedScans: set<nat>)
    ensures failedScans == {} ==> Scanned(ScanOutcome(points, failedScans)) == points
  {
    var scanned := ScanOutcome(points, failedScans);
    ScannedSpec(scanned);
    if failedScans == {} {
      assert forall i :: 0 <= i < |scanned| ==> scanned[i] == Some(points[i]);
    }
  }

  /** The Go bucket unit as a granularity. */
  function GranularityOf(bucketFormat: string): TimeRange.Granularity {
    if bucketFormat == "hour" then TimeRange.Hours
    else if bucketFormat == "day" then TimeRange.Days
    else TimeRange.Months
  }

  /** The outcome of a database call that can fail. */
  datatype DbError = ErrNoRows | OtherError

  datatype GoResponse =
    | GoFailure(status: int, message: string)
    | GoSuccess(projectId: string, filter: string, eventName: string,
                totalVisits: nat, uniqueVisitors: nat, frequency: seq<FrequencyPoint>)

  /** The rows the Go queries read. */
  function GoRows(store: seq<Event>, projectId: string, filter: string, now: Instant, eventName: string): seq<Event> {
    var r := GoGetTimeRange(filter, now);
    Where(store, GoConditions(projectId, r.start, r.end, eventName))
  }

  /** Every row the Go queries read is stamped, so the buckets count all of them. */
  lemma GoRowsSum(store: seq<Event>, projectId: string, filter: string, now: Instant, eventName: string, g: TimeRange.Granularity)
    ensures SumVisits(Frequency(GoRows(store, projectId, filter, now, eventName), g)) == |GoRows(store, projectId, filter, now, eventName)|
  {
    var r := GoGetTimeRange(filter, now);
    FrequencySum(GoRows(store, projectId, filter, now, eventName), g);
    AllStamped(store, GoConditions(projectId, r.start, r.end, eventName));
  }

  /**
    `GetAnalytics`. `projectId` is the project context the key middleware attached (None when
    missing); `summaryError` and `frequencyError` are the outcomes of the two queries, and
    `failedScans` the indexes of the frequency rows whose Scan fails.
  */
  method GetAnalytics(
    projectId: Option<string>, filterQuery: Option<string>, eventNameQuery: Option<string>,
    store: seq<Event>, now: Instant,
    summaryError: Option<DbError>, frequencyError: bool, failedScans: set<nat>)
    returns (resp: GoResponse)
    ensures projectId.None? ==> resp == GoFailure(500, "Project context missing")
    ensures projectId.Some? && FilterParam(filterQuery) !in GoAllowedFilters ==>
      resp == GoFailure(400, "Invalid filter provided")
    ensures projectId.Some? && FilterParam(filterQuery) in GoAllowedFilters ==>
      && (summaryError == Some(OtherError) ==> resp == GoFailure(500, "Database error fetching summary"))
      && (summaryError != Some(OtherError) && frequencyError ==> resp == GoFailure(500, "Database error fetching frequency"))
      && (summaryError != Some(OtherError) && !frequencyError ==> resp.GoSuccess?)
    ensures resp.GoSuccess? ==>
      && projectId.Some? && resp.projectId == projectId.value
      && resp.filter == FilterParam(filterQuery) && resp.filter in GoAllowedFilters
      && var eventName := if eventNameQuery.Some? then eventNameQuery.value else "";
         var rows := GoRows(store, projectId.value, resp.filter, now, eventName);
         var points := Frequency(rows, GranularityOf(GoGetTimeRange(resp.filter, now).bucketFormat));
         && resp.eventName == eventName
         && (summaryError == Some(ErrNoRows) ==> resp.totalVisits == 0 && resp.uniqueVisitors == 0)
         && (summaryError.None? ==> resp.totalVisits == |rows| && resp.uniqueVisitors == |Visitors(rows)|)
         && resp.uniqueVisitors <= resp.totalVisits
         && resp.frequency == Scanned(ScanOutcome(points, failedScans))
         && (failedScans == {} ==> resp.frequency == points)
         && (failedScans == {} && summaryError.None? ==> SumVisits(resp.frequency) == resp.totalVisits)
  {
    if projectId.None? {
      return GoFailure(500, "Project context missing");
    }
    var filter := FilterParam(filterQuery);
    var eventName := if eventNameQuery.Some? then eventNameQuery.value else "";
    var valid := IsValidFilter(filter);
    if !valid {
      return GoFailure(400, "Invalid filter provided");
    }
    var range := GoGetTimeRange(filter, now);
    var clause, args := BuildWhere(projectId.value, range.start, range.end, eventName);
    var rows := Where(store, GoConditions(projectId.value, range.start, range.end, eventName));
    assert rows == GoRows(store, projectId.value, filter, now, eventName);
    var totalVisits: nat, uniqueVisitors: nat := 0, 0;
    if summaryError == Some(OtherError) {
      return GoFailure(500, "Database error fetching summary");
    } else if summaryError.None? {
      totalVisits, uniqueVisitors := |rows|, |Visitors(rows)|;
      VisitorsSpec(rows);
    }
    if frequencyError {
      return GoFailure(500, "Database error fetching frequency");
    }
    var points := Frequency(rows, GranularityOf(range.bucketFormat));
    var scanned := ScanOutcome(points, failedScans);
    var frequency := CollectFrequency(scanned);
    ScanAll(points, failedScans);
    GoRowsSum(store, projectId.value, filter, now, eventName, GranularityOf(range.bucketFormat));
    resp := GoSuccess(projectId.value, filter, eventName, totalVisits, uniqueVisitors, frequency);
  }
}
