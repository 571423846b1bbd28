/**
  The analytics read handler `fetchAnalytics` (GET /analytics/:id and /analytics/:id/:eventName):
  its checks in order (project id, membership, filter), the query conditions it builds for
  the current range and for the comparison window, and the response it assembles from the
  aggregations, the percent changes and the frequency series.
*/
module AnalyticsHandler {
  import opened Wrappers
  import opened Calendar
  import opened Strings
  import opened Events
  import opened TimeRange
  import opened Change
  import opened Aggregation
  import opened ProjectHelpers

  // Query conditions, as the handler pushes them

  /** One element of a `conditions` array. */
  datatype Condition = ProjectIs(projectId: string) | AtLeast(from: Instant) | AtMost(to: Instant) | EventNameIs(name: string)

  /** SQL truth of one condition on a row: a NULL column satisfies no comparison. */
  predicate Holds(e: Event, cond: Condition) {
    match cond
    case ProjectIs(p) => e.projectId == p
    case AtLeast(t) => e.timestamp.Some? && t <= e.timestamp.value
    case AtMost(t) => e.timestamp.Some? && e.timestamp.value <= t
    case EventNameIs(n) => e.eventName == Some(n)
  }

  /** `and(...conditions)`. */
  predicate AllHold(e: Event, conds: seq<Condition>) {
    forall i :: 0 <= i < |conds| ==> Holds(e, conds[i])
  }

  /** The event name a route carries, when it is truthy (present and non-empty). */
  function TruthyName(eventName: Option<string>): Option<string> {
    if eventName.Some? && eventName.value != "" then eventName else None
  }

  /**
    `conditionsCurrent`: project and lower bound, then the upper bound only when the range
    has an end, then the event name only when it is truthy.
  */
  method CurrentConditions(projectId: string, r: Range, eventName: Option<string>) returns (conds: seq<Condition>)
    ensures |conds| == 2 + (if r.end.Some? then 1 else 0) + (if TruthyName(eventName).Some? then 1 else 0)
    ensures conds[..2] == [ProjectIs(projectId), AtLeast(r.start)]
    ensures forall e :: AllHold(e, conds) <==> Matches(e, Conditions(projectId, r.start, r.end, TruthyName(eventName)))
  {
    conds := [ProjectIs(projectId), AtLeast(r.start)];
    if r.end.Some? {
      conds := conds + [AtMost(r.end.value)];
    }
    if eventName.Some? && eventName.value != "" {
      conds := conds + [EventNameIs(eventName.value)];
    }
    forall e
      ensures AllHold(e, conds) <==> Matches(e, Conditions(projectId, r.start, r.end, TruthyName(eventName)))
    {
      assert Holds(e, conds[0]) && Holds(e, conds[1]) ==> e.timestamp.Some?;
      if AllHold(e, conds) {
        assert Holds(e, conds[0]) && Holds(e, conds[1]);
        if r.end.Some? {
          assert Holds(e, conds[2]);
        }
        if TruthyName(eventName).Some? {
          assert Holds(e, conds[|conds| - 1]);
        }
      }
    }
  }

  /**
    `conditionsPrevious`: project and both bounds of the comparison window, then the event
    name only when it is truthy.
  */
  method PreviousConditions(projectId: string, w: Window, eventName: Option<string>) returns (conds: seq<Condition>)
    ensures |conds| == 3 + (if TruthyName(eventName).Some? then 1 else 0)
    ensures conds[..3] == [ProjectIs(projectId), AtLeast(w.start), AtMost(w.end)]
    ensures forall e :: AllHold(e, conds) <==> Matches(e, Conditions(projectId, w.start, Some(w.end), TruthyName(eventName)))
  {
    conds := [ProjectIs(projectId), AtLeast(w.start), AtMost(w.end)];
    if eventName.Some? && eventName.value != "" {
      conds := conds + [EventNameIs(eventName.value)];
    }
    forall e
      ensures AllHold(e, conds) <==> Matches(e, Conditions(projectId, w.start, Some(w.end), TruthyName(eventName)))
    {
      if AllHold(e, conds) {
        assert Holds(e, conds[0]) && Holds(e, conds[1]) && Holds(e, conds[2]);
        if TruthyName(eventName).Some? {
          assert Holds(e, conds[3]);
        }
      }
    }
  }

  // The handler

  /** `(c.req.query("filter") || "today").toLowerCase()`. */
  function RequestedFilter(query: Option<string>): string {
    ToLower(if query.None? || query.value == "" then "today" else query.value)
  }

  /** `getOnlineVisitors`: distinct visitors of the project over the last two minutes. */
  function OnlineVisitors(store: seq<Event>, projectId: string, now: Instant): nat {
    |Visitors(Where(store, Conditions(projectId, now - 2 * MsPerMinute, None, None)))|
  }

  /**
    The success payload. `url` is `project.url`, a column the `projects` table does not have,
    so it is always undefined.
  */
  datatype AnalyticsData = AnalyticsData(
    url: Option<string>,
    onlineVisitors: nat,
    name: string,
    filter: string,
    eventName: Option<string>,
    common: CommonAggregations,
    totalVisitsChange: Option<string>,
    uniqueVisitorsChange: Option<string>,
    frequency: seq<FrequencyPoint>)

  /** A JSON response: an error status with its `error` text, or the analytics. */
  datatype Response = Failure(status: int, error: string) | Success(data: AnalyticsData)

  /** What an exception thrown inside the handler becomes (reading a field of null). */
  const InternalError := Failure(500, "Internal Server Error")

  /** The rows the current range reads. */
  function CurrentRows(store: seq<Event>, projectId: string, f: Filter, now: Instant, eventName: Option<string>): seq<Event> {
    var r := Resolve(f, now);
    Where(store, Conditions(projectId, r.start, r.end, TruthyName(eventName)))
  }

  /** The rows the comparison window reads. */
  function PreviousRows(store: seq<Event>, projectId: string, f: Filter, now: Instant, eventName: Option<string>): seq<Event> {
    var w := PreviousOf(f, now);
    Where(store, Conditions(projectId, w.start, Some(w.end), TruthyName(eventName)))
  }

  /**
    `fetchAnalytics`. The project id check, the user, the membership lookup, the filter and
    the project row are read in the source's order; `isValidUuid` is the validator, `user` the
    session user's id, `members` the `project_members` table and `project` the looked-up row.
  */
  method FetchAnalytics(
    isValidUuid: string -> bool, user: Option<string>, members: seq<Membership>, project: Option<Project>,
    store: seq<Event>, projectId: string, filterQuery: Option<string>, eventName: Option<string>, now: Instant)
    returns (resp: Response)
    ensures !isValidUuid(projectId) ==> resp == Failure(400, "Invalid project ID")
    ensures isValidUuid(projectId) && user.None? ==> resp == InternalError
    ensures isValidUuid(projectId) && user.Some? && GetProjectMembership(members, projectId, user).None? ==>
      resp == Failure(403, "Forbidden")
    ensures isValidUuid(projectId) && user.Some? && GetProjectMembership(members, projectId, user).Some? ==>
      (RequestedFilter(filterQuery) !in AllowedFilters ==> resp == Failure(400, "Invalid filter"))
      && (RequestedFilter(filterQuery) in AllowedFilters && project.None? ==> resp == InternalError)
      && (RequestedFilter(filterQuery) in AllowedFilters && project.Some? ==> resp.Success?)
    ensures resp.Success? ==>
      && isValidUuid(projectId) && user.Some? && GetProjectMembership(members, projectId, user).Some?
      && project.Some? && resp.data.filter == RequestedFilter(filterQuery)
      && ParseFilter(resp.data.filter).Some?
      && var f := ParseFilter(resp.data.filter).value;
         var current := CurrentRows(store, projectId, f, now, eventName);
         var previous := PreviousRows(store, projectId, f, now, eventName);
         var d := resp.data;
         && d.common == GetCommonAggregations(store, Conditions(projectId, Resolve(f, now).start, Resolve(f, now).end, TruthyName(eventName)))
         && d.common.totalVisits == |current|
         && d.common.uniqueVisitors <= d.common.totalVisits
         && d.totalVisitsChange == FormatChange(PercentChange(|current|, |previous|))
         && d.uniqueVisitorsChange == FormatChange(PercentChange(|Visitors(current)|, |Visitors(previous)|))
         && d.frequency == Frequency(current, Resolve(f, now).bucket)
         && SumVisits(d.frequency) == d.common.totalVisits
         && d.eventName == TruthyName(eventName)
         && d.onlineVisitors == OnlineVisitors(store, projectId, now)
         && d.url.None? && d.name == project.value.name
  {
    if !isValidUuid(projectId) {
      return Failure(400, "Invalid project ID");
    }
    if user.None? {
      return InternalError;
    }
    if GetProjectMembership(members, projectId, user).None? {
      return Failure(403, "Forbidden");
    }
    var online := OnlineVisitors(store, projectId, now);
    var filter := RequestedFilter(filterQuery);
    if filter !in AllowedFilters {
      return Failure(400, "Invalid filter");
    }
    var f := ParseFilter(filter).value;
    var r := Resolve(f, now);
    var w := PreviousWindow(f, r.start, r.end);
    var conditionsCurrent := CurrentConditions(projectId, r, eventName);
    var conditionsPrevious := PreviousConditions(projectId, w, eventName);
    var current := Conditions(projectId, r.start, r.end, TruthyName(eventName));
    var previous := Conditions(projectId, w.start, Some(w.end), TruthyName(eventName));
    var common := GetCommonAggregations(store, current);
    var previousRows := Where(store, previous);
    var totalVisitsChange := FormatChange(PercentChange(common.totalVisits, |previousRows|));
    var uniqueVisitorsChange := FormatChange(PercentChange(common.uniqueVisitors, |Visitors(previousRows)|));
    var frequency := Frequency(Where(store, current), r.bucket);
    if project.None? {
      return InternalError;
    }
    CommonAggregationsBounds(store, current);
    FrequencySum(Where(store, current), r.bucket);
    AllStamped(store, current);
    resp := Success(AnalyticsData(
      None, online, project.value.name, filter, TruthyName(eventName),
      common, totalVisitsChange, uniqueVisitorsChange, frequency));
  }

  /**
    `project_members.project_id` is a foreign key into `projects`, so no membership row names
    a project id that is not in the table. Such an id therefore has no membership, and
    `FetchAnalytics` answers 403 for it before the project is read: an unknown project is
    Forbidden, never Not Found.
  */
  lemma UnknownProjectIsForbidden(members: seq<Membership>, projectId: string, user: Option<string>)
    requires forall i :: 0 <= i < |members| ==> members[i].projectId != projectId
    ensures GetProjectMembership(members, projectId, user).None?
  {
  }

  /**
    The filter is matched case-insensitively (it is lower-cased before the check) and a
    missing or empty one means "today".
  */
  lemma RequestedFilterSpec(query: Option<string>)
    ensures query.None? || query == Some("") ==> RequestedFilter(query) == "today"
    ensures query.Some? && query.value != "" ==> RequestedFilter(query) == ToLower(query.value)
    ensures RequestedFilter(query) == ToLower(RequestedFilter(query))
  {
    assert ToLower("today") == "today";
    ToLowerIdempotent(if query.None? || query.value == "" then "today" else query.value);
  }
}
