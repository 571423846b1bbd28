/**
  The stored analytics event (a row of `analytics_events`) and the WHERE clauses the read
  handlers put over it. The event store is a sequence of rows; a query's WHERE clause keeps
  the rows that satisfy every condition, in store order.
*/
module Events {
  import opened Wrappers
  import opened Calendar

  /** One row of `analytics_events`; nullable columns are Options. */
  datatype Event = Event(
    projectId: string,
    sessionId: string,
    visitorId: Option<string>,
    timestamp: Option<Instant>,
    pathname: string,
    referrer: Option<string>,
    hostname: Option<string>,
    utmSource: Option<string>,
    country: Option<string>,
    city: Option<string>,
    eventType: string,
    eventName: Option<string>,
    browserName: Option<string>,
    osName: Option<string>,
    deviceType: Option<string>)

  /**
    The conditions of one analytics query: the project, a lower bound on the timestamp, an
    optional upper bound and an optional event name. Bounds are inclusive (`gte`, `lte`).
  */
  datatype Conditions = Conditions(projectId: string, from: Instant, to: Option<Instant>, eventName: Option<string>)

  /**
    SQL truth of the conjunction for one row: a NULL timestamp satisfies no comparison, and a
    NULL event name never equals the requested one.
  */
  predicate Matches(e: Event, c: Conditions) {
    && e.projectId == c.projectId
    && e.timestamp.Some? && c.from <= e.timestamp.value
    && (c.to.None? || e.timestamp.value <= c.to.value)
    && (c.eventName.None? || e.eventName == c.eventName)
  }

  /** The rows a query with conditions c reads, in store order. */
  function Where(rows: seq<Event>, c: Conditions): (r: seq<Event>)
    ensures |r| <= |rows|
  {
    if |rows| == 0 then []
    else
      var init := Where(rows[..|rows| - 1], c);
      if Matches(rows[|rows| - 1], c) then init + [rows[|rows| - 1]] else init
  }

  /** A row is read exactly when it is stored and satisfies the conditions; every row read has a timestamp. */
  lemma {:induction false} WhereMembership(rows: seq<Event>, c: Conditions)
    ensures forall e :: e in Where(rows, c) <==> e in rows && Matches(e, c)
    ensures forall i :: 0 <= i < |Where(rows, c)| ==> Where(rows, c)[i].timestamp.Some?
    decreases |rows|
  {
    if |rows| > 0 {
      var init := rows[..|rows| - 1];
      WhereMembership(init, c);
      assert rows == init + [rows[|rows| - 1]];
    }
  }
}
