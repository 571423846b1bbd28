/**
  `LogAnalyticsEvent`, the ingestion handler behind the public-key middleware, with its
  helpers: the GeoIP lookup (private ranges, the "XX"/"Unknown" defaults), the placeholder
  user-agent parser and the session cookie. A valid event is inserted into `analytics_events`
  and then the project's monthly event counter in Redis is incremented.

  The GeoIP database is a parameter: None when it was not loaded, else a lookup from an
  address to its record (None when the lookup fails, an unparsable address included). The
  current time, the client address, the session cookie and the fresh UUID are parameters too.
*/
module Ingestion {
  import opened Wrappers
  import opened Calendar
  import opened Strings
  import opened Events
  import opened GoFormat
  import opened ClientIdentity
  import opened Hex
  import opened RedisStore
  import opened PublicKeyMiddleware

  /** The fields of a City record that are read: the ISO country code and the English city name ("" when absent). */
  datatype GeoRecord = GeoRecord(isoCode: string, cityName: string)

  datatype GeoIpData = GeoIpData(countryName: string, city: string)

  /** The loopback and private prefixes the handler recognises (only 172.16.x.x of 172.16.0.0/12). */
  predicate IsLocalIp(ip: string) {
    || ip == "" || ip == "unknown"
    || StartsWith(ip, "10.") || StartsWith(ip, "192.168.") || StartsWith(ip, "127.") || StartsWith(ip, "172.16.")
  }

  /** `getGeoIPLookup`: None is the error. */
  function GetGeoIpLookup(geoDb: Option<string -> Option<GeoRecord>>, ip: string): Option<GeoIpData> {
    if IsLocalIp(ip) then Some(GeoIpData("Private IP", "Private IP"))
    else if geoDb.None? then None
    else match geoDb.value(ip)
      case None => None
      case Some(record) =>
        var country := if record.isoCode == "" then "XX" else record.isoCode;
        var city := if record.cityName == "" then "Unknown" else record.cityName;
        if country == "XX" && city == "Unknown" then None else Some(GeoIpData(country, city))
  }

  /**
    A local address is "Private IP" for both fields without consulting the database; a public
    address fails when the database is missing or the lookup fails, and otherwise fails exactly
    when neither the country nor the city is known (an empty or "XX" code and an empty or
    "Unknown" city); a success reports the code or "XX" and the city or "Unknown", never both
    defaults and never an empty field.
  */
  lemma GeoIpLookupSpec(geoDb: Option<string -> Option<GeoRecord>>, ip: string)
    ensures IsLocalIp(ip) ==> GetGeoIpLookup(geoDb, ip) == Some(GeoIpData("Private IP", "Private IP"))
    ensures !IsLocalIp(ip) && (geoDb.None? || geoDb.value(ip).None?) ==> GetGeoIpLookup(geoDb, ip).None?
    ensures !IsLocalIp(ip) && geoDb.Some? && geoDb.value(ip).Some? ==>
      var rec := geoDb.value(ip).value;
      && (GetGeoIpLookup(geoDb, ip).None? <==>
            (rec.isoCode == "" || rec.isoCode == "XX") && (rec.cityName == "" || rec.cityName == "Unknown"))
      && (GetGeoIpLookup(geoDb, ip).Some? ==>
            GetGeoIpLookup(geoDb, ip).value ==
              GeoIpData(if rec.isoCode == "" then "XX" else rec.isoCode, if rec.cityName == "" then "Unknown" else rec.cityName))
    ensures GetGeoIpLookup(geoDb, ip).Some? ==>
      var d := GetGeoIpLookup(geoDb, ip).value;
      d.countryName != "" && d.city != "" && !(d.countryName == "XX" && d.city == "Unknown")
  {
  }

  /**
    Of the private range 172.16.0.0/12 only addresses starting "172.16." count as local:
    172.17.0.1 and 172.31.255.254 are looked up like public addresses.
  */
  lemma PrivateRangeCut()
    ensures IsLocalIp("172.16.0.1") && IsLocalIp("10.0.0.1") && IsLocalIp("192.168.1.1") && IsLocalIp("127.0.0.1")
    ensures !IsLocalIp("172.17.0.1") && !IsLocalIp("172.31.255.254")
  {
    forall ip | ip in {"172.17.0.1", "172.31.255.254"}
      ensures !IsLocalIp(ip)
    {
      DiffersAt(ip, "10.", 1);
      DiffersAt(ip, "192.168.", 1);
      DiffersAt(ip, "127.", 1);
      DiffersAt(ip, "172.16.", 5);
    }
  }

  lemma DiffersAt(s: string, prefix: string, k: nat)
    requires k < |s| && k < |prefix| && s[k] != prefix[k]
    ensures !StartsWith(s, prefix)
  {
  }

  datatype UaParsedData = UaParsedData(browserName: string, browserVersion: string, osName: string, osVersion: string, deviceType: string)

  const ChromeOnMac := UaParsedData("Chrome", "125.0.0", "macOS", "14.4", "desktop")
  const UnknownAgent := UaParsedData("Unknown", "0.0", "Unknown", "0.0", "unknown")

  /** `mockParseUserAgent`: a fixed answer for Chrome on a Mac, "Unknown" for everything else. */
  function MockParseUserAgent(userAgent: string): UaParsedData {
    if Includes(userAgent, "Chrome") && Includes(userAgent, "Macintosh") then ChromeOnMac else UnknownAgent
  }

  /** A user agent holding "Chrome" is not enough: it is parsed as Chrome on macOS exactly when it also holds "Macintosh". */
  lemma UserAgentSpec(userAgent: string)
    ensures MockParseUserAgent(userAgent).browserName == "Chrome" <==>
      Includes(userAgent, "Chrome") && Includes(userAgent, "Macintosh")
    ensures MockParseUserAgent(userAgent) in {ChromeOnMac, UnknownAgent}
    ensures MockParseUserAgent(userAgent).browserName != "Chrome" ==> MockParseUserAgent(userAgent) == UnknownAgent
  {
  }

  /** `getOrCreateSessionID`: the "supa_sid" cookie, else the fresh UUID (the cookie is then set for 30 minutes). */
  function SessionId(cookie: string, freshUuid: string): string {
    if cookie == "" then freshUuid else cookie
  }

  /** The decoded JSON body; the UTM fields other than the source, the event data and the duration are not modelled. */
  datatype EventRequest = EventRequest(
    pathname: string,
    referrer: Option<string>,
    hostname: Option<string>,
    utmSource: Option<string>,
    eventType: string,
    eventName: Option<string>,
    country: Option<string>,
    city: Option<string>)

  /** Everything the handler reads besides the body: the client, the clock, the cookie, the new UUID and the GeoIP database. */
  datatype Environment = Environment(
    connectionIp: string,
    userAgent: string,
    now: Instant,
    sessionCookie: string,
    freshUuid: string,
    geoDb: Option<string -> Option<GeoRecord>>,
    sha256: string -> Digest)

  datatype Response = Response(status: int, message: string)

  /**
    The country and city stored with the event: the ones the client sent when it sent both,
    else the GeoIP answer, else "Unknown Location" for both.
  */
  function Location(req: EventRequest, env: Environment): (string, string) {
    if req.country.Some? && req.city.Some? then (req.country.value, req.city.value)
    else match GetGeoIpLookup(env.geoDb, env.connectionIp)
      case None => ("Unknown Location", "Unknown Location")
      case Some(geo) => (geo.countryName, geo.city)
  }

  /** The row the handler inserts for a valid request. */
  function NewEvent(projectId: string, req: EventRequest, env: Environment): Event {
    var (country, city) := Location(req, env);
    var ua := MockParseUserAgent(env.userAgent);
    Event(
      projectId,
      SessionId(env.sessionCookie, env.freshUuid),
      Some(GenerateAnonVisitorId(env.sha256, env.connectionIp, env.userAgent, env.now)),
      Some(env.now),
      req.pathname, req.referrer, req.hostname, req.utmSource,
      Some(country), Some(city),
      req.eventType, req.eventName,
      Some(ua.browserName), Some(ua.osName), Some(ua.deviceType))
  }

  /** The id, in the "project_events" namespace, of the counter the handler increments. */
  function MonthlyCounterId(projectId: string, now: Instant): string {
    "events:" + projectId + ":" + MonthKey(now)
  }

  const ThirtyDays := 30 * 24 * 60 * 60000

  /** The response, the rows and the Redis state after the handler. */
  datatype Outcome = Outcome(response: Response, rows: seq<Event>, redis: Redis)

  function LogAnalyticsEventSpec(
    rows: seq<Event>, r: Redis, projectCtx: Option<ProjectContext>, body: Option<EventRequest>,
    env: Environment, insertFails: bool, redisFails: bool): Outcome
  {
    if projectCtx.None? then Outcome(Response(401, "Unauthorized"), rows, r)
    else if body.None? then Outcome(Response(400, "Invalid payload"), rows, r)
    else if body.value.pathname == "" then Outcome(Response(400, "Validation failed: pathname is required"), rows, r)
    else if body.value.eventType == "" then Outcome(Response(400, "Validation failed: event_type is required"), rows, r)
    else if insertFails then Outcome(Response(500, "Failed to log event to database"), rows, r)
    else
      var pid := projectCtx.value.projectId;
      var (r1, _) := IncrementCacheSpec(r, "project_events", MonthlyCounterId(pid, env.now), ThirtyDays, redisFails);
      Outcome(Response(200, "Event logged"), rows + [NewEvent(pid, body.value, env)], r1)
  }

  /** The `analytics_events` table: rows are appended in place. */
  class EventTable {
    var rows: seq<Event>

    constructor()
      ensures rows == []
    {
      rows := [];
    }

    /** INSERT of one row; a failed statement changes nothing. */
    method Insert(e: Event, fails: bool) returns (ok: bool)
      modifies this
      ensures ok == !fails
      ensures rows == if fails then old(rows) else old(rows) + [e]
    {
      if fails {
        return false;
      }
      rows := rows + [e];
      ok := true;
    }
  }

  /** `LogAnalyticsEvent`. */
  method LogAnalyticsEvent(
    table: EventTable, store: Store, projectCtx: Option<ProjectContext>, body: Option<EventRequest>,
    env: Environment, insertFails: bool, redisFails: bool)
    returns (response: Response)
    modifies table, store
    ensures Outcome(response, table.rows, store.State())
      == LogAnalyticsEventSpec(old(table.rows), old(store.State()), projectCtx, body, env, insertFails, redisFails)
  {
    if projectCtx.None? {
      return Response(401, "Unauthorized");
    }
    if body.None? {
      return Response(400, "Invalid payload");
    }
    var req := body.value;
    if req.pathname == "" {
      return Response(400, "Validation failed: pathname is required");
    }
    if req.eventType == "" {
      return Response(400, "Validation failed: event_type is required");
    }
    var event := NewEvent(projectCtx.value.projectId, req, env);
    var ok := table.Insert(event, insertFails);
    if !ok {
      return Response(500, "Failed to log event to database");
    }
    var _, _ := IncrementCache(store, "project_events", MonthlyCounterId(projectCtx.value.projectId, env.now), ThirtyDays, redisFails);
    response := Response(200, "Event logged");
  }

  /**
    The checks in order: no project context is 401, an unreadable body 400, then a missing
    pathname and a missing event type are 400 each; the insert failing is 500. In all these
    cases no row is stored and Redis is untouched: the counter moves only after a stored row.
  */
  lemma RejectionsChangeNothing(
    rows: seq<Event>, r: Redis, projectCtx: Option<ProjectContext>, body: Option<EventRequest>,
    env: Environment, insertFails: bool, redisFails: bool)
    ensures var o := LogAnalyticsEventSpec(rows, r, projectCtx, body, env, insertFails, redisFails);
      && (o.response.status != 200 <==>
            projectCtx.None? || body.None? || body.value.pathname == "" || body.value.eventType == "" || insertFails)
      && (o.response.status != 200 ==> o.rows == rows && o.redis == r)
      && (projectCtx.None? ==> o.response == Response(401, "Unauthorized"))
      && (projectCtx.Some? && body.None? ==> o.response == Response(400, "Invalid payload"))
      && (projectCtx.Some? && body.Some? && body.value.pathname == "" ==>
            o.response == Response(400, "Validation failed: pathname is required"))
      && (projectCtx.Some? && body.Some? && body.value.pathname != "" && body.value.eventType == "" ==>
            o.response == Response(400, "Validation failed: event_type is required"))
  {
  }

  /**
    A stored event: exactly one row is appended, for the context's project, stamped with the
    current time, carrying the request's pathname and event type, the daily visitor id of the
    connection address and user agent (64 hexadecimal digits), the cookie's session or the fresh
    one; and the project's counter for the month of the event goes up by one.
  */
  lemma AcceptedEventIsStored(
    rows: seq<Event>, r: Redis, ctx: ProjectContext, req: EventRequest, env: Environment)
    requires req.pathname != "" && req.eventType != ""
    ensures var o := LogAnalyticsEventSpec(rows, r, Some(ctx), Some(req), env, false, false);
      var counter := FullKey("project_events", MonthlyCounterId(ctx.projectId, env.now));
      && o.response == Response(200, "Event logged")
      && |o.rows| == |rows| + 1 && o.rows[..|rows|] == rows
      && o.redis.Count(counter) == r.Count(counter) + 1
      && (var e := o.rows[|rows|];
          && e.projectId == ctx.projectId && e.timestamp == Some(env.now)
          && e.pathname == req.pathname && e.eventType == req.eventType && e.eventName == req.eventName
          && e.visitorId == Some(GenerateAnonVisitorId(env.sha256, env.connectionIp, env.userAgent, env.now))
          && |e.visitorId.value| == 64 && IsLowerHex(e.visitorId.value)
          && e.sessionId == (if env.sessionCookie != "" then env.sessionCookie else env.freshUuid))
  {
    VisitorIdShape(env.sha256, env.connectionIp, env.userAgent, env.now);
    var o := LogAnalyticsEventSpec(rows, r, Some(ctx), Some(req), env, false, false);
    assert o.rows == rows + [NewEvent(ctx.projectId, req, env)];
  }

  /**
    Country and city are always stored and never empty unless the client sent an empty one:
    both from the request when it sent both; "Private IP" for a local address; the GeoIP answer
    for a public one; "Unknown Location" for both when the lookup fails.
  */
  lemma LocationSpec(req: EventRequest, env: Environment)
    ensures req.country.Some? && req.city.Some? ==> Location(req, env) == (req.country.value, req.city.value)
    ensures !(req.country.Some? && req.city.Some?) ==>
      && (IsLocalIp(env.connectionIp) ==> Location(req, env) == ("Private IP", "Private IP"))
      && (GetGeoIpLookup(env.geoDb, env.connectionIp).None? ==> Location(req, env) == ("Unknown Location", "Unknown Location"))
      && Location(req, env).0 != "" && Location(req, env).1 != ""
  {
    GeoIpLookupSpec(env.geoDb, env.connectionIp);
  }

  /** The counter's key is the one the key middlewares read: the month of the event equals the month of its month's start. */
  lemma CounterIsTheMiddlewaresKey(projectId: string, now: Instant)
    ensures FullKey("project_events", MonthlyCounterId(projectId, now)) == FullKey("project_events", EventsCacheId(projectId, now))
  {
    MonthKeyOfMonthStart(now);
  }

  /** Appending a row that satisfies the conditions appends it to what the query reads. */
  lemma WhereAppend(rows: seq<Event>, e: Event, c: Conditions)
    ensures Where(rows + [e], c) == if Matches(e, c) then Where(rows, c) + [e] else Where(rows, c)
  {
    assert (rows + [e])[..|rows + [e]| - 1] == rows;
  }

  /**
    The cached monthly total stays in step with the table: when the key middleware's cached
    total for the month equals the count of the project's rows since the month's start, it
    still does after the handler stores an event (Redis reachable), since the handler bumps the
    very entry the middleware reads and the new row is in the counted range.
  */
  lemma {:induction false} CachedTotalTracksRows(
    rows: seq<Event>, r: Redis, ctx: ProjectContext, req: EventRequest, env: Environment, insertFails: bool)
    requires var key := FullKey("project_events", EventsCacheId(ctx.projectId, env.now));
      key in r.values && r.values[key] == MonthlyCount(rows, ctx.projectId, env.now)
    ensures var o := LogAnalyticsEventSpec(rows, r, Some(ctx), Some(req), env, insertFails, false);
      var key := FullKey("project_events", EventsCacheId(ctx.projectId, env.now));
      key in o.redis.values && o.redis.values[key] == MonthlyCount(o.rows, ctx.projectId, env.now)
  {
    var o := LogAnalyticsEventSpec(rows, r, Some(ctx), Some(req), env, insertFails, false);
    if o.response.status == 200 {
      var e := NewEvent(ctx.projectId, req, env);
      var c := Conditions(ctx.projectId, StartOfMonth(env.now), None, None);
      MonthBounds(env.now);
      assert Matches(e, c);
      WhereAppend(rows, e, c);
      CounterIsTheMiddlewaresKey(ctx.projectId, env.now);
    }
  }
}
