/**
  `VerifyPublicKey`, the middleware in front of event ingestion. In order: the key format
  (a malformed key counts as an invalid attempt of the client, and too many attempts give
  429), the key lookup (an unknown or revoked key is also an invalid attempt, but gives 401),
  the per-project rate limit of the owner's plan, and the monthly event quota. The project
  context is attached only when every check passes.

  The checks are a pure function of the Redis state before the request; the method runs
  them against the store. `redisFails` stands for Redis being unreachable during the request
  (every command fails; `IncrementCache` then reports 0), `countFails` for the count query failing.
*/
module PublicKeyMiddleware {
  import opened Wrappers
  import opened Calendar
  import opened Hex
  import opened Events
  import opened GoFormat
  import opened ClientIdentity
  import opened ApiKeys
  import opened RedisStore

  /** What the key middlewares attach for later handlers. */
  datatype ProjectContext = ProjectContext(
    projectId: string,
    userId: string,
    subscriptionType: string,
    userStatus: string,
    userRole: string,
    totalEvents: int)

  /** The outcome of the key lookup query: the row, no row (`sql.ErrNoRows`), or another error. */
  datatype KeyLookup = KeyFound(ctx: ProjectContext) | KeyNotFound | LookupFailed

  /** A middleware either answers with an error status or passes the request on with its context. */
  datatype Verdict = Reject(status: int, message: string) | Proceed(ctx: ProjectContext)

  const Minute := 60000
  const FiveMinutes := 5 * 60000

  /** The client address: X-Forwarded-For as it is (not split), else the connection address. */
  function ClientAddress(forwardedFor: string, connectionIp: string): string {
    if forwardedFor != "" then forwardedFor else connectionIp
  }

  /** Requests per project, counted by a counter whose 1-minute TTL every request refreshes: 2000 for "pro", none (0) for "enterprise", 200 for any other plan. */
  function PublicRateLimit(plan: string): int {
    if plan == "pro" then 2000 else if plan == "enterprise" then 0 else 200
  }

  /** Events per month: 1,000,000 for "pro", none (0) for "enterprise", 15,000 for any other plan. */
  function PublicQuota(plan: string): int {
    if plan == "pro" then 1000000 else if plan == "enterprise" then 0 else 15000
  }

  /** The id of the monthly event count in the "project_events" cache. */
  function EventsCacheId(projectId: string, now: Instant): string {
    "events:" + projectId + ":" + MonthKey(StartOfMonth(now))
  }

  /** The count query: the project's events since the first instant of the month. */
  function MonthlyCount(events: seq<Event>, projectId: string, now: Instant): nat {
    |Where(events, Conditions(projectId, StartOfMonth(now), None, None))|
  }

  /**
    The monthly event total and the Redis state after reading it: the cached number when
    there is one; otherwise the count (0 when the query fails), cached for a minute.
  */
  function MonthlyEventsSpec(r: Redis, events: seq<Event>, projectId: string, now: Instant, countFails: bool, redisFails: bool): (int, Redis) {
    var key := FullKey("project_events", EventsCacheId(projectId, now));
    if !redisFails && key in r.values then (r.values[key], r)
    else
      var n := if countFails then 0 else MonthlyCount(events, projectId, now);
      (n, if redisFails then r else r.Set(key, n, Minute))
  }

  method LoadMonthlyEvents(store: Store, events: seq<Event>, projectId: string, now: Instant, countFails: bool, redisFails: bool)
    returns (total: int)
    modifies store
    ensures (total, store.State()) == MonthlyEventsSpec(old(store.State()), events, projectId, now, countFails, redisFails)
  {
    var cacheId := EventsCacheId(projectId, now);
    var cached := GetCache(store, "project_events", cacheId, redisFails);
    if cached.Some? {
      return cached.value;
    }
    total := if countFails then 0 else MonthlyCount(events, projectId, now);
    SetCache(store, "project_events", cacheId, total, Minute, redisFails);
  }

  /** The request as the middleware reads it: the X-Public-Key header and what identifies the client. */
  datatype PublicKeyRequest = PublicKeyRequest(publicKey: string, forwardedFor: string, connectionIp: string, userAgent: string)

  /** The invalid-attempt counter of the client sending the request. */
  function InvalidKeyId(sha256: string -> Digest, req: PublicKeyRequest): string {
    "invalidkey:" + GetUserHash(sha256, ClientAddress(req.forwardedFor, req.connectionIp), req.userAgent)
  }

  /** The checks after a successful lookup: the plan's rate limit, then the monthly quota. */
  function PlanChecks(r: Redis, ctx: ProjectContext, events: seq<Event>, now: Instant, countFails: bool, redisFails: bool): (Verdict, Redis) {
    var limit := PublicRateLimit(ctx.subscriptionType);
    var (r1, reqCount) :=
      if limit > 0 then IncrementCacheSpec(r, "ratelimit", "ratelimit:" + ctx.projectId, Minute, redisFails) else (r, 0);
    if limit > 0 && reqCount > limit then (Reject(429, "Rate limit exceeded for this project"), r1)
    else
      var (total, r2) := MonthlyEventsSpec(r1, events, ctx.projectId, now, countFails, redisFails);
      var quota := PublicQuota(ctx.subscriptionType);
      if quota > 0 && total > quota then (Reject(429, "Event quota exceeded for this project"), r2)
      else (Proceed(ctx.(totalEvents := total)), r2)
  }

  /** The whole sequence of checks: the verdict and the Redis state after the request. */
  function PublicKeyDecision(
    r: Redis, sha256: string -> Digest, req: PublicKeyRequest, lookup: KeyLookup,
    events: seq<Event>, now: Instant, countFails: bool, redisFails: bool): (Verdict, Redis)
  {
    if ValidatePublicKeyFormat(req.publicKey).Some? then
      var (r1, failCount) := IncrementCacheSpec(r, "security", InvalidKeyId(sha256, req), FiveMinutes, redisFails);
      (if failCount > 10 then Reject(429, "Too many invalid API key attempts, try again later")
       else Reject(401, "Invalid API key"), r1)
    else
      match lookup
      case KeyNotFound =>
        var (r1, _) := IncrementCacheSpec(r, "security", InvalidKeyId(sha256, req), FiveMinutes, redisFails);
        (Reject(401, "API key not found or revoked"), r1)
      case LookupFailed => (Reject(500, "Database error"), r)
      case KeyFound(ctx) => PlanChecks(r, ctx, events, now, countFails, redisFails)
  }

  /** `VerifyPublicKey`. */
  method VerifyPublicKey(
    store: Store, sha256: string -> Digest, req: PublicKeyRequest, lookup: KeyLookup,
    events: seq<Event>, now: Instant, countFails: bool, redisFails: bool)
    returns (verdict: Verdict)
    modifies store
    ensures (verdict, store.State()) == PublicKeyDecision(old(store.State()), sha256, req, lookup, events, now, countFails, redisFails)
  {
    var ip := ClientAddress(req.forwardedFor, req.connectionIp);
    var userHash := GetUserHash(sha256, ip, req.userAgent);
    if ValidatePublicKeyFormat(req.publicKey).Some? {
      var failCount, _ := IncrementCache(store, "security", "invalidkey:" + userHash, FiveMinutes, redisFails);
      if failCount > 10 {
        return Reject(429, "Too many invalid API key attempts, try again later");
      }
      return Reject(401, "Invalid API key");
    }
    if lookup.KeyNotFound? {
      var _, _ := IncrementCache(store, "security", "invalidkey:" + userHash, FiveMinutes, redisFails);
      return Reject(401, "API key not found or revoked");
    }
    if lookup.LookupFailed? {
      return Reject(500, "Database error");
    }
    var ctx := lookup.ctx;
    var limit := PublicRateLimit(ctx.subscriptionType);
    if limit > 0 {
      var reqCount, _ := IncrementCache(store, "ratelimit", "ratelimit:" + ctx.projectId, Minute, redisFails);
      if reqCount > limit {
        return Reject(429, "Rate limit exceeded for this project");
      }
    }
    var total := LoadMonthlyEvents(store, events, ctx.projectId, now, countFails, redisFails);
    var quota := PublicQuota(ctx.subscriptionType);
    if quota > 0 && total > quota {
      return Reject(429, "Event quota exceeded for this project");
    }
    verdict := Proceed(ctx.(totalEvents := total));
  }

  /**
    A malformed key is answered before the lookup: the client's invalid-attempt counter goes
    up by one, and the answer is 429 once the new count passes 10, 401 before that. An unknown
    or revoked key also counts as an attempt but is always 401, and a failing lookup is 500
    with nothing counted.
  */
  lemma InvalidAttempts(
    r: Redis, sha256: string -> Digest, req: PublicKeyRequest, lookup: KeyLookup,
    events: seq<Event>, now: Instant, countFails: bool, redisFails: bool)
    ensures var (v, r') := PublicKeyDecision(r, sha256, req, lookup, events, now, countFails, redisFails);
      var attempts := FullKey("security", InvalidKeyId(sha256, req));
      && (ValidatePublicKeyFormat(req.publicKey).Some? && !redisFails ==>
            r'.Count(attempts) == r.Count(attempts) + 1
            && v == (if r.Count(attempts) + 1 > 10 then Reject(429, "Too many invalid API key attempts, try again later")
                     else Reject(401, "Invalid API key")))
      && (ValidatePublicKeyFormat(req.publicKey).None? && lookup.KeyNotFound? ==>
            v == Reject(401, "API key not found or revoked")
            && (!redisFails ==> r'.Count(attempts) == r.Count(attempts) + 1))
      && (ValidatePublicKeyFormat(req.publicKey).None? && lookup.LookupFailed? ==> v == Reject(500, "Database error") && r' == r)
  {
  }

  /**
    The plan's rate limit: "enterprise" is never rate-limited and its counter is never touched;
    any other plan is refused with 429 exactly when the project's counter, after this request,
    passes 2000 ("pro") or 200 (every other plan, "free" and "paid" included).
  */
  lemma PlanRateLimit(r: Redis, ctx: ProjectContext, events: seq<Event>, now: Instant, countFails: bool)
    ensures var (v, r') := PlanChecks(r, ctx, events, now, countFails, false);
      var counter := FullKey("ratelimit", "ratelimit:" + ctx.projectId);
      && (ctx.subscriptionType == "enterprise" ==> v != Reject(429, "Rate limit exceeded for this project"))
      && (ctx.subscriptionType != "enterprise" ==>
            var limit := if ctx.subscriptionType == "pro" then 2000 else 200;
            (v == Reject(429, "Rate limit exceeded for this project") <==> r.Count(counter) + 1 > limit))
  {
    var (total, r2) := MonthlyEventsSpec(r, events, ctx.projectId, now, countFails, false);
  }

  /**
    The monthly quota: the total is the cached count when there is one, else the count of the
    project's events since the start of the month; the request passes the quota unless the
    plan has one (1,000,000 for "pro", 15,000 otherwise, none for "enterprise") and the total
    is strictly above it; passing attaches the lookup's context with that total.
  */
  lemma PlanQuota(r: Redis, ctx: ProjectContext, events: seq<Event>, now: Instant, countFails: bool)
    requires ctx.subscriptionType == "enterprise"
      || IncrementCacheSpec(r, "ratelimit", "ratelimit:" + ctx.projectId, Minute, false).1 <= PublicRateLimit(ctx.subscriptionType)
    ensures var (v, r') := PlanChecks(r, ctx, events, now, countFails, false);
      var r1 := if ctx.subscriptionType == "enterprise" then r else IncrementCacheSpec(r, "ratelimit", "ratelimit:" + ctx.projectId, Minute, false).0;
      var key := FullKey("project_events", EventsCacheId(ctx.projectId, now));
      var total := if key in r1.values then r1.values[key] else if countFails then 0 else MonthlyCount(events, ctx.projectId, now);
      var quota := if ctx.subscriptionType == "pro" then 1000000 else if ctx.subscriptionType == "enterprise" then 0 else 15000;
      && (v.Proceed? <==> quota == 0 || total <= quota)
      && (v.Proceed? ==> v.ctx == ctx.(totalEvents := total))
      && (!v.Proceed? ==> v == Reject(429, "Event quota exceeded for this project"))
      && r'.Count(key) == total
  {
  }

  /**
    The context is attached only when every check passed: a well-formed key, a key row,
    and neither limit hit; the attached context is the row's, with the monthly total.
  */
  lemma ProceedOnlyWhenAllPass(
    r: Redis, sha256: string -> Digest, req: PublicKeyRequest, lookup: KeyLookup,
    events: seq<Event>, now: Instant, countFails: bool, redisFails: bool)
    ensures var (v, r') := PublicKeyDecision(r, sha256, req, lookup, events, now, countFails, redisFails);
      v.Proceed? ==>
        && ValidatePublicKeyFormat(req.publicKey).None? && lookup.KeyFound?
        && v.ctx == lookup.ctx.(totalEvents := v.ctx.totalEvents)
        && var quota := PublicQuota(lookup.ctx.subscriptionType);
           (quota == 0 || v.ctx.totalEvents <= quota)
  {
  }

  /**
    When Redis is unreachable the counters read 0, so neither the invalid-attempt counter
    nor the rate limit ever refuses a request: the middleware fails open.
  */
  lemma FailsOpen(
    r: Redis, sha256: string -> Digest, req: PublicKeyRequest, lookup: KeyLookup,
    events: seq<Event>, now: Instant, countFails: bool)
    ensures var (v, r') := PublicKeyDecision(r, sha256, req, lookup, events, now, countFails, true);
      && r' == r
      && v != Reject(429, "Too many invalid API key attempts, try again later")
      && v != Reject(429, "Rate limit exceeded for this project")
  {
  }
}
