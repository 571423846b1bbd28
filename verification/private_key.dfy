/**
  `VerifyPrivateKey`, the middleware in front of the analytics read API. In order: the
  secret-key format (no attempt counter here), a global per-client rate limit of 200 requests
  taken before the lookup, the key lookup, a per-project-and-client rate limit of the owner's
  plan, and the monthly event quota, whose table differs from the public middleware's. Each
  rate limit is a counter whose 1-minute TTL every request refreshes, so it resets only after
  a full idle minute.
*/
module PrivateKeyMiddleware {
  import opened Wrappers
  import opened Calendar
  import opened Hex
  import opened Events
  import opened ClientIdentity
  import opened ApiKeys
  import opened RedisStore
  import opened PublicKeyMiddleware

  /** Requests per project and client, counted by a counter whose 1-minute TTL every request refreshes: 20,000 for "pro", 100,000 for "enterprise", 2000 for "free" and any other plan. */
  function PrivateRateLimit(plan: string): int {
    match plan
    case "free" => 2000
    case "pro" => 20000
    case "enterprise" => 100000
    case _ => 2000
  }

  /** Events per month: 150,000 for "pro", none (-1) for "enterprise", 15,000 for "free" and any other plan. */
  function PrivateQuota(plan: string): int {
    match plan
    case "free" => 15000
    case "pro" => 150000
    case "enterprise" => -1
    case _ => 15000
  }

  /** The request as the middleware reads it: the X-Private-Key header and what identifies the client. */
  datatype PrivateKeyRequest = PrivateKeyRequest(privateKey: string, forwardedFor: string, connectionIp: string, userAgent: string)

  function ClientHash(sha256: string -> Digest, req: PrivateKeyRequest): string {
    GetUserHash(sha256, ClientAddress(req.forwardedFor, req.connectionIp), req.userAgent)
  }

  /** The checks after a successful lookup: the project-and-client rate limit, then the monthly quota. */
  function PrivatePlanChecks(r: Redis, userHash: string, ctx: ProjectContext, events: seq<Event>, now: Instant, countFails: bool, redisFails: bool): (Verdict, Redis) {
    var (r1, reqCount) := IncrementCacheSpec(r, "ratelimit", "ratelimit:project:" + ctx.projectId + ":" + userHash, Minute, redisFails);
    if reqCount > PrivateRateLimit(ctx.subscriptionType) then (Reject(429, "Project rate limit exceeded for your plan"), r1)
    else
      var (total, r2) := MonthlyEventsSpec(r1, events, ctx.projectId, now, countFails, redisFails);
      var quota := PrivateQuota(ctx.subscriptionType);
      if quota > 0 && total > quota then (Reject(429, "Monthly event quota exceeded for this project"), r2)
      else (Proceed(ctx.(totalEvents := total)), r2)
  }

  /** The whole sequence of checks: the verdict and the Redis state after the request. */
  function PrivateKeyDecision(
    r: Redis, sha256: string -> Digest, req: PrivateKeyRequest, lookup: KeyLookup,
    events: seq<Event>, now: Instant, countFails: bool, redisFails: bool): (Verdict, Redis)
  {
    if ValidateSecretKeyFormat(req.privateKey).Some? then (Reject(401, "Invalid API key"), r)
    else
      var userHash := ClientHash(sha256, req);
      var (r1, reqCount) := IncrementCacheSpec(r, "ratelimit", "ratelimit:global:" + userHash, Minute, redisFails);
      if reqCount > 200 then (Reject(429, "Global rate limit exceeded"), r1)
      else
        match lookup
        case KeyNotFound => (Reject(401, "API key not found or revoked"), r1)
        case LookupFailed => (Reject(500, "Database error"), r1)
        case KeyFound(ctx) => PrivatePlanChecks(r1, userHash, ctx, events, now, countFails, redisFails)
  }

  /** `VerifyPrivateKey`. */
  method VerifyPrivateKey(
    store: Store, sha256: string -> Digest, req: PrivateKeyRequest, lookup: KeyLookup,
    events: seq<Event>, now: Instant, countFails: bool, redisFails: bool)
    returns (verdict: Verdict)
    modifies store
    ensures (verdict, store.State()) == PrivateKeyDecision(old(store.State()), sha256, req, lookup, events, now, countFails, redisFails)
  {
    if ValidateSecretKeyFormat(req.privateKey).Some? {
      return Reject(401, "Invalid API key");
    }
    var ip := ClientAddress(req.forwardedFor, req.connectionIp);
    var userHash := GetUserHash(sha256, ip, req.userAgent);
    var reqCount, _ := IncrementCache(store, "ratelimit", "ratelimit:global:" + userHash, Minute, redisFails);
    if reqCount > 200 {
      return Reject(429, "Global rate limit exceeded");
    }
    if lookup.KeyNotFound? {
      return Reject(401, "API key not found or revoked");
    }
    if lookup.LookupFailed? {
      return Reject(500, "Database error");
    }
    var ctx := lookup.ctx;
    var projectReqCount, _ := IncrementCache(store, "ratelimit", "ratelimit:project:" + ctx.projectId + ":" + userHash, Minute, redisFails);
    if projectReqCount > PrivateRateLimit(ctx.subscriptionType) {
      return Reject(429, "Project rate limit exceeded for your plan");
    }
    var total := LoadMonthlyEvents(store, events, ctx.projectId, now, countFails, redisFails);
    var quota := PrivateQuota(ctx.subscriptionType);
    if quota > 0 && total > quota {
      return Reject(429, "Monthly event quota exceeded for this project");
    }
    verdict := Proceed(ctx.(totalEvents := total));
  }

  /**
    A malformed secret key is refused with 401 before anything else and touches no counter;
    a well-formed one always counts against the client's global limit, which refuses it with
    429 once the count passes 200, before the key is even looked up; an unknown key is 401
    and a failing lookup 500, both after the global count.
  */
  lemma PrivateKeyOrder(
    r: Redis, sha256: string -> Digest, req: PrivateKeyRequest, lookup: KeyLookup,
    events: seq<Event>, now: Instant, countFails: bool)
    ensures var (v, r') := PrivateKeyDecision(r, sha256, req, lookup, events, now, countFails, false);
      var global := FullKey("ratelimit", "ratelimit:global:" + ClientHash(sha256, req));
      && (ValidateSecretKeyFormat(req.privateKey).Some? ==> v == Reject(401, "Invalid API key") && r' == r)
      && (ValidateSecretKeyFormat(req.privateKey).None? ==>
            && r'.Count(global) == r.Count(global) + 1
            && (r.Count(global) + 1 > 200 <==> v == Reject(429, "Global rate limit exceeded"))
            && (r.Count(global) + 1 <= 200 && lookup.KeyNotFound? ==> v == Reject(401, "API key not found or revoked"))
            && (r.Count(global) + 1 <= 200 && lookup.LookupFailed? ==> v == Reject(500, "Database error")))
  {
    if ValidateSecretKeyFormat(req.privateKey).None? {
      var userHash := ClientHash(sha256, req);
      var global := FullKey("ratelimit", "ratelimit:global:" + userHash);
      var (r1, c) := IncrementCacheSpec(r, "ratelimit", "ratelimit:global:" + userHash, Minute, false);
      IncrementCacheCounts(r, "ratelimit", "ratelimit:global:" + userHash, Minute, false);
      if c <= 200 && lookup.KeyFound? {
        var ctx := lookup.ctx;
        var project := FullKey("ratelimit", "ratelimit:project:" + ctx.projectId + ":" + userHash);
        ProjectKeyIsNotGlobal(ctx.projectId, userHash);
        IncrementCacheCounts(r1, "ratelimit", "ratelimit:project:" + ctx.projectId + ":" + userHash, Minute, false);
        var (r2, _) := IncrementCacheSpec(r1, "ratelimit", "ratelimit:project:" + ctx.projectId + ":" + userHash, Minute, false);
        MonthlyEventsKeyIsNotRateKey(r2, events, ctx.projectId, now, countFails, global);
      }
    }
  }

  /** The project counter never shares a key with a global counter. */
  lemma ProjectKeyIsNotGlobal(projectId: string, userHash: string)
    ensures FullKey("ratelimit", "ratelimit:project:" + projectId + ":" + userHash)
      != FullKey("ratelimit", "ratelimit:global:" + userHash)
  {
    var a := FullKey("ratelimit", "ratelimit:project:" + projectId + ":" + userHash);
    var b := FullKey("ratelimit", "ratelimit:global:" + userHash);
    assert a[20] == 'p' && b[20] == 'g';
  }

  /** Reading the monthly total writes only the "project_events" entry, never a rate counter. */
  lemma MonthlyEventsKeyIsNotRateKey(r: Redis, events: seq<Event>, projectId: string, now: Instant, countFails: bool, rateKey: string)
    requires |rateKey| >= 10 && rateKey[..10] == "ratelimit:"
    ensures MonthlyEventsSpec(r, events, projectId, now, countFails, false).1.Count(rateKey) == r.Count(rateKey)
  {
    var key := FullKey("project_events", EventsCacheId(projectId, now));
    assert key[0] == 'p' && rateKey[0] == 'r';
  }

  /**
    The plan's limits after the lookup: the project-and-client counter goes up by one and the
    request is refused with 429 exactly when it passes the plan's limit (2000, 20,000 or
    100,000: "enterprise" is limited too); then the quota refuses it exactly when the plan has
    one (150,000 for "pro", 15,000 otherwise; none for "enterprise") and the total is above it.
  */
  lemma PrivatePlanLimits(r: Redis, userHash: string, ctx: ProjectContext, events: seq<Event>, now: Instant, countFails: bool)
    ensures var (v, r') := PrivatePlanChecks(r, userHash, ctx, events, now, countFails, false);
      var counter := FullKey("ratelimit", "ratelimit:project:" + ctx.projectId + ":" + userHash);
      var limit := if ctx.subscriptionType == "pro" then 20000 else if ctx.subscriptionType == "enterprise" then 100000 else 2000;
      && (v == Reject(429, "Project rate limit exceeded for your plan") <==> r.Count(counter) + 1 > limit)
      && (r.Count(counter) + 1 <= limit ==>
            var (total, _) := MonthlyEventsSpec(r.Incr(counter).Expire(counter, Minute), events, ctx.projectId, now, countFails, false);
            var quota := if ctx.subscriptionType == "pro" then 150000 else if ctx.subscriptionType == "enterprise" then 0 else 15000;
            && (v.Proceed? <==> quota == 0 || total <= quota)
            && (v.Proceed? ==> v.ctx == ctx.(totalEvents := total))
            && (!v.Proceed? ==> v == Reject(429, "Monthly event quota exceeded for this project")))
  {
  }

  /**
    Redis unreachable: every counter reads 0, so no rate limit refuses the request and the
    store is left as it was; only the format, the lookup and the quota can refuse it.
  */
  lemma PrivateFailsOpen(
    r: Redis, sha256: string -> Digest, req: PrivateKeyRequest, lookup: KeyLookup,
    events: seq<Event>, now: Instant, countFails: bool)
    ensures var (v, r') := PrivateKeyDecision(r, sha256, req, lookup, events, now, countFails, true);
      && r' == r
      && v != Reject(429, "Global rate limit exceeded")
      && v != Reject(429, "Project rate limit exceeded for your plan")
      && (ValidateSecretKeyFormat(req.privateKey).None? && lookup.KeyFound? && PrivateQuota(lookup.ctx.subscriptionType) <= 0 ==> v.Proceed?)
  {
  }
}
