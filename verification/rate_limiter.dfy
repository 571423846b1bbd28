/**
  `AllowRequest`: a fixed-window counter per fingerprint. Each call increments
  "rate:<fingerprint>", starts the window (sets the expiry) on the first call, and allows
  the request while the count is within the limit.
*/
module RateLimiter {
  import opened RedisStore

  function RateKey(fingerprint: string): string {
    "rate:" + fingerprint
  }

  /** The outcome of one call: the new Redis state, whether the request is allowed, whether Redis answered. */
  datatype Decision = Decision(after: Redis, allowed: bool, ok: bool)

  function AllowRequestSpec(r: Redis, fingerprint: string, limit: int, window: int, fails: bool): Decision {
    var key := RateKey(fingerprint);
    if fails then Decision(r, false, false)
    else
      var count := r.Count(key) + 1;
      var r' := r.Incr(key);
      Decision(if count == 1 then r'.Expire(key, window) else r', count <= limit, true)
  }

  /** `AllowRequest(fingerprint, limit, window)`. */
  method AllowRequest(store: Store, fingerprint: string, limit: int, window: int, fails: bool) returns (allowed: bool, ok: bool)
    modifies store
    ensures Decision(store.State(), allowed, ok) == AllowRequestSpec(old(store.State()), fingerprint, limit, window, fails)
  {
    var key := RateKey(fingerprint);
    var count;
    count, ok := store.Incr(key, fails);
    if !ok {
      return false, false;
    }
    if count == 1 {
      store.Expire(key, window, false);
    }
    allowed := count <= limit;
  }

  /**
    One call: the counter of this fingerprint goes up by exactly one and the request is
    allowed exactly when the new count is within the limit; the expiry is set only by the
    call that makes the count 1; counters of other fingerprints do not change; a Redis error
    denies the request and changes nothing.
  */
  lemma AllowRequestStep(r: Redis, fingerprint: string, limit: int, window: int, fails: bool)
    ensures var d := AllowRequestSpec(r, fingerprint, limit, window, fails);
      var key := RateKey(fingerprint);
      && (fails ==> d == Decision(r, false, false))
      && (!fails ==> d.ok && d.after.Count(key) == r.Count(key) + 1 && (d.allowed <==> r.Count(key) + 1 <= limit))
      && (!fails && r.Count(key) == 0 ==> key in d.after.expiry && d.after.expiry[key] == window)
      && (!fails && r.Count(key) != 0 ==> d.after.expiry == r.expiry)
      && (forall other :: other != fingerprint ==> d.after.Count(RateKey(other)) == r.Count(RateKey(other)))
  {
    forall other | other != fingerprint
      ensures RateKey(other) != RateKey(fingerprint)
    {
      assert RateKey(other)[5..] == other;
      assert RateKey(fingerprint)[5..] == fingerprint;
    }
  }

  /** n calls in a row that all reach Redis: the final state and the decisions, first call first. */
  function Calls(r: Redis, fingerprint: string, limit: int, window: int, n: nat): (Redis, seq<bool>)
    decreases n
  {
    if n == 0 then (r, [])
    else
      var (r', decisions) := Calls(r, fingerprint, limit, window, n - 1);
      var d := AllowRequestSpec(r', fingerprint, limit, window, false);
      (d.after, decisions + [d.allowed])
  }

  /**
    In a fresh window (no counter yet), n calls leave the count at n, and the i-th call is
    allowed exactly when i < limit: the first `limit` calls pass and every later one is denied.
  */
  lemma {:induction false} FreshWindow(r: Redis, fingerprint: string, limit: int, window: int, n: nat)
    requires RateKey(fingerprint) !in r.values
    ensures var (r', decisions) := Calls(r, fingerprint, limit, window, n);
      && r'.Count(RateKey(fingerprint)) == n
      && |decisions| == n
      && forall i :: 0 <= i < n ==> (decisions[i] <==> i < limit)
    decreases n
  {
    if n > 0 {
      FreshWindow(r, fingerprint, limit, window, n - 1);
      var (r', decisions) := Calls(r, fingerprint, limit, window, n - 1);
      var d := AllowRequestSpec(r', fingerprint, limit, window, false);
      assert d.after.Count(RateKey(fingerprint)) == n;
      assert d.allowed <==> n - 1 < limit;
      var all := decisions + [d.allowed];
      assert forall i :: 0 <= i < n - 1 ==> all[i] == decisions[i];
    }
  }
}
