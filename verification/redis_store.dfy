/**
  Redis as the Go server uses it, and the cache helpers over it (`IncrementCache`,
  `GetCache`, `SetCache`). A key holds an integer: a counter, or the JSON number a cache
  entry stores. Expiries are recorded as the time-to-live last set on a key; time passing
  (a key expiring) is not modelled, so a fixed window is the life of a key. A Redis error
  is a `fails` parameter: the command then changes nothing.
*/
module RedisStore {
  import opened Wrappers

  /** The values and the time-to-live (in milliseconds) last set per key. */
  datatype Redis = Redis(values: map<string, int>, expiry: map<string, int>) {

    /** The value at key; INCR counts a missing key from 0. */
    function Count(key: string): int {
      if key in values then values[key] else 0
    }

    /** INCR key. */
    function Incr(key: string): Redis {
      Redis(values[key := Count(key) + 1], expiry)
    }

    /** EXPIRE key ttl: a missing key is left alone. */
    function Expire(key: string, ttl: int): Redis {
      if key in values then Redis(values, expiry[key := ttl]) else this
    }

    /** SET key value EX ttl. */
    function Set(key: string, v: int, ttl: int): Redis {
      Redis(values[key := v], expiry[key := ttl])
    }
  }

  const Empty := Redis(map[], map[])

  /** The connection to Redis: its state changes in place with each command. */
  class Store {
    var values: map<string, int>
    var expiry: map<string, int>

    function State(): Redis
      reads this
    {
      Redis(values, expiry)
    }

    constructor()
      ensures State() == Empty
    {
      values, expiry := map[], map[];
    }

    method Incr(key: string, fails: bool) returns (count: int, ok: bool)
      modifies this
      ensures ok == !fails
      ensures fails ==> count == 0 && State() == old(State())
      ensures !fails ==> count == old(State()).Count(key) + 1 && State() == old(State()).Incr(key)
    {
      if fails {
        return 0, false;
      }
      count := State().Count(key) + 1;
      values := values[key := count];
      ok := true;
    }

    method Expire(key: string, ttl: int, fails: bool)
      modifies this
      ensures fails ==> State() == old(State())
      ensures !fails ==> State() == old(State()).Expire(key, ttl)
    {
      if !fails && key in values {
        expiry := expiry[key := ttl];
      }
    }

    method Get(key: string, fails: bool) returns (v: Option<int>)
      ensures v == if !fails && key in values then Some(values[key]) else None
    {
      v := if !fails && key in values then Some(values[key]) else None;
    }

    method Set(key: string, v: int, ttl: int, fails: bool)
      modifies this
      ensures fails ==> State() == old(State())
      ensures !fails ==> State() == old(State()).Set(key, v, ttl)
    {
      if !fails {
        values := values[key := v];
        expiry := expiry[key := ttl];
      }
    }
  }

  /** The full key of a cache entry: namespace, ":" and the key. */
  function FullKey(namespace: string, key: string): string {
    namespace + ":" + key
  }

  /** What `IncrementCache` does: INCR then EXPIRE (its error ignored); a failed INCR returns 0 and stops. */
  function IncrementCacheSpec(r: Redis, namespace: string, key: string, ttl: int, fails: bool): (Redis, int) {
    var k := FullKey(namespace, key);
    if fails then (r, 0) else (r.Incr(k).Expire(k, ttl), r.Count(k) + 1)
  }

  /**
    A call adds exactly one to the counter at namespace:key, returns the new count and
    refreshes the key's time-to-live on every call; no other key changes; a failed call
    changes nothing and returns 0.
  */
  lemma IncrementCacheCounts(r: Redis, namespace: string, key: string, ttl: int, fails: bool)
    ensures var (r', count) := IncrementCacheSpec(r, namespace, key, ttl, fails);
      var k := FullKey(namespace, key);
      && (fails ==> r' == r && count == 0)
      && (!fails ==> count == r.Count(k) + 1 && r'.Count(k) == count && k in r'.expiry && r'.expiry[k] == ttl)
      && (forall other :: other != k ==> r'.Count(other) == r.Count(other))
      && (forall other :: other != k && other in r.expiry ==> other in r'.expiry && r'.expiry[other] == r.expiry[other])
  {
  }

  /** `IncrementCache(namespace, key, ttl)`. */
  method IncrementCache(store: Store, namespace: string, key: string, ttl: int, fails: bool) returns (count: int, ok: bool)
    modifies store
    ensures ok == !fails
    ensures (store.State(), count) == IncrementCacheSpec(old(store.State()), namespace, key, ttl, fails)
  {
    var k := FullKey(namespace, key);
    count, ok := store.Incr(k, fails);
    if !ok {
      return 0, false;
    }
    store.Expire(k, ttl, false);
  }

  /** `GetCache(prefix, id, &dest)`: the cached number, None on a miss or an error. */
  method GetCache(store: Store, prefix: string, id: string, fails: bool) returns (v: Option<int>)
    ensures v == if !fails && FullKey(prefix, id) in store.values then Some(store.values[FullKey(prefix, id)]) else None
  {
    v := store.Get(FullKey(prefix, id), fails);
  }

  /** `SetCache(prefix, id, data, ttl)`. */
  method SetCache(store: Store, prefix: string, id: string, v: int, ttl: int, fails: bool)
    modifies store
    ensures fails ==> store.State() == old(store.State())
    ensures !fails ==> store.State() == old(store.State()).Set(FullKey(prefix, id), v, ttl)
  {
    store.Set(FullKey(prefix, id), v, ttl, fails);
  }
}
