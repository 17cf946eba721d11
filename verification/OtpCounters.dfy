/** The per-phone send and verify counters that `OTPHandler` keeps in the cache. */
module OtpCounters {
  import opened Results
  import opened TtlCache
  import opened Windows

  const RATE_TTL := 3600.0
  const MAX_VERIFY_ATTEMPTS := 5
  const VERIFY_LOCKOUT_TTL := 600.0

  predicate Reached(store: Store, key: Key, max: int, now: real) {
    Live(store, key, now) && store[key].value >= max
  }

  /** `incr`, and on a missing key `set` to one; the two read the clock separately. */
  function Bumped(store: Store, key: Key, ttl: real, tIncr: real, tSet: real): Store {
    if Live(store, key, tIncr)
    then store[key := store[key].(value := store[key].value + 1)]
    else store[key := Entry(1, tSet + ttl)]
  }

  class OtpHandler {
    const cache: Cache
    const rateLimitMax: int

    constructor (cache: Cache, rateLimitMax: int)
      ensures this.cache == cache && this.rateLimitMax == rateLimitMax
    {
      this.cache := cache;
      this.rateLimitMax := rateLimitMax;
    }

    method IsRateLimited(phone: string, now: real) returns (limited: bool)
      ensures limited == Reached(cache.store, OtpRate(phone), rateLimitMax, now)
      ensures limited <==> Live(cache.store, OtpRate(phone), now) && cache.store[OtpRate(phone)].value >= rateLimitMax
    {
      var count := cache.Get(OtpRate(phone), now);
      limited := count.Some? && count.value >= rateLimitMax;
    }

    method IncrementRate(phone: string, tIncr: real, tSet: real)
      modifies cache
      ensures cache.store == Bumped(old(cache.store), OtpRate(phone), RATE_TTL, tIncr, tSet)
      ensures var key, was := OtpRate(phone), old(cache.store);
              if Live(was, key, tIncr) then cache.store == was[key := Entry(was[key].value + 1, was[key].deadline)]
              else cache.store == was[key := Entry(1, tSet + 3600.0)]
    {
      var found := cache.Incr(OtpRate(phone), tIncr);
      if !found {
        cache.Set(OtpRate(phone), 1, RATE_TTL, tSet);
      }
    }

    method IsVerifyRateLimited(phone: string, now: real) returns (limited: bool)
      ensures limited == Reached(cache.store, OtpVerify(phone), MAX_VERIFY_ATTEMPTS, now)
      ensures limited <==> Live(cache.store, OtpVerify(phone), now) && cache.store[OtpVerify(phone)].value >= 5
    {
      var count := cache.Get(OtpVerify(phone), now);
      limited := count.Some? && count.value >= MAX_VERIFY_ATTEMPTS;
    }

    method IncrementVerifyAttempts(phone: string, tIncr: real, tSet: real)
      modifies cache
      ensures cache.store == Bumped(old(cache.store), OtpVerify(phone), VERIFY_LOCKOUT_TTL, tIncr, tSet)
      ensures var key, was := OtpVerify(phone), old(cache.store);
              if Live(was, key, tIncr) then cache.store == was[key := Entry(was[key].value + 1, was[key].deadline)]
              else cache.store == was[key := Entry(1, tSet + 600.0)]
    {
      var found := cache.Incr(OtpVerify(phone), tIncr);
      if !found {
        cache.Set(OtpVerify(phone), 1, VERIFY_LOCKOUT_TTL, tSet);
      }
    }

    method ClearVerifyAttempts(phone: string)
      modifies cache
      ensures cache.store == old(cache.store) - {OtpVerify(phone)}
    {
      cache.Delete(OtpVerify(phone));
    }
  }

  /** The entry under `key` is exactly the last anchored window of the recorded instants. */
  ghost predicate Tracks(store: Store, key: Key, ts: seq<real>, ttl: real) {
    if ts == [] then key !in store
    else key in store && store[key] == Entry(|ts| - LastStart(ts, ttl), ts[LastStart(ts, ttl)] + ttl)
  }

  /** The instant a bump is recorded at: that of the `incr`, or of the `set` which opens a window. */
  function BumpedAt(store: Store, key: Key, tIncr: real, tSet: real): real {
    if Live(store, key, tIncr) then tIncr else tSet
  }

  lemma BumpTracks(store: Store, key: Key, ts: seq<real>, ttl: real, tIncr: real, tSet: real)
    requires Tracks(store, key, ts, ttl) && tIncr <= tSet && ttl > 0.0
    ensures var us := ts + [BumpedAt(store, key, tIncr, tSet)];
            && Tracks(Bumped(store, key, ttl, tIncr, tSet), key, us, ttl)
            && |LastWindow(us, ttl)| == Count(store, key, tIncr) + 1
  {
    var us := ts + [BumpedAt(store, key, tIncr, tSet)];
    assert us[..|us| - 1] == ts;
  }

  /** `Tracks`, for instants recorded in order up to `clock` with no window above `cap`. */
  ghost predicate Mirrors(store: Store, key: Key, ts: seq<real>, ttl: real, cap: int, clock: real) {
    && Ascending(ts)
    && (forall i | 0 <= i < |ts| :: ts[i] <= clock)
    && Tracks(store, key, ts, ttl)
    && Capped(ts, ttl, cap)
  }

  lemma BumpMirrors(store: Store, key: Key, ts: seq<real>, ttl: real, cap: int, clock: real, tIncr: real, tSet: real)
    requires Mirrors(store, key, ts, ttl, cap, clock) && ttl > 0.0
    requires clock <= tIncr <= tSet && Count(store, key, tIncr) < cap
    ensures Mirrors(Bumped(store, key, ttl, tIncr, tSet), key, ts + [BumpedAt(store, key, tIncr, tSet)], ttl, cap, tSet)
  {
    BumpTracks(store, key, ts, ttl, tIncr, tSet);
    CappedPush(ts, BumpedAt(store, key, tIncr, tSet), ttl, cap);
  }

  /** Time passes and the entry stays as it is. */
  lemma MirrorsLater(store: Store, store': Store, key: Key, ts: seq<real>, ttl: real, cap: int, clock: real,
                     clock': real)
    requires Mirrors(store, key, ts, ttl, cap, clock) && clock <= clock'
    requires (key in store' <==> key in store) && (key in store ==> store'[key] == store[key])
    ensures Mirrors(store', key, ts, ttl, cap, clock')
  {
  }

  /** A live counter is the size of the current window, an absent one means no window is current. */
  lemma CountIsWindow(store: Store, key: Key, ts: seq<real>, ttl: real, now: real)
    requires Tracks(store, key, ts, ttl)
    ensures Live(store, key, now) <==> ts != [] && now < ts[LastStart(ts, ttl)] + ttl
    ensures Live(store, key, now) ==> store[key].value == |LastWindow(ts, ttl)|
  {
  }
}
