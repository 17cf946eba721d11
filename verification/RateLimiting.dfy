/**
 The Django limiter, whose window restarts at each accepted request, and the FastAPI limiter,
 which counts in clock-aligned minutes and hours. One request of a client is decided at a time.
 */
module RateLimiting {
  import opened Results
  import opened TtlCache
  import opened Windows

  // ---------- Django: RateLimitMiddleware ----------

  class RateLimitMiddleware {
    const cache: Cache
    const rateLimitRequests: int
    const rateLimitWindow: real

    constructor (cache: Cache, rateLimitRequests: int, rateLimitWindow: real)
      ensures this.cache == cache
      ensures this.rateLimitRequests == rateLimitRequests && this.rateLimitWindow == rateLimitWindow
    {
      this.cache := cache;
      this.rateLimitRequests := rateLimitRequests;
      this.rateLimitWindow := rateLimitWindow;
    }

    /** The counter is read at `tGet` and, when the request passes, written at `tSet`. */
    method IsRateLimited(client: string, tGet: real, tSet: real) returns (limited: bool)
      modifies cache
      ensures limited == (Count(old(cache.store), Requests(client), tGet) >= rateLimitRequests)
      ensures cache.store == if limited then old(cache.store)
                             else Accept(old(cache.store), client, rateLimitWindow, tGet, tSet)
      ensures !limited ==>
                var n := Count(old(cache.store), Requests(client), tGet);
                cache.store == old(cache.store)[Requests(client) := Entry(n + 1, tSet + rateLimitWindow)]
    {
      var current := cache.Get(Requests(client), tGet);
      var requests := if current.Some? then current.value else 0;
      if requests >= rateLimitRequests {
        return true;
      }
      cache.Set(Requests(client), requests + 1, rateLimitWindow, tSet);
      limited := false;
    }
  }

  function Accept(store: Store, client: string, window: real, tGet: real, tSet: real): Store {
    store[Requests(client) := Entry(Count(store, Requests(client), tGet) + 1, tSet + window)]
  }

  datatype Request = Request(client: string, tGet: real, tSet: real)

  /** `accepted`: the accepted requests of each client, in order. */
  datatype Gate = Gate(store: Store, accepted: map<string, seq<Request>>, clock: real)

  function Accepted(g: Gate, client: string): seq<Request> {
    if client in g.accepted then g.accepted[client] else []
  }

  function Decide(limit: int, window: real, g: Gate, r: Request): Gate {
    if Count(g.store, Requests(r.client), r.tGet) >= limit then g.(clock := r.tGet)
    else Gate(Accept(g.store, r.client, window, r.tGet, r.tSet),
              g.accepted[r.client := Accepted(g, r.client) + [r]], r.tSet)
  }

  function Serve(limit: int, window: real, requests: seq<Request>): Gate {
    if requests == [] then Gate(map[], map[], 0.0)
    else Decide(limit, window, Serve(limit, window, requests[..|requests| - 1]), requests[|requests| - 1])
  }

  predicate InOrder(limit: int, window: real, requests: seq<Request>) {
    requests == [] ||
    var n := |requests| - 1;
    && InOrder(limit, window, requests[..n])
    && Serve(limit, window, requests[..n]).clock <= requests[n].tGet <= requests[n].tSet
  }

  function CountedAt(rs: seq<Request>): (ts: seq<real>)
    ensures |ts| == |rs|
  {
    seq(|rs|, i requires 0 <= i < |rs| => rs[i].tSet)
  }

  /** How many of the latest accepted requests each came less than a window after the one before. */
  function Burst(rs: seq<Request>, window: real): (b: nat)
    ensures b <= |rs| && (rs != [] ==> b > 0)
  {
    if rs == [] then 0
    else
      var n := |rs| - 1;
      if n > 0 && rs[n].tGet < rs[n - 1].tSet + window then Burst(rs[..n], window) + 1 else 1
  }

  /** Inside the burst every request came less than a window after the one before, and its first did not. */
  lemma {:induction false} BurstMeans(rs: seq<Request>, window: real)
    requires rs != []
    ensures var first := |rs| - Burst(rs, window);
            && (forall i | first < i < |rs| :: rs[i].tGet < rs[i - 1].tSet + window)
            && (first > 0 ==> rs[first].tGet >= rs[first - 1].tSet + window)
  {
    var n := |rs| - 1;
    if n > 0 && rs[n].tGet < rs[n - 1].tSet + window {
      BurstMeans(rs[..n], window);
    }
  }

  ghost predicate BurstsCapped(rs: seq<Request>, window: real, cap: int) {
    rs == [] || (Burst(rs, window) <= cap && BurstsCapped(rs[..|rs| - 1], window, cap))
  }

  ghost predicate Ordered(rs: seq<Request>, clock: real) {
    rs == [] ||
    var r := rs[|rs| - 1];
    r.tGet <= r.tSet <= clock && Ordered(rs[..|rs| - 1], r.tGet)
  }

  ghost predicate GateInvariant(limit: int, window: real, g: Gate, client: string) {
    var rs := Accepted(g, client);
    && Ordered(rs, g.clock)
    && BurstsCapped(rs, window, limit)
    && (if rs == [] then Requests(client) !in g.store
        else Requests(client) in g.store
             && g.store[Requests(client)] == Entry(Burst(rs, window), rs[|rs| - 1].tSet + window))
  }

  lemma OrderedLater(rs: seq<Request>, clock: real, clock': real)
    requires Ordered(rs, clock) && clock <= clock'
    ensures Ordered(rs, clock')
  {
  }

  lemma AcceptKeeps(rs: seq<Request>, clock: real, window: real, cap: int, r: Request)
    requires Ordered(rs, clock) && clock <= r.tGet <= r.tSet
    ensures Ordered(rs + [r], r.tSet)
    ensures Burst(rs + [r], window) == if rs != [] && r.tGet < rs[|rs| - 1].tSet + window then Burst(rs, window) + 1
                                       else 1
    ensures BurstsCapped(rs, window, cap) && Burst(rs + [r], window) <= cap ==> BurstsCapped(rs + [r], window, cap)
  {
    assert (rs + [r])[..|rs|] == rs;
    OrderedLater(rs, clock, r.tGet);
  }

  lemma AcceptedKeeps(limit: int, window: real, g: Gate, r: Request)
    requires GateInvariant(limit, window, g, r.client) && g.clock <= r.tGet <= r.tSet
    requires Count(g.store, Requests(r.client), r.tGet) < limit
    ensures GateInvariant(limit, window, Decide(limit, window, g, r), r.client)
  {
    var rs := Accepted(g, r.client);
    AcceptKeeps(rs, g.clock, window, limit, r);
    assert Accepted(Decide(limit, window, g, r), r.client) == rs + [r];
    assert Count(g.store, Requests(r.client), r.tGet) + 1 == Burst(rs + [r], window);
  }

  lemma OtherwiseKeeps(limit: int, window: real, g: Gate, r: Request, client: string)
    requires GateInvariant(limit, window, g, client) && g.clock <= r.tGet <= r.tSet
    requires r.client != client || Count(g.store, Requests(r.client), r.tGet) >= limit
    ensures GateInvariant(limit, window, Decide(limit, window, g, r), client)
  {
    OrderedLater(Accepted(g, client), g.clock, Decide(limit, window, g, r).clock);
  }

  lemma {:induction false} ServeKeeps(limit: int, window: real, requests: seq<Request>, client: string)
    requires InOrder(limit, window, requests)
    ensures GateInvariant(limit, window, Serve(limit, window, requests), client)
  {
    if requests != [] {
      var n := |requests| - 1;
      ServeKeeps(limit, window, requests[..n], client);
      var g := Serve(limit, window, requests[..n]);
      var r := requests[n];
      if r.client == client && Count(g.store, Requests(client), r.tGet) < limit {
        AcceptedKeeps(limit, window, g, r);
      } else {
        OtherwiseKeeps(limit, window, g, r, client);
      }
    }
  }

  lemma {:induction false} MissedBefore(rs: seq<Request>, clock: real, span: Span)
    requires Ordered(rs, clock) && (rs == [] || rs[|rs| - 1].tSet < span.from)
    ensures CountIn(CountedAt(rs), span) == 0
  {
    if rs != [] {
      var n := |rs| - 1;
      assert CountedAt(rs)[..n] == CountedAt(rs[..n]);
      MissedBefore(rs[..n], rs[n].tGet, span);
    }
  }

  /** A span no longer than the window that has the last request meets only the last burst. */
  lemma {:induction false} SpanInBurst(rs: seq<Request>, window: real, span: Span, clock: real)
    requires rs != [] && Ordered(rs, clock) && span.FromUntil? && span.to <= span.from + window
    requires span.Has(rs[|rs| - 1].tSet)
    ensures CountIn(CountedAt(rs), span) <= Burst(rs, window)
  {
    var n := |rs| - 1;
    assert CountedAt(rs)[..n] == CountedAt(rs[..n]);
    if n > 0 && span.Has(rs[n - 1].tSet) {
      SpanInBurst(rs[..n], window, span, rs[n].tGet);
    } else {
      MissedBefore(rs[..n], rs[n].tGet, span);
    }
  }

  /** Every half-open span of `window` seconds holds at most `limit` accepted requests of a client. */
  lemma {:induction false} WindowCap(limit: int, window: real, rs: seq<Request>, clock: real, from: real)
    requires Ordered(rs, clock) && BurstsCapped(rs, window, limit)
    ensures CountIn(CountedAt(rs), FromUntil(from, from + window)) <= Max(0, limit)
  {
    if rs != [] {
      var n := |rs| - 1;
      var span := FromUntil(from, from + window);
      assert CountedAt(rs)[..n] == CountedAt(rs[..n]);
      if span.Has(rs[n].tSet) {
        SpanInBurst(rs, window, span, clock);
      } else {
        WindowCap(limit, window, rs[..n], rs[n].tGet, from);
      }
    }
  }

  lemma AcceptedPerWindow(limit: int, window: real, requests: seq<Request>, client: string, from: real)
    requires InOrder(limit, window, requests)
    ensures CountIn(CountedAt(Accepted(Serve(limit, window, requests), client)), FromUntil(from, from + window))
         <= Max(0, limit)
  {
    ServeKeeps(limit, window, requests, client);
    var g := Serve(limit, window, requests);
    WindowCap(limit, window, Accepted(g, client), g.clock, from);
  }

  /**
   A request is refused exactly when the limit is below one, or the client's current burst has
   reached it and less than a window has passed since its last accepted request. Refused requests
   leave no trace, so a full window after the last accepted one the client is let in again.
   */
  lemma RefusedExactly(limit: int, window: real, requests: seq<Request>, r: Request)
    requires InOrder(limit, window, requests + [r])
    ensures var rs := Accepted(Serve(limit, window, requests), r.client);
            var refused := Accepted(Serve(limit, window, requests + [r]), r.client) == rs;
            && (refused <==> limit <= 0
                             || (rs != [] && Burst(rs, window) >= limit && r.tGet < rs[|rs| - 1].tSet + window))
            && (!refused ==> Accepted(Serve(limit, window, requests + [r]), r.client) == rs + [r])
  {
    assert (requests + [r])[..|requests|] == requests;
    ServeKeeps(limit, window, requests, r.client);
    var rs := Accepted(Serve(limit, window, requests), r.client);
    assert |rs + [r]| != |rs|;
  }

  /** A request every half window, starting at zero. */
  function SteadyAt(window: real, n: nat): real {
    if n == 0 then 0.0 else SteadyAt(window, n - 1) + window / 2.0
  }

  function SteadyRequest(client: string, window: real, n: nat): Request {
    Request(client, SteadyAt(window, n), SteadyAt(window, n))
  }

  function Steady(client: string, window: real, n: nat): (rs: seq<Request>)
    ensures |rs| == n
  {
    if n == 0 then [] else Steady(client, window, n - 1) + [SteadyRequest(client, window, n - 1)]
  }

  lemma InOrderPush(limit: int, window: real, rs: seq<Request>, r: Request)
    requires InOrder(limit, window, rs) && Serve(limit, window, rs).clock <= r.tGet <= r.tSet
    ensures InOrder(limit, window, rs + [r])
    ensures Serve(limit, window, rs + [r]) == Decide(limit, window, Serve(limit, window, rs), r)
  {
    assert (rs + [r])[..|rs + [r]| - 1] == rs;
  }

  ghost predicate AfterSteady(window: real, client: string, n: nat, g: Gate) {
    && Accepted(g, client) == Steady(client, window, n)
    && g.clock <= SteadyAt(window, n)
    && (if n == 0 then Requests(client) !in g.store
        else Requests(client) in g.store
             && g.store[Requests(client)] == Entry(n, SteadyAt(window, n - 1) + window))
  }

  lemma SteadyStep(limit: int, window: real, client: string, n: nat, g: Gate)
    requires AfterSteady(window, client, n, g) && n < limit && window > 0.0
    ensures AfterSteady(window, client, n + 1, Decide(limit, window, g, SteadyRequest(client, window, n)))
  {
  }

  lemma SteadyOneMore(limit: int, client: string, window: real, n: nat, rs: seq<Request>, r: Request)
    requires window > 0.0 && n < limit && r == SteadyRequest(client, window, n)
    requires InOrder(limit, window, rs) && AfterSteady(window, client, n, Serve(limit, window, rs))
    ensures InOrder(limit, window, rs + [r])
    ensures AfterSteady(window, client, n + 1, Serve(limit, window, rs + [r]))
  {
    InOrderPush(limit, window, rs, r);
    SteadyStep(limit, window, client, n, Serve(limit, window, rs));
  }

  lemma SteadyStart(limit: int, client: string, window: real)
    ensures InOrder(limit, window, Steady(client, window, 0))
    ensures AfterSteady(window, client, 0, Serve(limit, window, Steady(client, window, 0)))
  {
  }

  lemma {:induction false} SteadyAccepted(limit: int, client: string, window: real, n: nat)
    requires window > 0.0 && n <= limit
    ensures InOrder(limit, window, Steady(client, window, n))
    ensures AfterSteady(window, client, n, Serve(limit, window, Steady(client, window, n)))
  {
    if n == 0 {
      SteadyStart(limit, client, window);
    } else {
      SteadyAccepted(limit, client, window, n - 1);
      SteadyOneMore(limit, client, window, n - 1, Steady(client, window, n - 1), SteadyRequest(client, window, n - 1));
      assert Steady(client, window, n) == Steady(client, window, n - 1) + [SteadyRequest(client, window, n - 1)];
    }
  }

  lemma {:induction false} SteadyCount(client: string, window: real, n: nat, from: real)
    requires window > 0.0
    ensures from > SteadyAt(window, n) ==> CountIn(CountedAt(Steady(client, window, n)),
                                                   FromUntil(from, from + window)) == 0
    ensures n >= 2 && from == SteadyAt(window, n - 2) ==>
              CountIn(CountedAt(Steady(client, window, n)), FromUntil(from, from + window)) <= 2
    ensures n >= 1 && from == SteadyAt(window, n - 1) ==>
              CountIn(CountedAt(Steady(client, window, n)), FromUntil(from, from + window)) <= 1
    ensures from == SteadyAt(window, n) ==> CountIn(CountedAt(Steady(client, window, n)),
                                                    FromUntil(from, from + window)) == 0
  {
    if n > 0 {
      SteadyCount(client, window, n - 1, from);
      assert CountedAt(Steady(client, window, n))[..n - 1] == CountedAt(Steady(client, window, n - 1));
    }
  }

  lemma SteadyTurnedAway(limit: int, window: real, client: string, n: nat, g: Gate)
    requires AfterSteady(window, client, n, g) && n >= limit && n > 0 && window > 0.0
    ensures Decide(limit, window, g, SteadyRequest(client, window, n)).accepted == g.accepted
  {
  }

  lemma SteadyRefusal(limit: int, window: real, client: string, n: nat, rs: seq<Request>, r: Request)
    requires window > 0.0 && n >= limit && n > 0 && r == SteadyRequest(client, window, n)
    requires InOrder(limit, window, rs) && AfterSteady(window, client, n, Serve(limit, window, rs))
    ensures InOrder(limit, window, rs + [r])
    ensures Accepted(Serve(limit, window, rs + [r]), client) == Steady(client, window, n)
  {
    InOrderPush(limit, window, rs, r);
    SteadyTurnedAway(limit, window, client, n, Serve(limit, window, rs));
  }

  /**
   The cap is an upper bound, not an entitlement: a client that keeps asking every half window is
   refused once it has been let in `limit` times, with at most two of those in the window before.
   */
  lemma SteadyClientRefused(limit: nat, client: string, window: real)
    requires window > 0.0 && limit >= 2
    ensures var rs, r := Steady(client, window, limit), SteadyRequest(client, window, limit);
            && InOrder(limit, window, rs + [r])
            && Accepted(Serve(limit, window, rs + [r]), client) == rs && |rs| == limit
            && CountIn(CountedAt(rs), FromUntil(r.tGet - window, r.tGet)) <= 2
  {
    var rs, r := Steady(client, window, limit), SteadyRequest(client, window, limit);
    SteadyAccepted(limit, client, window, limit);
    SteadyRefusal(limit, window, client, limit, rs, r);
    SteadyGap(window, limit);
    SteadyCount(client, window, limit, r.tGet - window);
  }

  lemma SteadyGap(window: real, n: nat)
    requires n >= 2
    ensures SteadyAt(window, n) - window == SteadyAt(window, n - 2)
    ensures SteadyAt(window, n) - window / 2.0 == SteadyAt(window, n - 1)
  {
  }

  // ---------- FastAPI: FastAPIRateLimitMiddleware ----------

  datatype Caps = Caps(perMinute: int, perHour: int)

  datatype Unit = Minute | Hour

  /**
   A request and the clock readings taken while it is decided: the one that picks the buckets, then
   those of the cache for each `get` and each `set`.
   */
  datatype Arrival = Arrival(client: string, now: real, minuteGet: real, hourGet: real, minuteSet: real,
                             hourSet: real) {
    /** Decided in less than a minute. */
    predicate Prompt() {
      0.0 <= now <= minuteGet <= hourGet <= minuteSet <= hourSet < now + 60.0
    }

    function GetAt(u: Unit): real {
      if u == Minute then minuteGet else hourGet
    }

    function SetAt(u: Unit): real {
      if u == Minute then minuteSet else hourSet
    }
  }

  function Width(u: Unit): real {
    if u == Minute then 60.0 else 3600.0
  }

  function Bucket(u: Unit, now: real): int {
    if u == Minute then now.Floor / 60 else now.Floor / 3600
  }

  function BucketKey(u: Unit, client: string, b: int): Key {
    if u == Minute then MinuteRequests(client, b) else HourRequests(client, b)
  }

  function BucketSpan(u: Unit, b: int): Span {
    if u == Minute then FromUntil((60 * b) as real, (60 * b + 60) as real)
    else FromUntil((3600 * b) as real, (3600 * b + 3600) as real)
  }

  function CapOf(caps: Caps, u: Unit): int {
    if u == Minute then caps.perMinute else caps.perHour
  }

  function Found(store: Store, u: Unit, a: Arrival): int {
    Count(store, BucketKey(u, a.client, Bucket(u, a.now)), a.GetAt(u))
  }

  predicate Full(caps: Caps, store: Store, a: Arrival) {
    Found(store, Minute, a) >= caps.perMinute || Found(store, Hour, a) >= caps.perHour
  }

  function Counted(store: Store, u: Unit, a: Arrival): Store {
    store[BucketKey(u, a.client, Bucket(u, a.now)) := Entry(Found(store, u, a) + 1, a.SetAt(u) + 2.0 * Width(u))]
  }

  class FastAPIRateLimitMiddleware {
    const cache: Cache
    const caps: Caps

    constructor (cache: Cache, caps: Caps)
      ensures this.cache == cache && this.caps == caps
    {
      this.cache := cache;
      this.caps := caps;
    }

    method IsRateLimited(a: Arrival) returns (limited: bool)
      modifies cache
      ensures limited == Full(caps, old(cache.store), a)
      ensures cache.store == if limited then old(cache.store)
                             else Counted(Counted(old(cache.store), Minute, a), Hour, a)
      ensures var minute, hour := MinuteRequests(a.client, a.now.Floor / 60),
                                  HourRequests(a.client, a.now.Floor / 3600);
              var m, h := Count(old(cache.store), minute, a.minuteGet), Count(old(cache.store), hour, a.hourGet);
              && (limited <==> m >= caps.perMinute || h >= caps.perHour)
              && (!limited ==> cache.store == old(cache.store)[minute := Entry(m + 1, a.minuteSet + 120.0)]
                                              [hour := Entry(h + 1, a.hourSet + 7200.0)])
    {
      var currentTime := a.now.Floor;
      var minuteKey := MinuteRequests(a.client, currentTime / 60);
      var minuteFound := cache.Get(minuteKey, a.minuteGet);
      var minuteRequests := if minuteFound.Some? then minuteFound.value else 0;
      if minuteRequests >= caps.perMinute {
        return true;
      }
      var hourKey := HourRequests(a.client, currentTime / 3600);
      var hourFound := cache.Get(hourKey, a.hourGet);
      var hourRequests := if hourFound.Some? then hourFound.value else 0;
      if hourRequests >= caps.perHour {
        return true;
      }
      cache.Set(minuteKey, minuteRequests + 1, 120.0, a.minuteSet);
      cache.Set(hourKey, hourRequests + 1, 7200.0, a.hourSet);
      limited := false;
    }
  }

  datatype Door = Door(store: Store, entered: map<string, seq<real>>, clock: real)

  function LetIn(d: Door, client: string): seq<real> {
    if client in d.entered then d.entered[client] else []
  }

  function Admit(caps: Caps, d: Door, a: Arrival): Door {
    if Full(caps, d.store, a) then d.(clock := a.now)
    else Door(Counted(Counted(d.store, Minute, a), Hour, a), d.entered[a.client := LetIn(d, a.client) + [a.now]], a.now)
  }

  function AdmitAll(caps: Caps, arrivals: seq<Arrival>): Door {
    if arrivals == [] then Door(map[], map[], 0.0)
    else Admit(caps, AdmitAll(caps, arrivals[..|arrivals| - 1]), arrivals[|arrivals| - 1])
  }

  /** The wall clock never runs backwards and is past the epoch; each decision is prompt and ends before the next. */
  predicate Chronological(arrivals: seq<Arrival>) {
    && (forall i | 0 <= i < |arrivals| :: arrivals[i].Prompt())
    && (forall i, j | 0 <= i < j < |arrivals| :: arrivals[i].hourSet <= arrivals[j].now)
  }

  lemma BucketHas(u: Unit, now: real, b: int)
    ensures Bucket(u, now) == b <==> BucketSpan(u, b).Has(now)
  {
  }

  /**
   The cached counter of a current or future bucket is its number of accepted requests, and outlives
   the bucket by at least a minute.
   */
  ghost predicate BucketAgrees(caps: Caps, d: Door, u: Unit, client: string, b: int) {
    var n := CountIn(LetIn(d, client), BucketSpan(u, b));
    var key := BucketKey(u, client, b);
    && n <= Max(0, CapOf(caps, u))
    && (b >= Bucket(u, d.clock) ==>
          if n == 0 then key !in d.store
          else key in d.store && d.store[key].value == n && d.store[key].deadline >= BucketSpan(u, b).to + 60.0)
  }

  /** Where the two increments of an accepted request land. */
  lemma CountedBoth(store: Store, a: Arrival, u: Unit, client: string, b: int)
    ensures var store' := Counted(Counted(store, Minute, a), Hour, a);
            var key := BucketKey(u, client, b);
            if client == a.client && b == Bucket(u, a.now)
            then key in store' && store'[key] == Entry(Found(store, u, a) + 1, a.SetAt(u) + 2.0 * Width(u))
            else (key in store' <==> key in store) && (key in store ==> store'[key] == store[key])
  {
  }

  lemma FoundExact(caps: Caps, d: Door, a: Arrival, u: Unit)
    requires BucketAgrees(caps, d, u, a.client, Bucket(u, a.now)) && d.clock <= a.now && a.Prompt()
    ensures Found(d.store, u, a) == CountIn(LetIn(d, a.client), BucketSpan(u, Bucket(u, a.now)))
  {
    BucketHas(u, a.now, Bucket(u, a.now));
    assert Bucket(u, d.clock) <= Bucket(u, a.now);
  }

  lemma LetInKeeps(caps: Caps, d: Door, a: Arrival, u: Unit, b: int)
    requires BucketAgrees(caps, d, u, a.client, b) && d.clock <= a.now && a.Prompt() && !Full(caps, d.store, a)
    ensures BucketAgrees(caps, Admit(caps, d, a), u, a.client, b)
  {
    BucketHas(u, a.now, b);
    CountInPush(LetIn(d, a.client), a.now, BucketSpan(u, b));
    CountedBoth(d.store, a, u, a.client, b);
    assert LetIn(Admit(caps, d, a), a.client) == LetIn(d, a.client) + [a.now];
    assert Bucket(u, d.clock) <= Bucket(u, a.now);
    if b == Bucket(u, a.now) {
      FoundExact(caps, d, a, u);
    }
  }

  lemma AdmitKeeps(caps: Caps, d: Door, a: Arrival, u: Unit, client: string, b: int)
    requires BucketAgrees(caps, d, u, client, b) && d.clock <= a.now && a.Prompt()
    ensures BucketAgrees(caps, Admit(caps, d, a), u, client, b)
  {
    if client == a.client && !Full(caps, d.store, a) {
      LetInKeeps(caps, d, a, u, b);
    } else {
      assert Bucket(u, d.clock) <= Bucket(u, a.now);
      CountedBoth(d.store, a, u, client, b);
      assert LetIn(Admit(caps, d, a), client) == LetIn(d, client);
    }
  }

  lemma {:induction false} AdmitAllAgrees(caps: Caps, arrivals: seq<Arrival>, u: Unit, client: string, b: int)
    requires Chronological(arrivals)
    ensures BucketAgrees(caps, AdmitAll(caps, arrivals), u, client, b)
    ensures AdmitAll(caps, arrivals).clock == if arrivals == [] then 0.0 else arrivals[|arrivals| - 1].now
  {
    if arrivals != [] {
      var n := |arrivals| - 1;
      AdmitAllAgrees(caps, arrivals[..n], u, client, b);
      AdmitKeeps(caps, AdmitAll(caps, arrivals[..n]), arrivals[n], u, client, b);
    }
  }

  ghost predicate Until(arrivals: seq<Arrival>, now: real) {
    Chronological(arrivals) && 0.0 <= now && (forall i | 0 <= i < |arrivals| :: arrivals[i].hourSet <= now)
  }

  /** What a request finds in the cache are the numbers of accepted requests in its aligned minute and hour. */
  lemma CountersExact(caps: Caps, arrivals: seq<Arrival>, u: Unit, a: Arrival)
    requires Until(arrivals, a.now) && a.Prompt()
    ensures var d := AdmitAll(caps, arrivals);
            Found(d.store, u, a) == CountIn(LetIn(d, a.client), BucketSpan(u, Bucket(u, a.now)))
  {
    AdmitAllAgrees(caps, arrivals, u, a.client, Bucket(u, a.now));
    FoundExact(caps, AdmitAll(caps, arrivals), a, u);
  }

  /** A request is let in exactly when its aligned minute and its aligned hour both have room. */
  lemma LetInExactly(caps: Caps, arrivals: seq<Arrival>, a: Arrival)
    requires Until(arrivals, a.now) && a.Prompt()
    ensures var ts := LetIn(AdmitAll(caps, arrivals), a.client);
            LetIn(AdmitAll(caps, arrivals + [a]), a.client) ==
            if CountIn(ts, BucketSpan(Minute, Bucket(Minute, a.now))) < caps.perMinute
               && CountIn(ts, BucketSpan(Hour, Bucket(Hour, a.now))) < caps.perHour
            then ts + [a.now] else ts
  {
    assert (arrivals + [a])[..|arrivals|] == arrivals;
    CountersExact(caps, arrivals, Minute, a);
    CountersExact(caps, arrivals, Hour, a);
  }

  // ---------- Bounds for any span ----------

  /** No aligned minute or hour exceeds its cap. */
  ghost predicate BucketsCapped(caps: Caps, ts: seq<real>) {
    forall u, b :: CountIn(ts, BucketSpan(u, b)) <= Max(0, CapOf(caps, u))
  }

  lemma LetInCapped(caps: Caps, arrivals: seq<Arrival>, client: string)
    requires Chronological(arrivals)
    ensures BucketsCapped(caps, LetIn(AdmitAll(caps, arrivals), client))
  {
    forall u, b ensures CountIn(LetIn(AdmitAll(caps, arrivals), client), BucketSpan(u, b)) <= Max(0, CapOf(caps, u)) {
      AdmitAllAgrees(caps, arrivals, u, client, b);
    }
  }

  lemma {:induction false} SpanMeetsTwoBuckets(ts: seq<real>, u: Unit, from: real)
    ensures var b := Bucket(u, from);
            CountIn(ts, FromUntil(from, from + Width(u)))
            <= CountIn(ts, BucketSpan(u, b)) + CountIn(ts, BucketSpan(u, b + 1))
  {
    if ts != [] {
      SpanMeetsTwoBuckets(ts[..|ts| - 1], u, from);
      BucketHas(u, from, Bucket(u, from));
    }
  }

  predicate Aligned(u: Unit, from: real) {
    from == BucketSpan(u, Bucket(u, from)).from
  }

  /** An aligned minute or hour respects its cap; any half-open span of that length holds at most twice the cap. */
  lemma SpanCap(caps: Caps, arrivals: seq<Arrival>, u: Unit, client: string, from: real)
    requires Chronological(arrivals)
    ensures var ts := LetIn(AdmitAll(caps, arrivals), client);
            CountIn(ts, FromUntil(from, from + Width(u))) <= if Aligned(u, from) then Max(0, CapOf(caps, u))
            else 2 * Max(0, CapOf(caps, u))
  {
    var ts, b := LetIn(AdmitAll(caps, arrivals), client), Bucket(u, from);
    LetInCapped(caps, arrivals, client);
    SpanMeetsTwoBuckets(ts, u, from);
    assert CountIn(ts, BucketSpan(u, b)) <= Max(0, CapOf(caps, u))
           && CountIn(ts, BucketSpan(u, b + 1)) <= Max(0, CapOf(caps, u));
    if Aligned(u, from) {
      assert FromUntil(from, from + Width(u)) == BucketSpan(u, b);
    }
  }

  lemma {:induction false} CountInWider(ts: seq<real>, span: Span, wide: Span)
    requires span.FromUntil? && wide.FromUntil? && wide.from <= span.from && span.to <= wide.to
    ensures CountIn(ts, span) <= CountIn(ts, wide)
  {
    if ts != [] {
      CountInWider(ts[..|ts| - 1], span, wide);
    }
  }

  lemma {:induction false} CountInAdjacent(ts: seq<real>, from: real, mid: real, to: real)
    requires from <= mid <= to
    ensures CountIn(ts, FromUntil(from, to)) == CountIn(ts, FromUntil(from, mid)) + CountIn(ts, FromUntil(mid, to))
  {
    if ts != [] {
      CountInAdjacent(ts[..|ts| - 1], from, mid, to);
    }
  }

  lemma {:induction false} MinutesCap(caps: Caps, ts: seq<real>, b: int, k: nat)
    requires BucketsCapped(caps, ts)
    ensures CountIn(ts, FromUntil((60 * b) as real, (60 * (b + k)) as real)) <= Max(0, caps.perMinute) * k
  {
    if k == 0 {
      CountInNone(ts, FromUntil((60 * b) as real, (60 * b) as real));
    } else {
      MinutesCap(caps, ts, b, k - 1);
      CountInAdjacent(ts, (60 * b) as real, (60 * (b + k - 1)) as real, (60 * (b + k)) as real);
      assert BucketSpan(Minute, b + k - 1) == FromUntil((60 * (b + k - 1)) as real, (60 * (b + k)) as real);
      assert CountIn(ts, BucketSpan(Minute, b + k - 1)) <= Max(0, CapOf(caps, Minute));
      assert Max(0, caps.perMinute) * k == Max(0, caps.perMinute) * (k - 1) + Max(0, caps.perMinute);
    }
  }

  // ---------- Bursts that fill a span ----------

  function Instant(client: string, t: real): Arrival {
    Arrival(client, t, t, t, t, t)
  }

  lemma UntilMore(arrivals: seq<Arrival>, client: string, now: real, n: nat, later: real)
    requires Until(arrivals, now) && now <= later
    ensures Until(arrivals + Repeat(Instant(client, now), n), later)
  {
  }

  function HourCount(ts: seq<real>, now: real): nat {
    CountIn(ts, BucketSpan(Hour, Bucket(Hour, now)))
  }

  function MinuteCount(ts: seq<real>, now: real): nat {
    CountIn(ts, BucketSpan(Minute, Bucket(Minute, now)))
  }

  /** With room in the minute, of a burst at one instant as many are let in as the hour has room for. */
  lemma {:induction false} BurstLetIn(caps: Caps, arrivals: seq<Arrival>, client: string, now: real, n: nat,
                                      ts: seq<real>)
    requires Until(arrivals, now) && LetIn(AdmitAll(caps, arrivals), client) == ts
    requires MinuteCount(ts, now) + n <= caps.perMinute && HourCount(ts, now) <= caps.perHour
    ensures LetIn(AdmitAll(caps, arrivals + Repeat(Instant(client, now), n)), client)
         == ts + Repeat(now, Min(n, caps.perHour - HourCount(ts, now)))
  {
    var a := Instant(client, now);
    if n == 0 {
      assert arrivals + Repeat(a, 0) == arrivals && ts + Repeat(now, 0) == ts;
    } else {
      BurstLetIn(caps, arrivals, client, now, n - 1, ts);
      UntilMore(arrivals, client, now, n - 1, now);
      OneMore(caps, arrivals + Repeat(a, n - 1), client, now, n, ts);
      RepeatMore(arrivals, a, n);
    }
  }

  /** The two counts, once `m` of the burst have been let in. */
  lemma CountsAfter(ts: seq<real>, now: real, m: nat)
    ensures MinuteCount(ts + Repeat(now, m), now) == MinuteCount(ts, now) + m
    ensures HourCount(ts + Repeat(now, m), now) == HourCount(ts, now) + m
  {
    BucketHas(Minute, now, Bucket(Minute, now));
    BucketHas(Hour, now, Bucket(Hour, now));
    CountInRepeat(ts, now, m, BucketSpan(Minute, Bucket(Minute, now)));
    CountInRepeat(ts, now, m, BucketSpan(Hour, Bucket(Hour, now)));
  }

  lemma OneMore(caps: Caps, before: seq<Arrival>, client: string, now: real, n: nat, ts: seq<real>)
    requires n > 0 && MinuteCount(ts, now) + n <= caps.perMinute && HourCount(ts, now) <= caps.perHour
    requires Until(before, now)
    requires LetIn(AdmitAll(caps, before), client) == ts + Repeat(now, Min(n - 1, caps.perHour - HourCount(ts, now)))
    ensures LetIn(AdmitAll(caps, before + [Instant(client, now)]), client)
         == ts + Repeat(now, Min(n, caps.perHour - HourCount(ts, now)))
  {
    var m := Min(n - 1, caps.perHour - HourCount(ts, now));
    LetInExactly(caps, before, Instant(client, now));
    CountsAfter(ts, now, m);
    RepeatMore(ts, now, m + 1);
  }

  /** The start of the span, then each full minute after it. */
  function Slot(from: real, i: nat): real {
    if i == 0 then from else (60 * (Bucket(Minute, from) + i)) as real
  }

  /** A full minute's worth of requests at each of the first `i` slots. */
  function Bursts(caps: Caps, client: string, from: real, i: nat): seq<Arrival> {
    if i == 0 then []
    else Bursts(caps, client, from, i - 1) + Repeat(Instant(client, Slot(from, i - 1)), Max(0, caps.perMinute))
  }

  /** How many slots come before the next full hour. */
  function FirstHourSlots(from: real): (k: nat)
    ensures 1 <= k <= 60
  {
    60 * (Bucket(Hour, from) + 1) - Bucket(Minute, from)
  }

  lemma SlotBuckets(from: real, i: nat)
    requires 0.0 <= from && i <= 60
    ensures 0.0 <= Slot(from, i) && (i > 0 ==> Slot(from, i - 1) < Slot(from, i))
    ensures Bucket(Minute, Slot(from, i)) == Bucket(Minute, from) + i
    ensures Bucket(Hour, Slot(from, i)) == if i < FirstHourSlots(from) then Bucket(Hour, from)
                                           else Bucket(Hour, from) + 1
  {
    BucketHas(Minute, from, Bucket(Minute, from));
    if i > 0 {
      assert Slot(from, i).Floor == 60 * (Bucket(Minute, from) + i);
    }
  }

  /** What `i` full minutes let into an hour. */
  function Filled(caps: Caps, i: nat): int {
    if i == 0 then 0 else Min(caps.perHour, Filled(caps, i - 1) + caps.perMinute)
  }

  lemma {:induction false} FilledIs(caps: Caps, i: nat)
    requires caps.perMinute >= 1 && caps.perHour >= 1
    ensures Filled(caps, i) == Min(caps.perHour, caps.perMinute * i)
  {
    if i > 0 {
      FilledIs(caps, i - 1);
      assert caps.perMinute * i == caps.perMinute * (i - 1) + caps.perMinute;
    }
  }

  function InFirstHour(from: real, i: nat): nat {
    if i < FirstHourSlots(from) then i else FirstHourSlots(from)
  }

  /** What `i` bursts leave: both hours filled as far as they go, and no later minute touched. */
  ghost predicate AfterBursts(caps: Caps, from: real, i: nat, ts: seq<real>) {
    var h, k := Bucket(Hour, from), InFirstHour(from, i);
    && |ts| == Filled(caps, k) + Filled(caps, i - k)
    && CountIn(ts, BucketSpan(Hour, h)) == Filled(caps, k)
    && CountIn(ts, BucketSpan(Hour, h + 1)) == Filled(caps, i - k)
    && (forall j | 0 <= j < |ts| :: from <= ts[j] && (i > 0 ==> ts[j] <= Slot(from, i - 1)))
    && (i == 0 ==> ts == [])
  }

  /** One more burst goes to the hour of its slot. */
  lemma BurstCounts(from: real, i: nat, ts: seq<real>, m: nat)
    requires 0.0 <= from && i <= 60
    ensures var more, h := ts + Repeat(Slot(from, i), m), Bucket(Hour, from);
            && |more| == |ts| + m
            && CountIn(more, BucketSpan(Hour, h))
               == CountIn(ts, BucketSpan(Hour, h)) + (if i < FirstHourSlots(from) then m else 0)
            && CountIn(more, BucketSpan(Hour, h + 1))
               == CountIn(ts, BucketSpan(Hour, h + 1)) + (if i < FirstHourSlots(from) then 0 else m)
  {
    var now, h := Slot(from, i), Bucket(Hour, from);
    SlotBuckets(from, i);
    BucketHas(Hour, now, h);
    BucketHas(Hour, now, h + 1);
    CountInRepeat(ts, now, m, BucketSpan(Hour, h));
    CountInRepeat(ts, now, m, BucketSpan(Hour, h + 1));
  }

  lemma SlotsSoFar(from: real, i: nat, ts: seq<real>, m: nat)
    requires 0.0 <= from && i <= 60
    requires forall j | 0 <= j < |ts| :: from <= ts[j] && (i > 0 ==> ts[j] <= Slot(from, i - 1))
    requires i == 0 ==> ts == []
    ensures var more := ts + Repeat(Slot(from, i), m); forall j | 0 <= j < |more| :: from <= more[j] <= Slot(from, i)
  {
    SlotBuckets(from, i);
    BucketHas(Minute, from, Bucket(Minute, from));
  }

  /** What one burst adds to its hour. */
  function Added(caps: Caps, from: real, i: nat): int {
    var k := InFirstHour(from, i);
    Min(caps.perMinute, caps.perHour - Filled(caps, if i < FirstHourSlots(from) then k else i - k))
  }

  lemma RoomInHour(caps: Caps, from: real, i: nat, ts: seq<real>)
    requires 0.0 <= from && i <= 60 && caps.perMinute >= 1 && caps.perHour >= 1 && AfterBursts(caps, from, i, ts)
    ensures HourCount(ts, Slot(from, i)) <= caps.perHour && Added(caps, from, i) >= 0
    ensures Min(caps.perMinute, caps.perHour - HourCount(ts, Slot(from, i))) == Added(caps, from, i)
  {
    SlotBuckets(from, i);
    FilledIs(caps, InFirstHour(from, i));
    FilledIs(caps, i - InFirstHour(from, i));
  }

  lemma NextBurst(caps: Caps, from: real, i: nat, ts: seq<real>)
    requires 0.0 <= from && i <= 60 && AfterBursts(caps, from, i, ts) && Added(caps, from, i) >= 0
    ensures AfterBursts(caps, from, i + 1, ts + Repeat(Slot(from, i), Added(caps, from, i)))
  {
    BurstCounts(from, i, ts, Added(caps, from, i));
    SlotsSoFar(from, i, ts, Added(caps, from, i));
  }

  lemma EmptyMinute(from: real, i: nat, ts: seq<real>)
    requires 0.0 <= from && i <= 60
    requires forall j | 0 <= j < |ts| :: from <= ts[j] && (i > 0 ==> ts[j] <= Slot(from, i - 1))
    requires i == 0 ==> ts == []
    ensures MinuteCount(ts, Slot(from, i)) == 0
  {
    if i > 0 {
      SlotBuckets(from, i);
      SlotBuckets(from, i - 1);
      BucketHas(Minute, Slot(from, i - 1), Bucket(Minute, Slot(from, i - 1)));
      CountInNone(ts, BucketSpan(Minute, Bucket(Minute, Slot(from, i))));
    }
  }

  /** The instants let in by the first `i` bursts. */
  function LogOfBursts(caps: Caps, from: real, i: nat): seq<real> {
    if i == 0 then [] else LogOfBursts(caps, from, i - 1) + Repeat(Slot(from, i - 1), Max(0, Added(caps, from, i - 1)))
  }

  ghost predicate LogFilled(caps: Caps, from: real, i: nat) {
    AfterBursts(caps, from, i, LogOfBursts(caps, from, i))
  }

  lemma LogFillsNext(caps: Caps, from: real, i: nat)
    requires 0.0 <= from && 0 < i <= 61 && caps.perMinute >= 1 && caps.perHour >= 1 && LogFilled(caps, from, i - 1)
    ensures LogFilled(caps, from, i)
  {
    RoomInHour(caps, from, i - 1, LogOfBursts(caps, from, i - 1));
    NextBurst(caps, from, i - 1, LogOfBursts(caps, from, i - 1));
  }

  lemma {:induction false} LogFills(caps: Caps, from: real, i: nat)
    requires 0.0 <= from && i <= 61 && caps.perMinute >= 1 && caps.perHour >= 1
    ensures LogFilled(caps, from, i)
  {
    if i > 0 {
      LogFills(caps, from, i - 1);
      LogFillsNext(caps, from, i);
    }
  }

  /** At each slot the minute is empty, and the hour has room for what the log adds. */
  lemma SlotRoom(caps: Caps, from: real, i: nat, ts: seq<real>)
    requires 0.0 <= from && i <= 60 && caps.perMinute >= 1 && caps.perHour >= 1 && ts == LogOfBursts(caps, from, i)
    ensures MinuteCount(ts, Slot(from, i)) == 0 && HourCount(ts, Slot(from, i)) <= caps.perHour
    ensures Min(caps.perMinute, caps.perHour - HourCount(ts, Slot(from, i))) == Max(0, Added(caps, from, i))
  {
    LogFills(caps, from, i);
    RoomInHour(caps, from, i, ts);
    EmptyMinute(from, i, ts);
  }

  lemma BurstStep(caps: Caps, before: seq<Arrival>, client: string, from: real, i: nat, ts: seq<real>)
    requires 0.0 <= from && i <= 60 && caps.perMinute >= 1 && caps.perHour >= 1 && Until(before, Slot(from, i))
    requires ts == LogOfBursts(caps, from, i) && LetIn(AdmitAll(caps, before), client) == ts
    ensures LetIn(AdmitAll(caps, before + Repeat(Instant(client, Slot(from, i)), Max(0, caps.perMinute))), client)
         == LogOfBursts(caps, from, i + 1)
  {
    SlotRoom(caps, from, i, ts);
    BurstLetIn(caps, before, client, Slot(from, i), caps.perMinute, ts);
  }

  lemma {:induction false} BurstsInOrder(caps: Caps, client: string, from: real, i: nat)
    requires 0.0 <= from && i <= 61
    ensures Chronological(Bursts(caps, client, from, i))
    ensures i <= 60 ==> Until(Bursts(caps, client, from, i), Slot(from, i))
  {
    if i > 0 {
      BurstsInOrder(caps, client, from, i - 1);
      UntilMore(Bursts(caps, client, from, i - 1), client, Slot(from, i - 1), Max(0, caps.perMinute),
                Slot(from, i - 1));
      if i <= 60 {
        SlotBuckets(from, i);
        UntilMore(Bursts(caps, client, from, i - 1), client, Slot(from, i - 1), Max(0, caps.perMinute), Slot(from, i));
      }
    }
  }

  /** The bursts are in order, and this is what is let in, for any caps of at least one. */
  lemma {:induction false} BurstsLog(caps: Caps, client: string, from: real, i: nat)
    requires 0.0 <= from && i <= 61 && caps.perMinute >= 1 && caps.perHour >= 1
    ensures LetIn(AdmitAll(caps, Bursts(caps, client, from, i)), client) == LogOfBursts(caps, from, i)
  {
    if i > 0 {
      BurstsLog(caps, client, from, i - 1);
      BurstsInOrder(caps, client, from, i - 1);
      BurstStep(caps, Bursts(caps, client, from, i - 1), client, from, i - 1, LogOfBursts(caps, from, i - 1));
    }
  }

  // ---------- Exactly when the documented caps hold ----------

  /** In every run every client is let in at most the cap in the minute or hour from `from`. */
  ghost predicate CapKept(caps: Caps, u: Unit, from: real) {
    forall arrivals: seq<Arrival>, client: string | Chronological(arrivals) ::
      CountIn(LetIn(AdmitAll(caps, arrivals), client), FromUntil(from, from + Width(u))) <= Max(0, CapOf(caps, u))
  }

  /** Where the clock minute after the one of `from` starts. */
  function NextMinute(from: real): real {
    BucketSpan(Minute, Bucket(Minute, from) + 1).from
  }

  /** How many clock minutes the minute or hour from `from` meets. */
  function MinutesMet(u: Unit, from: real): (k: nat)
    ensures 1 <= k <= 61
  {
    (if u == Minute then 1 else 60) + if Aligned(Minute, from) then 0 else 1
  }

  /** An aligned minute; or a cap per hour so low that it does the work. */
  predicate MinuteSafe(caps: Caps, from: real) {
    || caps.perMinute <= 0
    || Aligned(Minute, from)
    || (if Bucket(Hour, NextMinute(from)) == Bucket(Hour, from) then caps.perHour <= caps.perMinute
        else 2 * caps.perHour <= caps.perMinute)
  }

  /** An aligned hour; or a cap per minute so low that all the minutes it touches cannot exceed it. */
  predicate HourSafe(caps: Caps, from: real) {
    || caps.perHour <= 0
    || Aligned(Hour, from)
    || caps.perMinute * MinutesMet(Hour, from) <= caps.perHour
  }

  lemma WithinOneHour(from: real)
    requires Bucket(Hour, NextMinute(from)) == Bucket(Hour, from)
    ensures var hour := BucketSpan(Hour, Bucket(Hour, from)); hour.from <= from && from + 60.0 <= hour.to
  {
    var b, h := Bucket(Minute, from), Bucket(Hour, from);
    BucketHas(Minute, from, b);
    BucketHas(Hour, from, h);
    assert NextMinute(from).Floor == 60 * (b + 1);
    assert 60 * (b + 1) < 3600 * (h + 1);
    assert b + 2 <= 60 * (h + 1);
  }

  lemma WholeHour(caps: Caps, ts: seq<real>, from: real)
    requires BucketsCapped(caps, ts)
    ensures CountIn(ts, FromUntil(from, from + 60.0)) <= 2 * Max(0, caps.perHour)
    ensures Bucket(Hour, NextMinute(from)) == Bucket(Hour, from) ==>
              CountIn(ts, FromUntil(from, from + 60.0)) <= Max(0, caps.perHour)
  {
    var h := Bucket(Hour, from);
    assert CountIn(ts, BucketSpan(Hour, h)) <= Max(0, CapOf(caps, Hour))
           && CountIn(ts, BucketSpan(Hour, h + 1)) <= Max(0, CapOf(caps, Hour));
    SpanMeetsTwoBuckets(ts, Hour, from);
    CountInWider(ts, FromUntil(from, from + 60.0), FromUntil(from, from + 3600.0));
    if Bucket(Hour, NextMinute(from)) == h {
      WithinOneHour(from);
      CountInWider(ts, FromUntil(from, from + 60.0), BucketSpan(Hour, h));
    }
  }

  lemma MinuteHolds(caps: Caps, arrivals: seq<Arrival>, client: string, from: real)
    requires Chronological(arrivals) && MinuteSafe(caps, from)
    ensures CountIn(LetIn(AdmitAll(caps, arrivals), client), FromUntil(from, from + 60.0)) <= Max(0, caps.perMinute)
  {
    LetInCapped(caps, arrivals, client);
    SpanCap(caps, arrivals, Minute, client, from);
    WholeHour(caps, LetIn(AdmitAll(caps, arrivals), client), from);
  }

  lemma HourHolds(caps: Caps, arrivals: seq<Arrival>, client: string, from: real)
    requires Chronological(arrivals) && HourSafe(caps, from)
    ensures CountIn(LetIn(AdmitAll(caps, arrivals), client), FromUntil(from, from + 3600.0)) <= Max(0, caps.perHour)
  {
    var ts, b := LetIn(AdmitAll(caps, arrivals), client), Bucket(Minute, from);
    var k := MinutesMet(Hour, from);
    SpanCap(caps, arrivals, Hour, client, from);
    LetInCapped(caps, arrivals, client);
    BucketHas(Minute, from, b);
    MinutesCap(caps, ts, b, k);
    CountInWider(ts, FromUntil(from, from + 3600.0), FromUntil((60 * b) as real, (60 * (b + k)) as real));
  }

  /** What the two hours let in of the bursts. */
  function Capacity(caps: Caps, from: real, n: nat): int {
    var k := InFirstHour(from, n);
    Min(caps.perHour, caps.perMinute * k) + Min(caps.perHour, caps.perMinute * (n - k))
  }

  lemma LogInSpan(caps: Caps, from: real, n: nat, ts: seq<real>, to: real)
    requires n > 0 && caps.perMinute >= 1 && caps.perHour >= 1 && AfterBursts(caps, from, n, ts)
             && Slot(from, n - 1) < to
    ensures CountIn(ts, FromUntil(from, to)) == Capacity(caps, from, n)
  {
    FilledIs(caps, InFirstHour(from, n));
    FilledIs(caps, n - InFirstHour(from, n));
    CountInAll(ts, FromUntil(from, to));
  }

  /** Bursts at every slot before `to`: what is let in between. */
  lemma BurstsInSpan(caps: Caps, client: string, from: real, n: nat, to: real)
    requires 0.0 <= from && 0 < n <= 61 && caps.perMinute >= 1 && caps.perHour >= 1 && Slot(from, n - 1) < to
    ensures CountIn(LetIn(AdmitAll(caps, Bursts(caps, client, from, n)), client), FromUntil(from, to))
         == Capacity(caps, from, n)
  {
    BurstsLog(caps, client, from, n);
    LogFills(caps, from, n);
    LogInSpan(caps, from, n, LogOfBursts(caps, from, n), to);
  }

  lemma MinutesMetInSpan(u: Unit, from: real)
    requires 0.0 <= from
    ensures Slot(from, MinutesMet(u, from) - 1) < from + Width(u)
    ensures u == Hour && !Aligned(Hour, from) ==> FirstHourSlots(from) < MinutesMet(u, from)
    ensures u == Minute && !Aligned(Minute, from) ==>
              (FirstHourSlots(from) >= 2 <==> Bucket(Hour, NextMinute(from)) == Bucket(Hour, from))
  {
    BucketHas(Minute, from, Bucket(Minute, from));
    if u == Minute {
      SlotBuckets(from, 1);
      assert NextMinute(from) == Slot(from, 1);
    }
  }

  lemma MinuteCapacity(caps: Caps, from: real, n: nat)
    requires 0.0 <= from && !Aligned(Minute, from) && n == MinutesMet(Minute, from)
    ensures Capacity(caps, from, n) ==
            if Bucket(Hour, NextMinute(from)) == Bucket(Hour, from)
            then Min(caps.perHour, 2 * caps.perMinute) + Min(caps.perHour, 0)
            else 2 * Min(caps.perHour, caps.perMinute)
  {
    MinutesMetInSpan(Minute, from);
    if FirstHourSlots(from) >= 2 {
      assert InFirstHour(from, n) == 2 && caps.perMinute * 0 == 0;
    } else {
      assert InFirstHour(from, n) == 1;
    }
  }

  lemma Overfull(caps: Caps, k: nat, l: nat)
    requires caps.perMinute >= 1 && caps.perHour >= 1 && k >= 1 && l >= 1 && caps.perMinute * (k + l) > caps.perHour
    ensures Min(caps.perHour, caps.perMinute * k) + Min(caps.perHour, caps.perMinute * l) > caps.perHour
  {
    assert caps.perMinute * (k + l) == caps.perMinute * k + caps.perMinute * l;
    assert caps.perMinute * k >= 1 && caps.perMinute * l >= 1;
  }

  lemma HourCapacity(caps: Caps, from: real)
    requires 0.0 <= from && !HourSafe(caps, from)
    ensures caps.perMinute >= 1 && Capacity(caps, from, MinutesMet(Hour, from)) > caps.perHour
  {
    assert caps.perMinute >= 1;
    MinutesMetInSpan(Hour, from);
    Overfull(caps, FirstHourSlots(from), MinutesMet(Hour, from) - FirstHourSlots(from));
  }

  ghost predicate Exceeds(caps: Caps, arrivals: seq<Arrival>, client: string, u: Unit, from: real) {
    && Chronological(arrivals)
    && CountIn(LetIn(AdmitAll(caps, arrivals), client), FromUntil(from, from + Width(u))) > Max(0, CapOf(caps, u))
  }

  lemma Breaks(caps: Caps, arrivals: seq<Arrival>, client: string, u: Unit, from: real)
    requires Exceeds(caps, arrivals, client, u, from)
    ensures !CapKept(caps, u, from)
  {
  }

  lemma CapIsPositive(caps: Caps, u: Unit)
    requires caps.perMinute >= 1 && caps.perHour >= 1
    ensures Max(0, CapOf(caps, u)) == CapOf(caps, u)
  {
  }

  lemma BurstsExceed(caps: Caps, client: string, u: Unit, from: real, n: nat)
    requires 0.0 <= from && n == MinutesMet(u, from) && caps.perMinute >= 1 && caps.perHour >= 1
    requires Capacity(caps, from, n) > CapOf(caps, u)
    ensures Exceeds(caps, Bursts(caps, client, from, n), client, u, from)
  {
    MinutesMetInSpan(u, from);
    BurstsInOrder(caps, client, from, n);
    BurstsInSpan(caps, client, from, n, from + Width(u));
    CapIsPositive(caps, u);
  }

  lemma Exceeded(caps: Caps, client: string, u: Unit, from: real, n: nat)
    requires 0.0 <= from && n == MinutesMet(u, from) && caps.perMinute >= 1 && caps.perHour >= 1
    requires Capacity(caps, from, n) > CapOf(caps, u)
    ensures !CapKept(caps, u, from)
  {
    BurstsExceed(caps, client, u, from, n);
    Breaks(caps, Bursts(caps, client, from, n), client, u, from);
  }

  /**
   The documented cap per sixty seconds holds for the minute from `from`, in every run, exactly when
   that is a clock minute, or the cap per hour keeps the two clock minutes it meets below it.
   */
  lemma MinuteCapExactly(caps: Caps, from: real)
    requires 0.0 <= from
    ensures CapKept(caps, Minute, from) <==> MinuteSafe(caps, from)
  {
    if MinuteSafe(caps, from) {
      forall arrivals: seq<Arrival>, client: string | Chronological(arrivals)
        ensures CountIn(LetIn(AdmitAll(caps, arrivals), client), FromUntil(from, from + Width(Minute)))
             <= Max(0, CapOf(caps, Minute))
      {
        MinuteHolds(caps, arrivals, client, from);
      }
    } else {
      MinuteCapacity(caps, from, MinutesMet(Minute, from));
      Exceeded(caps, "", Minute, from, MinutesMet(Minute, from));
    }
  }

  /**
   The documented cap per hour holds for the hour from `from`, in every run, exactly when that is a
   clock hour, or the 60 or 61 clock minutes it meets cannot together exceed it.
   */
  lemma HourCapExactly(caps: Caps, from: real)
    requires 0.0 <= from
    ensures CapKept(caps, Hour, from) <==> HourSafe(caps, from)
  {
    if HourSafe(caps, from) {
      forall arrivals: seq<Arrival>, client: string | Chronological(arrivals)
        ensures CountIn(LetIn(AdmitAll(caps, arrivals), client), FromUntil(from, from + Width(Hour)))
             <= Max(0, CapOf(caps, Hour))
      {
        HourHolds(caps, arrivals, client, from);
      }
    } else {
      HourCapacity(caps, from);
      Exceeded(caps, "", Hour, from, MinutesMet(Hour, from));
    }
  }

  /** The run that breaks the cap per hour: a full minute's worth at each clock minute of the span. */
  lemma OverfullHour(caps: Caps, client: string, from: real, n: nat)
    requires 0.0 <= from && !HourSafe(caps, from) && n == MinutesMet(Hour, from)
    ensures Chronological(Bursts(caps, client, from, n))
    ensures CountIn(LetIn(AdmitAll(caps, Bursts(caps, client, from, n)), client),
                    FromUntil(from, from + 3600.0)) > caps.perHour
  {
    HourCapacity(caps, from);
    MinutesMetInSpan(Hour, from);
    BurstsInOrder(caps, client, from, n);
    BurstsInSpan(caps, client, from, n, from + 3600.0);
  }

  /** From any unaligned start, twice the cap fits into a minute when the cap per hour allows it. */
  lemma TwoBurstsInAMinute(caps: Caps, client: string, from: real, n: nat)
    requires 0.0 <= from && caps.perMinute >= 1 && caps.perHour >= 2 * caps.perMinute && !Aligned(Minute, from)
    requires n == MinutesMet(Minute, from)
    ensures Chronological(Bursts(caps, client, from, n))
    ensures CountIn(LetIn(AdmitAll(caps, Bursts(caps, client, from, n)), client), FromUntil(from, from + 60.0))
         == 2 * caps.perMinute
  {
    MinutesMetInSpan(Minute, from);
    BurstsInOrder(caps, client, from, n);
    BurstsInSpan(caps, client, from, n, from + 60.0);
    MinuteCapacity(caps, from, n);
  }
}
