/**
 Phone login: sending and verifying one-time codes for many phones, one call at a time. A request
 gives a phone as spelled; the counters are kept by spelling, the tables by number.
 */
module OtpFlow {
  import opened Results
  import opened TtlCache
  import opened Windows
  import opened Spellings
  import opened OtpCounters
  import opened OtpModels

  datatype Settings = Settings(rateLimitMax: int, validDuration: real, canon: Canon)

  datatype World = World(store: Store, rows: map<string, StoredOtp>, accounts: Accounts)

  datatype Call =
    | Send(phone: string, code: string, tCheck: real, tIssue: real, tIncr: real, tSet: real)
    | Verify(phone: string, code: string, tCheck: real, tCompare: real, tIncr: real, tSet: real)

  datatype Outcome =
    | Throttled(phone: string)
    | Sent(phone: string, code: string, issued: real, counted: real)
    | LockedOut(phone: string)
    | Refused(phone: string, compared: real, counted: real)
    | LoggedIn(phone: string, user: nat, created: bool)

  function SendOtp(s: Settings, w: World, phone: string, code: string,
                   tCheck: real, tIssue: real, tIncr: real, tSet: real): (World, Outcome) {
    if Reached(w.store, OtpRate(phone), s.rateLimitMax, tCheck) then (w, Throttled(phone))
    else
      (w.(rows := w.rows[s.canon(phone) := StoredOtp(Some(code), Some(tIssue + s.validDuration))],
       store := Bumped(w.store, OtpRate(phone), RATE_TTL, tIncr, tSet)),
       Sent(phone, code, tIssue, BumpedAt(w.store, OtpRate(phone), tIncr, tSet)))
  }

  predicate Accepts(w: World, number: string, code: string, now: real) {
    number in w.rows && w.rows[number].otp == Some(code) && Unexpired(w.rows[number], now)
  }

  function VerifyOtp(s: Settings, w: World, phone: string, code: string,
                     tCheck: real, tCompare: real, tIncr: real, tSet: real): (World, Outcome) {
    if Reached(w.store, OtpVerify(phone), MAX_VERIFY_ATTEMPTS, tCheck) then (w, LockedOut(phone))
    else if !Accepts(w, s.canon(phone), code, tCompare) then
      (w.(store := Bumped(w.store, OtpVerify(phone), VERIFY_LOCKOUT_TTL, tIncr, tSet)),
       Refused(phone, tCompare, BumpedAt(w.store, OtpVerify(phone), tIncr, tSet)))
    else
      var r := Resolve(w.accounts, s.canon(phone));
      (World(w.store - {OtpVerify(phone)}, w.rows - {s.canon(phone)}, r.accounts), LoggedIn(phone, r.user, r.created))
  }

  function Act(s: Settings, w: World, c: Call): (World, Outcome) {
    match c
    case Send(phone, code, tCheck, tIssue, tIncr, tSet) => SendOtp(s, w, phone, code, tCheck, tIssue, tIncr, tSet)
    case Verify(phone, code, tCheck, tCompare, tIncr, tSet) =>
      VerifyOtp(s, w, phone, code, tCheck, tCompare, tIncr, tSet)
  }

  class AuthUseCases {
    const settings: Settings
    const otpHandler: OtpHandler
    const otpRepo: OtpRepository
    const repo: AuthRepository

    constructor (settings: Settings, otpHandler: OtpHandler, otpRepo: OtpRepository, repo: AuthRepository)
      requires otpHandler.rateLimitMax == settings.rateLimitMax && otpRepo.duration == settings.validDuration
      requires otpRepo.canon == settings.canon && repo.canon == settings.canon
      ensures Wired()
      ensures this.settings == settings && this.otpHandler == otpHandler
      ensures this.otpRepo == otpRepo && this.repo == repo
    {
      this.settings := settings;
      this.otpHandler := otpHandler;
      this.otpRepo := otpRepo;
      this.repo := repo;
    }

    ghost predicate Wired() {
      && otpHandler.rateLimitMax == settings.rateLimitMax && otpRepo.duration == settings.validDuration
      && otpRepo.canon == settings.canon && repo.canon == settings.canon
    }

    function View(): World
      reads otpHandler.cache, otpRepo, repo
    {
      World(otpHandler.cache.store, otpRepo.rows, repo.accounts)
    }

    /** The counter's entry before it is touched tells when a send counts from. */
    method SendOtp(phone: string, code: string, tCheck: real, tIssue: real, tIncr: real, tSet: real)
      returns (outcome: Outcome)
      requires Wired()
      modifies otpHandler.cache, otpRepo
      ensures (View(), outcome) == Act(settings, old(View()), Send(phone, code, tCheck, tIssue, tIncr, tSet))
    {
      var limited := otpHandler.IsRateLimited(phone, tCheck);
      if limited {
        return Throttled(phone);
      }
      var row, created := otpRepo.GetOrCreate(phone, code, tIssue);
      if !created {
        row.SetOtpAndValidity(code, tIssue);
        row.Save(otpRepo, code, tIssue);
      }
      outcome := Sent(phone, code, tIssue, BumpedAt(otpHandler.cache.store, OtpRate(phone), tIncr, tSet));
      otpHandler.IncrementRate(phone, tIncr, tSet);
    }

    /** Likewise for a refusal. */
    method VerifyOtp(phone: string, code: string, tCheck: real, tCompare: real, tIncr: real, tSet: real)
      returns (outcome: Outcome)
      requires Wired()
      modifies otpHandler.cache, otpRepo, repo
      ensures (View(), outcome) == Act(settings, old(View()), Verify(phone, code, tCheck, tCompare, tIncr, tSet))
    {
      var limited := otpHandler.IsVerifyRateLimited(phone, tCheck);
      if limited {
        return LockedOut(phone);
      }
      var row := otpRepo.GetByPhone(phone);
      var valid := false;
      if row != null && row.otp == Some(code) {
        valid := row.IsValid(tCompare);
      }
      if !valid {
        outcome := Refused(phone, tCompare, BumpedAt(otpHandler.cache.store, OtpVerify(phone), tIncr, tSet));
        otpHandler.IncrementVerifyAttempts(phone, tIncr, tSet);
        return;
      }
      otpHandler.ClearVerifyAttempts(phone);
      otpRepo.DeleteRow(row);
      var user, created := repo.GetOrCreateUserByPhone(phone);
      outcome := LoggedIn(phone, user, created);
    }
  }

  // ---------- Runs and what their history alone says ----------

  function End(c: Call): real {
    match c
    case Send(_, _, _, _, _, tSet) => tSet
    case Verify(_, _, _, _, _, tSet) => tSet
  }

  predicate Timely(clock: real, c: Call) {
    match c
    case Send(_, _, tCheck, tIssue, tIncr, tSet) => clock <= tCheck <= tIssue <= tIncr <= tSet
    case Verify(_, _, tCheck, tCompare, tIncr, tSet) => clock <= tCheck <= tCompare <= tIncr <= tSet
  }

  function Clock(calls: seq<Call>): real {
    if calls == [] then 0.0 else End(calls[|calls| - 1])
  }

  predicate Sequential(calls: seq<Call>) {
    forall n | 0 <= n < |calls| :: Timely(Clock(calls[..n]), calls[n])
  }

  datatype Trace = Trace(world: World, log: seq<Outcome>)

  function Extend(s: Settings, t: Trace, c: Call): Trace {
    var (w, o) := Act(s, t.world, c);
    Trace(w, t.log + [o])
  }

  /** The world and history after a run from empty OTP tables and an existing set of accounts. */
  function Run(s: Settings, a: Accounts, calls: seq<Call>): (t: Trace)
    ensures |t.log| == |calls|
  {
    if calls == [] then Trace(World(map[], map[], a), [])
    else Extend(s, Run(s, a, calls[..|calls| - 1]), calls[|calls| - 1])
  }

  /** Refused attempts under a spelling since its last login, by the instants they were counted at. */
  function Failures(h: seq<Outcome>, phone: string): seq<real> {
    if h == [] then []
    else
      var n := |h| - 1;
      match h[n]
      case Refused(p, _, counted) =>
        if p == phone then Failures(h[..n], phone) + [counted] else Failures(h[..n], phone)
      case LoggedIn(p, _, _) => if p == phone then [] else Failures(h[..n], phone)
      case _ => Failures(h[..n], phone)
  }

  /** The sends under a spelling, by the instants they were counted at. */
  function Sends(h: seq<Outcome>, phone: string): seq<real> {
    if h == [] then []
    else
      var n := |h| - 1;
      if h[n].Sent? && h[n].phone == phone then Sends(h[..n], phone) + [h[n].counted] else Sends(h[..n], phone)
  }

  /** Index of the send whose code is good for the number: the latest one, unless consumed since. */
  function Outstanding(canon: Canon, h: seq<Outcome>, number: string): (i: Option<nat>)
    ensures i.Some? ==> i.value < |h| && h[i.value].Sent? && canon(h[i.value].phone) == number
  {
    if h == [] then None
    else
      var n := |h| - 1;
      match h[n]
      case Sent(p, _, _, _) => if canon(p) == number then Some(n) else Outstanding(canon, h[..n], number)
      case LoggedIn(p, _, _) => if canon(p) == number then None else Outstanding(canon, h[..n], number)
      case _ => Outstanding(canon, h[..n], number)
  }

  /** The anchored window of the last of these instants has not ended at `now`. */
  predicate Current(ts: seq<real>, ttl: real, now: real) {
    ts != [] && now < ts[LastStart(ts, ttl)] + ttl
  }

  /** Five refusals in the current ten-minute window that has not ended at `now`. */
  predicate LockedAt(h: seq<Outcome>, phone: string, now: real) {
    Current(Failures(h, phone), 600.0, now) && |LastWindow(Failures(h, phone), 600.0)| >= 5
  }

  /** The limit of sends in the current one-hour window that has not ended at `now`. */
  predicate ThrottledAt(max: int, h: seq<Outcome>, phone: string, now: real) {
    Current(Sends(h, phone), 3600.0, now) && |LastWindow(Sends(h, phone), 3600.0)| >= max
  }

  /** When an increment counts: at its `incr` while the window is current, else at the `set` that opens another. */
  function CountedAt(ts: seq<real>, ttl: real, tIncr: real, tSet: real): real {
    if Current(ts, ttl, tIncr) then tIncr else tSet
  }

  /** The most that a window of sends can count; a limit below one lets the first one through. */
  function SendCap(s: Settings): int {
    Max(1, s.rateLimitMax)
  }

  /** The send counter of a spelling is what the history says. */
  ghost predicate RateAgrees(s: Settings, w: World, h: seq<Outcome>, clock: real, phone: string) {
    Mirrors(w.store, OtpRate(phone), Sends(h, phone), RATE_TTL, SendCap(s), clock)
  }

  /** The attempt counter of a spelling is what the history says. */
  ghost predicate CounterAgrees(w: World, h: seq<Outcome>, clock: real, phone: string) {
    Mirrors(w.store, OtpVerify(phone), Failures(h, phone), VERIFY_LOCKOUT_TTL, MAX_VERIFY_ATTEMPTS, clock)
  }

  /** And so is the row of a number. */
  ghost predicate RowAgrees(s: Settings, w: World, h: seq<Outcome>, number: string) {
    match Outstanding(s.canon, h, number)
    case None => number !in w.rows
    case Some(i) =>
      number in w.rows && w.rows[number] == StoredOtp(Some(h[i].code), Some(h[i].issued + s.validDuration))
  }

  ghost predicate AccountsAgree(canon: Canon, w: World, h: seq<Outcome>) {
    && w.accounts.Valid()
    && (forall i | 0 <= i < |h| && h[i].LoggedIn? ::
          && canon(h[i].phone) in w.accounts.phoneNumbers
          && w.accounts.phoneNumbers[canon(h[i].phone)] == h[i].user)
  }

  /** What one more event does to the failures of a spelling. */
  lemma PushFailures(h: seq<Outcome>, o: Outcome, phone: string)
    ensures Failures(h + [o], phone) == if o.Refused? && o.phone == phone then Failures(h, phone) + [o.counted]
                                        else if o.LoggedIn? && o.phone == phone then []
                                        else Failures(h, phone)
  {
    assert (h + [o])[..|h|] == h;
  }

  lemma PushSends(h: seq<Outcome>, o: Outcome, phone: string)
    ensures Sends(h + [o], phone) == if o.Sent? && o.phone == phone then Sends(h, phone) + [o.counted]
                                     else Sends(h, phone)
  {
    assert (h + [o])[..|h|] == h;
  }

  lemma PushOutstanding(canon: Canon, h: seq<Outcome>, o: Outcome, number: string)
    ensures Outstanding(canon, h + [o], number) == if o.Sent? && canon(o.phone) == number then Some(|h|)
                                                   else if o.LoggedIn? && canon(o.phone) == number then None
                                                   else Outstanding(canon, h, number)
  {
    assert (h + [o])[..|h|] == h;
  }

  lemma RefusalCounts(w: World, h: seq<Outcome>, clock: real, o: Outcome, tIncr: real, tSet: real)
    requires CounterAgrees(w, h, clock, o.phone) && clock <= tIncr <= tSet && o.Refused?
    requires Count(w.store, OtpVerify(o.phone), tIncr) < MAX_VERIFY_ATTEMPTS
    requires o.counted == BumpedAt(w.store, OtpVerify(o.phone), tIncr, tSet)
    ensures var store := Bumped(w.store, OtpVerify(o.phone), VERIFY_LOCKOUT_TTL, tIncr, tSet);
            CounterAgrees(w.(store := store), h + [o], tSet, o.phone)
  {
    PushFailures(h, o, o.phone);
    BumpMirrors(w.store, OtpVerify(o.phone), Failures(h, o.phone), VERIFY_LOCKOUT_TTL, MAX_VERIFY_ATTEMPTS, clock,
                tIncr, tSet);
  }

  lemma LoginClears(w: World, h: seq<Outcome>, clock: real, o: Outcome, w': World, clock': real)
    requires CounterAgrees(w, h, clock, o.phone) && clock <= clock' && o.LoggedIn?
    requires w'.store == w.store - {OtpVerify(o.phone)}
    ensures CounterAgrees(w', h + [o], clock', o.phone)
  {
    PushFailures(h, o, o.phone);
  }

  /** The clock moves on, and the spelling's counter stays as it is. */
  lemma OthersKeep(w: World, h: seq<Outcome>, clock: real, phone: string, o: Outcome, w': World, clock': real)
    requires CounterAgrees(w, h, clock, phone) && clock <= clock'
    requires o.phone != phone || !(o.Refused? || o.LoggedIn?)
    requires OtpVerify(phone) in w.store <==> OtpVerify(phone) in w'.store
    requires OtpVerify(phone) in w.store ==> w'.store[OtpVerify(phone)] == w.store[OtpVerify(phone)]
    ensures CounterAgrees(w', h + [o], clock', phone)
  {
    PushFailures(h, o, phone);
  }

  lemma CounterKeeps(s: Settings, w: World, h: seq<Outcome>, clock: real, phone: string, c: Call)
    requires CounterAgrees(w, h, clock, phone) && Timely(clock, c)
    ensures var (w', o) := Act(s, w, c); CounterAgrees(w', h + [o], End(c), phone)
  {
    var (w', o) := Act(s, w, c);
    if o.phone == phone && o.Refused? {
      RefusalCounts(w, h, clock, o, c.tIncr, c.tSet);
    } else if o.phone == phone && o.LoggedIn? {
      LoginClears(w, h, clock, o, w', End(c));
    } else {
      OthersKeep(w, h, clock, phone, o, w', End(c));
    }
  }

  lemma SendCounts(s: Settings, w: World, h: seq<Outcome>, clock: real, o: Outcome, tCheck: real, tIncr: real,
                   tSet: real)
    requires RateAgrees(s, w, h, clock, o.phone) && clock <= tCheck <= tIncr <= tSet && o.Sent?
    requires !Reached(w.store, OtpRate(o.phone), s.rateLimitMax, tCheck)
    requires o.counted == BumpedAt(w.store, OtpRate(o.phone), tIncr, tSet)
    ensures Mirrors(Bumped(w.store, OtpRate(o.phone), RATE_TTL, tIncr, tSet), OtpRate(o.phone),
                    Sends(h + [o], o.phone), RATE_TTL, SendCap(s), tSet)
  {
    PushSends(h, o, o.phone);
    BumpMirrors(w.store, OtpRate(o.phone), Sends(h, o.phone), RATE_TTL, SendCap(s), clock, tIncr, tSet);
  }

  lemma RateStays(s: Settings, w: World, phone: string, c: Call)
    requires !(Act(s, w, c).1.Sent? && c.phone == phone)
    ensures var w' := Act(s, w, c).0;
            && (OtpRate(phone) in w'.store <==> OtpRate(phone) in w.store)
            && (OtpRate(phone) in w.store ==> w'.store[OtpRate(phone)] == w.store[OtpRate(phone)])
  {
  }

  lemma RateKeeps(s: Settings, w: World, h: seq<Outcome>, clock: real, phone: string, c: Call)
    requires RateAgrees(s, w, h, clock, phone) && Timely(clock, c)
    ensures var (w', o) := Act(s, w, c); RateAgrees(s, w', h + [o], End(c), phone)
  {
    var (w', o) := Act(s, w, c);
    PushSends(h, o, phone);
    if o.phone == phone && o.Sent? {
      SendCounts(s, w, h, clock, o, c.tCheck, c.tIncr, c.tSet);
    } else {
      RateStays(s, w, phone, c);
      MirrorsLater(w.store, w'.store, OtpRate(phone), Sends(h, phone), RATE_TTL, SendCap(s), clock, End(c));
    }
  }

  lemma RowKeeps(s: Settings, w: World, h: seq<Outcome>, number: string, c: Call)
    requires RowAgrees(s, w, h, number)
    ensures var (w', o) := Act(s, w, c); RowAgrees(s, w', h + [o], number)
  {
    PushOutstanding(s.canon, h, Act(s, w, c).1, number);
  }

  /** After every run both counters of each spelling and the row of each number are what the history says. */
  lemma {:induction false} RunAgrees(s: Settings, a: Accounts, calls: seq<Call>, phone: string, number: string)
    requires Sequential(calls)
    ensures CounterAgrees(Run(s, a, calls).world, Run(s, a, calls).log, Clock(calls), phone)
    ensures RateAgrees(s, Run(s, a, calls).world, Run(s, a, calls).log, Clock(calls), phone)
    ensures RowAgrees(s, Run(s, a, calls).world, Run(s, a, calls).log, number)
  {
    if calls != [] {
      var n := |calls| - 1;
      var t := Run(s, a, calls[..n]);
      SequentialPrefix(calls, n);
      RunAgrees(s, a, calls[..n], phone, number);
      CounterKeeps(s, t.world, t.log, Clock(calls[..n]), phone, calls[n]);
      RateKeeps(s, t.world, t.log, Clock(calls[..n]), phone, calls[n]);
      RowKeeps(s, t.world, t.log, number, calls[n]);
    }
  }

  lemma SequentialPrefix(calls: seq<Call>, n: nat)
    requires Sequential(calls) && n <= |calls|
    ensures Sequential(calls[..n])
  {
    forall m | 0 <= m < n ensures Timely(Clock(calls[..n][..m]), calls[..n][m]) {
      assert calls[..n][..m] == calls[..m];
    }
  }

  lemma RunSplits(s: Settings, a: Accounts, calls: seq<Call>)
    requires calls != [] && Sequential(calls)
    ensures var n := |calls| - 1;
            var t := Run(s, a, calls[..n]);
            && Sequential(calls[..n]) && Timely(Clock(calls[..n]), calls[n])
            && Run(s, a, calls).log == t.log + [Act(s, t.world, calls[n]).1]
  {
    SequentialPrefix(calls, |calls| - 1);
  }

  /** The code and the time are right for the number: its latest send, under whatever spelling, not consumed since. */
  predicate Good(s: Settings, h: seq<Outcome>, number: string, code: string, now: real) {
    var current := Outstanding(s.canon, h, number);
    current.Some? && h[current.value].code == code && now <= h[current.value].issued + s.validDuration
  }

  /**
   A call touches no cache entry but the two of its spelling, no row but its number's, and only a login
   the accounts.
   */
  lemma TouchesOnly(s: Settings, w: World, c: Call, key: Key, number: string)
    ensures var w' := Act(s, w, c).0;
            && (key != OtpRate(c.phone) && key != OtpVerify(c.phone) ==>
                  (key in w'.store <==> key in w.store) && (key in w.store ==> w'.store[key] == w.store[key]))
            && (number != s.canon(c.phone) ==>
                  (number in w'.rows <==> number in w.rows) && (number in w.rows ==> w'.rows[number] == w.rows[number]))
            && (!Act(s, w, c).1.LoggedIn? ==> w'.accounts == w.accounts)
  {
  }

  /**
   A send is throttled, with nothing changed, exactly when the sends counted under its spelling fill a
   one-hour window that is current; otherwise it goes out with the code drawn, and counts.
   */
  lemma SendDecision(s: Settings, a: Accounts, calls: seq<Call>, phone: string, code: string,
                     tCheck: real, tIssue: real, tIncr: real, tSet: real)
    requires Sequential(calls)
    ensures var t := Run(s, a, calls);
            var (w, o) := SendOtp(s, t.world, phone, code, tCheck, tIssue, tIncr, tSet);
            if ThrottledAt(s.rateLimitMax, t.log, phone, tCheck) then w == t.world && o == Throttled(phone)
            else o == Sent(phone, code, tIssue, CountedAt(Sends(t.log, phone), 3600.0, tIncr, tSet))
  {
    RunAgrees(s, a, calls, phone, s.canon(phone));
    var t := Run(s, a, calls);
    CountIsWindow(t.world.store, OtpRate(phone), Sends(t.log, phone), RATE_TTL, tCheck);
    CountIsWindow(t.world.store, OtpRate(phone), Sends(t.log, phone), RATE_TTL, tIncr);
  }

  /**
   A verification logs in exactly when its spelling is not locked out and the code is that of the
   latest send to its number, not consumed by a login since and not past its inclusive expiry; it is
   refused exactly when not locked out and that fails.
   */
  lemma VerifyDecision(s: Settings, a: Accounts, calls: seq<Call>, phone: string, code: string,
                       tCheck: real, tCompare: real, tIncr: real, tSet: real)
    requires Sequential(calls) && Clock(calls) <= tCheck <= tCompare <= tIncr <= tSet
    ensures var t := Run(s, a, calls);
            var o := VerifyOtp(s, t.world, phone, code, tCheck, tCompare, tIncr, tSet).1;
            var good := Good(s, t.log, s.canon(phone), code, tCompare);
            && (o.LockedOut? <==> LockedAt(t.log, phone, tCheck))
            && (o.LoggedIn? <==> !LockedAt(t.log, phone, tCheck) && good)
            && (o.Refused? <==> !LockedAt(t.log, phone, tCheck) && !good)
            && o.phone == phone
            && (o.Refused? ==> o.compared == tCompare
                               && o.counted == CountedAt(Failures(t.log, phone), 600.0, tIncr, tSet))
  {
    RunAgrees(s, a, calls, phone, s.canon(phone));
    var t := Run(s, a, calls);
    CountIsWindow(t.world.store, OtpVerify(phone), Failures(t.log, phone), VERIFY_LOCKOUT_TTL, tIncr);
    CountIsWindow(t.world.store, OtpVerify(phone), Failures(t.log, phone), VERIFY_LOCKOUT_TTL, tCheck);
  }

  // ---------- Single use and stable identity ----------

  /** The send whose code the login at `i` consumed. */
  function Consumed(canon: Canon, h: seq<Outcome>, i: nat): Option<nat>
    requires i < |h| && h[i].LoggedIn?
  {
    Outstanding(canon, h[..i], canon(h[i].phone))
  }

  /** The call presented the code of the send that its login consumed. */
  ghost predicate Presented(canon: Canon, h: seq<Outcome>, c: Call, i: nat)
    requires i < |h| && h[i].LoggedIn?
  {
    var sent := Consumed(canon, h, i);
    c.Verify? && c.phone == h[i].phone && sent.Some? && h[sent.value].code == c.code
  }

  lemma {:induction false} LoginConsumes(s: Settings, a: Accounts, calls: seq<Call>, i: nat)
    requires Sequential(calls) && i < |calls| && Run(s, a, calls).log[i].LoggedIn?
    ensures Presented(s.canon, Run(s, a, calls).log, calls[i], i)
    decreases |calls|
  {
    var n := |calls| - 1;
    RunSplits(s, a, calls);
    if i < n {
      LoginConsumes(s, a, calls[..n], i);
      StillPresented(s.canon, Run(s, a, calls[..n]).log, Run(s, a, calls).log, calls[i], i);
    } else {
      LoginIsGood(s, a, calls[..n], calls[n]);
    }
  }

  lemma StillPresented(canon: Canon, h: seq<Outcome>, more: seq<Outcome>, c: Call, i: nat)
    requires h <= more && i < |h| && h[i].LoggedIn? && Presented(canon, h, c, i)
    ensures Presented(canon, more, c, i)
  {
    assert h[..i] == more[..i];
  }

  lemma LoginIsGood(s: Settings, a: Accounts, calls: seq<Call>, c: Call)
    requires Sequential(calls) && Timely(Clock(calls), c) && Act(s, Run(s, a, calls).world, c).1.LoggedIn?
    ensures Presented(s.canon, Extend(s, Run(s, a, calls), c).log, c, |calls|)
  {
    VerifyDecision(s, a, calls, c.phone, c.code, c.tCheck, c.tCompare, c.tIncr, c.tSet);
    assert Extend(s, Run(s, a, calls), c).log[..|calls|] == Run(s, a, calls).log;
  }

  /** A login between leaves the number nothing outstanding from before it. */
  lemma {:induction false} OutstandingAfterLogin(canon: Canon, h: seq<Outcome>, number: string, i: nat)
    requires i < |h| && h[i].LoggedIn? && canon(h[i].phone) == number && Outstanding(canon, h, number).Some?
    ensures i < Outstanding(canon, h, number).value
  {
    var n := |h| - 1;
    if i < n && !(h[n].Sent? && canon(h[n].phone) == number) {
      OutstandingAfterLogin(canon, h[..n], number, i);
    }
  }

  /** Every login consumes an earlier send to its number, and no two logins the same one. */
  lemma SingleUse(s: Settings, a: Accounts, calls: seq<Call>, i: nat, j: nat)
    requires Sequential(calls) && i < j < |calls|
    requires Run(s, a, calls).log[i].LoggedIn? && Run(s, a, calls).log[j].LoggedIn?
    ensures var h := Run(s, a, calls).log;
            && Consumed(s.canon, h, i).Some? && Consumed(s.canon, h, j).Some?
            && Consumed(s.canon, h, i) != Consumed(s.canon, h, j)
  {
    var h := Run(s, a, calls).log;
    LoginConsumes(s, a, calls, i);
    LoginConsumes(s, a, calls, j);
    if s.canon(h[i].phone) == s.canon(h[j].phone) {
      assert h[..j][i] == h[i];
      OutstandingAfterLogin(s.canon, h[..j], s.canon(h[j].phone), i);
    }
  }

  ghost predicate NoLogin(canon: Canon, h: seq<Outcome>, number: string) {
    forall i | 0 <= i < |h| && h[i].LoggedIn? :: canon(h[i].phone) != number
  }

  /**
   The number is linked to the user it belonged to at the start; or has seen no login, and is that of
   the same users as at the start.
   */
  ghost predicate OwnerAgrees(canon: Canon, a: Accounts, w: World, h: seq<Outcome>, number: string) {
    && a.users.Keys <= w.accounts.users.Keys
    && (number in w.accounts.phoneNumbers ==>
          && Rightful(a, number, w.accounts.phoneNumbers[number])
          && (number in a.phoneNumbers || !NoLogin(canon, h, number)))
    && (number !in w.accounts.phoneNumbers ==>
          && number !in a.phoneNumbers && NoLogin(canon, h, number)
          && (forall u: nat :: u in w.accounts.users && w.accounts.users[u] == number
                               <==> u in a.users && a.users[u] == number))
  }

  lemma PushNoLogin(canon: Canon, h: seq<Outcome>, o: Outcome, number: string)
    ensures NoLogin(canon, h + [o], number) <==> NoLogin(canon, h, number)
                                                 && !(o.LoggedIn? && canon(o.phone) == number)
  {
    assert (h + [o])[|h|] == o;
    if NoLogin(canon, h + [o], number) {
      forall i | 0 <= i < |h| && h[i].LoggedIn? ensures canon(h[i].phone) != number {
        assert (h + [o])[i] == h[i];
      }
    }
  }

  lemma SameOwners(a: Accounts, now: Accounts, number: string, u: nat)
    requires a.users.Keys <= now.users.Keys && number !in a.phoneNumbers && number !in now.phoneNumbers
    requires forall u: nat :: u in now.users && now.users[u] == number <==> u in a.users && a.users[u] == number
    ensures Rightful(now, number, u) ==> Rightful(a, number, u)
    ensures number in now.users.Values <==> number in a.users.Values
  {
    if number in now.users.Values {
      var v :| v in now.users && now.users[v] == number;
      assert v in a.users && a.users[v] == number;
    }
    if number in a.users.Values {
      var v :| v in a.users && a.users[v] == number;
      assert v in now.users && now.users[v] == number;
    }
  }

  lemma OwnerKeeps(s: Settings, a: Accounts, w: World, h: seq<Outcome>, number: string, c: Call)
    requires OwnerAgrees(s.canon, a, w, h, number) && w.accounts.Valid()
    ensures var (w', o) := Act(s, w, c); OwnerAgrees(s.canon, a, w', h + [o], number)
  {
    var (w', o) := Act(s, w, c);
    ResolveKeeps(w.accounts, s.canon(c.phone));
    PushNoLogin(s.canon, h, o, number);
    if o.LoggedIn? && s.canon(c.phone) == number && number !in w.accounts.phoneNumbers {
      SameOwners(a, w.accounts, number, o.user);
    }
  }

  lemma {:induction false} RunAccounts(s: Settings, a: Accounts, calls: seq<Call>)
    requires a.Valid()
    ensures AccountsAgree(s.canon, Run(s, a, calls).world, Run(s, a, calls).log)
  {
    if calls != [] {
      var n := |calls| - 1;
      RunAccounts(s, a, calls[..n]);
      ResolveKeeps(Run(s, a, calls[..n]).world.accounts, s.canon(calls[n].phone));
    }
  }

  lemma {:induction false} RunOwners(s: Settings, a: Accounts, calls: seq<Call>, number: string)
    requires a.Valid()
    ensures OwnerAgrees(s.canon, a, Run(s, a, calls).world, Run(s, a, calls).log, number)
  {
    if calls != [] {
      var n := |calls| - 1;
      RunOwners(s, a, calls[..n], number);
      RunAccounts(s, a, calls[..n]);
      OwnerKeeps(s, a, Run(s, a, calls[..n]).world, Run(s, a, calls[..n]).log, number, calls[n]);
    }
  }

  /** The login is the user that its number belonged to at the start; created if none, by the first login. */
  ghost predicate RightfulAt(canon: Canon, a: Accounts, h: seq<Outcome>, i: nat)
    requires i < |h| && h[i].LoggedIn?
  {
    var number := canon(h[i].phone);
    && Rightful(a, number, h[i].user)
    && (h[i].created <==> number !in a.phoneNumbers && number !in a.users.Values && NoLogin(canon, h[..i], number))
  }

  /**
   Every login to a number is the user that the number belonged to at the start; one is created exactly
   by the first login to a number that neither table knew then.
   */
  lemma {:induction false} RightfulUser(s: Settings, a: Accounts, calls: seq<Call>, i: nat)
    requires a.Valid() && i < |calls| && Run(s, a, calls).log[i].LoggedIn?
    ensures RightfulAt(s.canon, a, Run(s, a, calls).log, i)
    decreases |calls|
  {
    var n := |calls| - 1;
    if i < n {
      RightfulUser(s, a, calls[..n], i);
      StillRightful(s.canon, a, Run(s, a, calls[..n]).log, Run(s, a, calls).log, i);
    } else {
      RunOwners(s, a, calls[..n], s.canon(calls[n].phone));
      RunAccounts(s, a, calls[..n]);
      RightfulNext(s, a, Run(s, a, calls[..n]), calls[n]);
    }
  }

  lemma StillRightful(canon: Canon, a: Accounts, h: seq<Outcome>, more: seq<Outcome>, i: nat)
    requires h <= more && i < |h| && h[i].LoggedIn? && RightfulAt(canon, a, h, i)
    ensures RightfulAt(canon, a, more, i)
  {
    assert h[..i] == more[..i];
  }

  lemma RightfulNext(s: Settings, a: Accounts, t: Trace, c: Call)
    requires t.world.accounts.Valid() && OwnerAgrees(s.canon, a, t.world, t.log, s.canon(c.phone))
    requires Act(s, t.world, c).1.LoggedIn?
    ensures RightfulAt(s.canon, a, Extend(s, t, c).log, |t.log|)
  {
    var number := s.canon(c.phone);
    ResolveKeeps(t.world.accounts, number);
    assert Extend(s, t, c).log[..|t.log|] == t.log;
    if number !in t.world.accounts.phoneNumbers {
      SameOwners(a, t.world.accounts, number, Act(s, t.world, c).1.user);
    }
  }

  /** All logins to a number, under whatever spelling, are the same user, and only the first can have created it. */
  lemma {:induction false} SameUser(s: Settings, a: Accounts, calls: seq<Call>, i: nat, j: nat)
    requires a.Valid() && i < j < |calls|
    requires Run(s, a, calls).log[i].LoggedIn? && Run(s, a, calls).log[j].LoggedIn?
    requires s.canon(Run(s, a, calls).log[i].phone) == s.canon(Run(s, a, calls).log[j].phone)
    ensures Run(s, a, calls).log[i].user == Run(s, a, calls).log[j].user && !Run(s, a, calls).log[j].created
    decreases |calls|
  {
    var n := |calls| - 1;
    if j < n {
      SameUser(s, a, calls[..n], i, j);
    } else {
      RunAccounts(s, a, calls[..n]);
      ResolveKeeps(Run(s, a, calls[..n]).world.accounts, s.canon(calls[n].phone));
    }
  }
}
