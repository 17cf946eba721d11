/**
 How many wrong codes are compared during the life of a code. Each spelling of a number has its own
 attempt counter, while all of them are compared with the one code of the number.
 */
module OtpGuesses {
  import opened Results
  import opened TtlCache
  import opened Windows
  import opened Spellings
  import opened OtpCounters
  import opened OtpModels
  import opened OtpFlow

  /** The attempts refused after event `i`, by the instants they were compared at. */
  function GuessLog(h: seq<Outcome>, i: nat): seq<Stamp> {
    if |h| <= i + 1 then []
    else
      var n := |h| - 1;
      if h[n].Refused? then GuessLog(h[..n], i) + [Stamp(h[n].phone, h[n].compared)] else GuessLog(h[..n], i)
  }

  /** The same attempts, by the instants they were counted at. */
  function CountLog(h: seq<Outcome>, i: nat): seq<Stamp> {
    if |h| <= i + 1 then []
    else
      var n := |h| - 1;
      if h[n].Refused? then CountLog(h[..n], i) + [Stamp(h[n].phone, h[n].counted)] else CountLog(h[..n], i)
  }

  ghost predicate NoLoginBy(h: seq<Outcome>, i: nat, phone: string) {
    forall k | i < k < |h| :: !(h[k].LoggedIn? && h[k].phone == phone)
  }

  /** Event `i` sends a code to the number, and there was no login to the number since. */
  ghost predicate NoLoginSince(canon: Canon, h: seq<Outcome>, i: nat, number: string) {
    && i < |h| && h[i].Sent? && canon(h[i].phone) == number
    && (forall k | i < k < |h| :: !(h[k].LoggedIn? && canon(h[k].phone) == number))
  }

  /** From the issue of event `i` to its inclusive expiry. */
  function Validity(s: Settings, h: seq<Outcome>, i: nat): Span
    requires i < |h| && h[i].Sent?
  {
    FromThrough(h[i].issued, h[i].issued + s.validDuration)
  }

  /** What capped windows of attempts put into a closed span of this length. */
  function Budget(validity: real): (n: nat)
    ensures 0.0 <= validity < VERIFY_LOCKOUT_TTL ==> n <= 2 * MAX_VERIFY_ATTEMPTS - 1
    ensures validity == VERIFY_LOCKOUT_TTL ==> n == 2 * MAX_VERIFY_ATTEMPTS
  {
    if validity < 0.0 then 0 else Packed(validity, VERIFY_LOCKOUT_TTL, MAX_VERIFY_ATTEMPTS) + MAX_VERIFY_ATTEMPTS
  }

  lemma BudgetIsMost(span: Span, validity: real)
    requires span.FromThrough? && span.to == span.from + validity
    ensures Most(span, VERIFY_LOCKOUT_TTL, MAX_VERIFY_ATTEMPTS) == Budget(validity)
  {
    assert span.to - span.from == validity;
  }

  lemma PushGuess(h: seq<Outcome>, o: Outcome, i: nat)
    requires i < |h|
    ensures GuessLog(h + [o], i) == if o.Refused? then GuessLog(h, i) + [Stamp(o.phone, o.compared)] else GuessLog(h, i)
    ensures CountLog(h + [o], i) == if o.Refused? then CountLog(h, i) + [Stamp(o.phone, o.counted)] else CountLog(h, i)
  {
    assert (h + [o])[..|h|] == h;
  }

  ghost predicate EndsIn(ts: seq<real>, us: seq<real>) {
    |us| <= |ts| && ts[|ts| - |us|..] == us
  }

  lemma EndsInMore(ts: seq<real>, us: seq<real>, t: real)
    requires EndsIn(ts, us)
    ensures EndsIn(ts + [t], us + [t])
  {
  }

  lemma PushCounted(h: seq<Outcome>, o: Outcome, i: nat, phone: string)
    requires i < |h|
    ensures By(CountLog(h + [o], i), phone)
         == if o.Refused? && o.phone == phone then By(CountLog(h, i), phone) + [o.counted]
            else By(CountLog(h, i), phone)
  {
    PushGuess(h, o, i);
    if o.Refused? {
      PushBy(CountLog(h, i), Stamp(o.phone, o.counted), phone);
    }
  }

  /** Until the next login of a spelling all its guesses since event `i` are still among its failures. */
  lemma {:induction false} GuessesAreFailures(h: seq<Outcome>, i: nat, phone: string)
    requires i < |h| && NoLoginBy(h, i, phone)
    ensures EndsIn(Failures(h, phone), By(CountLog(h, i), phone))
  {
    var n := |h| - 1;
    if n > i {
      var o := h[n];
      assert h == h[..n] + [o];
      GuessesAreFailures(h[..n], i, phone);
      PushCounted(h[..n], o, i, phone);
      PushFailures(h[..n], o, phone);
      if o.Refused? && o.phone == phone {
        EndsInMore(Failures(h[..n], phone), By(CountLog(h[..n], i), phone), o.counted);
      }
    }
  }

  /** Attempts are counted after they are compared, and before the next call; nothing is issued ahead of time. */
  ghost predicate InTime(h: seq<Outcome>, clock: real) {
    && (forall k | 0 <= k < |h| && h[k].Refused? :: h[k].compared <= h[k].counted <= clock)
    && (forall k | 0 <= k < |h| && h[k].Sent? :: h[k].issued <= clock)
  }

  lemma {:induction false} RunInTime(s: Settings, a: Accounts, calls: seq<Call>)
    requires Sequential(calls)
    ensures InTime(Run(s, a, calls).log, Clock(calls))
  {
    if calls != [] {
      RunSplits(s, a, calls);
      RunInTime(s, a, calls[..|calls| - 1]);
    }
  }

  ghost predicate Delayed(xs: seq<real>, ts: seq<real>, clock: real) {
    |xs| == |ts| && forall k | 0 <= k < |xs| :: xs[k] <= ts[k] <= clock
  }

  lemma DelayedMore(xs: seq<real>, ts: seq<real>, x: real, t: real, clock: real)
    requires Delayed(xs, ts, clock) && x <= t <= clock
    ensures Delayed(xs + [x], ts + [t], clock)
  {
  }

  lemma InTimePrefix(h: seq<Outcome>, n: nat, clock: real)
    requires InTime(h, clock) && n <= |h|
    ensures InTime(h[..n], clock)
  {
  }

  lemma DelayedPush(h: seq<Outcome>, o: Outcome, i: nat, phone: string, clock: real)
    requires i < |h| && (o.Refused? ==> o.compared <= o.counted <= clock)
    requires Delayed(By(GuessLog(h, i), phone), By(CountLog(h, i), phone), clock)
    ensures Delayed(By(GuessLog(h + [o], i), phone), By(CountLog(h + [o], i), phone), clock)
  {
    PushGuess(h, o, i);
    if o.Refused? {
      PushBy(GuessLog(h, i), Stamp(o.phone, o.compared), phone);
      PushBy(CountLog(h, i), Stamp(o.phone, o.counted), phone);
      if o.phone == phone {
        DelayedMore(By(GuessLog(h, i), phone), By(CountLog(h, i), phone), o.compared, o.counted, clock);
      }
    }
  }

  lemma {:induction false} CountedLater(h: seq<Outcome>, i: nat, phone: string, clock: real)
    requires InTime(h, clock)
    ensures Delayed(By(GuessLog(h, i), phone), By(CountLog(h, i), phone), clock)
  {
    if |h| > i + 1 {
      var n := |h| - 1;
      InTimePrefix(h, n, clock);
      CountedLater(h[..n], i, phone, clock);
      DelayedPush(h[..n], h[n], i, phone, clock);
      assert h == h[..n] + [h[n]];
    }
  }

  /** Before one more comparison in a closed span, the spelling has used less than the span can hold. */
  lemma RoomForOne(w: World, h: seq<Outcome>, clock: real, phone: string, i: nat, span: Span, tCheck: real)
    requires CounterAgrees(w, h, clock, phone) && InTime(h, clock) && i < |h| && NoLoginBy(h, i, phone)
    requires !Reached(w.store, OtpVerify(phone), MAX_VERIFY_ATTEMPTS, tCheck)
    requires clock <= tCheck && span.FromThrough? && span.Has(tCheck)
    ensures CountIn(By(GuessLog(h, i), phone), span) <= Most(span, VERIFY_LOCKOUT_TTL, MAX_VERIFY_ATTEMPTS) - 1
  {
    var failures := Failures(h, phone);
    CountIsWindow(w.store, OtpVerify(phone), failures, VERIFY_LOCKOUT_TTL, tCheck);
    RoomLeft(failures, VERIFY_LOCKOUT_TTL, MAX_VERIFY_ATTEMPTS, span, tCheck);
    GuessesAreFailures(h, i, phone);
    CountInSuffix(failures, By(CountLog(h, i), phone), span);
    CountedLater(h, i, phone, clock);
    CountInShift(By(GuessLog(h, i), phone), By(CountLog(h, i), phone), span);
  }

  lemma NoLoginBefore(h: seq<Outcome>, o: Outcome, i: nat, phone: string)
    requires NoLoginBy(h + [o], i, phone)
    ensures NoLoginBy(h, i, phone)
  {
    forall k | i < k < |h| ensures !(h[k].LoggedIn? && h[k].phone == phone) {
      assert (h + [o])[k] == h[k];
    }
  }

  lemma PushCompared(h: seq<Outcome>, o: Outcome, i: nat, phone: string, span: Span)
    requires i < |h|
    ensures CountIn(By(GuessLog(h + [o], i), phone), span)
         == CountIn(By(GuessLog(h, i), phone), span)
            + if o.Refused? && o.phone == phone && span.Has(o.compared) then 1 else 0
  {
    PushGuess(h, o, i);
    if o.Refused? {
      PushBy(GuessLog(h, i), Stamp(o.phone, o.compared), phone);
      CountInPush(By(GuessLog(h, i), phone), o.compared, span);
    }
  }

  ghost predicate WithinBudget(s: Settings, h: seq<Outcome>, i: nat, phone: string) {
    && i < |h| && h[i].Sent?
    && CountIn(By(GuessLog(h, i), phone), Validity(s, h, i)) <= Budget(s.validDuration)
  }

  /** A refusal by a call that began at `tCheck`, at which its spelling was not locked out. */
  ghost predicate FairlyRefused(w: World, clock: real, o: Outcome, tCheck: real) {
    o.Refused? ==>
      clock <= tCheck <= o.compared && !Reached(w.store, OtpVerify(o.phone), MAX_VERIFY_ATTEMPTS, tCheck)
  }

  lemma RefusalsAreFair(s: Settings, w: World, clock: real, c: Call)
    requires Timely(clock, c)
    ensures FairlyRefused(w, clock, Act(s, w, c).1, c.tCheck)
  {
  }

  lemma GuessStep(s: Settings, w: World, h: seq<Outcome>, clock: real, phone: string, i: nat, o: Outcome, tCheck: real)
    requires CounterAgrees(w, h, clock, phone) && InTime(h, clock) && NoLoginBy(h, i, phone)
    requires FairlyRefused(w, clock, o, tCheck) && WithinBudget(s, h, i, phone)
    ensures WithinBudget(s, h + [o], i, phone)
  {
    var span := Validity(s, h, i);
    PushCompared(h, o, i, phone, span);
    if o.Refused? && o.phone == phone && span.Has(o.compared) {
      RoomForOne(w, h, clock, phone, i, span, tCheck);
      BudgetIsMost(span, s.validDuration);
    }
  }

  lemma GuessesBefore(s: Settings, a: Accounts, calls: seq<Call>, phone: string, i: nat)
    requires Sequential(calls) && i < |calls| - 1 && NoLoginBy(Run(s, a, calls).log, i, phone)
    requires WithinBudget(s, Run(s, a, calls[..|calls| - 1]).log, i, phone)
    ensures WithinBudget(s, Run(s, a, calls).log, i, phone)
  {
    var n := |calls| - 1;
    var t := Run(s, a, calls[..n]);
    var o := Act(s, t.world, calls[n]).1;
    RunSplits(s, a, calls);
    NoLoginBefore(t.log, o, i, phone);
    RunAgrees(s, a, calls[..n], phone, phone);
    RunInTime(s, a, calls[..n]);
    RefusalsAreFair(s, t.world, Clock(calls[..n]), calls[n]);
    GuessStep(s, t.world, t.log, Clock(calls[..n]), phone, i, o, calls[n].tCheck);
  }

  lemma NoneYet(h: seq<Outcome>, i: nat, phone: string, span: Span)
    requires |h| <= i + 1
    ensures CountIn(By(GuessLog(h, i), phone), span) == 0
  {
  }

  /**
   From the issue of a code to its inclusive expiry, for any validity: the wrong attempts compared
   under one spelling, as long as that spelling has no login. The budget is twice the attempt limit
   when the code lives for the lockout time, and one less when it lives shorter.
   */
  lemma {:induction false} SpellingBudget(s: Settings, a: Accounts, calls: seq<Call>, phone: string, i: nat)
    requires Sequential(calls) && i < |calls| && Run(s, a, calls).log[i].Sent?
             && NoLoginBy(Run(s, a, calls).log, i, phone)
    ensures WithinBudget(s, Run(s, a, calls).log, i, phone)
    decreases |calls|
  {
    var n := |calls| - 1;
    var h := Run(s, a, calls).log;
    if i < n {
      RunSplits(s, a, calls);
      NoLoginBefore(h[..n], h[n], i, phone);
      SpellingBudget(s, a, calls[..n], phone, i);
      GuessesBefore(s, a, calls, phone, i);
    } else {
      NoneYet(h, i, phone, Validity(s, h, i));
    }
  }

  /** The wrong attempts compared for a number during the life of the code that event `i` sent. */
  function Compared(s: Settings, h: seq<Outcome>, i: nat, number: string): nat
    requires i < |h| && h[i].Sent?
  {
    CountIn(On(s.canon, GuessLog(h, i), number), Validity(s, h, i))
  }

  /**
   For a number without a login since, that is the budget once for every spelling used. So it is the
   budget when the number has one spelling, or when all guesses came in normal form.
   */
  lemma GuessBudget(s: Settings, a: Accounts, calls: seq<Call>, number: string, i: nat)
    requires Sequential(calls) && NoLoginSince(s.canon, Run(s, a, calls).log, i, number)
    ensures var h := Run(s, a, calls).log;
            && Compared(s, h, i, number) <= Budget(s.validDuration) * |Used(s.canon, GuessLog(h, i), number)|
            && (OneSpelling(s.canon, number) || InNormalForm(s.canon, GuessLog(h, i), number) ==>
                  Compared(s, h, i, number) <= Budget(s.validDuration))
  {
    var h := Run(s, a, calls).log;
    var log := GuessLog(h, i);
    forall p | p in Used(s.canon, log, number)
      ensures CountIn(By(log, p), Validity(s, h, i)) <= Budget(s.validDuration)
    {
      SpellingBudget(s, a, calls, p, i);
    }
    OnBound(s.canon, log, number, Validity(s, h, i), Budget(s.validDuration));
    if OneSpelling(s.canon, number) || InNormalForm(s.canon, log, number) {
      UsedOnce(s.canon, log, number);
      AtMostTimes(Budget(s.validDuration), |Used(s.canon, log, number)|);
    }
  }

  // ---------- The budget is attained ----------

  function Wrong(phone: string, guess: string, t: real): Call {
    Verify(phone, guess, t, t, t, t)
  }

  /**
   At `now` the number has this code, sent by event 1 and good for `span`; the spelling has `count`
   failures in a window that lasts to `end`; and `n` wrong attempts have been compared in the span.
   */
  ghost predicate Point(s: Settings, t: Trace, phone: string, code: string, now: real, count: nat, end: real,
                        span: Span, n: nat) {
    var number := s.canon(phone);
    && number in t.world.rows && t.world.rows[number] == StoredOtp(Some(code), Some(span.to))
    && Count(t.world.store, OtpVerify(phone), now) == count
    && (if count > 0 then t.world.store[OtpVerify(phone)].deadline == end
        else end == now + VERIFY_LOCKOUT_TTL && !Live(t.world.store, OtpVerify(phone), now))
    && NoLoginSince(s.canon, t.log, 1, number) && Validity(s, t.log, 1) == span
    && Compared(s, t.log, 1, number) == n
  }

  lemma OneWrong(s: Settings, t: Trace, phone: string, code: string, guess: string, now: real, count: nat, end: real,
                 span: Span, n: nat)
    requires Point(s, t, phone, code, now, count, end, span, n)
    requires count < MAX_VERIFY_ATTEMPTS && guess != code && span.Has(now)
    ensures Point(s, Extend(s, t, Wrong(phone, guess, now)), phone, code, now, count + 1, end, span, n + 1)
  {
    var o := Refused(phone, now, now);
    assert Act(s, t.world, Wrong(phone, guess, now)).1 == o;
    MoreCompared(s, t.log, o, phone, now, span);
  }

  /** One more wrong attempt in the span, by any spelling of the number. */
  lemma MoreCompared(s: Settings, h: seq<Outcome>, o: Outcome, phone: string, now: real, span: Span)
    requires NoLoginSince(s.canon, h, 1, s.canon(phone)) && Validity(s, h, 1) == span && span.Has(now)
    requires o.Refused? && o.compared == now && s.canon(o.phone) == s.canon(phone)
    ensures NoLoginSince(s.canon, h + [o], 1, s.canon(phone)) && Validity(s, h + [o], 1) == span
    ensures Compared(s, h + [o], 1, s.canon(phone)) == Compared(s, h, 1, s.canon(phone)) + 1
  {
    var log := GuessLog(h, 1);
    PushGuess(h, o, 1);
    PushOn(s.canon, log, Stamp(o.phone, now), s.canon(phone));
    CountInPush(On(s.canon, log, s.canon(phone)), now, span);
  }

  /** A run of calls under one spelling, in order up to `now`, to such a point. */
  ghost predicate Guessed(s: Settings, a: Accounts, calls: seq<Call>, phone: string, code: string, now: real,
                          count: nat, end: real, span: Span, n: nat) {
    && Sequential(calls) && Clock(calls) <= now && (forall c | c in calls :: c.phone == phone)
    && Point(s, Run(s, a, calls), phone, code, now, count, end, span, n)
  }

  lemma OneMoreCall(s: Settings, a: Accounts, calls: seq<Call>, c: Call)
    requires Sequential(calls) && Timely(Clock(calls), c)
    ensures Sequential(calls + [c]) && Clock(calls + [c]) == End(c)
    ensures Run(s, a, calls + [c]) == Extend(s, Run(s, a, calls), c)
  {
    var more := calls + [c];
    assert more[..|more| - 1] == calls;
    forall n | 0 <= n < |more| ensures Timely(Clock(more[..n]), more[n]) {
      if n < |calls| {
        assert more[..n] == calls[..n];
      }
    }
  }

  lemma WrongInRun(s: Settings, a: Accounts, calls: seq<Call>, phone: string, code: string, guess: string, now: real,
                   count: nat, end: real, span: Span, n: nat)
    requires Guessed(s, a, calls, phone, code, now, count, end, span, n)
    requires guess != code && count < MAX_VERIFY_ATTEMPTS && span.Has(now)
    ensures Guessed(s, a, calls + [Wrong(phone, guess, now)], phone, code, now, count + 1, end, span, n + 1)
  {
    OneMoreCall(s, a, calls, Wrong(phone, guess, now));
    OneWrong(s, Run(s, a, calls), phone, code, guess, now, count, end, span, n);
  }

  /** And `m` wrong attempts more at that instant. */
  ghost predicate GuessedMore(s: Settings, a: Accounts, calls: seq<Call>, phone: string, code: string, guess: string,
                              now: real, count: nat, end: real, span: Span, n: nat, m: nat) {
    Guessed(s, a, calls + Repeat(Wrong(phone, guess, now), m), phone, code, now, count + m, end, span, n + m)
  }

  lemma NoneWrong(s: Settings, a: Accounts, calls: seq<Call>, phone: string, code: string, guess: string, now: real,
                  count: nat, end: real, span: Span, n: nat)
    requires Guessed(s, a, calls, phone, code, now, count, end, span, n)
    ensures GuessedMore(s, a, calls, phone, code, guess, now, count, end, span, n, 0)
  {
    assert calls + Repeat(Wrong(phone, guess, now), 0) == calls;
  }

  lemma OneWrongMore(s: Settings, a: Accounts, calls: seq<Call>, phone: string, code: string, guess: string, now: real,
                     count: nat, end: real, span: Span, n: nat, m: nat)
    requires m > 0 && GuessedMore(s, a, calls, phone, code, guess, now, count, end, span, n, m - 1)
    requires guess != code && count + m <= MAX_VERIFY_ATTEMPTS && span.Has(now)
    ensures GuessedMore(s, a, calls, phone, code, guess, now, count, end, span, n, m)
  {
    var c := Wrong(phone, guess, now);
    RepeatMore(calls, c, m);
    WrongThen(s, a, calls + Repeat(c, m - 1), calls + Repeat(c, m), phone, code, guess, now, count + (m - 1), count + m,
              end, span, n + (m - 1), n + m);
  }

  lemma WrongThen(s: Settings, a: Accounts, calls: seq<Call>, more: seq<Call>, phone: string, code: string,
                  guess: string, now: real, count: nat, count': nat, end: real, span: Span, n: nat, n': nat)
    requires Guessed(s, a, calls, phone, code, now, count, end, span, n)
    requires guess != code && count < MAX_VERIFY_ATTEMPTS && span.Has(now)
    requires more == calls + [Wrong(phone, guess, now)] && count' == count + 1 && n' == n + 1
    ensures Guessed(s, a, more, phone, code, now, count', end, span, n')
  {
    WrongInRun(s, a, calls, phone, code, guess, now, count, end, span, n);
  }

  lemma {:induction false} MoreWrong(s: Settings, a: Accounts, calls: seq<Call>, phone: string, code: string,
                                     guess: string, now: real, count: nat, end: real, span: Span, n: nat, m: nat)
    requires GuessedMore(s, a, calls, phone, code, guess, now, count, end, span, n, 0)
    requires guess != code && count + m <= MAX_VERIFY_ATTEMPTS && span.Has(now)
    ensures GuessedMore(s, a, calls, phone, code, guess, now, count, end, span, n, m)
  {
    if m > 0 {
      MoreWrong(s, a, calls, phone, code, guess, now, count, end, span, n, m - 1);
      OneWrongMore(s, a, calls, phone, code, guess, now, count, end, span, n, m);
    }
  }

  lemma ManyWrong(s: Settings, a: Accounts, calls: seq<Call>, phone: string, code: string, guess: string, now: real,
                  count: nat, end: real, span: Span, n: nat, m: nat)
    requires Guessed(s, a, calls, phone, code, now, count, end, span, n)
    requires guess != code && count + m <= MAX_VERIFY_ATTEMPTS && span.Has(now)
    ensures GuessedMore(s, a, calls, phone, code, guess, now, count, end, span, n, m)
  {
    NoneWrong(s, a, calls, phone, code, guess, now, count, end, span, n);
    MoreWrong(s, a, calls, phone, code, guess, now, count, end, span, n, m);
  }

  /** The window is over: the next guess opens a new one. */
  lemma WindowOver(s: Settings, a: Accounts, calls: seq<Call>, phone: string, code: string, now: real,
                   count: nat, end: real, span: Span, n: nat, later: real)
    requires Guessed(s, a, calls, phone, code, now, count, end, span, n) && count > 0 && now <= later && end <= later
    ensures Guessed(s, a, calls, phone, code, later, 0, later + VERIFY_LOCKOUT_TTL, span, n)
  {
  }

  /** A guess at zero opens a window; at `issue`, not after that window, a code is sent. */
  function Opening(phone: string, code: string, guess: string, issue: real): seq<Call> {
    [Wrong(phone, guess, 0.0)] + [Send(phone, code, issue, issue, issue, issue)]
  }

  /** What the opening leaves behind. */
  function Opened(s: Settings, a: Accounts, phone: string, code: string, issue: real): Trace {
    Trace(World(map[OtpVerify(phone) := Entry(1, VERIFY_LOCKOUT_TTL)][OtpRate(phone) := Entry(1, issue + RATE_TTL)],
                map[s.canon(phone) := StoredOtp(Some(code), Some(issue + s.validDuration))], a),
          [Refused(phone, 0.0, 0.0)] + [Sent(phone, code, issue, issue)])
  }

  lemma OpeningTrace(s: Settings, a: Accounts, phone: string, code: string, guess: string, issue: real)
    requires 0.0 < issue <= VERIFY_LOCKOUT_TTL
    ensures var calls := Opening(phone, code, guess, issue);
            && Sequential(calls) && Clock(calls) == issue && Run(s, a, calls) == Opened(s, a, phone, code, issue)
  {
    var first, send := Wrong(phone, guess, 0.0), Send(phone, code, issue, issue, issue, issue);
    assert [] + [first] == [first];
    OneMoreCall(s, a, [], first);
    OneMoreCall(s, a, [first], send);
    FirstGuess(s, a, phone, guess);
    FirstSend(s, a, phone, code, issue);
  }

  lemma FirstGuess(s: Settings, a: Accounts, phone: string, guess: string)
    ensures Extend(s, Run(s, a, []), Wrong(phone, guess, 0.0))
         == Trace(World(map[OtpVerify(phone) := Entry(1, VERIFY_LOCKOUT_TTL)], map[], a), [Refused(phone, 0.0, 0.0)])
  {
  }

  lemma FirstSend(s: Settings, a: Accounts, phone: string, code: string, issue: real)
    ensures var t := Trace(World(map[OtpVerify(phone) := Entry(1, VERIFY_LOCKOUT_TTL)], map[], a),
                           [Refused(phone, 0.0, 0.0)]);
            Extend(s, t, Send(phone, code, issue, issue, issue, issue)) == Opened(s, a, phone, code, issue)
  {
  }

  lemma OpenedPoint(s: Settings, a: Accounts, phone: string, code: string, issue: real)
    requires 0.0 < issue <= VERIFY_LOCKOUT_TTL
    ensures var t, span := Opened(s, a, phone, code, issue), FromThrough(issue, issue + s.validDuration);
            if issue < VERIFY_LOCKOUT_TTL then Point(s, t, phone, code, issue, 1, VERIFY_LOCKOUT_TTL, span, 0)
            else Point(s, t, phone, code, issue, 0, issue + VERIFY_LOCKOUT_TTL, span, 0)
  {
    assert GuessLog(Opened(s, a, phone, code, issue).log, 1) == [];
  }

  lemma OpeningRun(s: Settings, a: Accounts, phone: string, code: string, guess: string, issue: real)
    requires 0.0 < issue <= VERIFY_LOCKOUT_TTL
    ensures var calls, span := Opening(phone, code, guess, issue), FromThrough(issue, issue + s.validDuration);
            if issue < VERIFY_LOCKOUT_TTL
            then Guessed(s, a, calls, phone, code, issue, 1, VERIFY_LOCKOUT_TTL, span, 0)
            else Guessed(s, a, calls, phone, code, issue, 0, issue + VERIFY_LOCKOUT_TTL, span, 0)
  {
    OpeningTrace(s, a, phone, code, guess, issue);
    OpenedPoint(s, a, phone, code, issue);
  }

  lemma BurstInRun(s: Settings, a: Accounts, calls: seq<Call>, phone: string, code: string, guess: string,
                   span: Span, n: nat, now: real)
    requires Guessed(s, a, calls, phone, code, now, 0, now + VERIFY_LOCKOUT_TTL, span, n) && guess != code
             && span.Has(now)
    ensures var more := calls + Repeat(Wrong(phone, guess, now), MAX_VERIFY_ATTEMPTS);
            var next := now + VERIFY_LOCKOUT_TTL;
            && Guessed(s, a, more, phone, code, next, 0, next + VERIFY_LOCKOUT_TTL, span, n + MAX_VERIFY_ATTEMPTS)
            && Clock(more) <= now
  {
    var more, end := calls + Repeat(Wrong(phone, guess, now), MAX_VERIFY_ATTEMPTS), now + VERIFY_LOCKOUT_TTL;
    ManyWrong(s, a, calls, phone, code, guess, now, 0, end, span, n, MAX_VERIFY_ATTEMPTS);
    WindowOver(s, a, more, phone, code, now, MAX_VERIFY_ATTEMPTS, end, span, n + MAX_VERIFY_ATTEMPTS, end);
  }

  /** When the `j`th window starts. */
  function Start(j: nat): real {
    (j as real) * VERIFY_LOCKOUT_TTL
  }

  lemma StartNext(j: nat)
    ensures Start(j + 1) == Start(j) + VERIFY_LOCKOUT_TTL
  {
  }

  /** The bursts are done, and the next window could start. */
  ghost predicate BurstsDone(s: Settings, a: Accounts, calls: seq<Call>, phone: string, code: string, span: Span,
                             n: nat, j: nat) {
    Guessed(s, a, calls, phone, code, Start(j + 1), 0, Start(j + 1) + VERIFY_LOCKOUT_TTL, span, n)
  }

  /** A full window of wrong guesses, opened the moment the one before ends. */
  lemma NextBurst(s: Settings, a: Accounts, calls: seq<Call>, phone: string, code: string, guess: string,
                  span: Span, n: nat, j: nat) returns (more: seq<Call>)
    requires j > 0 && BurstsDone(s, a, calls, phone, code, span, n, j - 1) && guess != code && span.Has(Start(j))
    ensures BurstsDone(s, a, more, phone, code, span, n + MAX_VERIFY_ATTEMPTS, j) && Clock(more) <= Start(j)
  {
    StartNext(j);
    more := calls + Repeat(Wrong(phone, guess, Start(j)), MAX_VERIFY_ATTEMPTS);
    BurstInRun(s, a, calls, phone, code, guess, span, n, Start(j));
  }

  /** Starts of windows from the first to the `j`th are in the span. */
  ghost predicate Spans(span: Span, j: nat) {
    forall i | 1 <= i <= j :: span.Has(Start(i))
  }

  lemma {:induction false} BurstsInRun(s: Settings, a: Accounts, calls: seq<Call>, phone: string, code: string,
                                       guess: string, span: Span, n: nat, j: nat) returns (more: seq<Call>)
    requires BurstsDone(s, a, calls, phone, code, span, n, 0) && guess != code && Spans(span, j) && j > 0
    ensures BurstsDone(s, a, more, phone, code, span, n + j * MAX_VERIFY_ATTEMPTS, j) && Clock(more) <= Start(j)
  {
    if j == 1 {
      more := NextBurst(s, a, calls, phone, code, guess, span, n, 1);
    } else {
      var before := BurstsInRun(s, a, calls, phone, code, guess, span, n, j - 1);
      more := NextBurst(s, a, before, phone, code, guess, span, n + (j - 1) * MAX_VERIFY_ATTEMPTS, j);
    }
  }

  lemma StartsRise(i: nat, j: nat)
    requires i <= j
    ensures Start(i) <= Start(j)
  {
  }

  lemma {:induction false} BudgetOf(k: nat, rest: real)
    requires 0.0 <= rest < VERIFY_LOCKOUT_TTL
    ensures Budget(rest + Start(k)) == Left(rest) + (k + 1) * MAX_VERIFY_ATTEMPTS
  {
    if k > 0 {
      BudgetOf(k - 1, rest);
      assert rest + Start(k) - VERIFY_LOCKOUT_TTL == rest + Start(k - 1);
    }
  }

  /** What is left of the first window once its opening guess is outside the span. */
  function Left(rest: real): nat {
    if rest == 0.0 then 0 else MAX_VERIFY_ATTEMPTS - 1
  }

  /** When the code is issued: half a remainder before the end of the first window. */
  function Issue(rest: real): real {
    VERIFY_LOCKOUT_TTL - rest / 2.0
  }

  /** Issue the code, and use up what is left of the first window. */
  function FirstPart(phone: string, code: string, guess: string, issue: real, left: nat): seq<Call> {
    Opening(phone, code, guess, issue) + Repeat(Wrong(phone, guess, issue), left)
  }

  lemma FirstPartRun(s: Settings, a: Accounts, phone: string, code: string, guess: string, issue: real, left: nat)
    requires 0.0 < issue <= VERIFY_LOCKOUT_TTL && 0.0 <= s.validDuration && guess != code
    requires left == if issue == VERIFY_LOCKOUT_TTL then 0 else MAX_VERIFY_ATTEMPTS - 1
    ensures BurstsDone(s, a, FirstPart(phone, code, guess, issue, left), phone, code,
                       FromThrough(issue, issue + s.validDuration), left, 0)
  {
    var opening := Opening(phone, code, guess, issue);
    OpeningRun(s, a, phone, code, guess, issue);
    if left == 0 {
      assert FirstPart(phone, code, guess, issue, 0) == opening;
    } else {
      FirstWindow(s, a, opening, phone, code, guess, issue, FromThrough(issue, issue + s.validDuration));
    }
  }

  lemma FirstWindow(s: Settings, a: Accounts, calls: seq<Call>, phone: string, code: string, guess: string,
                    issue: real, span: Span)
    requires Guessed(s, a, calls, phone, code, issue, 1, VERIFY_LOCKOUT_TTL, span, 0)
    requires issue < VERIFY_LOCKOUT_TTL && guess != code && span.Has(issue)
    ensures BurstsDone(s, a, calls + Repeat(Wrong(phone, guess, issue), MAX_VERIFY_ATTEMPTS - 1), phone, code, span,
                       MAX_VERIFY_ATTEMPTS - 1, 0)
  {
    var m := MAX_VERIFY_ATTEMPTS - 1;
    ManyWrong(s, a, calls, phone, code, guess, issue, 1, VERIFY_LOCKOUT_TTL, span, 0, m);
    WindowOver(s, a, calls + Repeat(Wrong(phone, guess, issue), m), phone, code, issue, m + 1, VERIFY_LOCKOUT_TTL,
               span, m, VERIFY_LOCKOUT_TTL);
  }

  /** The whole windows in a validity, and what remains. */
  function Windowfuls(validity: real): (k: nat)
    requires validity >= 0.0
    ensures 0.0 <= validity - Start(k) < VERIFY_LOCKOUT_TTL
  {
    (validity / VERIFY_LOCKOUT_TTL).Floor
  }

  /** When the last burst comes, and the span of the code. */
  function LastBurst(validity: real): real
    requires validity >= 0.0
  {
    Start(Windowfuls(validity) + 1)
  }

  function CodeSpan(validity: real): Span
    requires validity >= 0.0
  {
    var issue := Issue(validity - Start(Windowfuls(validity)));
    FromThrough(issue, issue + validity)
  }

  lemma SpanHasBursts(validity: real)
    requires validity >= 0.0
    ensures Spans(CodeSpan(validity), Windowfuls(validity) + 1)
  {
    var k := Windowfuls(validity);
    StartNext(k);
    forall i | 1 <= i <= k + 1 ensures CodeSpan(validity).Has(Start(i)) {
      StartsRise(1, i);
      StartsRise(i, k + 1);
    }
  }

  lemma BudgetParts(validity: real)
    requires validity >= 0.0
    ensures Budget(validity) == Left(validity - Start(Windowfuls(validity)))
                                + (Windowfuls(validity) + 1) * MAX_VERIFY_ATTEMPTS
  {
    var k := Windowfuls(validity);
    BudgetOf(k, validity - Start(k));
    assert validity - Start(k) + Start(k) == validity;
  }

  /** A run of calls under one spelling that uses the budget to the full, done by an instant in the validity. */
  ghost predicate UsesUp(s: Settings, a: Accounts, calls: seq<Call>, phone: string, code: string)
    requires s.validDuration >= 0.0
  {
    && BurstsDone(s, a, calls, phone, code, CodeSpan(s.validDuration), Budget(s.validDuration),
                  Windowfuls(s.validDuration) + 1)
    && Clock(calls) <= LastBurst(s.validDuration)
  }

  lemma Exhausting(s: Settings, a: Accounts, phone: string, code: string, guess: string) returns (calls: seq<Call>)
    requires s.validDuration >= 0.0 && guess != code
    ensures UsesUp(s, a, calls, phone, code)
  {
    var k := Windowfuls(s.validDuration);
    BudgetParts(s.validDuration);
    calls := Rest(s, a, phone, code, guess, k, s.validDuration - Start(k));
  }

  lemma Rest(s: Settings, a: Accounts, phone: string, code: string, guess: string, k: nat, rest: real)
    returns (calls: seq<Call>)
    requires s.validDuration >= 0.0 && guess != code
    requires k == Windowfuls(s.validDuration) && rest == s.validDuration - Start(k)
    ensures BurstsDone(s, a, calls, phone, code, CodeSpan(s.validDuration),
                       Left(rest) + (k + 1) * MAX_VERIFY_ATTEMPTS, k + 1)
    ensures Clock(calls) <= LastBurst(s.validDuration)
  {
    var first := FirstPart(phone, code, guess, Issue(rest), Left(rest));
    SpanHasBursts(s.validDuration);
    FirstPartRun(s, a, phone, code, guess, Issue(rest), Left(rest));
    calls := BurstsInRun(s, a, first, phone, code, guess, CodeSpan(s.validDuration), Left(rest), k + 1);
  }

  /** So the budget of a spelling is sharp, for every validity: a run that compares as much. */
  lemma GuessBudgetSharp(s: Settings, a: Accounts, phone: string, code: string, guess: string)
    returns (calls: seq<Call>)
    requires s.validDuration >= 0.0 && guess != code
    ensures Sequential(calls) && forall c | c in calls :: c.phone == phone
    ensures var h := Run(s, a, calls).log;
            NoLoginSince(s.canon, h, 1, s.canon(phone)) && Compared(s, h, 1, s.canon(phone)) == Budget(s.validDuration)
  {
    calls := Exhausting(s, a, phone, code, guess);
  }

  // ---------- When the budget holds for a number ----------

  lemma {:induction false} LogPhones(s: Settings, a: Accounts, calls: seq<Call>, k: nat)
    requires k < |calls|
    ensures Run(s, a, calls).log[k].phone == calls[k].phone
    decreases |calls|
  {
    if k < |calls| - 1 {
      LogPhones(s, a, calls[..|calls| - 1], k);
    }
  }

  lemma {:induction false} NoFailures(h: seq<Outcome>, phone: string)
    requires forall k | 0 <= k < |h| :: h[k].phone != phone
    ensures Failures(h, phone) == []
  {
    if h != [] {
      NoFailures(h[..|h| - 1], phone);
    }
  }

  /** Calls under one spelling leave the counter of another one untouched. */
  lemma AnotherCounter(s: Settings, a: Accounts, calls: seq<Call>, p: string, q: string)
    requires Sequential(calls) && p != q && forall c | c in calls :: c.phone == p
    ensures OtpVerify(q) !in Run(s, a, calls).world.store
  {
    var h := Run(s, a, calls).log;
    forall k | 0 <= k < |h| ensures h[k].phone != q {
      LogPhones(s, a, calls, k);
      assert calls[k] in calls;
    }
    NoFailures(h, q);
    RunAgrees(s, a, calls, q, q);
  }

  /** In every run, for every code sent to the number, until the next login to it. */
  ghost predicate BudgetKept(s: Settings, a: Accounts, number: string) {
    forall calls, i: nat | Sequential(calls) && NoLoginSince(s.canon, Run(s, a, calls).log, i, number) ::
      Compared(s, Run(s, a, calls).log, i, number) <= Budget(s.validDuration)
  }

  /** The budget used up under one spelling, and one guess more under another. */
  lemma SecondSpelling(s: Settings, a: Accounts, p: string, q: string, code: string, guess: string)
    returns (calls: seq<Call>)
    requires s.validDuration >= 0.0 && p != q && s.canon(p) == s.canon(q) && guess != code
    ensures Sequential(calls) && forall c | c in calls :: c.phone == p || c.phone == q
    ensures var h := Run(s, a, calls).log;
            NoLoginSince(s.canon, h, 1, s.canon(p)) && Compared(s, h, 1, s.canon(p)) == Budget(s.validDuration) + 1
  {
    var last := LastBurst(s.validDuration);
    var before := Exhausting(s, a, p, code, guess);
    calls := before + [Wrong(q, guess, last)];
    SpanHasBursts(s.validDuration);
    AnotherCounter(s, a, before, p, q);
    OneMoreCall(s, a, before, Wrong(q, guess, last));
    AnotherGuess(s, Run(s, a, before), p, q, code, guess, last, CodeSpan(s.validDuration), Budget(s.validDuration));
  }

  lemma AnotherGuess(s: Settings, t: Trace, p: string, q: string, code: string, guess: string, now: real, span: Span,
                     n: nat)
    requires s.canon(p) == s.canon(q) && guess != code && span.Has(now) && OtpVerify(q) !in t.world.store
    requires exists later, end: real :: Point(s, t, p, code, later, 0, end, span, n)
    ensures var h := Extend(s, t, Wrong(q, guess, now)).log;
            NoLoginSince(s.canon, h, 1, s.canon(p)) && Compared(s, h, 1, s.canon(p)) == n + 1
  {
    assert Act(s, t.world, Wrong(q, guess, now)).1 == Refused(q, now, now);
    MoreCompared(s, t.log, Refused(q, now, now), p, now, span);
  }

  /** The budget of one spelling holds for a number exactly when the number has no second one. */
  lemma BudgetKeptExactly(s: Settings, a: Accounts, number: string)
    requires s.validDuration >= 0.0
    ensures BudgetKept(s, a, number) <==> OneSpelling(s.canon, number)
  {
    if OneSpelling(s.canon, number) {
      forall calls, i: nat | Sequential(calls) && NoLoginSince(s.canon, Run(s, a, calls).log, i, number)
        ensures Compared(s, Run(s, a, calls).log, i, number) <= Budget(s.validDuration)
      {
        GuessBudget(s, a, calls, number, i);
      }
    } else {
      var p, q :| s.canon(p) == number && s.canon(q) == number && p != q;
      var calls := SecondSpelling(s, a, p, q, "code", "");
    }
  }

  /** A guess, a code, and guesses that use up the window. */
  function LockingOut(phone: string, code: string, guess: string): seq<Call> {
    Opening(phone, code, guess, VERIFY_LOCKOUT_TTL / 2.0)
    + Repeat(Wrong(phone, guess, VERIFY_LOCKOUT_TTL / 2.0), MAX_VERIFY_ATTEMPTS - 1)
  }

  /** A lockout is one of the spelling: under another spelling of the number the same code still logs in. */
  lemma LockoutPerSpelling(s: Settings, a: Accounts, p: string, q: string, code: string, guess: string)
    requires s.validDuration >= 0.0 && p != q && s.canon(p) == s.canon(q) && guess != code
    ensures var now := VERIFY_LOCKOUT_TTL / 2.0;
            var w := Run(s, a, LockingOut(p, code, guess)).world;
            && Sequential(LockingOut(p, code, guess)) && Clock(LockingOut(p, code, guess)) <= now
            && VerifyOtp(s, w, p, code, now, now, now, now).1.LockedOut?
            && VerifyOtp(s, w, q, code, now, now, now, now).1.LoggedIn?
  {
    var now := VERIFY_LOCKOUT_TTL / 2.0;
    OpeningRun(s, a, p, code, guess, now);
    ManyWrong(s, a, Opening(p, code, guess, now), p, code, guess, now, 1, VERIFY_LOCKOUT_TTL,
              FromThrough(now, now + s.validDuration), 0, MAX_VERIFY_ATTEMPTS - 1);
    AnotherCounter(s, a, LockingOut(p, code, guess), p, q);
  }
}
