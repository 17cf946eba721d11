/**
 The runs of the whole login flow, in which calls come one at a time, are runs of the send machine
 without overlap; so its bounds hold for them.
 */
module OtpSendRuns {
  import opened Results
  import opened TtlCache
  import opened Windows
  import opened Spellings
  import opened OtpCounters
  import opened OtpModels
  import opened OtpFlow
  import Machine = OtpSends

  /** The sends of a history under all spellings, by the instants they were counted at. */
  function SentLog(h: seq<Outcome>): seq<Stamp> {
    if h == [] then []
    else
      var n := |h| - 1;
      if h[n].Sent? then SentLog(h[..n]) + [Stamp(h[n].phone, h[n].counted)] else SentLog(h[..n])
  }

  lemma PushSentLog(h: seq<Outcome>, o: Outcome)
    ensures SentLog(h + [o]) == if o.Sent? then SentLog(h) + [Stamp(o.phone, o.counted)] else SentLog(h)
  {
    assert (h + [o])[..|h|] == h;
  }

  lemma {:induction false} SentLogBy(h: seq<Outcome>, phone: string)
    ensures By(SentLog(h), phone) == Sends(h, phone)
  {
    if h != [] {
      var n := |h| - 1;
      SentLogBy(h[..n], phone);
      if h[n].Sent? {
        PushBy(SentLog(h[..n]), Stamp(h[n].phone, h[n].counted), phone);
      }
    }
  }

  /** What a call does in the send machine: its check, and the count of a send that goes out. */
  function EventsOf(c: Call, o: Outcome): seq<Machine.Event> {
    if c.Verify? then []
    else if o.Throttled? then [Machine.Check(c.phone, c.tCheck)]
    else [Machine.Check(c.phone, c.tCheck)] + [Machine.Record(c.phone, c.tIncr, c.tSet)]
  }

  function SendEvents(s: Settings, a: Accounts, calls: seq<Call>): seq<Machine.Event> {
    if calls == [] then []
    else
      var n := |calls| - 1;
      SendEvents(s, a, calls[..n]) + EventsOf(calls[n], Act(s, Run(s, a, calls[..n]).world, calls[n]).1)
  }

  ghost predicate SameRates(store: Store, store': Store) {
    forall p :: (OtpRate(p) in store <==> OtpRate(p) in store')
                && (OtpRate(p) in store ==> store'[OtpRate(p)] == store[OtpRate(p)])
  }

  /** Same send counters, same sends counted, and none in between. */
  ghost predicate Refines(w: World, h: seq<Outcome>, clock: real, d: Machine.Desk) {
    && SameRates(w.store, d.store) && d.sent == SentLog(h) && d.clock <= clock
    && (forall p :: Machine.Between(d, p) == 0)
  }

  /** The machine's state after the events of one call. */
  function After(max: int, d: Machine.Desk, c: Call, o: Outcome): Machine.Desk {
    if c.Verify? then d
    else
      var checked := Machine.Step(max, d, Machine.Check(c.phone, c.tCheck));
      if o.Throttled? then checked else Machine.Step(max, checked, Machine.Record(c.phone, c.tIncr, c.tSet))
  }

  lemma CheckedDesk(max: int, d: Machine.Desk, phone: string, now: real)
    requires forall p :: Machine.Between(d, p) == 0
    ensures var e := Machine.Check(phone, now);
            var limited := Reached(d.store, OtpRate(phone), max, now);
            && Machine.Step(max, d, e).store == d.store && Machine.Step(max, d, e).sent == d.sent
            && Machine.Step(max, d, e).clock == now
            && (forall p :: Machine.Between(Machine.Step(max, d, e), p) == if p == phone && !limited then 1 else 0)
            && (d.clock <= now ==> Machine.Allowed(max, 1, d, e))
  {
    assert Machine.Between(d, phone) == 0;
    var d' := Machine.Step(max, d, Machine.Check(phone, now));
    forall p | p != phone ensures Machine.Between(d', p) == 0 {
      assert Machine.Between(d, p) == 0;
    }
  }

  lemma RecordedDesk(max: int, d: Machine.Desk, phone: string, tIncr: real, tSet: real)
    requires forall p :: Machine.Between(d, p) == if p == phone then 1 else 0
    ensures var e := Machine.Record(phone, tIncr, tSet);
            var d' := Machine.Step(max, d, e);
            && d'.store == Bumped(d.store, OtpRate(phone), RATE_TTL, tIncr, tSet)
            && d'.sent == d.sent + [Stamp(phone, BumpedAt(d.store, OtpRate(phone), tIncr, tSet))]
            && d'.clock == tSet && (forall p :: Machine.Between(d', p) == 0)
            && (d.clock <= tIncr <= tSet ==> Machine.Allowed(max, 1, d, e))
  {
    assert Machine.Between(d, phone) == 1;
    var d' := Machine.Step(max, d, Machine.Record(phone, tIncr, tSet));
    forall p ensures Machine.Between(d', p) == 0 {
      assert p != phone ==> Machine.Between(d, p) == 0;
    }
  }

  lemma BumpRates(store: Store, store': Store, phone: string, tIncr: real, tSet: real)
    requires SameRates(store, store')
    ensures SameRates(Bumped(store, OtpRate(phone), RATE_TTL, tIncr, tSet),
                      Bumped(store', OtpRate(phone), RATE_TTL, tIncr, tSet))
    ensures BumpedAt(store, OtpRate(phone), tIncr, tSet) == BumpedAt(store', OtpRate(phone), tIncr, tSet)
  {
    assert OtpRate(phone) in store <==> OtpRate(phone) in store';
    var next, next' := Bumped(store, OtpRate(phone), RATE_TTL, tIncr, tSet),
                       Bumped(store', OtpRate(phone), RATE_TTL, tIncr, tSet);
    forall p ensures (OtpRate(p) in next <==> OtpRate(p) in next')
                     && (OtpRate(p) in next ==> next'[OtpRate(p)] == next[OtpRate(p)])
    {
      assert OtpRate(p) in store <==> OtpRate(p) in store';
    }
  }

  lemma VerifyRates(s: Settings, w: World, store: Store, c: Call)
    requires SameRates(w.store, store) && c.Verify?
    ensures SameRates(Act(s, w, c).0.store, store)
  {
    forall p ensures (OtpRate(p) in Act(s, w, c).0.store <==> OtpRate(p) in store)
                     && (OtpRate(p) in Act(s, w, c).0.store ==> store[OtpRate(p)] == Act(s, w, c).0.store[OtpRate(p)])
    {
      RateStays(s, w, p, c);
      assert OtpRate(p) in w.store <==> OtpRate(p) in store;
    }
  }

  lemma SameCheck(s: Settings, w: World, d: Machine.Desk, c: Call)
    requires SameRates(w.store, d.store) && c.Send?
    ensures var o := Act(s, w, c).1; o.Throttled? <==> Reached(d.store, OtpRate(c.phone), s.rateLimitMax, c.tCheck)
  {
    assert OtpRate(c.phone) in w.store <==> OtpRate(c.phone) in d.store;
  }

  lemma CallRefines(s: Settings, w: World, h: seq<Outcome>, clock: real, d: Machine.Desk, c: Call)
    requires Refines(w, h, clock, d) && Timely(clock, c)
    ensures var (w', o) := Act(s, w, c); Refines(w', h + [o], End(c), After(s.rateLimitMax, d, c, o))
  {
    var (w', o) := Act(s, w, c);
    var max := s.rateLimitMax;
    PushSentLog(h, o);
    if c.Verify? {
      VerifyRates(s, w, d.store, c);
    } else {
      SameCheck(s, w, d, c);
      CheckedDesk(max, d, c.phone, c.tCheck);
      if !o.Throttled? {
        RecordedDesk(max, Machine.Step(max, d, Machine.Check(c.phone, c.tCheck)), c.phone, c.tIncr, c.tSet);
        BumpRates(w.store, d.store, c.phone, c.tIncr, c.tSet);
      }
    }
  }

  lemma CallAllowed(s: Settings, w: World, h: seq<Outcome>, clock: real, d: Machine.Desk, c: Call,
                    events: seq<Machine.Event>)
    requires Refines(w, h, clock, d) && Timely(clock, c)
    requires Machine.Legal(s.rateLimitMax, 1, events) && Machine.Run(s.rateLimitMax, events) == d
    ensures var o := Act(s, w, c).1;
            && Machine.Legal(s.rateLimitMax, 1, events + EventsOf(c, o))
            && Machine.Run(s.rateLimitMax, events + EventsOf(c, o)) == After(s.rateLimitMax, d, c, o)
  {
    var o, max := Act(s, w, c).1, s.rateLimitMax;
    if c.Verify? {
      assert events + EventsOf(c, o) == events;
    } else {
      var check, record := Machine.Check(c.phone, c.tCheck), Machine.Record(c.phone, c.tIncr, c.tSet);
      SameCheck(s, w, d, c);
      CheckedDesk(max, d, c.phone, c.tCheck);
      Machine.OneMore(max, 1, Machine.START, events, check);
      if !o.Throttled? {
        RecordedDesk(max, Machine.Step(max, d, check), c.phone, c.tIncr, c.tSet);
        Machine.OneMore(max, 1, Machine.START, events + [check], record);
        assert events + [check] + [record] == events + EventsOf(c, o);
      }
    }
  }

  /** Every sequential run is a run of the send machine with one send at a time. */
  lemma {:induction false} RunRefines(s: Settings, a: Accounts, calls: seq<Call>)
    requires Sequential(calls)
    ensures Machine.Legal(s.rateLimitMax, 1, SendEvents(s, a, calls))
    ensures Refines(Run(s, a, calls).world, Run(s, a, calls).log, Clock(calls),
                    Machine.Run(s.rateLimitMax, SendEvents(s, a, calls)))
  {
    if calls != [] {
      var n := |calls| - 1;
      var t := Run(s, a, calls[..n]);
      var d := Machine.Run(s.rateLimitMax, SendEvents(s, a, calls[..n]));
      SequentialPrefix(calls, n);
      RunRefines(s, a, calls[..n]);
      CallRefines(s, t.world, t.log, Clock(calls[..n]), d, calls[n]);
      CallAllowed(s, t.world, t.log, Clock(calls[..n]), d, calls[n], SendEvents(s, a, calls[..n]));
    }
  }

  /** So in every sequential run, for each spelling, every hour holds at most twice the limit less one. */
  lemma HourlySends(s: Settings, a: Accounts, calls: seq<Call>, phone: string, from: real)
    requires Sequential(calls)
    ensures CountIn(Sends(Run(s, a, calls).log, phone), FromUntil(from, from + 3600.0)) <= 2 * SendCap(s) - 1
  {
    RunRefines(s, a, calls);
    SentLogBy(Run(s, a, calls).log, phone);
    Machine.SendsPerHour(s.rateLimitMax, 1, SendEvents(s, a, calls), phone, FromUntil(from, from + 3600.0));
  }

  lemma HourMost(hour: Span, cap: int)
    requires hour.FromUntil? && hour.to - hour.from == RATE_TTL && cap >= 1
    ensures Most(hour, RATE_TTL, cap) == 2 * cap - 1
  {
  }

  lemma NumberWithin(s: Settings, a: Accounts, calls: seq<Call>, number: string, span: Span, most: int)
    requires Sequential(calls) && most == Most(span, RATE_TTL, Machine.Cap(s.rateLimitMax, 1))
    ensures var sent := SentLog(Run(s, a, calls).log);
            && CountIn(On(s.canon, sent, number), span) <= most * |Used(s.canon, sent, number)|
            && (OneSpelling(s.canon, number) || InNormalForm(s.canon, sent, number) ==>
                  CountIn(On(s.canon, sent, number), span) <= most)
  {
    RunRefines(s, a, calls);
    Machine.SendsOnNumber(s.rateLimitMax, 1, SendEvents(s, a, calls), s.canon, number, span);
  }

  /** And for a number that once for every spelling used, or once in all if it has only one. */
  lemma HourlySendsOnNumber(s: Settings, a: Accounts, calls: seq<Call>, number: string, from: real)
    requires Sequential(calls)
    ensures var sent, hour, most := SentLog(Run(s, a, calls).log), FromUntil(from, from + 3600.0), 2 * SendCap(s) - 1;
            && CountIn(On(s.canon, sent, number), hour) <= most * |Used(s.canon, sent, number)|
            && (OneSpelling(s.canon, number) || InNormalForm(s.canon, sent, number) ==>
                  CountIn(On(s.canon, sent, number), hour) <= most)
  {
    HourMost(FromUntil(from, from + 3600.0), Machine.Cap(s.rateLimitMax, 1));
    NumberWithin(s, a, calls, number, FromUntil(from, from + 3600.0), 2 * SendCap(s) - 1);
  }
}
