/**
 Sends of one-time codes that overlap at their awaits: the limit check is one atomic section,
 the counter increment another, and any number of sections of other sends may run in between.
 The counters are kept per spelling of a number, as the request gives it.
 */
module OtpSends {
  import opened Results
  import opened TtlCache
  import opened Windows
  import opened OtpCounters
  import opened Spellings

  datatype Event =
    | Check(phone: string, now: real)
    | Record(phone: string, tIncr: real, tSet: real)
    | Abandon(phone: string)

  /** `between`: sends past the check and not yet counted. `sent`: the counted sends, in order. */
  datatype Desk = Desk(store: Store, between: map<string, nat>, sent: seq<Stamp>, clock: real)

  const START := Desk(map[], map[], [], 0.0)

  function Between(d: Desk, phone: string): nat {
    if phone in d.between then d.between[phone] else 0
  }

  function Sent(d: Desk, phone: string): seq<real> {
    By(d.sent, phone)
  }

  function Step(max: int, d: Desk, e: Event): Desk {
    match e
    case Check(phone, now) =>
      if Reached(d.store, OtpRate(phone), max, now) then d.(clock := now)
      else d.(clock := now, between := d.between[phone := Between(d, phone) + 1])
    case Record(phone, tIncr, tSet) =>
      Desk(Bumped(d.store, OtpRate(phone), RATE_TTL, tIncr, tSet),
           d.between[phone := if Between(d, phone) == 0 then 0 else Between(d, phone) - 1],
           d.sent + [Stamp(phone, BumpedAt(d.store, OtpRate(phone), tIncr, tSet))],
           tSet)
    case Abandon(phone) =>
      d.(between := d.between[phone := if Between(d, phone) == 0 then 0 else Between(d, phone) - 1])
  }

  /** Clocks do not run backwards, a send is counted once, and at most `overlap` sit in between per phone. */
  predicate Allowed(max: int, overlap: nat, d: Desk, e: Event) {
    && Between(Step(max, d, e), e.phone) <= overlap
    && match e
       case Check(_, now) => d.clock <= now
       case Record(phone, tIncr, tSet) => Between(d, phone) > 0 && d.clock <= tIncr <= tSet
       case Abandon(phone) => Between(d, phone) > 0
  }

  function RunFrom(max: int, d: Desk, events: seq<Event>): Desk {
    if events == [] then d
    else Step(max, RunFrom(max, d, events[..|events| - 1]), events[|events| - 1])
  }

  ghost predicate LegalFrom(max: int, overlap: nat, d: Desk, events: seq<Event>) {
    events == [] ||
    var n := |events| - 1;
    LegalFrom(max, overlap, d, events[..n]) && Allowed(max, overlap, RunFrom(max, d, events[..n]), events[n])
  }

  function Run(max: int, events: seq<Event>): Desk {
    RunFrom(max, START, events)
  }

  ghost predicate Legal(max: int, overlap: nat, events: seq<Event>) {
    LegalFrom(max, overlap, START, events)
  }

  /** A limit below one still lets the first send of a window through. */
  function Limit(max: int): int {
    Max(1, max)
  }

  /** The most that one window can count. */
  function Cap(max: int, overlap: nat): int {
    Limit(max) + overlap - 1
  }

  ghost predicate PhoneInvariant(max: int, overlap: nat, d: Desk, phone: string) {
    && Mirrors(d.store, OtpRate(phone), Sent(d, phone), RATE_TTL, Max(0, Cap(max, overlap)), d.clock)
    && Between(d, phone) <= overlap
    && (Live(d.store, OtpRate(phone), d.clock) ==>
          d.store[OtpRate(phone)].value + Between(d, phone) <= Cap(max, overlap))
  }

  lemma SentPush(max: int, d: Desk, e: Event, phone: string)
    ensures var sent := Sent(Step(max, d, e), phone);
            sent == if e.Record? && e.phone == phone
            then Sent(d, phone) + [BumpedAt(d.store, OtpRate(phone), e.tIncr, e.tSet)] else Sent(d, phone)
  {
    if e.Record? {
      PushBy(d.sent, Stamp(e.phone, BumpedAt(d.store, OtpRate(e.phone), e.tIncr, e.tSet)), phone);
    }
  }

  lemma StepKeeps(max: int, overlap: nat, d: Desk, e: Event, phone: string)
    requires PhoneInvariant(max, overlap, d, phone) && Allowed(max, overlap, d, e)
    ensures PhoneInvariant(max, overlap, Step(max, d, e), phone)
  {
    SentPush(max, d, e, phone);
    if e.Record? && e.phone == phone {
      BumpMirrors(d.store, OtpRate(phone), Sent(d, phone), RATE_TTL, Max(0, Cap(max, overlap)), d.clock, e.tIncr,
                  e.tSet);
    }
  }

  lemma {:induction false} RunKeepsFrom(max: int, overlap: nat, d: Desk, events: seq<Event>, phone: string)
    requires PhoneInvariant(max, overlap, d, phone) && LegalFrom(max, overlap, d, events)
    ensures PhoneInvariant(max, overlap, RunFrom(max, d, events), phone)
  {
    if events != [] {
      var n := |events| - 1;
      RunKeepsFrom(max, overlap, d, events[..n], phone);
      StepKeeps(max, overlap, RunFrom(max, d, events[..n]), events[n], phone);
    }
  }

  lemma RunKeeps(max: int, overlap: nat, events: seq<Event>, phone: string)
    requires Legal(max, overlap, events)
    ensures PhoneInvariant(max, overlap, Run(max, events), phone)
  {
    RunKeepsFrom(max, overlap, START, events, phone);
  }

  /**
   With at most `overlap` sends of a phone between check and increment, no counter window ever
   records more than the limit plus `overlap - 1`, however the sends straddle window ends.
   */
  lemma WindowRecords(max: int, overlap: nat, events: seq<Event>, phone: string, n: nat)
    requires Legal(max, overlap, events) && overlap >= 1
    requires n <= |Sent(Run(max, events), phone)|
    ensures |LastWindow(Sent(Run(max, events), phone)[..n], RATE_TTL)| <= Limit(max) + overlap - 1
  {
    RunKeeps(max, overlap, events, phone);
    CappedPrefix(Sent(Run(max, events), phone), RATE_TTL, Cap(max, overlap), n);
  }

  /** Sends recorded under one spelling in any span; in an hour, twice the capacity of a window less one. */
  lemma SendsPerHour(max: int, overlap: nat, events: seq<Event>, phone: string, span: Span)
    requires Legal(max, overlap, events) && overlap >= 1
    ensures CountIn(Sent(Run(max, events), phone), span) <= Most(span, RATE_TTL, Cap(max, overlap))
    ensures span.FromUntil? && span.to == span.from + RATE_TTL ==>
              CountIn(Sent(Run(max, events), phone), span) <= 2 * Cap(max, overlap) - 1
  {
    RunKeeps(max, overlap, events, phone);
    SpanBound(Sent(Run(max, events), phone), RATE_TTL, Cap(max, overlap), span);
  }

  /**
   Each spelling of a number that is in use has its own allowance. A number with one spelling, or one
   that requests give in normal form, has that of one.
   */
  lemma SendsOnNumber(max: int, overlap: nat, events: seq<Event>, canon: Canon, number: string, span: Span)
    requires Legal(max, overlap, events) && overlap >= 1
    ensures var sent, most := Run(max, events).sent, Most(span, RATE_TTL, Cap(max, overlap));
            && CountIn(On(canon, sent, number), span) <= most * |Used(canon, sent, number)|
            && (OneSpelling(canon, number) || InNormalForm(canon, sent, number) ==>
                  CountIn(On(canon, sent, number), span) <= most)
  {
    var sent, most := Run(max, events).sent, Most(span, RATE_TTL, Cap(max, overlap));
    forall p | p in Used(canon, sent, number) ensures CountIn(Sent(Run(max, events), p), span) <= most {
      SendsPerHour(max, overlap, events, p, span);
    }
    OnBound(canon, sent, number, span, most);
    if OneSpelling(canon, number) || InNormalForm(canon, sent, number) {
      UsedOnce(canon, sent, number);
      AtMostTimes(most, |Used(canon, sent, number)|);
    }
  }

  // ---------- The hourly bound is attained ----------

  /** At `t` the current window holds `count` sends and lasts to `end`; `waiting` more are past the check. */
  ghost predicate Settled(d: Desk, phone: string, t: real, count: nat, waiting: nat, end: real) {
    && d.clock <= t && Between(d, phone) == waiting && Count(d.store, OtpRate(phone), t) == count
    && (if count > 0 then d.store[OtpRate(phone)].deadline == end
        else end == t + RATE_TTL && !Live(d.store, OtpRate(phone), t))
  }

  /** A legal run from `d` to such a point, with this record of counted sends. */
  ghost predicate Reaches(max: int, overlap: nat, d: Desk, events: seq<Event>, phone: string, t: real,
                          count: nat, waiting: nat, end: real, sent: seq<Stamp>) {
    && LegalFrom(max, overlap, d, events) && Settled(RunFrom(max, d, events), phone, t, count, waiting, end)
    && RunFrom(max, d, events).sent == sent
    && (forall q | q != phone :: Between(RunFrom(max, d, events), q) == Between(d, q))
  }

  lemma OneMore(max: int, overlap: nat, d: Desk, events: seq<Event>, e: Event)
    requires LegalFrom(max, overlap, d, events) && Allowed(max, overlap, RunFrom(max, d, events), e)
    ensures LegalFrom(max, overlap, d, events + [e])
    ensures RunFrom(max, d, events + [e]) == Step(max, RunFrom(max, d, events), e)
  {
    var more := events + [e];
    assert more[..|more| - 1] == events && more[|more| - 1] == e;
  }

  lemma CheckInRun(max: int, overlap: nat, d: Desk, events: seq<Event>, phone: string, t: real,
                   count: nat, waiting: nat, end: real, sent: seq<Stamp>)
    requires Reaches(max, overlap, d, events, phone, t, count, waiting, end, sent)
    requires count < Limit(max) && waiting < overlap
    ensures Reaches(max, overlap, d, events + [Check(phone, t)], phone, t, count, waiting + 1, end, sent)
  {
    OneMore(max, overlap, d, events, Check(phone, t));
  }

  lemma RecordInRun(max: int, overlap: nat, d: Desk, events: seq<Event>, phone: string, t: real,
                    count: nat, waiting: nat, end: real, sent: seq<Stamp>)
    requires Reaches(max, overlap, d, events, phone, t, count, waiting, end, sent) && 0 < waiting <= overlap
    ensures Reaches(max, overlap, d, events + [Record(phone, t, t)], phone, t, count + 1, waiting - 1, end,
                    sent + [Stamp(phone, t)])
  {
    OneMore(max, overlap, d, events, Record(phone, t, t));
  }

  lemma {:induction false} ChecksInRun(max: int, overlap: nat, d: Desk, events: seq<Event>, phone: string, t: real,
                                       count: nat, waiting: nat, end: real, sent: seq<Stamp>, n: nat)
    requires Reaches(max, overlap, d, events, phone, t, count, waiting, end, sent)
    requires count < Limit(max) && waiting + n <= overlap
    ensures Reaches(max, overlap, d, events + Repeat(Check(phone, t), n), phone, t, count, waiting + n, end, sent)
  {
    if n == 0 {
      assert events + Repeat(Check(phone, t), 0) == events;
    } else {
      ChecksInRun(max, overlap, d, events, phone, t, count, waiting, end, sent, n - 1);
      CheckInRun(max, overlap, d, events + Repeat(Check(phone, t), n - 1), phone, t, count, waiting + n - 1, end, sent);
      RepeatMore(events, Check(phone, t), n);
    }
  }

  lemma {:induction false} RecordsInRun(max: int, overlap: nat, d: Desk, events: seq<Event>, phone: string, t: real,
                                        count: nat, waiting: nat, end: real, sent: seq<Stamp>, n: nat)
    requires Reaches(max, overlap, d, events, phone, t, count, waiting, end, sent) && n <= waiting <= overlap
    ensures Reaches(max, overlap, d, events + Repeat(Record(phone, t, t), n), phone, t, count + n, waiting - n, end,
                    sent + Repeat(Stamp(phone, t), n))
  {
    if n == 0 {
      assert events + Repeat(Record(phone, t, t), 0) == events && sent + Repeat(Stamp(phone, t), 0) == sent;
    } else {
      RecordsInRun(max, overlap, d, events, phone, t, count, waiting, end, sent, n - 1);
      RecordInRun(max, overlap, d, events + Repeat(Record(phone, t, t), n - 1), phone, t, count + n - 1,
                  waiting - n + 1, end, sent + Repeat(Stamp(phone, t), n - 1));
      RepeatMore(events, Record(phone, t, t), n);
      RepeatMore(sent, Stamp(phone, t), n);
    }
  }

  /** `n` sends at one instant, each counted before the next is checked. */
  function Sends(phone: string, t: real, n: nat): seq<Event> {
    if n == 0 then [] else Sends(phone, t, n - 1) + [Check(phone, t)] + [Record(phone, t, t)]
  }

  lemma SendInRun(max: int, overlap: nat, d: Desk, events: seq<Event>, phone: string, t: real,
                  count: nat, waiting: nat, end: real, sent: seq<Stamp>)
    requires Reaches(max, overlap, d, events, phone, t, count, waiting, end, sent)
    requires count < Limit(max) && waiting < overlap
    ensures Reaches(max, overlap, d, events + [Check(phone, t)] + [Record(phone, t, t)], phone, t, count + 1, waiting,
                    end, sent + [Stamp(phone, t)])
  {
    CheckInRun(max, overlap, d, events, phone, t, count, waiting, end, sent);
    RecordInRun(max, overlap, d, events + [Check(phone, t)], phone, t, count, waiting + 1, end, sent);
  }

  lemma SendsMore(events: seq<Event>, phone: string, t: real, n: nat)
    requires n > 0
    ensures events + Sends(phone, t, n - 1) + [Check(phone, t)] + [Record(phone, t, t)] == events + Sends(phone, t, n)
  {
  }

  lemma {:induction false} SendsInRun(max: int, overlap: nat, d: Desk, events: seq<Event>, phone: string, t: real,
                                      count: nat, waiting: nat, end: real, sent: seq<Stamp>, n: nat)
    requires Reaches(max, overlap, d, events, phone, t, count, waiting, end, sent)
    requires count + n <= Limit(max) && waiting < overlap
    ensures Reaches(max, overlap, d, events + Sends(phone, t, n), phone, t, count + n, waiting, end,
                    sent + Repeat(Stamp(phone, t), n))
  {
    if n == 0 {
      assert events + Sends(phone, t, 0) == events && sent + Repeat(Stamp(phone, t), 0) == sent;
    } else {
      SendsInRun(max, overlap, d, events, phone, t, count, waiting, end, sent, n - 1);
      SendInRun(max, overlap, d, events + Sends(phone, t, n - 1), phone, t, count + n - 1, waiting, end,
                sent + Repeat(Stamp(phone, t), n - 1));
      RepeatMore(sent, Stamp(phone, t), n);
      SendsMore(events, phone, t, n);
    }
  }

  /**
   After `events`, one window filled to its capacity: as many sends as may overlap pass the check, one
   of them is counted at `open`, and the rest at `t`, singly up to the limit and then all that waited.
   */
  function Fill(events: seq<Event>, max: int, overlap: nat, phone: string, open: real, t: real): seq<Event>
    requires overlap >= 1
  {
    events + Repeat(Check(phone, open), overlap) + [Record(phone, open, open)]
    + Sends(phone, t, Limit(max) - 1) + Repeat(Record(phone, t, t), overlap - 1)
  }

  function Filled(sent: seq<Stamp>, max: int, overlap: nat, phone: string, open: real, t: real): seq<Stamp>
    requires overlap >= 1
  {
    sent + [Stamp(phone, open)] + Repeat(Stamp(phone, t), Limit(max) - 1) + Repeat(Stamp(phone, t), overlap - 1)
  }

  lemma OpenInRun(max: int, overlap: nat, d: Desk, events: seq<Event>, phone: string, open: real, sent: seq<Stamp>)
    requires overlap >= 1 && Reaches(max, overlap, d, events, phone, open, 0, 0, open + RATE_TTL, sent)
    ensures Reaches(max, overlap, d, events + Repeat(Check(phone, open), overlap) + [Record(phone, open, open)],
                    phone, open, 1, overlap - 1, open + RATE_TTL, sent + [Stamp(phone, open)])
  {
    ChecksInRun(max, overlap, d, events, phone, open, 0, 0, open + RATE_TTL, sent, overlap);
    RecordInRun(max, overlap, d, events + Repeat(Check(phone, open), overlap), phone, open, 0, overlap,
                open + RATE_TTL, sent);
  }

  lemma RestInRun(max: int, overlap: nat, d: Desk, events: seq<Event>, phone: string, t: real, end: real,
                  sent: seq<Stamp>, m: nat, n: nat)
    requires overlap >= 1 && Reaches(max, overlap, d, events, phone, t, 1, overlap - 1, end, sent)
    requires m == Limit(max) - 1 && n == overlap - 1
    ensures Reaches(max, overlap, d, events + Sends(phone, t, m) + Repeat(Record(phone, t, t), n), phone, t,
                    Cap(max, overlap), 0, end, sent + Repeat(Stamp(phone, t), m) + Repeat(Stamp(phone, t), n))
  {
    SendsInRun(max, overlap, d, events, phone, t, 1, n, end, sent, m);
    RecordsInRun(max, overlap, d, events + Sends(phone, t, m), phone, t, m + 1, n, end,
                 sent + Repeat(Stamp(phone, t), m), n);
  }

  lemma Later(max: int, overlap: nat, d: Desk, events: seq<Event>, phone: string, open: real, t: real,
              count: nat, waiting: nat, end: real, sent: seq<Stamp>)
    requires Reaches(max, overlap, d, events, phone, open, count, waiting, end, sent) && open <= t
    ensures count > 0 && t < end ==> Reaches(max, overlap, d, events, phone, t, count, waiting, end, sent)
    ensures count > 0 && t >= end ==> Reaches(max, overlap, d, events, phone, t, 0, waiting, t + RATE_TTL, sent)
  {
  }

  lemma FillInRun(max: int, overlap: nat, d: Desk, events: seq<Event>, phone: string, open: real, t: real,
                  sent: seq<Stamp>)
    requires overlap >= 1 && Reaches(max, overlap, d, events, phone, open, 0, 0, open + RATE_TTL, sent)
    requires open <= t < open + RATE_TTL
    ensures Reaches(max, overlap, d, Fill(events, max, overlap, phone, open, t), phone, t, Cap(max, overlap), 0,
                    open + RATE_TTL, Filled(sent, max, overlap, phone, open, t))
  {
    var m, n := Limit(max) - 1, overlap - 1;
    var begun, log := events + Repeat(Check(phone, open), overlap) + [Record(phone, open, open)],
                      sent + [Stamp(phone, open)];
    OpenInRun(max, overlap, d, events, phone, open, sent);
    Later(max, overlap, d, begun, phone, open, t, 1, n, open + RATE_TTL, log);
    RestInRun(max, overlap, d, begun, phone, t, open + RATE_TTL, log, m, n);
  }

  lemma FilledCount(sent: seq<Stamp>, phone: string, open: real, t: real, m: nat, n: nat, span: Span)
    requires span.Has(t)
    ensures CountIn(By(sent + [Stamp(phone, open)] + Repeat(Stamp(phone, t), m) + Repeat(Stamp(phone, t), n), phone),
                    span)
         == CountIn(By(sent, phone), span) + m + n + if span.Has(open) then 1 else 0
  {
    var one := sent + [Stamp(phone, open)];
    PushBy(sent, Stamp(phone, open), phone);
    CountInPush(By(sent, phone), open, span);
    CountByRepeated(one, Stamp(phone, t), m, phone, span);
    CountByRepeated(one + Repeat(Stamp(phone, t), m), Stamp(phone, t), n, phone, span);
  }

  /** A window that opens at zero and gets the rest of its sends at its end, and a full one right after. */
  function BusyHour(max: int, overlap: nat, phone: string): seq<Event>
    requires overlap >= 1
  {
    Fill(Fill([], max, overlap, phone, 0.0, RATE_TTL - 1.0), max, overlap, phone, RATE_TTL, RATE_TTL)
  }

  function BusySent(max: int, overlap: nat, phone: string): seq<Stamp>
    requires overlap >= 1
  {
    Filled(Filled([], max, overlap, phone, 0.0, RATE_TTL - 1.0), max, overlap, phone, RATE_TTL, RATE_TTL)
  }

  lemma BusyHourRun(max: int, overlap: nat, phone: string)
    requires overlap >= 1
    ensures Reaches(max, overlap, START, BusyHour(max, overlap, phone), phone, RATE_TTL, Cap(max, overlap), 0,
                    2.0 * RATE_TTL, BusySent(max, overlap, phone))
  {
    var first := Fill([], max, overlap, phone, 0.0, RATE_TTL - 1.0);
    var sent := Filled([], max, overlap, phone, 0.0, RATE_TTL - 1.0);
    FillInRun(max, overlap, START, [], phone, 0.0, RATE_TTL - 1.0, []);
    Later(max, overlap, START, first, phone, RATE_TTL - 1.0, RATE_TTL, Cap(max, overlap), 0, RATE_TTL, sent);
    FillInRun(max, overlap, START, first, phone, RATE_TTL, RATE_TTL, sent);
  }

  lemma BusyCount(max: int, overlap: nat, phone: string)
    requires overlap >= 1
    ensures CountIn(By(BusySent(max, overlap, phone), phone), FromUntil(1.0, 1.0 + RATE_TTL))
         == 2 * Cap(max, overlap) - 1
  {
    var span := FromUntil(1.0, 1.0 + RATE_TTL);
    var first := Filled([], max, overlap, phone, 0.0, RATE_TTL - 1.0);
    FilledCount([], phone, 0.0, RATE_TTL - 1.0, Limit(max) - 1, overlap - 1, span);
    FilledCount(first, phone, RATE_TTL, RATE_TTL, Limit(max) - 1, overlap - 1, span);
  }

  /** So the bound is sharp for every limit and overlap. */
  lemma SendsPerHourSharp(max: int, overlap: nat, phone: string)
    requires overlap >= 1
    ensures Legal(max, overlap, BusyHour(max, overlap, phone))
    ensures CountIn(Sent(Run(max, BusyHour(max, overlap, phone)), phone), FromUntil(1.0, 1.0 + RATE_TTL))
         == 2 * Cap(max, overlap) - 1
  {
    BusyHourRun(max, overlap, phone);
    BusyCount(max, overlap, phone);
  }

  // ---------- When the hourly bound holds for a number ----------

  /** The sends to a number in the hour from `from`. */
  function InHour(max: int, canon: Canon, number: string, events: seq<Event>, from: real): nat {
    CountIn(On(canon, Run(max, events).sent, number), FromUntil(from, from + RATE_TTL))
  }

  /** In every run with such overlaps, every hour holds at most the bound for one spelling. */
  ghost predicate NumberKept(max: int, overlap: nat, canon: Canon, number: string) {
    forall events, from | Legal(max, overlap, events) ::
      InHour(max, canon, number, events, from) <= 2 * Cap(max, overlap) - 1
  }

  /** The busy hour under one spelling, and one send more under another. */
  function TwoSpellings(max: int, overlap: nat, p: string, q: string): seq<Event>
    requires overlap >= 1
  {
    BusyHour(max, overlap, p) + Sends(q, RATE_TTL, 1)
  }

  lemma TwoSpellingsRun(max: int, overlap: nat, canon: Canon, number: string, p: string, q: string)
    requires overlap >= 1 && p != q && canon(p) == number && canon(q) == number
    ensures Legal(max, overlap, TwoSpellings(max, overlap, p, q))
    ensures InHour(max, canon, number, TwoSpellings(max, overlap, p, q), 1.0) == 2 * Cap(max, overlap)
  {
    var sent := BusySent(max, overlap, p);
    AnotherSpelling(max, overlap, p, q);
    SendsInRun(max, overlap, START, BusyHour(max, overlap, p), q, RATE_TTL, 0, 0, 2.0 * RATE_TTL, sent, 1);
    BusyTwice(max, overlap, canon, number, p, q);
  }

  lemma BusyTwice(max: int, overlap: nat, canon: Canon, number: string, p: string, q: string)
    requires overlap >= 1 && canon(p) == number && canon(q) == number
    ensures CountIn(On(canon, BusySent(max, overlap, p) + Repeat(Stamp(q, RATE_TTL), 1), number),
                    FromUntil(1.0, 1.0 + RATE_TTL))
         == 2 * Cap(max, overlap)
  {
    var sent := BusySent(max, overlap, p);
    BusyCount(max, overlap, p);
    OnIsBy(canon, sent, number, p);
    CountOnRepeated(canon, sent, Stamp(q, RATE_TTL), 1, number, FromUntil(1.0, 1.0 + RATE_TTL));
  }

  /** The run has not touched the counter of another spelling. */
  lemma AnotherSpelling(max: int, overlap: nat, p: string, q: string)
    requires overlap >= 1 && p != q
    ensures Reaches(max, overlap, START, BusyHour(max, overlap, p), q, RATE_TTL, 0, 0, 2.0 * RATE_TTL,
                    BusySent(max, overlap, p))
  {
    BusyHourRun(max, overlap, p);
    RunKeeps(max, overlap, BusyHour(max, overlap, p), q);
    NoneBy(BusySent(max, overlap, p), q);
  }

  /** The bound for one spelling holds for a number exactly when the number has no second one. */
  lemma NumberKeptExactly(max: int, overlap: nat, canon: Canon, number: string)
    requires overlap >= 1
    ensures NumberKept(max, overlap, canon, number) <==> OneSpelling(canon, number)
  {
    if OneSpelling(canon, number) {
      forall events, from | Legal(max, overlap, events)
        ensures InHour(max, canon, number, events, from) <= 2 * Cap(max, overlap) - 1
      {
        SendsOnNumber(max, overlap, events, canon, number, FromUntil(from, from + RATE_TTL));
      }
    } else {
      var p, q :| canon(p) == number && canon(q) == number && p != q;
      TwoSpellingsRun(max, overlap, canon, number, p, q);
    }
  }

  // ---------- When the limit is met hour by hour ----------

  /** However single sends go on from `d`, the hour from `from` holds at most the limit. */
  ghost predicate HourKept(max: int, d: Desk, phone: string, from: real) {
    forall more | LegalFrom(max, 1, d, more) ::
      CountIn(Sent(RunFrom(max, d, more), phone), FromUntil(from, from + RATE_TTL)) <= Limit(max)
  }

  /**
   No window at `from`; or one that lasts the whole hour; or one that is used up, with none of its
   sends at `from` itself.
   */
  predicate HourSafe(max: int, d: Desk, phone: string, from: real) {
    var key := OtpRate(phone);
    || !Live(d.store, key, from)
    || d.store[key].deadline >= from + RATE_TTL
    || (d.store[key].value >= Limit(max) && CountIn(Sent(d, phone), FromUntil(from, from + RATE_TTL)) == 0)
  }

  /**
   Until the hour is over: either nothing in it, and no send past its check while the old entry lives;
   or an entry that outlasts the hour and has counted all that is in it.
   */
  ghost predicate WithinHour(max: int, d: Desk, phone: string, from: real) {
    var key, n := OtpRate(phone), CountIn(Sent(d, phone), FromUntil(from, from + RATE_TTL));
    && from <= d.clock && n <= Limit(max)
    && (d.clock < from + RATE_TTL ==>
          || (n == 0 && (Live(d.store, key, d.clock) ==> d.store[key].value >= Limit(max) && Between(d, phone) == 0))
          || (key in d.store && d.store[key].deadline >= from + RATE_TTL && d.store[key].value >= n))
  }

  /** A recorded send leaves an entry that counts no more than the limit. */
  lemma RecordedValue(max: int, d: Desk, phone: string)
    requires PhoneInvariant(max, 1, d, phone) && Sent(d, phone) != []
    ensures OtpRate(phone) in d.store && d.store[OtpRate(phone)].value <= Limit(max)
  {
  }

  lemma RecordStep(max: int, d: Desk, e: Event, phone: string, span: Span)
    requires e.Record? && e.phone == phone
    ensures var d', key := Step(max, d, e), OtpRate(phone);
            var at := BumpedAt(d.store, key, e.tIncr, e.tSet);
            && Sent(d', phone) != [] && d'.clock == e.tSet
            && CountIn(Sent(d', phone), span) == CountIn(Sent(d, phone), span) + (if span.Has(at) then 1 else 0)
            && key in d'.store
            && d'.store[key] == if Live(d.store, key, e.tIncr) then Entry(d.store[key].value + 1, d.store[key].deadline)
                                else Entry(1, e.tSet + RATE_TTL)
  {
    SentPush(max, d, e, phone);
    CountInPush(Sent(d, phone), BumpedAt(d.store, OtpRate(phone), e.tIncr, e.tSet), span);
  }

  lemma RecordWithinHour(max: int, d: Desk, e: Event, phone: string, from: real)
    requires PhoneInvariant(max, 1, Step(max, d, e), phone)
    requires Allowed(max, 1, d, e) && e.Record? && e.phone == phone && WithinHour(max, d, phone, from)
    ensures WithinHour(max, Step(max, d, e), phone, from)
  {
    RecordStep(max, d, e, phone, FromUntil(from, from + RATE_TTL));
    RecordedValue(max, Step(max, d, e), phone);
  }

  lemma OtherWithinHour(max: int, d: Desk, e: Event, phone: string, from: real)
    requires Allowed(max, 1, d, e) && WithinHour(max, d, phone, from) && !(e.Record? && e.phone == phone)
    ensures WithinHour(max, Step(max, d, e), phone, from)
  {
    SentPush(max, d, e, phone);
  }

  /** Without a live entry nothing was counted at this instant; a window that begun now holds all that was. */
  lemma SentNow(d: Desk, phone: string, from: real, cap: int)
    requires Mirrors(d.store, OtpRate(phone), Sent(d, phone), RATE_TTL, cap, from) && d.clock == from
    ensures var n := CountIn(Sent(d, phone), FromUntil(from, from + RATE_TTL));
            && (!Live(d.store, OtpRate(phone), from) ==> n == 0)
            && (Live(d.store, OtpRate(phone), from) && d.store[OtpRate(phone)].deadline >= from + RATE_TTL ==>
                  n <= d.store[OtpRate(phone)].value)
  {
    var ts, span := Sent(d, phone), FromUntil(from, from + RATE_TTL);
    if ts != [] {
      CountIsWindow(d.store, OtpRate(phone), ts, RATE_TTL, from);
      LastWindowSpan(ts, RATE_TTL);
      if !Live(d.store, OtpRate(phone), from) {
        AllBefore(ts, RATE_TTL, span, from);
      } else {
        LastWindowOnly(ts, RATE_TTL, span);
      }
    }
  }

  lemma {:induction false} StaysWithinHour(max: int, d: Desk, more: seq<Event>, phone: string, from: real)
    requires PhoneInvariant(max, 1, d, phone) && d.clock == from && HourSafe(max, d, phone, from)
    requires LegalFrom(max, 1, d, more)
    ensures WithinHour(max, RunFrom(max, d, more), phone, from)
  {
    if more == [] {
      SentNow(d, phone, from, Limit(max));
    } else {
      var n := |more| - 1;
      var d' := RunFrom(max, d, more[..n]);
      StaysWithinHour(max, d, more[..n], phone, from);
      RunKeepsFrom(max, 1, d, more[..n], phone);
      StepKeeps(max, 1, d', more[n], phone);
      if more[n].Record? && more[n].phone == phone {
        RecordWithinHour(max, d', more[n], phone, from);
      } else {
        OtherWithinHour(max, d', more[n], phone, from);
      }
    }
  }

  /** Give up a send that is past its check. */
  function Settling(d: Desk, phone: string): seq<Event> {
    if Between(d, phone) == 0 then [] else [Abandon(phone)]
  }

  /** Use up the window, and fill the next one as soon as it opens. */
  function Overfill(max: int, d: Desk, phone: string, from: real, room: nat, end: real): seq<Event> {
    Settling(d, phone) + Sends(phone, from, room) + Sends(phone, end, Limit(max))
  }

  lemma SettlesFirst(max: int, d: Desk, phone: string, from: real, count: nat, end: real)
    requires PhoneInvariant(max, 1, d, phone) && d.clock == from && count > 0
    requires Live(d.store, OtpRate(phone), from) && d.store[OtpRate(phone)] == Entry(count, end)
    ensures Reaches(max, 1, d, Settling(d, phone), phone, from, count, 0, end, d.sent)
  {
    if Between(d, phone) != 0 {
      assert [] + [Abandon(phone)] == [Abandon(phone)];
      OneMore(max, 1, d, [], Abandon(phone));
    }
  }

  lemma Overfills(max: int, d: Desk, phone: string, from: real, count: nat, end: real, room: nat)
    requires Reaches(max, 1, d, Settling(d, phone), phone, from, count, 0, end, d.sent)
    requires from <= end && 0 < count && count + room == Limit(max)
    ensures LegalFrom(max, 1, d, Overfill(max, d, phone, from, room, end))
    ensures RunFrom(max, d, Overfill(max, d, phone, from, room, end)).sent
         == d.sent + Repeat(Stamp(phone, from), room) + Repeat(Stamp(phone, end), Limit(max))
  {
    var used, log := Settling(d, phone) + Sends(phone, from, room), d.sent + Repeat(Stamp(phone, from), room);
    SendsInRun(max, 1, d, Settling(d, phone), phone, from, count, 0, end, d.sent, room);
    Later(max, 1, d, used, phone, from, end, Limit(max), 0, end, log);
    SendsInRun(max, 1, d, used, phone, end, 0, 0, end + RATE_TTL, log, Limit(max));
  }

  lemma OverfillCount(sent: seq<Stamp>, phone: string, from: real, end: real, room: nat, limit: nat)
    requires from < end < from + RATE_TTL
    ensures var span := FromUntil(from, from + RATE_TTL);
            CountIn(By(sent + Repeat(Stamp(phone, from), room) + Repeat(Stamp(phone, end), limit), phone), span)
            == CountIn(By(sent, phone), span) + room + limit
  {
    var span := FromUntil(from, from + RATE_TTL);
    CountByRepeated(sent, Stamp(phone, from), room, phone, span);
    CountByRepeated(sent + Repeat(Stamp(phone, from), room), Stamp(phone, end), limit, phone, span);
  }

  /**
   Exactly when the limit holds for the hour from an instant on, whatever single sends follow: when
   the phone has no live counter then, or one that lasts the whole hour, or one that has reached the
   limit and no send of which was counted at that very instant.
   */
  lemma HourlyLimitExactly(max: int, events: seq<Event>, phone: string, from: real)
    requires Legal(max, 1, events) && Run(max, events).clock <= from
    ensures var d := Run(max, events).(clock := from);
            HourKept(max, d, phone, from) <==> HourSafe(max, d, phone, from)
  {
    RunKeeps(max, 1, events, phone);
    var d := Run(max, events).(clock := from);
    assert PhoneInvariant(max, 1, d, phone);
    if HourSafe(max, d, phone, from) {
      forall more | LegalFrom(max, 1, d, more)
        ensures CountIn(Sent(RunFrom(max, d, more), phone), FromUntil(from, from + RATE_TTL)) <= Limit(max)
      {
        StaysWithinHour(max, d, more, phone, from);
      }
    } else {
      HourBreaks(max, d, phone, from);
    }
  }

  lemma HourBreaks(max: int, d: Desk, phone: string, from: real)
    requires PhoneInvariant(max, 1, d, phone) && d.clock == from && !HourSafe(max, d, phone, from)
    ensures !HourKept(max, d, phone, from)
  {
    var entry := d.store[OtpRate(phone)];
    var room := Limit(max) - entry.value;
    CountIsWindow(d.store, OtpRate(phone), Sent(d, phone), RATE_TTL, from);
    SettlesFirst(max, d, phone, from, entry.value, entry.deadline);
    Overfills(max, d, phone, from, entry.value, entry.deadline, room);
    OverfillCount(d.sent, phone, from, entry.deadline, room, Limit(max));
    HourBroken(max, d, phone, from, Overfill(max, d, phone, from, room, entry.deadline));
  }

  lemma HourBroken(max: int, d: Desk, phone: string, from: real, more: seq<Event>)
    requires LegalFrom(max, 1, d, more)
    requires CountIn(Sent(RunFrom(max, d, more), phone), FromUntil(from, from + RATE_TTL)) > Limit(max)
    ensures !HourKept(max, d, phone, from)
  {
  }
}
