/**
 The circuit breaker with any number of overlapping calls. A call is admitted or rejected in one
 locked section and completes later in another, by a success, a listed exception (a failure), or
 an unlisted exception, which escapes without being recorded.
 */
module CircuitBreakers {
  import opened Results
  import opened Windows
  import opened Spacing

  datatype Policy = Policy(failureThreshold: int, recoveryTimeout: real)

  datatype Event =
    | Admitted(call: nat, at: real, probe: bool)
    | Rejected(at: real)
    | Succeeded(call: nat)
    | Failed(call: nat, at: real)
    | Escaped(call: nat)

  // ---------- What the log of a breaker says ----------

  /** The trailing run of failures among the recorded completions. */
  function Streak(log: seq<Event>): nat {
    if log == [] then 0
    else
      match log[|log| - 1]
      case Succeeded(_) => 0
      case Failed(_, _) => Streak(log[..|log| - 1]) + 1
      case _ => Streak(log[..|log| - 1])
  }

  function LastFailure(log: seq<Event>): real {
    if log == [] then 0.0
    else
      match log[|log| - 1]
      case Failed(_, at) => at
      case _ => LastFailure(log[..|log| - 1])
  }

  /** A probe was admitted and no completion of any call has been recorded since. */
  predicate ProbePending(log: seq<Event>) {
    log != [] &&
    match log[|log| - 1]
    case Admitted(_, _, probe) => probe || ProbePending(log[..|log| - 1])
    case Succeeded(_) => false
    case Failed(_, _) => false
    case _ => ProbePending(log[..|log| - 1])
  }

  function InFlight(log: seq<Event>): set<nat> {
    if log == [] then {}
    else
      match log[|log| - 1]
      case Admitted(call, _, _) => InFlight(log[..|log| - 1]) + {call}
      case Rejected(_) => InFlight(log[..|log| - 1])
      case e => InFlight(log[..|log| - 1]) - {e.call}
  }

  function Clock(log: seq<Event>): real {
    if log == [] then 0.0
    else
      match log[|log| - 1]
      case Succeeded(_) => Clock(log[..|log| - 1])
      case Escaped(_) => Clock(log[..|log| - 1])
      case e => e.at
  }

  predicate IsOpen(p: Policy, log: seq<Event>) {
    Streak(log) >= Max(1, p.failureThreshold)
  }

  datatype Decision = Pass | Probe | Reject

  function Decide(p: Policy, log: seq<Event>, now: real): Decision {
    if !IsOpen(p, log) then Pass
    else if now - LastFailure(log) >= p.recoveryTimeout && !ProbePending(log) then Probe
    else Reject
  }

  predicate Unused(log: seq<Event>, call: nat) {
    forall i | 0 <= i < |log| && log[i].Admitted? :: log[i].call != call
  }

  predicate Follows(p: Policy, log: seq<Event>, e: Event) {
    match e
    case Admitted(call, at, probe) =>
      Unused(log, call) && Clock(log) <= at && Decide(p, log, at) == if probe then Probe else Pass
    case Rejected(at) => Clock(log) <= at && Decide(p, log, at) == Reject
    case Succeeded(call) => call in InFlight(log)
    case Failed(call, at) => call in InFlight(log) && Clock(log) <= at
    case Escaped(call) => call in InFlight(log)
  }

  ghost predicate Legal(p: Policy, log: seq<Event>) {
    forall n | 0 <= n < |log| :: Follows(p, log[..n], log[n])
  }

  lemma LegalPrefix(p: Policy, log: seq<Event>, n: nat)
    requires Legal(p, log) && n <= |log|
    ensures Legal(p, log[..n])
  {
    forall m | 0 <= m < n ensures Follows(p, log[..n][..m], log[..n][m]) {
      assert log[..n][..m] == log[..m];
    }
  }

  lemma LegalPush(p: Policy, log: seq<Event>, e: Event)
    requires Legal(p, log) && Follows(p, log, e)
    ensures Legal(p, log + [e])
  {
    var log' := log + [e];
    forall m | 0 <= m < |log'| ensures Follows(p, log'[..m], log'[m]) {
      assert log'[..m] == log[..m];
      assert log[..|log|] == log;
    }
  }

  /** What one more event does to the readings of the log. */
  lemma Push(p: Policy, log: seq<Event>, e: Event)
    requires Legal(p, log) && Follows(p, log, e)
    ensures Legal(p, log + [e])
    ensures Streak(log + [e]) == if e.Succeeded? then 0 else if e.Failed? then Streak(log) + 1 else Streak(log)
    ensures LastFailure(log + [e]) == if e.Failed? then e.at else LastFailure(log)
    ensures ProbePending(log + [e]) <==> (e.Admitted? && e.probe) || (ProbePending(log) && !e.Succeeded? && !e.Failed?)
  {
    LegalPush(p, log, e);
    assert (log + [e])[..|log|] == log;
  }

  lemma {:induction false} ProbeMeansOpen(p: Policy, log: seq<Event>)
    requires Legal(p, log)
    ensures ProbePending(log) ==> IsOpen(p, log)
  {
    if log != [] {
      var n := |log| - 1;
      LegalPrefix(p, log, n);
      ProbeMeansOpen(p, log[..n]);
      assert Follows(p, log[..n], log[n]);
    }
  }

  // ---------- When a call is refused, read off the events ----------

  /** The positions of the failures that no success follows. */
  function FreshFailures(log: seq<Event>): set<nat> {
    set k: nat | k < |log| && log[k].Failed? && (forall j | k < j < |log| :: !log[j].Succeeded?)
  }

  /** The latest recorded completions, as many as the threshold and at least one, are all failures. */
  predicate Tripped(p: Policy, log: seq<Event>) {
    |FreshFailures(log)| >= Max(1, p.failureThreshold)
  }

  ghost predicate LastFailureAt(log: seq<Event>, k: nat) {
    k < |log| && log[k].Failed? && (forall j | k < j < |log| :: !log[j].Failed?)
  }

  /** The recovery timeout since the last failure is not over. */
  ghost predicate CoolingOff(p: Policy, log: seq<Event>, now: real) {
    exists k: nat :: LastFailureAt(log, k) && now - log[k].at < p.recoveryTimeout
  }

  ghost predicate Recorded(e: Event) {
    e.Succeeded? || e.Failed?
  }

  /** The probe admitted at `i` is the latest event that set or cleared the probe flag. */
  ghost predicate OutstandingProbe(log: seq<Event>, i: nat) {
    && i < |log| && log[i].Admitted? && log[i].probe
    && (forall k | i < k < |log| :: !Recorded(log[k]) && !(log[k].Admitted? && log[k].probe))
  }

  ghost predicate ProbeOut(log: seq<Event>) {
    exists i: nat :: OutstandingProbe(log, i)
  }

  ghost predicate Refused(p: Policy, log: seq<Event>, now: real) {
    Tripped(p, log) && (CoolingOff(p, log, now) || ProbeOut(log))
  }

  lemma {:induction false} StreakMeans(log: seq<Event>)
    ensures |FreshFailures(log)| == Streak(log)
  {
    if log == [] {
      assert FreshFailures(log) == {};
    } else {
      var n := |log| - 1;
      StreakMeans(log[..n]);
      match log[n]
      case Succeeded(_) => assert FreshFailures(log) == {};
      case Failed(_, _) => assert FreshFailures(log) == FreshFailures(log[..n]) + {n};
      case _ => assert FreshFailures(log) == FreshFailures(log[..n]);
    }
  }

  lemma {:induction false} LastFailureMeans(log: seq<Event>) returns (k: nat)
    requires Streak(log) > 0
    ensures LastFailureAt(log, k) && log[k].at == LastFailure(log)
  {
    var n := |log| - 1;
    k := n;
    if !log[n].Failed? {
      k := LastFailureMeans(log[..n]);
      assert log[k] == log[..n][k];
    }
  }

  lemma {:induction false} ProbeIsOutstanding(log: seq<Event>)
    ensures ProbePending(log) <==> ProbeOut(log)
  {
    if log != [] {
      var n := |log| - 1;
      ProbeIsOutstanding(log[..n]);
      if log[n].Admitted? && log[n].probe {
        assert OutstandingProbe(log, n);
      } else if !Recorded(log[n]) {
        forall i: nat | i < n ensures OutstandingProbe(log, i) <==> OutstandingProbe(log[..n], i) {
          assert forall k | 0 <= k < n :: log[..n][k] == log[k];
        }
      }
    }
  }

  lemma TimeoutMeans(p: Policy, log: seq<Event>, now: real)
    requires Streak(log) > 0
    ensures CoolingOff(p, log, now) <==> now - LastFailure(log) < p.recoveryTimeout
  {
    var k := LastFailureMeans(log);
    if j: nat :| LastFailureAt(log, j) && now - log[j].at < p.recoveryTimeout {
      assert j == k;
    }
  }

  /**
   For every log: a call is refused exactly when the latest completions, as many as the threshold, are
   all failures, and the timeout since the last of them is not over or a probe is outstanding. It
   passes as a probe when they are and neither holds, and as any call when they are not.
   */
  lemma DecisionExactly(p: Policy, log: seq<Event>, now: real)
    ensures IsOpen(p, log) <==> Tripped(p, log)
    ensures Decide(p, log, now) == Reject <==> Refused(p, log, now)
    ensures Decide(p, log, now) == Probe <==> Tripped(p, log) && !Refused(p, log, now)
    ensures Decide(p, log, now) == Pass <==> !Tripped(p, log)
  {
    StreakMeans(log);
    ProbeIsOutstanding(log);
    if IsOpen(p, log) {
      TimeoutMeans(p, log, now);
    }
  }

  // ---------- The breaker ----------

  datatype State = Closed | Open | HalfOpen

  class CircuitBreaker {
    const policy: Policy
    var stored: State
    var failureCount: int
    var lastFailureTime: real
    var probing: bool
    ghost var log: seq<Event>

    /** The four fields are exactly the four readings of the log. */
    ghost predicate Valid()
      reads this
    {
      && Legal(policy, log)
      && failureCount == Streak(log)
      && stored == (if IsOpen(policy, log) then Open else Closed)
      && lastFailureTime == LastFailure(log)
      && probing == ProbePending(log)
    }

    constructor (policy: Policy)
      ensures Valid() && this.policy == policy && log == []
    {
      this.policy := policy;
      stored := Closed;
      failureCount := 0;
      lastFailureTime := 0.0;
      probing := false;
      log := [];
    }

    predicate RecoveryTimeoutElapsed(now: real)
      reads this
    {
      now - lastFailureTime >= policy.recoveryTimeout
    }

    method ReportedState(now: real) returns (s: State)
      requires Valid()
      ensures s.Closed? <==> !Tripped(policy, log)
      ensures s.HalfOpen? <==> Tripped(policy, log) && (ProbeOut(log) || !CoolingOff(policy, log, now))
    {
      DecisionExactly(policy, log, now);
      ProbeIsOutstanding(log);
      if stored == Open && (probing || RecoveryTimeoutElapsed(now)) {
        return HalfOpen;
      }
      s := stored;
    }

    method EffectiveState(now: real) returns (s: State)
      requires stored != HalfOpen
      modifies this`probing
      ensures s == if stored == Open && RecoveryTimeoutElapsed(now) && !old(probing) then HalfOpen else stored
      ensures probing == (old(probing) || s == HalfOpen)
      ensures stored == Closed ==> s == Closed
    {
      if stored == Open && RecoveryTimeoutElapsed(now) && !probing {
        probing := true;
        return HalfOpen;
      }
      s := stored;
    }

    /** The locked section at the head of `call`; false stands for CircuitBreakerOpenError. */
    method BeginCall(ghost call: nat, now: real) returns (admitted: bool)
      requires Valid() && Unused(log, call) && Clock(log) <= now
      modifies this
      ensures Valid()
      ensures admitted <==> !Refused(policy, old(log), now)
      ensures log == old(log) + [if admitted then Admitted(call, now, Tripped(policy, old(log))) else Rejected(now)]
    {
      DecisionExactly(policy, log, now);
      var s := EffectiveState(now);
      admitted := s != Open;
      ghost var e := if admitted then Admitted(call, now, Tripped(policy, log)) else Rejected(now);
      Push(policy, log, e);
      log := log + [e];
    }

    method RecordFailure(ghost call: nat, now: real)
      requires Valid() && call in InFlight(log) && Clock(log) <= now
      modifies this
      ensures Valid() && log == old(log) + [Failed(call, now)]
    {
      ProbeMeansOpen(policy, log);
      Push(policy, log, Failed(call, now));
      var wasProbing := probing;
      probing := false;
      failureCount := failureCount + 1;
      lastFailureTime := now;
      if wasProbing {
        // The probe failed: the circuit stays open and the timer restarts.
      } else if failureCount >= policy.failureThreshold {
        stored := Open;
      }
      log := log + [Failed(call, now)];
    }

    method RecordSuccess(ghost call: nat)
      requires Valid() && call in InFlight(log)
      modifies this
      ensures Valid() && log == old(log) + [Succeeded(call)]
    {
      Push(policy, log, Succeeded(call));
      probing := false;
      failureCount := 0;
      stored := Closed;
      log := log + [Succeeded(call)];
    }

    /** An exception outside `expected_exceptions` leaves `call` without touching the breaker. */
    ghost method Escape(call: nat)
      requires Valid() && call in InFlight(log)
      modifies this`log
      ensures Valid() && log == old(log) + [Escaped(call)]
    {
      Push(policy, log, Escaped(call));
      log := log + [Escaped(call)];
    }
  }

  // ---------- Spacing of admissions while open ----------

  ghost predicate OpenThroughout(p: Policy, log: seq<Event>, lo: nat, hi: nat)
    requires hi <= |log|
  {
    forall k | lo <= k <= hi :: IsOpen(p, log[..k])
  }

  lemma OpenPrefix(p: Policy, log: seq<Event>, lo: nat, hi: nat, m: nat)
    requires m <= hi <= |log| && OpenThroughout(p, log, lo, hi)
    ensures OpenThroughout(p, log[..m], lo, m)
    ensures lo <= m ==> IsOpen(p, log[..m])
  {
    forall k | lo <= k <= m ensures IsOpen(p, log[..m][..k]) {
      assert log[..m][..k] == log[..k];
    }
  }

  lemma {:induction false} ClockAdvances(p: Policy, log: seq<Event>, i: nat)
    requires Legal(p, log) && i < |log| && log[i].Admitted?
    ensures Clock(log) >= log[i].at
  {
    var n := |log| - 1;
    if i < n {
      LegalPrefix(p, log, n);
      ClockAdvances(p, log[..n], i);
      assert Follows(p, log[..n], log[n]);
    }
  }

  /** After an admission while open, the probe is pending or a failure has come since. */
  lemma {:induction false} SinceProbe(p: Policy, log: seq<Event>, i: nat)
    requires Legal(p, log) && i < |log| && log[i].Admitted? && OpenThroughout(p, log, i, |log|)
    ensures ProbePending(log) || LastFailure(log) >= log[i].at
  {
    var n := |log| - 1;
    assert Follows(p, log[..n], log[n]);
    if i < n {
      LegalPrefix(p, log, n);
      OpenPrefix(p, log, i, |log|, n);
      SinceProbe(p, log[..n], i);
      ClockAdvances(p, log[..n], i);
      assert log[..|log|] == log;
    }
  }

  /**
   A call admitted while open comes at least the recovery timeout after the last recorded failure,
   and as long after every other admission in the same open period, whatever calls from before do.
   */
  lemma OpenSpacing(p: Policy, log: seq<Event>, j: nat)
    requires Legal(p, log) && j < |log| && log[j].Admitted? && IsOpen(p, log[..j])
    ensures log[j].at >= LastFailure(log[..j]) + p.recoveryTimeout
    ensures forall i | 0 <= i < j && log[i].Admitted? && OpenThroughout(p, log, i, j) ::
              log[j].at >= log[i].at + p.recoveryTimeout
  {
    assert Follows(p, log[..j], log[j]);
    LegalPrefix(p, log, j);
    forall i | 0 <= i < j && log[i].Admitted? && OpenThroughout(p, log, i, j)
      ensures log[j].at >= log[i].at + p.recoveryTimeout
    {
      OpenPrefix(p, log, i, j, j);
      SinceProbe(p, log[..j], i);
    }
  }

  function Admissions(log: seq<Event>, lo: nat): seq<real> {
    if |log| <= lo then []
    else
      var n := |log| - 1;
      if log[n].Admitted? then Admissions(log[..n], lo) + [log[n].at] else Admissions(log[..n], lo)
  }

  lemma {:induction false} AdmissionsFrom(log: seq<Event>, lo: nat, m: nat)
    requires m < |Admissions(log, lo)|
    ensures exists i | lo <= i < |log| :: log[i].Admitted? && log[i].at == Admissions(log, lo)[m]
  {
    var n := |log| - 1;
    if m < |Admissions(log[..n], lo)| {
      AdmissionsFrom(log[..n], lo, m);
      var i :| lo <= i < n && log[..n][i].Admitted? && log[..n][i].at == Admissions(log[..n], lo)[m];
      assert log[i] == log[..n][i];
    }
  }

  lemma {:induction false} AdmissionsSpaced(p: Policy, log: seq<Event>, lo: nat)
    requires Legal(p, log) && OpenThroughout(p, log, lo, |log|)
    ensures Spaced(Admissions(log, lo), p.recoveryTimeout)
  {
    if |log| > lo {
      var n := |log| - 1;
      LegalPrefix(p, log, n);
      OpenPrefix(p, log, lo, |log|, n);
      AdmissionsSpaced(p, log[..n], lo);
      if log[n].Admitted? {
        forall m | 0 <= m < |Admissions(log[..n], lo)|
          ensures Admissions(log[..n], lo)[m] + p.recoveryTimeout <= log[n].at
        {
          AdmissionsFrom(log[..n], lo, m);
          var i :| lo <= i < n && log[i].Admitted? && log[i].at == Admissions(log[..n], lo)[m];
          assert IsOpen(p, log[..n]);
          OpenSpacing(p, log, n);
        }
      }
    }
  }

  /** Inside one open period, a span of length `length` admits at most floor(length / recovery timeout) + 1 calls. */
  lemma OpenAdmissions(p: Policy, log: seq<Event>, lo: nat, from: real, length: real)
    requires Legal(p, log) && OpenThroughout(p, log, lo, |log|)
    requires p.recoveryTimeout > 0.0 && length >= 0.0
    ensures CountIn(Admissions(log, lo), FromThrough(from, from + length)) <= (length / p.recoveryTimeout).Floor + 1
  {
    AdmissionsSpaced(p, log, lo);
    SpacedInSpan(Admissions(log, lo), p.recoveryTimeout, from, length);
  }

  // ---------- Probes and recovery ----------

  predicate EndsCall(e: Event, call: nat) {
    !e.Admitted? && !e.Rejected? && e.call == call
  }

  ghost predicate EndedAfter(log: seq<Event>, i: nat, call: nat) {
    exists k | i < k < |log| :: EndsCall(log[k], call)
  }

  lemma EndedAfterStep(log: seq<Event>, i: nat, call: nat)
    requires i < |log| - 1
    ensures EndedAfter(log, i, call) <==> EndsCall(log[|log| - 1], call) || EndedAfter(log[..|log| - 1], i, call)
  {
    var n := |log| - 1;
    if EndedAfter(log[..n], i, call) {
      var k :| i < k < n && EndsCall(log[..n][k], call);
      assert EndsCall(log[k], call);
    }
  }

  /** A call is in flight exactly when it was admitted and no later event ends it. */
  lemma {:induction false} InFlightMeans(p: Policy, log: seq<Event>, i: nat)
    requires Legal(p, log) && i < |log| && log[i].Admitted?
    ensures log[i].call in InFlight(log) <==> !EndedAfter(log, i, log[i].call)
  {
    var n := |log| - 1;
    if i < n {
      assert Follows(p, log[..n], log[n]);
      LegalPrefix(p, log, n);
      InFlightMeans(p, log[..n], i);
      EndedAfterStep(log, i, log[i].call);
      assert log[..n][i] == log[i];
    }
  }

  /** If no call escaped, a pending probe is that of a call still in flight. */
  lemma PendingProbeInFlight(p: Policy, log: seq<Event>)
    requires Legal(p, log) && ProbePending(log) && forall k | 0 <= k < |log| :: !log[k].Escaped?
    ensures exists i: nat :: OutstandingProbe(log, i) && log[i].call in InFlight(log)
  {
    ProbeIsOutstanding(log);
    var i: nat :| OutstandingProbe(log, i);
    InFlightMeans(p, log, i);
    assert forall k | i < k < |log| :: !Recorded(log[k]);
  }

  /** The last probe's call escaped, and nothing has been recorded since it was admitted. */
  ghost predicate ProbeLost(log: seq<Event>) {
    exists i: nat, k :: OutstandingProbe(log, i) && i < k < |log| && log[k] == Escaped(log[i].call)
  }

  /**
   With no call in flight and the recovery timeout over since the last failure, a call is refused
   exactly when the last probe escaped unrecorded. Without such an escape it is admitted.
   */
  lemma RefusedWhenIdle(p: Policy, log: seq<Event>, now: real)
    requires Legal(p, log) && InFlight(log) == {} && now >= LastFailure(log) + p.recoveryTimeout
    ensures Decide(p, log, now) == Reject <==> ProbeLost(log)
    ensures (forall k | 0 <= k < |log| :: !log[k].Escaped?) ==> Decide(p, log, now) != Reject
  {
    ProbeMeansOpen(p, log);
    ProbeIsOutstanding(log);
    if ProbePending(log) {
      var i: nat :| OutstandingProbe(log, i);
      InFlightMeans(p, log, i);
      var k :| i < k < |log| && EndsCall(log[k], log[i].call);
      assert !Recorded(log[k]);
      assert log[k] == Escaped(log[i].call);
    }
  }

  lemma RefusedNext(p: Policy, log: seq<Event>, e: Event)
    requires Legal(p, log) && InFlight(log) == {} && ProbePending(log) && Follows(p, log, e)
    ensures e.Rejected? && InFlight(log + [e]) == {} && ProbePending(log + [e])
  {
    ProbeMeansOpen(p, log);
    assert (log + [e])[..|log|] == log;
  }

  /** Once that has happened and nothing is in flight, every later call is refused, for ever. */
  lemma {:induction false} RefusedForEver(p: Policy, log: seq<Event>, more: seq<Event>)
    requires Legal(p, log + more) && InFlight(log) == {} && ProbePending(log)
    ensures forall k | 0 <= k < |more| :: more[k].Rejected?
    decreases |more|
  {
    if more != [] {
      var whole := log + more;
      assert whole[..|log|] == log && whole[|log|] == more[0];
      LegalPrefix(p, whole, |log|);
      RefusedNext(p, log, more[0]);
      assert (log + [more[0]]) + more[1..] == whole;
      RefusedForEver(p, log + [more[0]], more[1..]);
      assert forall k | 1 <= k < |more| :: more[k] == more[1..][k - 1];
    }
  }

  /** A second probe while the first is in flight needs another call's completion in between. */
  lemma SecondProbe(p: Policy, log: seq<Event>, i: nat, j: nat)
    requires Legal(p, log) && i < j < |log|
    requires log[i].Admitted? && log[i].probe && log[j].Admitted? && log[j].probe
    requires log[i].call in InFlight(log[..j])
    ensures exists k | i < k < j :: Recorded(log[k]) && log[k].call != log[i].call
  {
    assert Follows(p, log[..j], log[j]);
    LegalPrefix(p, log, j);
    assert log[..j][i] == log[i];
    InFlightMeans(p, log[..j], i);
    PendingUntilRecorded(log[..j], i);
    var k :| i < k < j && Recorded(log[..j][k]);
    assert !EndsCall(log[..j][k], log[i].call);
    assert log[..j][k] == log[k];
  }

  lemma {:induction false} PendingUntilRecorded(log: seq<Event>, i: nat)
    requires i < |log| && log[i].Admitted? && log[i].probe && !ProbePending(log)
    ensures exists k | i < k < |log| :: Recorded(log[k])
  {
    var n := |log| - 1;
    if i < n && !Recorded(log[n]) {
      PendingUntilRecorded(log[..n], i);
      var k :| i < k < n && Recorded(log[..n][k]);
      assert Recorded(log[k]);
    } else if i < n {
      assert Recorded(log[n]);
    }
  }

  /**
   While open with the recovery timeout over, another probe passes exactly when some call's success
   or failure has been recorded since the last one, whether or not that one is still in flight.
   */
  lemma AnotherProbeExactly(p: Policy, log: seq<Event>, i: nat, now: real)
    requires i < |log| && log[i].Admitted? && log[i].probe
    requires forall k | i < k < |log| :: !(log[k].Admitted? && log[k].probe)
    requires IsOpen(p, log) && now >= LastFailure(log) + p.recoveryTimeout
    ensures Decide(p, log, now) == Probe <==> exists k | i < k < |log| :: Recorded(log[k])
  {
    ProbeIsOutstanding(log);
    if !ProbePending(log) {
      assert !OutstandingProbe(log, i);
    }
  }

  // ---------- Runs that show both failures, for every threshold ----------

  /** A call that goes on for long, and `n` calls after it that fail at once. */
  function Failures(n: nat): seq<Event> {
    if n == 0 then [Admitted(0, 0.0, false)] else Failures(n - 1) + [Admitted(n, 0.0, false), Failed(n, 0.0)]
  }

  predicate UnusedAbove(log: seq<Event>, n: int) {
    forall i | 0 <= i < |log| && log[i].Admitted? :: log[i].call <= n
  }

  ghost predicate Tripping(p: Policy, log: seq<Event>, n: nat) {
    && Legal(p, log) && Streak(log) == n && InFlight(log) == {0} && Clock(log) == 0.0 && LastFailure(log) == 0.0
    && !ProbePending(log) && UnusedAbove(log, n)
  }

  /** One more event, by calls up to `n`. */
  lemma Grow(p: Policy, log: seq<Event>, e: Event, n: int)
    requires Legal(p, log) && Follows(p, log, e) && UnusedAbove(log, n) && (e.Admitted? ==> e.call <= n)
    ensures var log' := log + [e];
            && Legal(p, log') && UnusedAbove(log', n)
            && Streak(log') == (if e.Succeeded? then 0 else if e.Failed? then Streak(log) + 1 else Streak(log))
            && LastFailure(log') == (if e.Failed? then e.at else LastFailure(log))
            && (ProbePending(log') <==> (e.Admitted? && e.probe) || (ProbePending(log) && !e.Succeeded? && !e.Failed?))
            && InFlight(log') == (if e.Admitted? then InFlight(log) + {e.call} else if e.Rejected? then InFlight(log)
                                  else InFlight(log) - {e.call})
            && Clock(log') == (if e.Succeeded? || e.Escaped? then Clock(log) else e.at)
  {
    Push(p, log, e);
    assert (log + [e])[..|log|] == log;
  }

  lemma Fails(p: Policy, log: seq<Event>, n: nat)
    requires 0 < n <= Max(1, p.failureThreshold) && Tripping(p, log, n - 1)
    ensures Tripping(p, log + [Admitted(n, 0.0, false), Failed(n, 0.0)], n)
  {
    var e, e' := Admitted(n, 0.0, false), Failed(n, 0.0);
    Grow(p, log, e, n);
    Grow(p, log + [e], e', n);
    assert log + [e, e'] == log + [e] + [e'];
  }

  lemma {:induction false} FailuresTrip(p: Policy, n: nat)
    requires n <= Max(1, p.failureThreshold)
    ensures Tripping(p, Failures(n), n)
  {
    if n == 0 {
      assert [] + [Admitted(0, 0.0, false)] == [Admitted(0, 0.0, false)];
      Grow(p, [], Admitted(0, 0.0, false), 0);
    } else {
      FailuresTrip(p, n - 1);
      Fails(p, Failures(n - 1), n);
    }
  }

  /** Open, with the long call still running and its probe call admitted. */
  function Probed(p: Policy): seq<Event> {
    var n := Max(1, p.failureThreshold);
    Failures(n) + [Admitted(n + 1, p.recoveryTimeout, true)]
  }

  lemma ProbedRun(p: Policy)
    requires p.recoveryTimeout >= 0.0
    ensures var log, n := Probed(p), Max(1, p.failureThreshold);
            && Legal(p, log) && Streak(log) == n && InFlight(log) == {0, n + 1} && Clock(log) == p.recoveryTimeout
            && |log| > 0 && log[|log| - 1] == Admitted(n + 1, p.recoveryTimeout, true)
            && UnusedAbove(log, n + 1) && LastFailure(log) == 0.0 && ProbePending(log)
  {
    var n := Max(1, p.failureThreshold);
    FailuresTrip(p, n);
    Grow(p, Failures(n), Admitted(n + 1, p.recoveryTimeout, true), n + 1);
  }

  /** The long call fails under the probe and clears its flag. */
  function Cleared(p: Policy): seq<Event> {
    Probed(p) + [Failed(0, p.recoveryTimeout)]
  }

  function AnotherProbe(p: Policy): Event {
    Admitted(Max(1, p.failureThreshold) + 2, 2.0 * p.recoveryTimeout, true)
  }

  /** A second probe joins the first. */
  function TwoProbes(p: Policy): seq<Event> {
    Cleared(p) + [AnotherProbe(p)]
  }

  lemma ClearedRun(p: Policy)
    requires p.recoveryTimeout >= 0.0
    ensures var log, n := Cleared(p), Max(1, p.failureThreshold);
            && Legal(p, log) && IsOpen(p, log) && InFlight(log) == {n + 1} && Clock(log) == p.recoveryTimeout
            && UnusedAbove(log, n + 1) && LastFailure(log) == p.recoveryTimeout && !ProbePending(log)
  {
    ProbedRun(p);
    Grow(p, Probed(p), Failed(0, p.recoveryTimeout), Max(1, p.failureThreshold) + 1);
  }

  lemma TwoProbesRun(p: Policy)
    requires p.recoveryTimeout >= 0.0
    ensures Legal(p, TwoProbes(p))
    ensures var n := Max(1, p.failureThreshold); InFlight(TwoProbes(p)) == {n + 1, n + 2}
  {
    ClearedRun(p);
    Grow(p, Cleared(p), AnotherProbe(p), Max(1, p.failureThreshold) + 2);
  }

  lemma ProbesInLog(p: Policy)
    ensures Admitted(Max(1, p.failureThreshold) + 1, p.recoveryTimeout, true) in TwoProbes(p)
    ensures AnotherProbe(p) in TwoProbes(p)
  {
    var n := |Failures(Max(1, p.failureThreshold))|;
    assert TwoProbes(p)[n] == Admitted(Max(1, p.failureThreshold) + 1, p.recoveryTimeout, true);
    assert TwoProbes(p)[n + 2] == AnotherProbe(p);
  }

  lemma TwoProbesInFlight(p: Policy)
    requires p.recoveryTimeout >= 0.0
    ensures Legal(p, TwoProbes(p))
    ensures var n := Max(1, p.failureThreshold); InFlight(TwoProbes(p)) == {n + 1, n + 2}
    ensures Admitted(Max(1, p.failureThreshold) + 1, p.recoveryTimeout, true) in TwoProbes(p)
    ensures AnotherProbe(p) in TwoProbes(p)
  {
    TwoProbesRun(p);
    ProbesInLog(p);
  }

  /** Both the probe and the long call end in exceptions that are not listed. */
  function Lost(p: Policy): seq<Event> {
    Probed(p) + [Escaped(Max(1, p.failureThreshold) + 1)] + [Escaped(0)]
  }

  lemma LostProbeRun(p: Policy)
    requires p.recoveryTimeout >= 0.0
    ensures Legal(p, Lost(p)) && InFlight(Lost(p)) == {} && ProbeLost(Lost(p))
  {
    var n := Max(1, p.failureThreshold);
    var log := Probed(p);
    ProbedRun(p);
    Grow(p, log, Escaped(n + 1), n + 2);
    Grow(p, log + [Escaped(n + 1)], Escaped(0), n + 2);
    assert Lost(p)[|log| - 1] == log[|log| - 1];
    assert OutstandingProbe(Lost(p), |log| - 1);
    assert Lost(p)[|log|] == Escaped(n + 1);
  }
}
