/**
 The cached service token: one caller at a time as a class, and many threads as a machine whose
 steps are the single reads and writes of the two shared fields, under sequential consistency.
 */
module ServiceTokens {
  import opened Results
  import opened Spacing
  import opened Windows

  /** A successful reply of the token endpoint: the token, its own `exp` claim, and `expires_in`. */
  datatype Reply = Reply(token: string, expClaim: Option<real>, expiresIn: Option<real>)

  datatype Unavailable = ServiceTokenUnavailable

  function ComputeExpiry(r: Reply, now: real): real {
    if r.expClaim.Some? then r.expClaim.value
    else if r.expiresIn.Some? && r.expiresIn.value > 0.0 then now + r.expiresIn.value
    else now + 60.0
  }

  // ---------- One caller at a time ----------

  datatype Slot = Slot(token: string, expiresAt: real)

  predicate IsFresh(slot: Slot, skew: real, now: real) {
    slot.token != "" && now < slot.expiresAt - skew
  }

  /** What one undisturbed `get_token` leaves in the cache; `None` is a failed request. */
  function SlotAfter(slot: Slot, skew: real, tFast: real, tLocked: real, reply: Option<Reply>, tReply: real): Slot {
    if IsFresh(slot, skew, tFast) || IsFresh(slot, skew, tLocked) || reply.None? then slot
    else Slot(reply.value.token, ComputeExpiry(reply.value, tReply))
  }

  class ServiceTokenManager {
    const refreshSkew: real
    var token: string
    var expiresAt: real

    constructor (refreshSkew: real)
      ensures this.refreshSkew == refreshSkew && View() == Slot("", 0.0)
    {
      this.refreshSkew := refreshSkew;
      token := "";
      expiresAt := 0.0;
    }

    function View(): Slot
      reads this
    {
      Slot(token, expiresAt)
    }

    method Refresh(reply: Option<Reply>, tReply: real) returns (ok: bool)
      modifies this
      ensures ok == reply.Some?
      ensures View() == if ok then Slot(reply.value.token, ComputeExpiry(reply.value, tReply)) else old(View())
      ensures ok && reply.value.expClaim.Some? ==> expiresAt == reply.value.expClaim.value
      ensures ok && reply.value.expClaim.None? ==>
                var n := reply.value.expiresIn;
                expiresAt == tReply + if n.Some? && n.value > 0.0 then n.value else 60.0
    {
      if reply.None? {
        return false;
      }
      var expires := ComputeExpiry(reply.value, tReply);
      token := reply.value.token;
      expiresAt := expires;
      ok := true;
    }

    /**
     A token found fresh, before or after the lock is taken, is handed out and kept; one found stale is
     replaced by that of a reply, and handed out after a failed request, whether or not it has expired.
     Only an empty cache and a failed request raise.
     */
    method GetToken(tFast: real, tLocked: real, reply: Option<Reply>, tReply: real)
      returns (r: Result<string, Unavailable>)
      modifies this
      ensures View() == SlotAfter(old(View()), refreshSkew, tFast, tLocked, reply, tReply)
      ensures var kept := old(token) != "" && (tFast < old(expiresAt) - refreshSkew
                                               || tLocked < old(expiresAt) - refreshSkew);
              if kept || reply.None? then View() == old(View()) else token == reply.value.token
      ensures r.Ok? ==> r.value == token
      ensures r.Err? <==> old(token) == "" && reply.None?
    {
      if token != "" && tFast < expiresAt - refreshSkew {
        return Ok(token);
      }
      if token != "" && tLocked < expiresAt - refreshSkew {
        return Ok(token);
      }
      var ok := Refresh(reply, tReply);
      if !ok && token == "" {
        return Err(ServiceTokenUnavailable);
      }
      r := Ok(token);
    }

    method Invalidate()
      modifies this
      ensures View() == Slot("", 0.0)
    {
      token := "";
      expiresAt := 0.0;
    }
  }

  // ---------- Many threads ----------

  /** Where a thread is between two accesses to the shared fields. */
  datatype Pc =
    | Idle
    | FastSawToken
    | FastClock(now: real)
    | FastJudged(install: nat, now: real)          // fresh by the expiry of that install
    | WaitLock
    | HoldStart
    | HoldSawToken
    | HoldClock(now: real)
    | HoldFresh(now: real)
    | Fetching(since: real)                        // found stale at `since`
    | Fetched(since: real, token: string, expires: real)
    | WroteToken(since: real, expires: real)
    | Releasing
    | Released
    | Failed(since: real)
    | WaitInvalidate
    | Clearing
    | ClearedToken

  predicate Holds(pc: Pc) {
    pc.HoldStart? || pc.HoldSawToken? || pc.HoldClock? || pc.HoldFresh? || pc.Fetching? || pc.Fetched?
    || pc.WroteToken? || pc.Releasing? || pc.Failed? || pc.Clearing? || pc.ClearedToken?
  }

  /** A write to `_token`, by a refresh or by `invalidate`. */
  datatype Write = Put(token: string) | Clear

  /** A write to `_expires_at`. */
  datatype Install = Install(expires: real, at: real)

  /** The `return` statement a token left by; tokens are judged fresh or stale by the expiry of an install. */
  datatype Path = Fast(install: nat, now: real) | Fresh(install: nat, now: real) | Refreshed | Cached(install: nat,
                                                                                                      since: real)

  /** `start` and `writes` count the writes to `_token` before the call's first and its last read of it. */
  datatype Return = Return(thread: nat, token: string, start: nat, writes: nat, path: Path)

  /** The shared fields and the lock, then what happened so far; `raised` are the threads whose calls raised. */
  datatype System = System(
    token: string, expiresAt: real, lock: Option<nat>, pcs: map<nat, Pc>, clock: real,
    starts: map<nat, nat>, writes: seq<Write>, installs: seq<Install>, given: seq<Return>,
    raised: seq<nat>)

  const START := System("", 0.0, None, map[], 0.0, map[], [], [], [], [])

  datatype Move =
    | Go(thread: nat, now: real, reply: Option<(string, real)>)
    | CallInvalidate(thread: nat)

  function PcOf(s: System, thread: nat): Pc {
    if thread in s.pcs then s.pcs[thread] else Idle
  }

  function StartOf(s: System, thread: nat): nat {
    if thread in s.starts then s.starts[thread] else 0
  }

  function SlotOf(s: System): Slot {
    Slot(s.token, s.expiresAt)
  }

  function At(s: System, thread: nat, pc: Pc): System {
    s.(pcs := s.pcs[thread := pc])
  }

  function Give(s: System, thread: nat, path: Path): System {
    At(s, thread, Idle).(given := s.given + [Return(thread, s.token, StartOf(s, thread), |s.writes|, path)])
  }

  function Step(skew: real, s0: System, m: Move): System {
    if m.CallInvalidate? then (if PcOf(s0, m.thread).Idle? then At(s0, m.thread, WaitInvalidate) else s0)
    else
      var t := m.thread;
      var s := s0.(clock := m.now);
      match PcOf(s, t)
      case Idle => At(s, t, if s.token == "" then WaitLock else FastSawToken).(starts := s.starts[t := |s.writes|])
      case FastSawToken => At(s, t, FastClock(m.now))
      case FastClock(now) => At(s, t, if now < s.expiresAt - skew then FastJudged(|s.installs|, now) else WaitLock)
      case FastJudged(install, now) => Give(s, t, Fast(install, now))
      case WaitLock => if s.lock.None? then At(s, t, HoldStart).(lock := Some(t)) else s
      case HoldStart => At(s, t, if s.token == "" then Fetching(m.now) else HoldSawToken)
      case HoldSawToken => At(s, t, HoldClock(m.now))
      case HoldClock(now) => At(s, t, if now < s.expiresAt - skew then HoldFresh(now) else Fetching(now))
      case HoldFresh(now) => Give(s, t, Fresh(|s.installs|, now)).(lock := None)
      case Fetching(since) => At(s, t, if m.reply.Some? then Fetched(since, m.reply.value.0, m.reply.value.1)
                                 else Failed(since))
      case Fetched(since, token, expires) =>
        At(s, t, WroteToken(since, expires)).(token := token, writes := s.writes + [Put(token)])
      case WroteToken(_, expires) =>
        At(s, t, Releasing).(expiresAt := expires, installs := s.installs + [Install(expires, m.now)])
      case Releasing => At(s, t, Released).(lock := None)
      case Released => Give(s, t, Refreshed)
      case Failed(since) =>
        if s.token != "" then Give(s, t, Cached(|s.installs|, since)).(lock := None)
        else At(s, t, Idle).(lock := None, raised := s.raised + [t])
      case WaitInvalidate => if s.lock.None? then At(s, t, Clearing).(lock := Some(t)) else s
      case Clearing => At(s, t, ClearedToken).(token := "", writes := s.writes + [Clear])
      case ClearedToken =>
        At(s, t, Idle).(expiresAt := 0.0, lock := None, installs := s.installs + [Install(0.0, m.now)])
  }

  function RunFrom(skew: real, s: System, moves: seq<Move>): System {
    if moves == [] then s
    else Step(skew, RunFrom(skew, s, moves[..|moves| - 1]), moves[|moves| - 1])
  }

  /** Any threads, any order, any replies and, unless said otherwise, any clock. */
  function Run(skew: real, moves: seq<Move>): System {
    RunFrom(skew, START, moves)
  }

  // ---------- What every step keeps ----------

  /** The lock is held by exactly the thread inside the locked section. */
  ghost predicate LockKept(s: System) {
    forall t: nat :: Holds(PcOf(s, t)) <==> s.lock == Some(t)
  }

  function Text(w: Write): string {
    if w.Clear? then "" else w.token
  }

  function LastText(writes: seq<Write>): string {
    if writes == [] then "" else Text(writes[|writes| - 1])
  }

  predicate BetweenWrites(s: System) {
    s.lock.Some? && (PcOf(s, s.lock.value).WroteToken? || PcOf(s, s.lock.value).ClearedToken?)
  }

  /** The fields hold the last values written; `_token` is at most one write ahead, and never behind. */
  ghost predicate FieldsKept(s: System) {
    && |s.writes| == |s.installs| + (if BetweenWrites(s) then 1 else 0)
    && s.token == LastText(s.writes)
    && s.expiresAt == ExpiryOf(s.installs, |s.installs|)
  }

  /** What `_expires_at` holds after so many installs. */
  function ExpiryOf(installs: seq<Install>, n: nat): real
    requires n <= |installs|
  {
    if n == 0 then 0.0 else installs[n - 1].expires
  }

  predicate JudgedFresh(skew: real, installs: seq<Install>, install: nat, now: real) {
    install <= |installs| && now < ExpiryOf(installs, install) - skew
  }

  /** What a thread may still rely on at its place. */
  ghost predicate PcKept(skew: real, s: System, t: nat) {
    var start, n := StartOf(s, t), |s.writes|;
    && start <= n
    && match PcOf(s, t)
       case FastSawToken => start > 0 && Text(s.writes[start - 1]) != ""
       case FastClock(_) => start > 0 && Text(s.writes[start - 1]) != ""
       case FastJudged(install, now) =>
         start > 0 && Text(s.writes[start - 1]) != "" && install <= n && JudgedFresh(skew, s.installs, install, now)
       case HoldSawToken => s.token != ""
       case HoldClock(_) => s.token != ""
       case HoldFresh(now) => IsFresh(SlotOf(s), skew, now)
       case Fetching(since) => !IsFresh(SlotOf(s), skew, since)
       case Fetched(since, _, _) => !IsFresh(SlotOf(s), skew, since)
       case Failed(since) => !IsFresh(SlotOf(s), skew, since)
       case WroteToken(since, _) =>
         && start < n && s.writes[n - 1].Put?
         && (n > 1 && Text(s.writes[n - 2]) != "" ==> since >= s.expiresAt - skew)
       case Releasing => start < n
       case Released => start < n
       case ClearedToken => n > 0 && s.writes[n - 1] == Clear
       case _ => true
  }

  ghost predicate ReturnKept(skew: real, writes: seq<Write>, installs: seq<Install>, r: Return) {
    && r.start <= r.writes && 0 < r.writes <= |writes|
    && r.token == Text(writes[r.writes - 1])
    && (r.token == "" ==> r.start < r.writes && (r.path.Fast? || r.path.Refreshed?))
    && (r.path.Fast? ==> r.path.install <= r.writes && JudgedFresh(skew, installs, r.path.install, r.path.now))
    && (r.path.Fresh? ==> r.path.install == r.writes && JudgedFresh(skew, installs, r.path.install, r.path.now))
    && FallbackKept(skew, installs, r)
  }

  ghost predicate FallbackKept(skew: real, installs: seq<Install>, r: Return) {
    r.path.Cached? ==>
      && r.path.install == r.writes && r.path.install <= |installs| && r.token != ""
      && r.path.since >= ExpiryOf(installs, r.path.install) - skew
  }

  ghost predicate ReturnsKept(skew: real, s: System) {
    forall i | 0 <= i < |s.given| :: ReturnKept(skew, s.writes, s.installs, s.given[i])
  }

  ghost predicate Invariant(skew: real, s: System) {
    LockKept(s) && FieldsKept(s) && (forall t: nat :: PcKept(skew, s, t)) && ReturnsKept(skew, s)
  }

  lemma ElsewhereStarts(skew: real, s: System, m: Move, t: nat)
    requires t != m.thread
    ensures StartOf(Step(skew, s, m), t) == StartOf(s, t)
  {
  }

  lemma ElsewhereHeld(skew: real, s: System, m: Move, t: nat)
    requires t != m.thread && Holds(PcOf(s, m.thread))
    ensures PcOf(Step(skew, s, m), t) == PcOf(s, t)
  {
  }

  lemma ElsewhereFree(skew: real, s: System, m: Move, t: nat)
    requires t != m.thread && !Holds(PcOf(s, m.thread))
    ensures PcOf(Step(skew, s, m), t) == PcOf(s, t)
  {
  }

  lemma Elsewhere(skew: real, s: System, m: Move, t: nat)
    requires t != m.thread
    ensures PcOf(Step(skew, s, m), t) == PcOf(s, t) && StartOf(Step(skew, s, m), t) == StartOf(s, t)
  {
    ElsewhereStarts(skew, s, m, t);
    if Holds(PcOf(s, m.thread)) {
      ElsewhereHeld(skew, s, m, t);
    } else {
      ElsewhereFree(skew, s, m, t);
    }
  }

  /** A thread takes the lock when it is free, and only its holder lets it go. */
  lemma OwnLockStep(skew: real, s: System, m: Move)
    requires Holds(PcOf(s, m.thread)) <==> s.lock == Some(m.thread)
    ensures var s' := Step(skew, s, m);
            && (Holds(PcOf(s', m.thread)) <==> s'.lock == Some(m.thread))
            && (s'.lock == s.lock || (s.lock.None? && s'.lock == Some(m.thread))
                || (s.lock == Some(m.thread) && s'.lock.None?))
  {
  }

  lemma LockStep(skew: real, s: System, m: Move, t: nat)
    requires LockKept(s)
    ensures var s' := Step(skew, s, m); Holds(PcOf(s', t)) <==> s'.lock == Some(t)
  {
    assert Holds(PcOf(s, t)) <==> s.lock == Some(t);
    assert Holds(PcOf(s, m.thread)) <==> s.lock == Some(m.thread);
    OwnLockStep(skew, s, m);
    if t != m.thread {
      Elsewhere(skew, s, m, t);
    }
  }

  predicate Writes(pc: Pc) {
    pc.Fetched? || pc.WroteToken? || pc.Clearing? || pc.ClearedToken?
  }

  lemma WriteStep(skew: real, s: System, m: Move)
    requires LockKept(s) && FieldsKept(s) && m.Go? && Writes(PcOf(s, m.thread))
    ensures FieldsKept(Step(skew, s, m))
  {
    assert Holds(PcOf(s, m.thread)) <==> s.lock == Some(m.thread);
  }

  /** Every other step leaves both fields and their logs alone. */
  lemma ReadStep(skew: real, s: System, m: Move)
    requires LockKept(s) && (m.Go? ==> !Writes(PcOf(s, m.thread)))
    ensures var s' := Step(skew, s, m);
            && SlotOf(s') == SlotOf(s) && s'.writes == s.writes && s'.installs == s.installs
            && BetweenWrites(s') == BetweenWrites(s)
  {
    assert Holds(PcOf(s, m.thread)) <==> s.lock == Some(m.thread);
  }

  lemma OwnHeldStep(skew: real, s: System, m: Move)
    requires FieldsKept(s) && PcKept(skew, s, m.thread) && Holds(PcOf(s, m.thread)) && s.lock == Some(m.thread)
    ensures PcKept(skew, Step(skew, s, m), m.thread)
  {
  }

  lemma OwnFreeStep(skew: real, s: System, m: Move)
    requires FieldsKept(s) && PcKept(skew, s, m.thread) && !Holds(PcOf(s, m.thread))
    ensures PcKept(skew, Step(skew, s, m), m.thread)
  {
  }

  lemma OwnPcStep(skew: real, s: System, m: Move)
    requires LockKept(s) && FieldsKept(s) && PcKept(skew, s, m.thread)
    ensures PcKept(skew, Step(skew, s, m), m.thread)
  {
    if Holds(PcOf(s, m.thread)) {
      OwnHeldStep(skew, s, m);
    } else {
      OwnFreeStep(skew, s, m);
    }
  }

  lemma WritesGrow(skew: real, s: System, m: Move)
    ensures s.writes <= Step(skew, s, m).writes && s.installs <= Step(skew, s, m).installs
  {
  }

  /** A thread outside the lock relies on nothing that a write of another can change. */
  lemma PcOutlives(skew: real, s: System, s': System, t: nat)
    requires PcKept(skew, s, t) && PcOf(s', t) == PcOf(s, t) && StartOf(s', t) == StartOf(s, t)
    requires s.writes <= s'.writes && s.installs <= s'.installs
    requires Holds(PcOf(s, t)) ==> SlotOf(s') == SlotOf(s) && s'.writes == s.writes
    ensures PcKept(skew, s', t)
  {
  }

  /** Another thread's step leaves a thread's own knowledge valid; only the lock holder changes the fields. */
  lemma OtherPcStep(skew: real, s: System, m: Move, t: nat)
    requires LockKept(s) && PcKept(skew, s, t) && t != m.thread
    ensures PcKept(skew, Step(skew, s, m), t)
  {
    Elsewhere(skew, s, m, t);
    WritesGrow(skew, s, m);
    if m.Go? && Writes(PcOf(s, m.thread)) {
      assert Holds(PcOf(s, t)) <==> s.lock == Some(t);
      assert Holds(PcOf(s, m.thread)) <==> s.lock == Some(m.thread);
    } else {
      ReadStep(skew, s, m);
    }
    PcOutlives(skew, s, Step(skew, s, m), t);
  }

  /** A step gives out at most one more token, the one in the cache. */
  lemma GiveStep(skew: real, s: System, m: Move)
    requires LockKept(s) && FieldsKept(s) && PcKept(skew, s, m.thread)
    ensures var given := Step(skew, s, m).given;
            given == s.given ||
            (|given| == |s.given| + 1 && given[..|s.given|] == s.given
             && ReturnKept(skew, s.writes, s.installs, given[|s.given|]))
  {
  }

  lemma ReturnKeptLater(skew: real, writes: seq<Write>, writes': seq<Write>, installs: seq<Install>,
                        installs': seq<Install>, r: Return)
    requires ReturnKept(skew, writes, installs, r) && writes <= writes' && installs <= installs'
    ensures ReturnKept(skew, writes', installs', r)
  {
  }

  lemma ReturnsStep(skew: real, s: System, m: Move)
    requires LockKept(s) && FieldsKept(s) && ReturnsKept(skew, s) && PcKept(skew, s, m.thread)
    ensures ReturnsKept(skew, Step(skew, s, m))
  {
    WritesGrow(skew, s, m);
    GiveStep(skew, s, m);
    var s' := Step(skew, s, m);
    forall i | 0 <= i < |s'.given| ensures ReturnKept(skew, s'.writes, s'.installs, s'.given[i]) {
      if i < |s.given| {
        assert s'.given[i] == s.given[i];
      }
      ReturnKeptLater(skew, s.writes, s'.writes, s.installs, s'.installs, s'.given[i]);
    }
  }

  lemma StepKeeps(skew: real, s: System, m: Move)
    requires Invariant(skew, s)
    ensures Invariant(skew, Step(skew, s, m))
  {
    forall t: nat ensures Holds(PcOf(Step(skew, s, m), t)) <==> Step(skew, s, m).lock == Some(t) {
      LockStep(skew, s, m, t);
    }
    assert PcKept(skew, s, m.thread);
    if m.Go? && Writes(PcOf(s, m.thread)) {
      WriteStep(skew, s, m);
    } else {
      ReadStep(skew, s, m);
    }
    ReturnsStep(skew, s, m);
    forall t: nat ensures PcKept(skew, Step(skew, s, m), t) {
      if t == m.thread {
        OwnPcStep(skew, s, m);
      } else {
        OtherPcStep(skew, s, m, t);
      }
    }
  }

  lemma {:induction false} RunKeeps(skew: real, moves: seq<Move>)
    ensures Invariant(skew, Run(skew, moves))
  {
    if moves != [] {
      var n := |moves| - 1;
      RunKeeps(skew, moves[..n]);
      StepKeeps(skew, Run(skew, moves[..n]), moves[n]);
    }
  }

  /**
   Only one thread is ever in the locked section, and it fetches only when it found the cache missing or
   stale there.
   */
  lemma OneRefreshAtATime(skew: real, moves: seq<Move>, t: nat, u: nat)
    requires Holds(PcOf(Run(skew, moves), t)) && Holds(PcOf(Run(skew, moves), u))
    ensures t == u
    ensures var s := Run(skew, moves); PcOf(s, t).Fetching? ==> !IsFresh(SlotOf(s), skew, PcOf(s, t).since)
  {
    RunKeeps(skew, moves);
    assert PcKept(skew, Run(skew, moves), t);
  }

  /**
   The unlocked fast path returns what the last write before its read put there, which is the write
   that belongs to the install it was judged by, or a later one.
   */
  lemma FastPathReturns(skew: real, moves: seq<Move>, i: nat)
    requires i < |Run(skew, moves).given| && Run(skew, moves).given[i].path.Fast?
    ensures var s := Run(skew, moves);
            var r := s.given[i];
            && Max(1, r.path.install) <= r.writes <= |s.writes|
            && r.token == Text(s.writes[r.writes - 1])
    ensures var s := Run(skew, moves);
            var r := s.given[i];
            (forall k | 0 <= k < |s.writes| :: Text(s.writes[k]) != "") ==> r.token != ""
  {
    RunKeeps(skew, moves);
    assert ReturnKept(skew, Run(skew, moves).writes, Run(skew, moves).installs, Run(skew, moves).given[i]);
  }

  /**
   Whoever returns without asking for a token read the clock before the expiry it went by, less the
   skew: that of some install on the unlocked path, and under the lock that of the very token returned.
   */
  lemma ReturnsFresh(skew: real, moves: seq<Move>, i: nat)
    requires i < |Run(skew, moves).given|
    requires Run(skew, moves).given[i].path.Fast? || Run(skew, moves).given[i].path.Fresh?
    ensures var s := Run(skew, moves);
            var r := s.given[i];
            && r.path.install <= |s.installs| && r.path.now < ExpiryOf(s.installs, r.path.install) - skew
            && (r.path.Fresh? ==> r.path.install == r.writes && 0 < r.writes <= |s.writes|
                                  && r.token == Text(s.writes[r.writes - 1]) && r.token != "")
  {
    RunKeeps(skew, moves);
    assert ReturnKept(skew, Run(skew, moves).writes, Run(skew, moves).installs, Run(skew, moves).given[i]);
  }

  /**
   Exactly when a call returns an empty token, by whatever path: the last write before its last read
   emptied it, and came after the call's first read. So a call during which nothing empties the
   token never returns an empty one. If no reply carries an empty token, it is always an `invalidate`.
   */
  lemma EmptyExactly(skew: real, moves: seq<Move>, i: nat)
    requires i < |Run(skew, moves).given|
    ensures var s := Run(skew, moves);
            var r := s.given[i];
            && r.writes <= |s.writes|
            && (r.token == "" <==> r.start < r.writes && Text(s.writes[r.writes - 1]) == "")
            && (r.token == "" ==> r.path.Fast? || r.path.Refreshed?)
    ensures var s := Run(skew, moves);
            var r := s.given[i];
            (forall k | 0 <= k < |s.writes| :: s.writes[k] != Put("")) ==>
              (r.token == "" <==> r.start < r.writes && s.writes[r.writes - 1].Clear?)
  {
    RunKeeps(skew, moves);
    assert ReturnKept(skew, Run(skew, moves).writes, Run(skew, moves).installs, Run(skew, moves).given[i]);
  }

  /**
   A return after a failed request hands out the token of the last install, which was stale when read
   under the lock. It has not expired then exactly when less than the skew has passed since it went stale.
   */
  lemma FallbackExactly(skew: real, moves: seq<Move>, i: nat)
    requires i < |Run(skew, moves).given| && Run(skew, moves).given[i].path.Cached?
    ensures var s := Run(skew, moves);
            var r := s.given[i];
            && 0 < r.path.install == r.writes <= |s.installs| && r.writes <= |s.writes|
            && r.token == Text(s.writes[r.writes - 1]) && r.token != ""
            && var stale := s.installs[r.path.install - 1].expires - skew;
            && stale <= r.path.since
            && (r.path.since < s.installs[r.path.install - 1].expires <==> r.path.since < stale + skew)
  {
    RunKeeps(skew, moves);
    assert ReturnKept(skew, Run(skew, moves).writes, Run(skew, moves).installs, Run(skew, moves).given[i]);
  }

  // ---------- Runs with an empty return, on either unlocked path ----------

  lemma {:induction false} RunJoin(skew: real, s: System, a: seq<Move>, b: seq<Move>)
    ensures RunFrom(skew, s, a + b) == RunFrom(skew, RunFrom(skew, s, a), b)
    decreases |b|
  {
    if b == [] {
      assert a + b == a;
    } else {
      var n := |b| - 1;
      RunJoin(skew, s, a, b[..n]);
      assert (a + b)[..|a + b| - 1] == a + b[..n];
    }
  }

  lemma OneMove(skew: real, s: System, m: Move)
    ensures RunFrom(skew, s, [m]) == Step(skew, s, m)
  {
    assert [m][..0] == [];
    assert RunFrom(skew, s, [m][..0]) == s;
  }

  lemma OnceMore(skew: real, s: System, m: Move, n: nat)
    ensures RunFrom(skew, s, Repeat(m, n + 1)) == Step(skew, RunFrom(skew, s, Repeat(m, n)), m)
  {
    assert Repeat(m, n + 1)[..n] == Repeat(m, n);
  }

  /** Where thread 0 is and what the fields and logs hold, while thread 1 is idle. */
  ghost predicate Scene(s: System, pc: Pc, slot: Slot, writes: seq<Write>, installs: nat, given: nat) {
    && PcOf(s, 0) == pc && PcOf(s, 1) == Idle && SlotOf(s) == slot && s.writes == writes
    && s.lock == (if Holds(pc) then Some(0) else None)
    && |s.installs| == installs && |s.given| == given
  }

  function Act(skew: real): Move {
    Go(0, 0.0, Some(("t", skew + 1.0)))
  }

  function Twice(skew: real, s: System): System {
    Step(skew, Step(skew, s, Act(skew)), Act(skew))
  }

  lemma TwoMore(skew: real, n: nat)
    ensures Run(skew, Repeat(Act(skew), n + 2)) == Twice(skew, Run(skew, Repeat(Act(skew), n)))
  {
    OnceMore(skew, START, Act(skew), n);
    OnceMore(skew, START, Act(skew), n + 1);
  }

  const NOTHING := Slot("", 0.0)

  lemma ToTheLock(skew: real, s: System)
    requires Scene(s, Idle, NOTHING, [], 0, 0)
    ensures Scene(Twice(skew, s), HoldStart, NOTHING, [], 0, 0)
  {
  }

  lemma ToTheReply(skew: real, s: System)
    requires Scene(s, HoldStart, NOTHING, [], 0, 0)
    ensures Scene(Twice(skew, s), Fetched(0.0, "t", skew + 1.0), NOTHING, [], 0, 0)
  {
  }

  lemma ToBothWrites(skew: real, s: System)
    requires Scene(s, Fetched(0.0, "t", skew + 1.0), NOTHING, [], 0, 0)
    ensures Scene(Twice(skew, s), Releasing, Slot("t", skew + 1.0), [Put("t")], 1, 0)
  {
  }

  lemma ToTheReturn(skew: real, s: System)
    requires Scene(s, Releasing, Slot("t", skew + 1.0), [Put("t")], 1, 0)
    ensures Scene(Step(skew, s, Act(skew)), Released, Slot("t", skew + 1.0), [Put("t")], 1, 0)
    ensures Scene(Twice(skew, s), Idle, Slot("t", skew + 1.0), [Put("t")], 1, 1)
  {
  }

  lemma ToTheNextCall(skew: real, s: System)
    requires Scene(s, Idle, Slot("t", skew + 1.0), [Put("t")], 1, 1)
    ensures Scene(Twice(skew, s), FastClock(0.0), Slot("t", skew + 1.0), [Put("t")], 1, 1)
  {
  }

  lemma ToTheJudgement(skew: real, s: System)
    requires Scene(s, FastClock(0.0), Slot("t", skew + 1.0), [Put("t")], 1, 1)
    ensures Scene(Step(skew, s, Act(skew)), FastJudged(1, 0.0), Slot("t", skew + 1.0), [Put("t")], 1, 1)
  {
  }

  /** Thread 0 finds nothing and refreshes; its last read comes after it has let go of the lock. */
  lemma FirstRefresh(skew: real)
    ensures Scene(Run(skew, Repeat(Act(skew), 6)), Releasing, Slot("t", skew + 1.0), [Put("t")], 1, 0)
  {
    assert Run(skew, Repeat(Act(skew), 0)) == START;
    ToTheLock(skew, START);
    TwoMore(skew, 0);
    ToTheReply(skew, Run(skew, Repeat(Act(skew), 2)));
    TwoMore(skew, 2);
    ToBothWrites(skew, Run(skew, Repeat(Act(skew), 4)));
    TwoMore(skew, 4);
  }

  /** Just before it returns, and in its next call just after it judged the token fresh. */
  lemma LastReads(skew: real)
    ensures Scene(Run(skew, Repeat(Act(skew), 7)), Released, Slot("t", skew + 1.0), [Put("t")], 1, 0)
    ensures Scene(Run(skew, Repeat(Act(skew), 11)), FastJudged(1, 0.0), Slot("t", skew + 1.0), [Put("t")], 1, 1)
  {
    FirstRefresh(skew);
    ToTheReturn(skew, Run(skew, Repeat(Act(skew), 6)));
    OnceMore(skew, START, Act(skew), 6);
    TwoMore(skew, 6);
    ToTheNextCall(skew, Run(skew, Repeat(Act(skew), 8)));
    TwoMore(skew, 8);
    ToTheJudgement(skew, Run(skew, Repeat(Act(skew), 10)));
    OnceMore(skew, START, Act(skew), 10);
  }

  /** The same thread calls again when the token has expired, and the request fails. */
  function Late(skew: real): Move {
    Go(0, skew + 1.0, None)
  }

  ghost predicate LateScene(skew: real, s: System, pc: Pc) {
    Scene(s, pc, Slot("t", skew + 1.0), [Put("t")], 1, 1) && s.installs[0].expires == skew + 1.0
  }

  function Thrice(skew: real, s: System): System {
    Step(skew, Step(skew, Step(skew, s, Late(skew)), Late(skew)), Late(skew))
  }

  lemma ThriceMore(skew: real, s: System)
    ensures RunFrom(skew, s, Repeat(Late(skew), 3)) == Thrice(skew, s)
  {
    assert RunFrom(skew, s, Repeat(Late(skew), 0)) == s;
    OnceMore(skew, s, Late(skew), 0);
    OnceMore(skew, s, Late(skew), 1);
    OnceMore(skew, s, Late(skew), 2);
  }

  lemma FindsStale(skew: real, s: System)
    requires skew >= 0.0 && LateScene(skew, s, Idle)
    ensures LateScene(skew, Thrice(skew, s), WaitLock)
  {
  }

  lemma FindsStaleAgain(skew: real, s: System)
    requires LateScene(skew, s, WaitLock)
    ensures LateScene(skew, Thrice(skew, s), HoldClock(skew + 1.0))
  {
  }

  lemma FallsBack(skew: real, s: System)
    requires skew >= 0.0 && LateScene(skew, s, HoldClock(skew + 1.0))
    ensures var s' := Thrice(skew, s);
            && |s'.given| == 2 && s'.given[1].token == "t" && s'.given[1].path == Cached(1, skew + 1.0)
            && |s'.installs| == 1 && s'.installs[0].expires == skew + 1.0
  {
  }

  function Expired(skew: real): seq<Move> {
    Repeat(Act(skew), 8) + Repeat(Late(skew), 3) + Repeat(Late(skew), 3) + Repeat(Late(skew), 3)
  }

  lemma ForwardPush(skew: real, moves: seq<Move>, m: Move)
    requires Forward(skew, moves) && m.Go? && Run(skew, moves).clock <= m.now
    ensures Forward(skew, moves + [m]) && Run(skew, moves + [m]).clock <= m.now
  {
    assert (moves + [m])[..|moves|] == moves;
    NowOrBefore(skew, Run(skew, moves), m);
  }

  lemma NowOrBefore(skew: real, s: System, m: Move)
    requires m.Go? && s.clock <= m.now
    ensures Step(skew, s, m).clock <= m.now
  {
  }

  lemma {:induction false} LaterForward(skew: real, moves: seq<Move>, m: Move, n: nat)
    requires Forward(skew, moves) && m.Go? && Run(skew, moves).clock <= m.now
    ensures Forward(skew, moves + Repeat(m, n)) && Run(skew, moves + Repeat(m, n)).clock <= m.now
  {
    if n == 0 {
      assert moves + Repeat(m, 0) == moves;
    } else {
      LaterForward(skew, moves, m, n - 1);
      ForwardPush(skew, moves + Repeat(m, n - 1), m);
      RepeatMore(moves, m, n);
    }
  }

  /** Thread 0 has its token and is idle again. */
  lemma AtRest(skew: real)
    ensures LateScene(skew, Run(skew, Repeat(Act(skew), 8)), Idle)
  {
    FirstRefresh(skew);
    ToTheReturn(skew, Run(skew, Repeat(Act(skew), 6)));
    TwoMore(skew, 6);
    RunKeeps(skew, Repeat(Act(skew), 8));
  }

  /** So a token can be handed out after its expiry. */
  lemma ExpiredFallback(skew: real)
    requires skew >= 0.0
    ensures Forward(skew, Expired(skew))
    ensures var s := Run(skew, Expired(skew));
            && |s.given| == 2 && s.given[1].token == "t" && s.given[1].path == Cached(1, skew + 1.0)
            && |s.installs| == 1 && s.installs[0].expires == skew + 1.0
  {
    var first := Repeat(Act(skew), 8);
    var late := Repeat(Late(skew), 3);
    AtRest(skew);
    RunJoin(skew, START, first, late);
    RunJoin(skew, START, first + late, late);
    RunJoin(skew, START, first + late + late, late);
    ThriceMore(skew, Run(skew, first));
    ThriceMore(skew, Run(skew, first + late));
    ThriceMore(skew, Run(skew, first + late + late));
    FindsStale(skew, Run(skew, first));
    FindsStaleAgain(skew, Run(skew, first + late));
    FallsBack(skew, Run(skew, first + late + late));
    StillForward(skew, first);
    LaterForward(skew, first, Late(skew), 3);
    LaterForward(skew, first + late, Late(skew), 3);
    LaterForward(skew, first + late + late, Late(skew), 3);
  }

  /** A thread calls `invalidate` and runs it to the end. */
  function Invalidation(u: nat, now: real): seq<Move> {
    [CallInvalidate(u)] + Repeat(Go(u, now, None), 3)
  }

  /** The token is handed out by one read still to come, with no lock held. */
  predicate Leaving(pc: Pc) {
    pc.Released? || pc.FastJudged?
  }

  /** While `u` invalidates, `t` stays where it was in `s0`. */
  ghost predicate Meanwhile(s0: System, s: System, t: nat, u: nat, pc: Pc) {
    && PcOf(s, t) == PcOf(s0, t) && s.given == s0.given && PcOf(s, u) == pc
    && s.lock == (if Holds(pc) then Some(u) else None)
  }

  lemma ToTheClear(skew: real, s0: System, s: System, t: nat, u: nat, now: real)
    requires t != u && Meanwhile(s0, s, t, u, WaitInvalidate)
    ensures Meanwhile(s0, Step(skew, s, Go(u, now, None)), t, u, Clearing)
  {
  }

  lemma Cleared(skew: real, s0: System, s: System, t: nat, u: nat, now: real)
    requires t != u && Meanwhile(s0, s, t, u, Clearing)
    ensures var s' := Step(skew, s, Go(u, now, None)); s'.token == "" && Meanwhile(s0, s', t, u, ClearedToken)
  {
  }

  lemma Invalidates(skew: real, s: System, t: nat, u: nat, now: real)
    requires Leaving(PcOf(s, t)) && PcOf(s, u).Idle? && s.lock.None?
    ensures var s' := RunFrom(skew, s, Invalidation(u, now)); SlotOf(s') == NOTHING && Meanwhile(s, s', t, u, Idle)
  {
    var m := Go(u, now, None);
    var s1 := RunFrom(skew, s, [CallInvalidate(u)]);
    OneMove(skew, s, CallInvalidate(u));
    assert Meanwhile(s, s1, t, u, WaitInvalidate);
    RunJoin(skew, s, [CallInvalidate(u)], Repeat(m, 3));
    assert RunFrom(skew, s1, Repeat(m, 0)) == s1;
    OnceMore(skew, s1, m, 0);
    OnceMore(skew, s1, m, 1);
    OnceMore(skew, s1, m, 2);
    ToTheClear(skew, s, s1, t, u, now);
    Cleared(skew, s, Step(skew, s1, m), t, u, now);
    ClearEnds(skew, s, Step(skew, Step(skew, s1, m), m), t, u, now);
  }

  lemma ClearEnds(skew: real, s0: System, s: System, t: nat, u: nat, now: real)
    requires t != u && Meanwhile(s0, s, t, u, ClearedToken)
    ensures var s' := Step(skew, s, Go(u, now, None));
            SlotOf(s') == Slot(s.token, 0.0) && Meanwhile(s0, s', t, u, Idle)
  {
  }

  /** A thread past its refresh or its fast judgement returns nothing if an `invalidate` comes first. */
  lemma LeavesWithNothing(skew: real, s: System, t: nat, u: nat, now: real, last: Move)
    requires Leaving(PcOf(s, t)) && PcOf(s, u).Idle? && s.lock.None? && last.Go? && last.thread == t
    ensures var given := RunFrom(skew, s, Invalidation(u, now) + [last]).given;
            var n := |s.given|;
            && |given| == n + 1 && given[n].thread == t && given[n].token == ""
            && given[n].path == if PcOf(s, t).Released? then Refreshed else Fast(PcOf(s, t).install, PcOf(s, t).now)
  {
    Invalidates(skew, s, t, u, now);
    RunJoin(skew, s, Invalidation(u, now), [last]);
    OneMove(skew, RunFrom(skew, s, Invalidation(u, now)), last);
  }

  lemma {:induction false} StillForward(skew: real, moves: seq<Move>)
    requires forall i | 0 <= i < |moves| && moves[i].Go? :: moves[i].now == 0.0
    ensures Forward(skew, moves) && Run(skew, moves).clock == 0.0
  {
    if moves != [] {
      StillForward(skew, moves[..|moves| - 1]);
    }
  }

  /** Thread 0 steps `n` times, thread 1 invalidates, thread 0 takes its last step. */
  function Interrupted(skew: real, n: nat): seq<Move> {
    Repeat(Act(skew), n) + (Invalidation(1, 0.0) + [Act(skew)])
  }

  /** On the way out of the locked path. */
  lemma SlowReturnEmpty(skew: real)
    ensures Forward(skew, Interrupted(skew, 7))
    ensures var given := Run(skew, Interrupted(skew, 7)).given;
            |given| == 1 && given[0].token == "" && given[0].path == Refreshed
  {
    LastReads(skew);
    LeavesWithNothing(skew, Run(skew, Repeat(Act(skew), 7)), 0, 1, 0.0, Act(skew));
    RunJoin(skew, START, Repeat(Act(skew), 7), Invalidation(1, 0.0) + [Act(skew)]);
    StillForward(skew, Interrupted(skew, 7));
  }

  /** In the next call, between the fast judgement and the return. */
  lemma FastReturnEmpty(skew: real)
    ensures Forward(skew, Interrupted(skew, 11))
    ensures var given := Run(skew, Interrupted(skew, 11)).given;
            |given| == 2 && given[1].token == "" && given[1].path == Fast(1, 0.0)
  {
    LastReads(skew);
    LeavesWithNothing(skew, Run(skew, Repeat(Act(skew), 11)), 0, 1, 0.0, Act(skew));
    RunJoin(skew, START, Repeat(Act(skew), 11), Invalidation(1, 0.0) + [Act(skew)]);
    StillForward(skew, Interrupted(skew, 11));
  }

  // ---------- How far apart refreshes are ----------

  /** The clock never goes backwards. */
  ghost predicate Forward(skew: real, moves: seq<Move>) {
    moves != [] ==>
      var n := |moves| - 1;
      Forward(skew, moves[..n]) && (moves[n].Go? ==> Run(skew, moves[..n]).clock <= moves[n].now)
  }

  predicate PastReading(pc: Pc, clock: real) {
    match pc
    case FastClock(now) => now <= clock
    case HoldClock(now) => now <= clock
    case Fetching(since) => since <= clock
    case Fetched(since, _, _) => since <= clock
    case WroteToken(since, _) => since <= clock
    case _ => true
  }

  /** A token that is not empty gets replaced only once it was stale. */
  ghost predicate InstallsKept(skew: real, s: System) {
    && (forall i | 0 <= i < |s.installs| :: s.installs[i].at <= s.clock)
    && (forall i, j | 0 <= i < j < |s.installs| :: s.installs[i].at <= s.installs[j].at)
    && |s.installs| <= |s.writes|
    && (forall k | 1 <= k < |s.installs| && s.writes[k].Put? && Text(s.writes[k - 1]) != "" ::
          s.installs[k].at >= s.installs[k - 1].expires - skew)
  }

  ghost predicate Timed(skew: real, s: System) {
    (forall t: nat :: PastReading(PcOf(s, t), s.clock)) && InstallsKept(skew, s)
  }

  lemma InstallsLater(skew: real, s: System, s': System)
    requires InstallsKept(skew, s) && s.clock <= s'.clock && s'.installs == s.installs && s.writes <= s'.writes
    ensures InstallsKept(skew, s')
  {
  }

  lemma InstallAdded(skew: real, s: System, s': System, added: Install)
    requires InstallsKept(skew, s) && FieldsKept(s) && |s.writes| == |s.installs| + 1
    requires s'.writes == s.writes && s'.installs == s.installs + [added] && s.clock <= added.at == s'.clock
    requires var n := |s.writes|;
             n > 1 && s.writes[n - 1].Put? && Text(s.writes[n - 2]) != "" ==> added.at >= s.expiresAt - skew
    ensures InstallsKept(skew, s')
  {
    forall k | 1 <= k < |s'.installs| && s'.writes[k].Put? && Text(s'.writes[k - 1]) != ""
      ensures s'.installs[k].at >= s'.installs[k - 1].expires - skew
    {
      if k < |s.installs| {
        assert s'.installs[k] == s.installs[k];
      }
    }
  }

  lemma InstallsStep(skew: real, s: System, m: Move)
    requires Invariant(skew, s) && Timed(skew, s) && (m.Go? ==> s.clock <= m.now)
    ensures InstallsKept(skew, Step(skew, s, m))
  {
    var pc := PcOf(s, m.thread);
    assert PcKept(skew, s, m.thread) && PastReading(pc, s.clock);
    assert Holds(pc) <==> s.lock == Some(m.thread);
    if m.Go? && (pc.WroteToken? || pc.ClearedToken?) {
      InstallAdded(skew, s, Step(skew, s, m), Install(if pc.WroteToken? then pc.expires else 0.0, m.now));
    } else {
      WritesGrow(skew, s, m);
      InstallsLater(skew, s, Step(skew, s, m));
    }
  }

  lemma PastStep(skew: real, s: System, m: Move, t: nat)
    requires PastReading(PcOf(s, t), s.clock) && (m.Go? ==> s.clock <= m.now)
    ensures PastReading(PcOf(Step(skew, s, m), t), Step(skew, s, m).clock)
  {
    if t != m.thread {
      Elsewhere(skew, s, m, t);
    }
  }

  lemma TimedStep(skew: real, s: System, m: Move)
    requires Invariant(skew, s) && Timed(skew, s) && (m.Go? ==> s.clock <= m.now)
    ensures Timed(skew, Step(skew, s, m))
  {
    InstallsStep(skew, s, m);
    forall t: nat ensures PastReading(PcOf(Step(skew, s, m), t), Step(skew, s, m).clock) {
      PastStep(skew, s, m, t);
    }
  }

  lemma {:induction false} RunTimed(skew: real, moves: seq<Move>)
    requires Forward(skew, moves)
    ensures Timed(skew, Run(skew, moves))
  {
    if moves != [] {
      var n := |moves| - 1;
      RunTimed(skew, moves[..n]);
      RunKeeps(skew, moves[..n]);
      TimedStep(skew, Run(skew, moves[..n]), moves[n]);
    }
  }

  /**
   A refresh that replaces a token which is there and lives at least `life` from its own
   installation comes at least `life - skew` after that, and after every earlier install.
   */
  lemma InstallsApart(skew: real, life: real, moves: seq<Move>, i: nat, j: nat)
    requires Forward(skew, moves) && i < j < |Run(skew, moves).installs|
    ensures |Run(skew, moves).installs| <= |Run(skew, moves).writes|
    ensures var s := Run(skew, moves);
            && s.writes[j].Put? && Text(s.writes[j - 1]) != ""
            && s.installs[j - 1].expires >= s.installs[j - 1].at + life
            ==> s.installs[j].at >= s.installs[i].at + (life - skew)
  {
    RunTimed(skew, moves);
    var s := Run(skew, moves);
    assert s.installs[i].at <= s.installs[j - 1].at;
  }

  /** The instants at which the installs from the `lo`th on took place. */
  function InstallTimes(s: System, lo: nat): (ts: seq<real>)
    requires lo <= |s.installs|
    ensures |ts| == |s.installs| - lo
  {
    seq(|s.installs| - lo, i requires 0 <= i < |s.installs| - lo => s.installs[lo + i].at)
  }

  /** From the `lo`th write on nothing was cleared, and every token is there and lives for `life`. */
  ghost predicate LongLived(s: System, lo: nat, life: real) {
    forall k | lo <= k < |s.installs| && k < |s.writes| ::
      && s.writes[k].Put? && Text(s.writes[k]) != "" && s.installs[k].expires >= s.installs[k].at + life
  }

  lemma TimesApart(skew: real, life: real, s: System, lo: nat, i: nat, j: nat)
    requires InstallsKept(skew, s) && LongLived(s, lo, life) && lo <= i < j < |s.installs|
    ensures s.installs[j].at >= s.installs[i].at + (life - skew)
  {
    assert s.installs[i].at <= s.installs[j - 1].at;
  }

  lemma TimesSpaced(skew: real, life: real, s: System, lo: nat)
    requires InstallsKept(skew, s) && LongLived(s, lo, life) && lo <= |s.installs|
    ensures Spaced(InstallTimes(s, lo), life - skew)
  {
    var ts := InstallTimes(s, lo);
    forall i, j | 0 <= i < j < |ts| ensures ts[i] + (life - skew) <= ts[j] {
      TimesApart(skew, life, s, lo, lo + i, lo + j);
    }
  }

  /** So in a stretch without `invalidate`, a span of a given length sees only so many refreshes. */
  lemma InstallsInSpan(skew: real, life: real, moves: seq<Move>, lo: nat, from: real, length: real)
    requires Forward(skew, moves) && lo <= |Run(skew, moves).installs| && LongLived(Run(skew, moves), lo, life)
    requires life > skew && length >= 0.0
    ensures CountIn(InstallTimes(Run(skew, moves), lo), FromThrough(from, from + length))
         <= (length / (life - skew)).Floor + 1
  {
    InstallsSpaced(skew, life, moves, lo);
    SpacedInSpan(InstallTimes(Run(skew, moves), lo), life - skew, from, length);
  }

  lemma InstallsSpaced(skew: real, life: real, moves: seq<Move>, lo: nat)
    requires Forward(skew, moves) && lo <= |Run(skew, moves).installs| && LongLived(Run(skew, moves), lo, life)
    ensures Spaced(InstallTimes(Run(skew, moves), lo), life - skew)
  {
    RunTimed(skew, moves);
    TimesSpaced(skew, life, Run(skew, moves), lo);
  }

  // ---------- A thread on its own is `GetToken` ----------

  /** The readings that a thread running alone takes, by where it is. */
  datatype Inputs = Inputs(tFast: real, tLocked: real, reply: Option<Reply>, tReply: real)

  function InputAt(pc: Pc, t: nat, inp: Inputs): Move {
    Go(t,
       if pc.FastSawToken? then inp.tFast else if pc.HoldSawToken? then inp.tLocked else inp.tReply,
       if inp.reply.Some? then Some((inp.reply.value.token, ComputeExpiry(inp.reply.value, inp.tReply))) else None)
  }

  function Next(skew: real, s: System, t: nat, inp: Inputs): System {
    Step(skew, s, InputAt(PcOf(s, t), t, inp))
  }

  function Solo(skew: real, s: System, t: nat, inp: Inputs, n: nat): System
    decreases n
  {
    if n == 0 then s else Solo(skew, Next(skew, s, t, inp), t, inp, n - 1)
  }

  /** Whether the call returns: it raises only when the request fails with nothing cached. */
  predicate Returns(slot: Slot, inp: Inputs) {
    slot.token != "" || inp.reply.Some?
  }

  ghost predicate Done(s: System, end: System, t: nat, slot: Slot, served: bool) {
    && PcOf(end, t).Idle? && end.lock.None? && SlotOf(end) == slot
    && (if served then end.raised == s.raised && |end.given| == |s.given| + 1 && end.given[..|s.given|] == s.given
                       && end.given[|s.given|].thread == t && end.given[|s.given|].token == slot.token
        else end.given == s.given && end.raised == s.raised + [t])
  }

  /** From `s` the thread comes back to idle with this slot in the cache, having returned its token or raised. */
  ghost predicate EndsWith(skew: real, s: System, t: nat, inp: Inputs, slot: Slot, served: bool) {
    exists n: nat :: Done(s, Solo(skew, s, t, inp, n), t, slot, served)
  }

  lemma EndsLater(skew: real, s: System, t: nat, inp: Inputs, slot: Slot, served: bool)
    requires EndsWith(skew, Next(skew, s, t, inp), t, inp, slot, served)
    requires Next(skew, s, t, inp).given == s.given && Next(skew, s, t, inp).raised == s.raised
    ensures EndsWith(skew, s, t, inp, slot, served)
  {
    var s1 := Next(skew, s, t, inp);
    var n: nat :| Done(s1, Solo(skew, s1, t, inp, n), t, slot, served);
    assert Solo(skew, s, t, inp, n + 1) == Solo(skew, s1, t, inp, n);
    assert Done(s, Solo(skew, s, t, inp, n + 1), t, slot, served);
  }

  lemma EndsNow(skew: real, s: System, t: nat, inp: Inputs, slot: Slot, served: bool)
    requires Done(s, Next(skew, s, t, inp), t, slot, served)
    ensures EndsWith(skew, s, t, inp, slot, served)
  {
    assert Solo(skew, s, t, inp, 1) == Solo(skew, Next(skew, s, t, inp), t, inp, 0);
    assert Done(s, Solo(skew, s, t, inp, 1), t, slot, served);
  }

  /** What the end of a request leaves. */
  function Fetch(slot: Slot, inp: Inputs): Slot {
    if inp.reply.None? then slot else Slot(inp.reply.value.token, ComputeExpiry(inp.reply.value, inp.tReply))
  }

  /** From the request to the end of the call. */
  lemma FetchEnds(skew: real, s: System, t: nat, inp: Inputs)
    requires PcOf(s, t).Fetching? && s.lock == Some(t)
    ensures EndsWith(skew, s, t, inp, Fetch(SlotOf(s), inp), Returns(SlotOf(s), inp))
  {
    var slot, served := Fetch(SlotOf(s), inp), Returns(SlotOf(s), inp);
    var s1 := Next(skew, s, t, inp);
    if inp.reply.None? {
      EndsNow(skew, s1, t, inp, slot, served);
    } else {
      FetchedEnds(skew, s1, t, inp);
    }
    EndsLater(skew, s, t, inp, slot, served);
  }

  lemma FetchedEnds(skew: real, s: System, t: nat, inp: Inputs)
    requires s.lock == Some(t) && inp.reply.Some?
    requires PcOf(s, t).Fetched? && PcOf(s, t).token == inp.reply.value.token
             && PcOf(s, t).expires == ComputeExpiry(inp.reply.value, inp.tReply)
    ensures EndsWith(skew, s, t, inp, Fetch(SlotOf(s), inp), true)
  {
    var slot := Fetch(SlotOf(s), inp);
    var s2 := Next(skew, s, t, inp);
    var s3 := Next(skew, s2, t, inp);
    WrittenEnds(skew, s3, t, inp);
    EndsLater(skew, s2, t, inp, slot, true);
    EndsLater(skew, s, t, inp, slot, true);
  }

  lemma WrittenEnds(skew: real, s: System, t: nat, inp: Inputs)
    requires PcOf(s, t).Releasing?
    ensures EndsWith(skew, s, t, inp, SlotOf(s), true)
  {
    EndsNow(skew, Next(skew, s, t, inp), t, inp, SlotOf(s), true);
    EndsLater(skew, s, t, inp, SlotOf(s), true);
  }

  /** From waiting for the free lock to the end of the call. */
  lemma LockedEnds(skew: real, s: System, t: nat, inp: Inputs, slot: Slot)
    requires PcOf(s, t).WaitLock? && s.lock.None?
    requires slot == if IsFresh(SlotOf(s), skew, inp.tLocked) then SlotOf(s) else Fetch(SlotOf(s), inp)
    ensures EndsWith(skew, s, t, inp, slot, Returns(SlotOf(s), inp))
  {
    var served := Returns(SlotOf(s), inp);
    var s1 := Next(skew, s, t, inp);
    var s2 := Next(skew, s1, t, inp);
    if s.token == "" {
      FetchEnds(skew, s2, t, inp);
    } else {
      var s3 := Next(skew, s2, t, inp);
      var s4 := Next(skew, s3, t, inp);
      if IsFresh(SlotOf(s), skew, inp.tLocked) {
        EndsNow(skew, s4, t, inp, slot, served);
      } else {
        FetchEnds(skew, s4, t, inp);
      }
      EndsLater(skew, s3, t, inp, slot, served);
      EndsLater(skew, s2, t, inp, slot, served);
    }
    EndsLater(skew, s1, t, inp, slot, served);
    EndsLater(skew, s, t, inp, slot, served);
  }

  /** A thread that runs alone leaves what `GetToken` leaves, and returns or raises as it does. */
  lemma SoloIsGetToken(skew: real, s: System, t: nat, inp: Inputs)
    requires PcOf(s, t).Idle? && s.lock.None?
    ensures EndsWith(skew, s, t, inp,
                     SlotAfter(SlotOf(s), skew, inp.tFast, inp.tLocked, inp.reply, inp.tReply), Returns(SlotOf(s), inp))
  {
    var slot := SlotAfter(SlotOf(s), skew, inp.tFast, inp.tLocked, inp.reply, inp.tReply);
    var served := Returns(SlotOf(s), inp);
    var s1 := Next(skew, s, t, inp);
    if s.token == "" {
      LockedEnds(skew, s1, t, inp, slot);
    } else {
      var s2 := Next(skew, s1, t, inp);
      var s3 := Next(skew, s2, t, inp);
      if IsFresh(SlotOf(s), skew, inp.tFast) {
        EndsNow(skew, s3, t, inp, slot, served);
      } else {
        LockedEnds(skew, s3, t, inp, slot);
      }
      EndsLater(skew, s2, t, inp, slot, served);
      EndsLater(skew, s1, t, inp, slot, served);
    }
    EndsLater(skew, s, t, inp, slot, served);
  }
}
