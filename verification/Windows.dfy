/**
 Counting instants in a span of time, and the greedy division of an ascending list of instants
 into anchored windows: a window opens at its first instant and takes in everything that comes
 less than `ttl` later; the next instant opens the next window.
 */
module Windows {
  import opened Results

  datatype Span = FromUntil(from: real, to: real) | FromThrough(from: real, to: real) {
    predicate Has(t: real) {
      from <= t && (t < to || (FromThrough? && t == to))
    }
  }

  function CountIn(ts: seq<real>, span: Span): (n: nat)
    ensures n <= |ts|
  {
    if ts == [] then 0
    else CountIn(ts[..|ts| - 1], span) + if span.Has(ts[|ts| - 1]) then 1 else 0
  }

  lemma CountInPush(ts: seq<real>, t: real, span: Span)
    ensures CountIn(ts + [t], span) == CountIn(ts, span) + if span.Has(t) then 1 else 0
  {
    assert (ts + [t])[..|ts|] == ts;
  }

  ghost predicate Ascending(ts: seq<real>) {
    forall i, j | 0 <= i < j < |ts| :: ts[i] <= ts[j]
  }

  lemma {:induction false} CountInSplit(ts: seq<real>, m: nat, span: Span)
    requires m <= |ts|
    ensures CountIn(ts, span) == CountIn(ts[..m], span) + CountIn(ts[m..], span)
    decreases |ts|
  {
    if m == |ts| {
      assert ts[..m] == ts;
    } else {
      CountInSplit(ts[..|ts| - 1], m, span);
      assert ts[..|ts| - 1][..m] == ts[..m];
      assert ts[m..][..|ts[m..]| - 1] == ts[..|ts| - 1][m..];
    }
  }

  lemma {:induction false} CountInNone(ts: seq<real>, span: Span)
    requires forall i | 0 <= i < |ts| :: !span.Has(ts[i])
    ensures CountIn(ts, span) == 0
  {
    if ts != [] {
      CountInNone(ts[..|ts| - 1], span);
    }
  }

  lemma {:induction false} CountInAll(ts: seq<real>, span: Span)
    requires forall i | 0 <= i < |ts| :: span.Has(ts[i])
    ensures CountIn(ts, span) == |ts|
  {
    if ts != [] {
      CountInAll(ts[..|ts| - 1], span);
    }
  }

  lemma CountInSuffix(ts: seq<real>, us: seq<real>, span: Span)
    requires |us| <= |ts| && ts[|ts| - |us|..] == us
    ensures CountIn(us, span) <= CountIn(ts, span)
  {
    CountInSplit(ts, |ts| - |us|, span);
  }

  /** Where the last anchored window starts. */
  function LastStart(ts: seq<real>, ttl: real): (s: nat)
    requires ts != []
    ensures s < |ts|
  {
    var n := |ts| - 1;
    if n == 0 then 0
    else
      var s := LastStart(ts[..n], ttl);
      if ts[n] < ts[s] + ttl then s else n
  }

  function LastWindow(ts: seq<real>, ttl: real): seq<real> {
    if ts == [] then [] else ts[LastStart(ts, ttl)..]
  }

  /** At no moment did the window then current hold more than `cap` instants. */
  ghost predicate Capped(ts: seq<real>, ttl: real, cap: int) {
    ts == [] || (|LastWindow(ts, ttl)| <= cap && Capped(ts[..|ts| - 1], ttl, cap))
  }

  lemma {:induction false} LastWindowSpan(ts: seq<real>, ttl: real)
    requires ts != [] && ttl > 0.0
    ensures var s := LastStart(ts, ttl);
            && (forall i | s <= i < |ts| :: ts[i] < ts[s] + ttl)
            && (s > 0 ==> ts[s] >= ts[LastStart(ts[..s], ttl)] + ttl)
  {
    var n := |ts| - 1;
    if n > 0 {
      LastWindowSpan(ts[..n], ttl);
      var s := LastStart(ts, ttl);
      if s < n {
        assert ts[..n][..s] == ts[..s];
        forall i | s <= i < |ts| ensures ts[i] < ts[s] + ttl {
          if i < n {
            assert ts[i] == ts[..n][i];
          }
        }
      }
    }
  }

  lemma {:induction false} CappedPrefix(ts: seq<real>, ttl: real, cap: int, m: nat)
    requires Capped(ts, ttl, cap) && m <= |ts|
    ensures Capped(ts[..m], ttl, cap)
  {
    if m == |ts| {
      assert ts[..m] == ts;
    } else {
      CappedPrefix(ts[..|ts| - 1], ttl, cap, m);
      assert ts[..|ts| - 1][..m] == ts[..m];
    }
  }

  lemma CappedPush(ts: seq<real>, t: real, ttl: real, cap: int)
    requires Capped(ts, ttl, cap) && |LastWindow(ts + [t], ttl)| <= cap
    ensures Capped(ts + [t], ttl, cap)
  {
    assert (ts + [t])[..|ts|] == ts;
  }

  /** Instants of earlier windows come strictly before the start of the last one. */
  lemma BeforeWindow(ts: seq<real>, ttl: real, i: nat)
    requires Ascending(ts) && ttl > 0.0 && ts != [] && i < LastStart(ts, ttl)
    ensures ts[i] < ts[LastStart(ts, ttl)]
  {
    var s := LastStart(ts, ttl);
    LastWindowSpan(ts, ttl);
    LastWindowSpan(ts[..s], ttl);
    var p := LastStart(ts[..s], ttl);
    if i >= p {
      assert ts[..s][i] < ts[p] + ttl;
    }
  }

  lemma AscendingPrefix(ts: seq<real>, m: nat)
    requires Ascending(ts) && m <= |ts|
    ensures Ascending(ts[..m])
  {
  }

  // ---------- The most that capped windows put into a span ----------

  /** In a stretch of length `x`, from windows that are all over by its end. */
  function Packed(x: real, ttl: real, cap: int): (n: int)
    requires ttl >= 1.0 && cap >= 1
    ensures n >= 0
    decreases if x < 0.0 then 0.0 else x
  {
    if x <= 0.0 then 0 else if x < ttl then cap - 1 else Packed(x - ttl, ttl, cap) + cap
  }

  /** In a half-open span of length `x`. */
  function MostUntil(x: real, ttl: real, cap: int): (n: int)
    requires ttl >= 1.0 && cap >= 1
    ensures n >= 0 && (x > 0.0 ==> n >= 2 * cap - 1)
    decreases if x < 0.0 then 0.0 else x
  {
    if x <= 0.0 then 0 else if x <= ttl then 2 * cap - 1 else MostUntil(x - ttl, ttl, cap) + cap
  }

  function Most(span: Span, ttl: real, cap: int): (n: int)
    requires ttl >= 1.0 && cap >= 1
    ensures n >= 0
  {
    if span.FromUntil? then MostUntil(span.to - span.from, ttl, cap)
    else if span.to < span.from then 0
    else Packed(span.to - span.from, ttl, cap) + cap
  }

  lemma {:induction false} PackedGrows(x: real, y: real, ttl: real, cap: int)
    requires ttl >= 1.0 && cap >= 1 && x <= y
    ensures Packed(x, ttl, cap) <= Packed(y, ttl, cap)
    decreases if y < 0.0 then 0.0 else y
  {
    if x >= ttl {
      PackedGrows(x - ttl, y - ttl, ttl, cap);
    }
  }

  lemma {:induction false} PackedBelow(x: real, y: real, ttl: real, cap: int)
    requires ttl >= 1.0 && cap >= 1 && 0.0 <= x < y
    ensures Packed(x, ttl, cap) + cap <= MostUntil(y, ttl, cap)
    decreases y
  {
    if x >= ttl {
      PackedBelow(x - ttl, y - ttl, ttl, cap);
    }
  }

  /** One full window more when a whole window length is added. */
  lemma PackedStep(x: real, y: real, ttl: real, cap: int)
    requires ttl >= 1.0 && cap >= 1 && x >= 0.0 && x + ttl <= y
    ensures Packed(x, ttl, cap) + cap <= Packed(y, ttl, cap)
  {
    PackedGrows(x + ttl, y, ttl, cap);
  }

  lemma OpeningMissed(window: seq<real>, span: Span)
    requires window != [] && !span.Has(window[0])
    ensures CountIn(window, span) <= |window| - 1
  {
    CountInSplit(window, 1, span);
    assert window[..1] == [window[0]];
    CountInNone([window[0]], span);
  }

  /** A span that starts no earlier than the last window meets no other; later still, it misses the opening. */
  lemma LastWindowOnly(ts: seq<real>, ttl: real, span: Span)
    requires Ascending(ts) && ttl > 0.0 && ts != [] && ts[LastStart(ts, ttl)] <= span.from
    ensures CountIn(ts, span) <= |LastWindow(ts, ttl)|
    ensures ts[LastStart(ts, ttl)] < span.from ==> CountIn(ts, span) <= |LastWindow(ts, ttl)| - 1
  {
    var s := LastStart(ts, ttl);
    CountInSplit(ts, s, span);
    forall i | 0 <= i < s ensures !span.Has(ts[..s][i]) {
      BeforeWindow(ts, ttl, i);
    }
    CountInNone(ts[..s], span);
    if ts[s] < span.from {
      OpeningMissed(ts[s..], span);
    }
  }

  /** The windows before the last one are capped too, and over when it opens. */
  lemma EarlierOver(ts: seq<real>, ttl: real, cap: int)
    requires Ascending(ts) && ttl >= 1.0 && Capped(ts, ttl, cap) && ts != []
    ensures var s := LastStart(ts, ttl);
            && Ascending(ts[..s]) && Capped(ts[..s], ttl, cap)
            && (ts[..s] != [] ==> ts[..s][LastStart(ts[..s], ttl)] + ttl <= ts[s])
  {
    LastWindowSpan(ts, ttl);
    CappedPrefix(ts, ttl, cap, LastStart(ts, ttl));
    AscendingPrefix(ts, LastStart(ts, ttl));
  }

  lemma LastAndRest(ts: seq<real>, ttl: real, span: Span, rest: int)
    requires Ascending(ts) && ttl > 0.0 && ts != [] && CountIn(ts[..LastStart(ts, ttl)], span) <= rest
    ensures ts[LastStart(ts, ttl)] < span.from ==> CountIn(ts, span) <= |LastWindow(ts, ttl)| - 1
    ensures CountIn(ts, span) <= rest + |LastWindow(ts, ttl)|
  {
    CountInSplit(ts, LastStart(ts, ttl), span);
    if ts[LastStart(ts, ttl)] < span.from {
      LastWindowOnly(ts, ttl, span);
    }
  }

  /** A window that is over by the end of the stretch, after others that are over when it opens. */
  lemma OneMoreEnded(start: real, end: real, from: real, ttl: real, cap: int, size: int)
    requires ttl >= 1.0 && cap >= 1 && start + ttl <= end && size <= cap
    ensures start >= from ==> Packed(start - from, ttl, cap) + size <= Packed(end - from, ttl, cap)
    ensures start < from < end ==> size - 1 <= Packed(end - from, ttl, cap)
  {
    if start >= from {
      PackedStep(start - from, end - from, ttl, cap);
    }
  }

  lemma LastEnded(ts: seq<real>, ttl: real, cap: int, span: Span, end: real, start: real)
    requires Ascending(ts) && ttl >= 1.0 && cap >= 1 && Capped(ts, ttl, cap) && ts != []
    requires start == ts[LastStart(ts, ttl)] && start + ttl <= end
    requires CountIn(ts[..LastStart(ts, ttl)], span) <= Packed(start - span.from, ttl, cap)
    ensures CountIn(ts, span) <= Packed(end - span.from, ttl, cap)
  {
    if end <= span.from {
      AllBefore(ts, ttl, span, end);
    } else {
      LastAndRest(ts, ttl, span, Packed(start - span.from, ttl, cap));
      OneMoreEnded(start, end, span.from, ttl, cap, |LastWindow(ts, ttl)|);
    }
  }

  /** Capped windows, the last of which is over by `end`. */
  ghost predicate Over(ts: seq<real>, ttl: real, cap: int, end: real) {
    Ascending(ts) && Capped(ts, ttl, cap) && (ts != [] ==> ts[LastStart(ts, ttl)] + ttl <= end)
  }

  /** What the windows before the last one put into a span decides what all of them do. */
  lemma LastIsOver(ts: seq<real>, ttl: real, cap: int, span: Span, end: real)
    returns (earlier: seq<real>, start: real)
    requires ttl >= 1.0 && cap >= 1 && Over(ts, ttl, cap, end) && ts != []
    ensures Over(earlier, ttl, cap, start) && |earlier| < |ts|
    ensures CountIn(earlier, span) <= Packed(start - span.from, ttl, cap) ==>
              CountIn(ts, span) <= Packed(end - span.from, ttl, cap)
  {
    earlier, start := ts[..LastStart(ts, ttl)], ts[LastStart(ts, ttl)];
    EarlierOver(ts, ttl, cap);
    if CountIn(earlier, span) <= Packed(start - span.from, ttl, cap) {
      LastEnded(ts, ttl, cap, span, end, start);
    }
  }

  /** When the last window is over by `end`, they all are. */
  lemma {:induction false} EndedWindows(ts: seq<real>, ttl: real, cap: int, span: Span, end: real)
    requires ttl >= 1.0 && cap >= 1 && Over(ts, ttl, cap, end)
    ensures CountIn(ts, span) <= Packed(end - span.from, ttl, cap)
    decreases |ts|
  {
    if ts != [] {
      var earlier, start := LastIsOver(ts, ttl, cap, span, end);
      EndedWindows(earlier, ttl, cap, span, start);
    }
  }

  /** The last window, and the windows before it, which are over when it opens. */
  lemma LastAndEarlier(ts: seq<real>, ttl: real, cap: int, span: Span, start: real)
    requires Ascending(ts) && ttl >= 1.0 && cap >= 1 && Capped(ts, ttl, cap)
    requires ts != [] && start == ts[LastStart(ts, ttl)]
    ensures start < span.from ==> CountIn(ts, span) <= |LastWindow(ts, ttl)| - 1
    ensures CountIn(ts, span) <= Packed(start - span.from, ttl, cap) + |LastWindow(ts, ttl)|
  {
    EarlierOver(ts, ttl, cap);
    EndedWindows(ts[..LastStart(ts, ttl)], ttl, cap, span, start);
    LastAndRest(ts, ttl, span, Packed(start - span.from, ttl, cap));
  }

  lemma AllBefore(ts: seq<real>, ttl: real, span: Span, end: real)
    requires Ascending(ts) && ttl > 0.0 && ts != [] && ts[LastStart(ts, ttl)] + ttl <= end <= span.from
    ensures CountIn(ts, span) == 0
  {
    LastWindowSpan(ts, ttl);
    forall i | 0 <= i < |ts| ensures !span.Has(ts[i]) {
      assert ts[i] <= ts[|ts| - 1];
    }
    CountInNone(ts, span);
  }

  ghost predicate Orderly(ts: seq<real>, ttl: real, cap: int) {
    Ascending(ts) && Capped(ts, ttl, cap)
  }

  /** The last window meets the span: the windows before it are over when it opens. */
  lemma LastMeets(ts: seq<real>, ttl: real, cap: int, span: Span, start: real, x: real)
    requires ttl >= 1.0 && cap >= 1 && Orderly(ts, ttl, cap)
    requires ts != [] && start == ts[LastStart(ts, ttl)] && start <= x && span.Has(x)
    ensures CountIn(ts, span) <= Most(span, ttl, cap)
  {
    LastAndEarlier(ts, ttl, cap, span, start);
    LastFits(start, x, ttl, cap, span);
    LastFull(ts, ttl, cap);
  }

  lemma LastFull(ts: seq<real>, ttl: real, cap: int)
    requires Capped(ts, ttl, cap) && ts != []
    ensures |LastWindow(ts, ttl)| <= cap
  {
  }

  /** It does not: what counts are the windows before it. */
  lemma LastMisses(ts: seq<real>, ttl: real, cap: int, span: Span) returns (earlier: seq<real>)
    requires ttl >= 1.0 && Orderly(ts, ttl, cap) && ts != []
    requires forall i | LastStart(ts, ttl) <= i < |ts| :: !span.Has(ts[i])
    ensures Orderly(earlier, ttl, cap) && |earlier| < |ts| && CountIn(ts, span) == CountIn(earlier, span)
  {
    var s := LastStart(ts, ttl);
    earlier := ts[..s];
    CountInSplit(ts, s, span);
    CountInNone(ts[s..], span);
    EarlierOver(ts, ttl, cap);
  }

  /** Capped windows put no more than this into any span. */
  lemma {:induction false} SpanBound(ts: seq<real>, ttl: real, cap: int, span: Span)
    requires ttl >= 1.0 && cap >= 1 && Orderly(ts, ttl, cap)
    ensures CountIn(ts, span) <= Most(span, ttl, cap)
    decreases |ts|
  {
    if ts != [] {
      if x :| LastStart(ts, ttl) <= x < |ts| && span.Has(ts[x]) {
        LastMeets(ts, ttl, cap, span, ts[LastStart(ts, ttl)], ts[x]);
      } else {
        var earlier := LastMisses(ts, ttl, cap, span);
        SpanBound(earlier, ttl, cap, span);
      }
    }
  }

  lemma LastFits(start: real, x: real, ttl: real, cap: int, span: Span)
    requires ttl >= 1.0 && cap >= 1 && start <= x && span.Has(x)
    ensures cap - 1 <= Most(span, ttl, cap)
    ensures start >= span.from ==> Packed(start - span.from, ttl, cap) + cap <= Most(span, ttl, cap)
  {
    if span.FromThrough? {
      PackedGrows(start - span.from, span.to - span.from, ttl, cap);
    } else if start >= span.from {
      PackedBelow(start - span.from, span.to - span.from, ttl, cap);
    }
  }

  /** The last window is over by `x`, which is in the span. */
  lemma RoomOnceOver(ts: seq<real>, ttl: real, cap: int, span: Span, x: real)
    requires ttl >= 1.0 && cap >= 1 && Over(ts, ttl, cap, x) && span.FromThrough? && span.Has(x)
    ensures CountIn(ts, span) <= Most(span, ttl, cap) - 1
  {
    EndedWindows(ts, ttl, cap, span, x);
    PackedGrows(x - span.from, span.to - span.from, ttl, cap);
  }

  /** The last window has room at `x`, which is in the span. */
  lemma RoomInLast(ts: seq<real>, ttl: real, cap: int, span: Span, start: real, x: real)
    requires ttl >= 1.0 && cap >= 1 && Orderly(ts, ttl, cap) && span.FromThrough? && span.Has(x)
    requires ts != [] && start == ts[LastStart(ts, ttl)] && start <= x && |LastWindow(ts, ttl)| < cap
    ensures CountIn(ts, span) <= Most(span, ttl, cap) - 1
  {
    LastAndEarlier(ts, ttl, cap, span, start);
    PackedGrows(start - span.from, span.to - span.from, ttl, cap);
  }

  /** In a closed span one place is left as long as the last window has room or is over. */
  lemma RoomLeft(ts: seq<real>, ttl: real, cap: int, span: Span, x: real)
    requires ttl >= 1.0 && cap >= 1 && Orderly(ts, ttl, cap) && span.FromThrough? && span.Has(x)
    requires ts != [] ==> ts[LastStart(ts, ttl)] <= x
    requires ts != [] ==> |LastWindow(ts, ttl)| < cap || x >= ts[LastStart(ts, ttl)] + ttl
    ensures CountIn(ts, span) <= Most(span, ttl, cap) - 1
  {
    if ts == [] || x >= ts[LastStart(ts, ttl)] + ttl {
      RoomOnceOver(ts, ttl, cap, span, x);
    } else {
      RoomInLast(ts, ttl, cap, span, ts[LastStart(ts, ttl)], x);
    }
  }

  /** Moving instants later, but not past the end of the span, loses none of those in it. */
  lemma {:induction false} CountInShift(xs: seq<real>, ts: seq<real>, span: Span)
    requires |xs| == |ts| && span.FromThrough?
    requires forall i | 0 <= i < |xs| :: xs[i] <= ts[i] <= span.to
    ensures CountIn(xs, span) <= CountIn(ts, span)
  {
    if xs != [] {
      CountInShift(xs[..|xs| - 1], ts[..|ts| - 1], span);
    }
  }

  lemma {:induction false} CountInRepeat(ts: seq<real>, t: real, n: nat, span: Span)
    ensures CountIn(ts + Repeat(t, n), span) == CountIn(ts, span) + if span.Has(t) then n else 0
  {
    if n == 0 {
      assert ts + Repeat(t, 0) == ts;
    } else {
      CountInRepeat(ts, t, n - 1, span);
      RepeatMore(ts, t, n);
      CountInPush(ts + Repeat(t, n - 1), t, span);
    }
  }
}
