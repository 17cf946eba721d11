/** How many instants that keep a distance fit into a span. */
module Spacing {
  import opened Windows

  ghost predicate Spaced(ts: seq<real>, gap: real) {
    forall i, j | 0 <= i < j < |ts| :: ts[i] + gap <= ts[j]
  }

  /** The shortest time in which `n` instants a gap apart fit. */
  function Gaps(n: nat, gap: real): (g: real)
    ensures gap > 0.0 ==> g >= 0.0
  {
    if n <= 1 then 0.0 else Gaps(n - 1, gap) + gap
  }

  /** So `n` of them fit in `length` only when `n - 1` gaps do. */
  lemma {:induction false} GapsFit(n: nat, gap: real, length: real)
    requires gap > 0.0 && length >= 0.0 && Gaps(n, gap) <= length
    ensures n <= (length / gap).Floor + 1
    decreases n
  {
    if n <= 1 {
      assert length / gap >= 0.0;
    } else {
      GapsFit(n - 1, gap, length - gap);
      LessOneGap(length, gap);
    }
  }

  lemma QuotientsApart(q: real, r: real, length: real, gap: real)
    requires gap > 0.0 && q * gap == length && r * gap == length - gap
    ensures q - r == 1.0
  {
    assert (q - r - 1.0) * gap == q * gap - r * gap - gap;
  }

  lemma LessOneGap(length: real, gap: real)
    requires gap > 0.0
    ensures (length - gap) / gap == length / gap - 1.0
    ensures ((length - gap) / gap).Floor == (length / gap).Floor - 1
  {
    QuotientsApart(length / gap, (length - gap) / gap, length, gap);
  }

  lemma SpacedPrefix(ts: seq<real>, gap: real)
    requires Spaced(ts, gap) && ts != []
    ensures Spaced(ts[..|ts| - 1], gap)
    ensures var earlier := ts[..|ts| - 1]; forall i | 0 <= i < |earlier| :: earlier[i] <= ts[|ts| - 1] - gap
  {
  }

  lemma {:induction false} SpacedCount(ts: seq<real>, gap: real, from: real, to: real)
    requires Spaced(ts, gap) && gap > 0.0 && from <= to
    ensures Gaps(CountIn(ts, FromThrough(from, to)), gap) <= to - from
    decreases |ts|
  {
    if ts == [] {
      return;
    }
    var earlier, t := ts[..|ts| - 1], ts[|ts| - 1];
    SpacedPrefix(ts, gap);
    if !(from <= t <= to) {
      SpacedCount(earlier, gap, from, to);
    } else if t - gap >= from {
      SameCount(earlier, from, to, t - gap);
      SpacedCount(earlier, gap, from, t - gap);
    } else {
      CountInNone(earlier, FromThrough(from, to));
    }
  }

  lemma {:induction false} SameCount(ts: seq<real>, from: real, to: real, bound: real)
    requires bound <= to && forall i | 0 <= i < |ts| :: ts[i] <= bound
    ensures CountIn(ts, FromThrough(from, to)) == CountIn(ts, FromThrough(from, bound))
  {
    if ts != [] {
      SameCount(ts[..|ts| - 1], from, to, bound);
    }
  }

  lemma SpacedInSpan(ts: seq<real>, gap: real, from: real, length: real)
    requires Spaced(ts, gap) && gap > 0.0 && length >= 0.0
    ensures CountIn(ts, FromThrough(from, from + length)) <= (length / gap).Floor + 1
  {
    SpacedCount(ts, gap, from, from + length);
    GapsFit(CountIn(ts, FromThrough(from, from + length)), gap, length);
  }
}
