/**
 The same phone number in several spellings. The database columns normalise what they store and
 look up, the cache keys do not; `canon` is the normalisation, about which nothing is assumed.
 */
module Spellings {
  import opened Results
  import opened Windows

  type Canon = string -> string

  /** Something that happened for a phone as spelled in a request. */
  datatype Stamp = Stamp(phone: string, at: real)

  /** The instants under one spelling. */
  function By(log: seq<Stamp>, phone: string): seq<real> {
    if log == [] then []
    else
      var n := |log| - 1;
      if log[n].phone == phone then By(log[..n], phone) + [log[n].at] else By(log[..n], phone)
  }

  /** The instants under all spellings of a number. */
  function On(canon: Canon, log: seq<Stamp>, number: string): seq<real> {
    if log == [] then []
    else
      var n := |log| - 1;
      if canon(log[n].phone) == number then On(canon, log[..n], number) + [log[n].at] else On(canon, log[..n], number)
  }

  /** The spellings of a number that occur. */
  function Used(canon: Canon, log: seq<Stamp>, number: string): set<string> {
    set i | 0 <= i < |log| && canon(log[i].phone) == number :: log[i].phone
  }

  /** Whatever the log has for the number, it has under its normal form. */
  ghost predicate InNormalForm(canon: Canon, log: seq<Stamp>, number: string) {
    forall i | 0 <= i < |log| && canon(log[i].phone) == number :: log[i].phone == number
  }

  ghost predicate OneSpelling(canon: Canon, number: string) {
    forall p, q | canon(p) == number && canon(q) == number :: p == q
  }

  lemma PushBy(log: seq<Stamp>, stamp: Stamp, phone: string)
    ensures By(log + [stamp], phone) == if stamp.phone == phone then By(log, phone) + [stamp.at] else By(log, phone)
  {
    assert (log + [stamp])[..|log|] == log;
  }

  lemma PushOn(canon: Canon, log: seq<Stamp>, stamp: Stamp, number: string)
    ensures On(canon, log + [stamp], number)
         == if canon(stamp.phone) == number then On(canon, log, number) + [stamp.at] else On(canon, log, number)
  {
    assert (log + [stamp])[..|log|] == log;
  }

  lemma {:induction false} NoneBy(log: seq<Stamp>, phone: string)
    requires forall i | 0 <= i < |log| :: log[i].phone != phone
    ensures By(log, phone) == []
  {
    if log != [] {
      NoneBy(log[..|log| - 1], phone);
    }
  }

  /** The instants under a set of spellings. */
  function Among(log: seq<Stamp>, ps: set<string>): seq<real> {
    if log == [] then []
    else
      var n := |log| - 1;
      if log[n].phone in ps then Among(log[..n], ps) + [log[n].at] else Among(log[..n], ps)
  }

  lemma {:induction false} AmongSplit(log: seq<Stamp>, ps: set<string>, p: string, span: Span)
    requires p in ps
    ensures CountIn(Among(log, ps), span) == CountIn(Among(log, ps - {p}), span) + CountIn(By(log, p), span)
  {
    if log != [] {
      var n := |log| - 1;
      AmongSplit(log[..n], ps, p, span);
      CountInPush(Among(log[..n], ps), log[n].at, span);
      CountInPush(Among(log[..n], ps - {p}), log[n].at, span);
      CountInPush(By(log[..n], p), log[n].at, span);
    }
  }

  lemma {:induction false} AmongBound(log: seq<Stamp>, ps: set<string>, span: Span, bound: nat)
    requires forall p | p in ps :: CountIn(By(log, p), span) <= bound
    ensures CountIn(Among(log, ps), span) <= bound * |ps|
    decreases |ps|
  {
    if p :| p in ps {
      AmongSplit(log, ps, p, span);
      AmongBound(log, ps - {p}, span, bound);
      assert bound * |ps| == bound * (|ps| - 1) + bound;
    } else {
      NoneAmong(log, ps);
      assert bound * |ps| >= 0;
    }
  }

  lemma {:induction false} NoneAmong(log: seq<Stamp>, ps: set<string>)
    requires forall p :: p !in ps
    ensures Among(log, ps) == []
  {
    if log != [] {
      NoneAmong(log[..|log| - 1], ps);
    }
  }

  lemma {:induction false} OnIsAmong(canon: Canon, log: seq<Stamp>, number: string, ps: set<string>)
    requires forall i | 0 <= i < |log| :: canon(log[i].phone) == number <==> log[i].phone in ps
    ensures On(canon, log, number) == Among(log, ps)
  {
    if log != [] {
      OnIsAmong(canon, log[..|log| - 1], number, ps);
    }
  }

  /** What holds for each spelling of a number in use holds that many times over for the number. */
  lemma OnBound(canon: Canon, log: seq<Stamp>, number: string, span: Span, bound: nat)
    requires forall p | p in Used(canon, log, number) :: CountIn(By(log, p), span) <= bound
    ensures CountIn(On(canon, log, number), span) <= bound * |Used(canon, log, number)|
  {
    OnIsAmong(canon, log, number, Used(canon, log, number));
    AmongBound(log, Used(canon, log, number), span, bound);
  }

  /** When only one spelling occurs, the number is that spelling. */
  lemma {:induction false} OnIsBy(canon: Canon, log: seq<Stamp>, number: string, phone: string)
    requires forall i | 0 <= i < |log| :: canon(log[i].phone) == number <==> log[i].phone == phone
    ensures On(canon, log, number) == By(log, phone)
  {
    if log != [] {
      OnIsBy(canon, log[..|log| - 1], number, phone);
    }
  }

  lemma AtMostOne(ps: set<string>, p: string)
    requires ps <= {p}
    ensures |ps| <= 1
  {
    assert ps == {} || ps == {p};
  }

  /** A number with one spelling, or spelled in one way only. */
  lemma UsedOnce(canon: Canon, log: seq<Stamp>, number: string)
    requires OneSpelling(canon, number) || InNormalForm(canon, log, number)
    ensures |Used(canon, log, number)| <= 1
  {
    var ps := Used(canon, log, number);
    if p :| p in ps {
      forall q | q in ps ensures q == p {
      }
      AtMostOne(ps, p);
    } else {
      assert ps == {};
    }
  }

  lemma AtMostTimes(bound: nat, n: nat)
    requires n <= 1
    ensures bound * n <= bound
  {
  }

  lemma {:induction false} CountByRepeated(log: seq<Stamp>, stamp: Stamp, n: nat, phone: string, span: Span)
    ensures CountIn(By(log + Repeat(stamp, n), phone), span)
         == CountIn(By(log, phone), span) + if stamp.phone == phone && span.Has(stamp.at) then n else 0
  {
    if n == 0 {
      assert log + Repeat(stamp, 0) == log;
    } else {
      CountByRepeated(log, stamp, n - 1, phone, span);
      RepeatMore(log, stamp, n);
      PushBy(log + Repeat(stamp, n - 1), stamp, phone);
      CountInPush(By(log + Repeat(stamp, n - 1), phone), stamp.at, span);
    }
  }

  lemma {:induction false} CountOnRepeated(canon: Canon, log: seq<Stamp>, stamp: Stamp, n: nat, number: string,
                                           span: Span)
    ensures CountIn(On(canon, log + Repeat(stamp, n), number), span)
         == CountIn(On(canon, log, number), span) + if canon(stamp.phone) == number && span.Has(stamp.at) then n else 0
  {
    if n == 0 {
      assert log + Repeat(stamp, 0) == log;
    } else {
      CountOnRepeated(canon, log, stamp, n - 1, number, span);
      RepeatMore(log, stamp, n);
      PushOn(canon, log + Repeat(stamp, n - 1), stamp, number);
      CountInPush(On(canon, log + Repeat(stamp, n - 1), number), stamp.at, span);
    }
  }
}
