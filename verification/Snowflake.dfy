/** Snowflake ids: bit packing, the per-worker generator, and the one-shot helper. */
module Snowflakes {
  import opened Division
  import opened Results

  // ---------- Shifts and bitwise operations on integers of any size, as in two's complement ----------

  function Pow2(n: nat): (p: int)
    ensures p >= 1
  {
    if n == 0 then 1 else 2 * Pow2(n - 1)
  }

  function ShiftLeft(x: int, n: nat): int {
    x * Pow2(n)
  }

  function ShiftRight(x: int, n: nat): int
    decreases n
  {
    if n == 0 then x else ShiftRight(x / 2, n - 1)
  }

  function Magnitude(x: int): nat {
    if x >= 0 then x else -1 - x
  }

  function BitOr(x: int, y: int): int
    decreases Magnitude(x) + Magnitude(y)
  {
    if Magnitude(x) == 0 && Magnitude(y) == 0 then (if x == 0 && y == 0 then 0 else -1)
    else 2 * BitOr(x / 2, y / 2) + if x % 2 == 1 || y % 2 == 1 then 1 else 0
  }

  function BitAnd(x: int, y: int): int
    decreases Magnitude(x) + Magnitude(y)
  {
    if Magnitude(x) == 0 && Magnitude(y) == 0 then (if x == -1 && y == -1 then -1 else 0)
    else 2 * BitAnd(x / 2, y / 2) + if x % 2 == 1 && y % 2 == 1 then 1 else 0
  }

  lemma {:induction false} BitOrZero(x: int)
    ensures BitOr(x, 0) == x
    decreases Magnitude(x)
  {
    if Magnitude(x) > 0 {
      BitOrZero(x / 2);
    }
  }

  /** Or-ing in a number below a power of two adds it when the other one is a multiple of that power. */
  lemma {:induction false} BitOrDisjoint(x: int, n: nat, y: int)
    requires 0 <= y < Pow2(n)
    ensures BitOr(x * Pow2(n), y) == x * Pow2(n) + y
    decreases n
  {
    if n == 0 {
      BitOrZero(x);
    } else {
      var half := x * Pow2(n - 1);
      assert x * Pow2(n) == 2 * half;
      BitOrDisjoint(x, n - 1, y / 2);
      if Magnitude(2 * half) == 0 && Magnitude(y) == 0 {
        assert half == 0;
      }
    }
  }

  /** And-ing with a mask of `n` ones keeps the remainder. */
  lemma {:induction false} BitAndMask(x: int, n: nat)
    ensures BitAnd(x, Pow2(n) - 1) == x % Pow2(n)
    decreases n
  {
    if n == 0 {
      BitAndZero(x);
    } else {
      var p := Pow2(n - 1);
      BitAndMask(x / 2, n - 1);
      HalfMod(x, p);
      assert (Pow2(n) - 1) / 2 == p - 1;
    }
  }

  lemma {:induction false} BitAndZero(x: int)
    ensures BitAnd(x, 0) == 0
    decreases Magnitude(x)
  {
    if Magnitude(x) > 0 {
      BitAndZero(x / 2);
    }
  }

  lemma HalfMod(x: int, p: int)
    requires p >= 1
    ensures x % (2 * p) == 2 * ((x / 2) % p) + x % 2
  {
    var q := x / 2 / p;
    var r := x / 2 % p;
    assert x == q * (2 * p) + (2 * r + x % 2);
    DivModUnique(x, 2 * p, q, 2 * r + x % 2);
  }

  lemma HalfDiv(x: int, p: int)
    requires p >= 1
    ensures x / (2 * p) == x / 2 / p
  {
    var q, r := x / 2 / p, x / 2 % p;
    assert x == q * (2 * p) + (2 * r + x % 2);
    DivModUnique(x, 2 * p, q, 2 * r + x % 2);
  }

  lemma {:induction false} ShiftRightFloor(x: int, n: nat)
    ensures ShiftRight(x, n) == x / Pow2(n)
    decreases n
  {
    if n > 0 {
      ShiftRightFloor(x / 2, n - 1);
      HalfDiv(x, Pow2(n - 1));
    }
  }

  // ---------- The value object ----------

  const TS_SHIFT := 22
  const INST_SHIFT := 12
  const MAX_TS := 0x1FF_FFFF_FFFF
  const MAX_INSTANCE := 0x3FF
  const MAX_SEQ := 0xFFF

  datatype Invalid = BadEpoch | BadTimestamp | BadInstance | BadSeq | OutOfTimestamps | RetriesExhausted

  function Pack(timestamp: int, instance: int, seqNo: int): int {
    BitOr(BitOr(ShiftLeft(timestamp, TS_SHIFT), ShiftLeft(instance, INST_SHIFT)), seqNo)
  }

  datatype Snowflake = Snowflake(timestamp: int, instance: int, epoch: int, seqNo: int) {
    /** The checks of `__post_init__`. */
    function Validated(): Result<Snowflake, Invalid> {
      if epoch < 0 then Err(BadEpoch)
      else if !(0 <= timestamp <= MAX_TS) then Err(BadTimestamp)
      else if !(0 <= instance <= MAX_INSTANCE) then Err(BadInstance)
      else if !(0 <= seqNo <= MAX_SEQ) then Err(BadSeq)
      else Ok(this)
    }

    function Value(): int {
      Pack(timestamp, instance, seqNo)
    }

    function Milliseconds(): int {
      timestamp + epoch
    }
  }

  function Parse(value: int, epoch: int): Result<Snowflake, Invalid> {
    Snowflake(ShiftRight(value, TS_SHIFT),
              BitAnd(ShiftRight(value, INST_SHIFT), MAX_INSTANCE),
              epoch,
              BitAnd(value, MAX_SEQ)).Validated()
  }

  lemma Powers()
    ensures Pow2(10) == 1024 && Pow2(12) == 4096 && Pow2(22) == 0x40_0000
  {
    assert Pow2(10) == 1024;
    assert Pow2(12) == 4096;
    assert Pow2(16) == 0x1_0000;
    assert Pow2(22) == 0x40_0000;
  }

  /** The three fields do not overlap, so or-ing them adds them up. */
  lemma PackAdds(timestamp: int, instance: int, seqNo: int)
    requires 0 <= instance <= MAX_INSTANCE && 0 <= seqNo <= MAX_SEQ
    ensures Pack(timestamp, instance, seqNo) == timestamp * 0x40_0000 + instance * 4096 + seqNo
  {
    Powers();
    BitOrDisjoint(timestamp, TS_SHIFT, instance * 4096);
    BitOrDisjoint(timestamp * 1024 + instance, INST_SHIFT, seqNo);
  }

  lemma FieldsOfSum(v: int, timestamp: int, instance: int, seqNo: int)
    requires 0 <= instance <= MAX_INSTANCE && 0 <= seqNo <= MAX_SEQ
    requires v == timestamp * 0x40_0000 + instance * 4096 + seqNo
    ensures v / 0x40_0000 == timestamp && v / 4096 % 1024 == instance && v % 4096 == seqNo
  {
    DivModUnique(v, 0x40_0000, timestamp, instance * 4096 + seqNo);
    DivModUnique(v, 4096, timestamp * 1024 + instance, seqNo);
    DivModUnique(timestamp * 1024 + instance, 1024, timestamp, instance);
  }

  lemma SumOfFields(v: int)
    ensures v == v / 0x40_0000 * 0x40_0000 + v / 4096 % 1024 * 4096 + v % 4096
  {
    var q := v / 4096;
    DivModUnique(v, 0x40_0000, q / 1024, q % 1024 * 4096 + v % 4096);
  }

  /** What `parse` reads off an integer. */
  lemma FieldsOf(value: int)
    ensures ShiftRight(value, TS_SHIFT) == value / 0x40_0000
    ensures BitAnd(ShiftRight(value, INST_SHIFT), MAX_INSTANCE) == value / 4096 % 1024
    ensures BitAnd(value, MAX_SEQ) == value % 4096
  {
    Powers();
    ShiftRightFloor(value, TS_SHIFT);
    ShiftRightFloor(value, INST_SHIFT);
    BitAndMask(value / 4096, 10);
    BitAndMask(value, INST_SHIFT);
  }

  lemma PackFields(timestamp: int, instance: int, seqNo: int)
    requires 0 <= instance <= MAX_INSTANCE && 0 <= seqNo <= MAX_SEQ
    ensures var v := Pack(timestamp, instance, seqNo);
            v / 0x40_0000 == timestamp && v / 4096 % 1024 == instance && v % 4096 == seqNo
  {
    PackAdds(timestamp, instance, seqNo);
    FieldsOfSum(Pack(timestamp, instance, seqNo), timestamp, instance, seqNo);
  }

  /** Parsing the value of any snowflake gives the snowflake back. */
  lemma ParseOfValue(s: Snowflake)
    requires s.Validated().Ok?
    ensures Parse(s.Value(), s.epoch) == Ok(s)
  {
    PackFields(s.timestamp, s.instance, s.seqNo);
    FieldsOf(s.Value());
  }

  /** Parsing accepts exactly the integers that fit in 63 bits. */
  lemma ParseAccepts(value: int, epoch: int)
    ensures Parse(value, epoch).Ok? <==> 0 <= value < 0x8000_0000_0000_0000 && epoch >= 0
  {
    FieldsOf(value);
  }

  lemma ParsedFields(value: int, epoch: int)
    requires Parse(value, epoch).Ok?
    ensures Parse(value, epoch).value == Snowflake(value / 0x40_0000, value / 4096 % 1024, epoch, value % 4096)
  {
    FieldsOf(value);
  }

  lemma PackOfFields(value: int)
    ensures Pack(value / 0x40_0000, value / 4096 % 1024, value % 4096) == value
  {
    SumOfFields(value);
    PackAdds(value / 0x40_0000, value / 4096 % 1024, value % 4096);
  }

  /** Packing the parts of a parsed integer gives the integer back. */
  lemma ValueOfParse(value: int, epoch: int)
    requires Parse(value, epoch).Ok?
    ensures Parse(value, epoch).value.Value() == value
  {
    ParsedFields(value, epoch);
    PackOfFields(value);
  }

  // ---------- The generator ----------

  /** An id that carries this worker's number and this millisecond. */
  predicate IdOf(instance: int, ms: int, id: int) {
    id / 0x40_0000 == ms && id / 4096 % 1024 == instance
  }

  lemma PackIsIdOf(instance: int, ms: int, seqNo: int)
    requires 0 <= instance <= MAX_INSTANCE && 0 <= seqNo <= MAX_SEQ
    ensures IdOf(instance, ms, Pack(ms, instance, seqNo)) && Pack(ms, instance, seqNo) % 4096 == seqNo
  {
    PackFields(ms, instance, seqNo);
  }

  lemma IdOfIsPack(instance: int, ms: int, id: int)
    requires 0 <= instance <= MAX_INSTANCE && IdOf(instance, ms, id)
    ensures id == Pack(ms, instance, id % 4096)
  {
    PackOfFields(id);
  }

  /**
   The declarative meaning of one call after `last`: the least id of this worker and this
   millisecond above it, and nothing when there is none.
   */
  ghost predicate NextId(instance: int, ms: int, last: int, id: Option<int>) {
    match id
    case Some(i) => IdOf(instance, ms, i) && i > last && forall j | IdOf(instance, ms, j) && j > last :: i <= j
    case None => forall j | IdOf(instance, ms, j) :: j <= last
  }

  class SnowflakeGenerator {
    const epo: int
    const inf: int
    var ts: int
    var seqNo: int

    constructor (instance: int, seqNo: int, epoch: int, timestamp: int)
      ensures epo == epoch && inf == ShiftLeft(instance, INST_SHIFT) && ts == timestamp - epoch && this.seqNo == seqNo
    {
      this.epo := epoch;
      this.inf := ShiftLeft(instance, INST_SHIFT);
      this.ts := timestamp - epoch;
      this.seqNo := seqNo;
    }

    /** `current` is the wall clock in whole milliseconds. */
    static method Create(instance: int, seqNo: int, epoch: int, timestamp: Option<int>, current: int)
      returns (r: Result<SnowflakeGenerator, Invalid>)
      ensures r.Ok? <==> Acceptable(instance, seqNo, epoch, StartOf(timestamp, current), current)
      ensures var start := if timestamp.Some? then timestamp.value else current;
              r.Ok? <==> && current < 0x1FF_FFFF_FFFF && 0 <= epoch <= current && 0 <= start <= current
                         && 0 <= instance < 1024 && 0 <= seqNo < 4096
      ensures r.Ok? ==> fresh(r.value) && r.value.Of(instance) && r.value.epo == epoch
                        && r.value.Last(instance) == Pack(StartOf(timestamp, current) - epoch, instance, seqNo)
    {
      if current >= MAX_TS {
        return Err(OutOfTimestamps);
      }
      if !(0 <= epoch <= current) {
        return Err(BadEpoch);
      }
      var ts := if timestamp.Some? then timestamp.value else current;
      if !(0 <= ts <= current) {
        return Err(BadTimestamp);
      }
      if !(0 <= instance <= MAX_INSTANCE) {
        return Err(BadInstance);
      }
      if !(0 <= seqNo <= MAX_SEQ) {
        return Err(BadSeq);
      }
      var g := new SnowflakeGenerator(instance, seqNo, epoch, ts);
      r := Ok(g);
    }

    /** Resumes after an existing id: the generator starts with exactly that id as its last one. */
    static method FromSnowflake(s: Snowflake, current: int) returns (r: Result<SnowflakeGenerator, Invalid>)
      requires s.Validated().Ok?
      ensures r.Ok? <==> s.Milliseconds() <= current < MAX_TS
      ensures r.Ok? ==> fresh(r.value) && r.value.Of(s.instance) && r.value.epo == s.epoch
                        && r.value.Last(s.instance) == s.Value()
    {
      r := Create(s.instance, s.seqNo, s.epoch, Some(s.Milliseconds()), current);
    }

    predicate Of(instance: int)
      reads this
    {
      0 <= instance <= MAX_INSTANCE && inf == ShiftLeft(instance, INST_SHIFT) && 0 <= seqNo <= MAX_SEQ
    }

    /** The last id issued, or the one the generator was started at. */
    function Last(instance: int): int
      reads this
    {
      Pack(ts, instance, seqNo)
    }

    method Next(wallMs: int, ghost instance: int) returns (id: Option<int>)
      requires Of(instance)
      modifies this
      ensures Of(instance)
      ensures NextId(instance, wallMs - epo, old(Last(instance)), id)
      ensures Last(instance) == if id.Some? then id.value else old(Last(instance))
    {
      var current := wallMs - epo;
      AfterLast(instance, ts, seqNo, current);
      if current == ts {
        if seqNo == MAX_SEQ {
          return None;
        }
        seqNo := seqNo + 1;
      } else if current < ts {
        return None;
      } else {
        seqNo := 0;
      }
      ts := current;
      id := Some(BitOr(BitOr(ShiftLeft(ts, TS_SHIFT), inf), seqNo));
    }
  }

  function StartOf(timestamp: Option<int>, current: int): int {
    if timestamp.Some? then timestamp.value else current
  }

  predicate Acceptable(instance: int, seqNo: int, epoch: int, start: int, current: int) {
    && current < MAX_TS && 0 <= epoch <= current && 0 <= start <= current
    && 0 <= instance <= MAX_INSTANCE && 0 <= seqNo <= MAX_SEQ
  }

  /** The id that `__next__` computes is the one `NextId` describes. */
  function Following(instance: int, ts: int, seqNo: int, ms: int): Option<int> {
    if ms == ts then if seqNo == MAX_SEQ then None else Some(Pack(ms, instance, seqNo + 1))
    else if ms < ts then None
    else Some(Pack(ms, instance, 0))
  }

  lemma AfterLast(instance: int, ts: int, seqNo: int, ms: int)
    requires 0 <= instance <= MAX_INSTANCE && 0 <= seqNo <= MAX_SEQ
    ensures NextId(instance, ms, Pack(ts, instance, seqNo), Following(instance, ts, seqNo, ms))
  {
    PackAdds(ts, instance, seqNo);
    var next := Following(instance, ts, seqNo, ms);
    if next.Some? {
      PackIsIdOf(instance, ms, if ms == ts then seqNo + 1 else 0);
      PackAdds(ms, instance, if ms == ts then seqNo + 1 else 0);
    }
    forall j | IdOf(instance, ms, j) && j > Pack(ts, instance, seqNo) ensures next.Some? && next.value <= j {
      IdOfIsPack(instance, ms, j);
      PackAdds(ms, instance, j % 4096);
    }
  }

  lemma OneNextId(instance: int, ms: int, last: int, id: Option<int>, id': Option<int>)
    requires NextId(instance, ms, last, id) && NextId(instance, ms, last, id')
    ensures id == id'
  {
  }

  /** The description fits one answer only. */
  lemma NextIdExactly(instance: int, ts: int, seqNo: int, ms: int, id: Option<int>)
    requires 0 <= instance <= MAX_INSTANCE && 0 <= seqNo <= MAX_SEQ
    ensures NextId(instance, ms, Pack(ts, instance, seqNo), id) <==> id == Following(instance, ts, seqNo, ms)
  {
    AfterLast(instance, ts, seqNo, ms);
    if NextId(instance, ms, Pack(ts, instance, seqNo), id) {
      OneNextId(instance, ms, Pack(ts, instance, seqNo), id, Following(instance, ts, seqNo, ms));
    }
  }

  // ---------- Runs under an arbitrary clock ----------

  /** The ids `ids` come out of successive calls at the milliseconds `clock`, starting after `last`. */
  ghost predicate Emits(instance: int, last: int, clock: seq<int>, ids: seq<Option<int>>)
    decreases |ids|
  {
    && |clock| == |ids|
    && (clock != [] ==>
          && NextId(instance, clock[0], last, ids[0])
          && Emits(instance, if ids[0].Some? then ids[0].value else last, clock[1..], ids[1..]))
  }

  /** What a generator at `ts` and `seqNo` answers to successive clock readings. */
  function Answers(instance: int, ts: int, seqNo: int, clock: seq<int>): seq<Option<int>>
    decreases |clock|
  {
    if clock == [] then []
    else
      var id := Following(instance, ts, seqNo, clock[0]);
      [id] + Answers(instance, if id.Some? then clock[0] else ts,
                     if id.None? then seqNo else if clock[0] == ts then seqNo + 1 else 0, clock[1..])
  }

  /** The declarative run and the generator's own arithmetic agree: its answers are the one sequence that qualifies. */
  lemma {:induction false} EmitsExactly(instance: int, ts: int, seqNo: int, clock: seq<int>, ids: seq<Option<int>>)
    requires 0 <= instance <= MAX_INSTANCE && 0 <= seqNo <= MAX_SEQ
    ensures Emits(instance, Pack(ts, instance, seqNo), clock, ids) <==> ids == Answers(instance, ts, seqNo, clock)
    decreases |clock|
  {
    if clock != [] && ids != [] {
      var id := Following(instance, ts, seqNo, clock[0]);
      NextIdExactly(instance, ts, seqNo, clock[0], ids[0]);
      EmitsExactly(instance, if id.Some? then clock[0] else ts,
                   if id.None? then seqNo else if clock[0] == ts then seqNo + 1 else 0, clock[1..], ids[1..]);
      assert ids == [ids[0]] + ids[1..];
    }
  }

  function Issued(ids: seq<Option<int>>): seq<int> {
    if ids == [] then []
    else if ids[0].Some? then [ids[0].value] + Issued(ids[1..])
    else Issued(ids[1..])
  }

  ghost predicate Increasing(xs: seq<int>) {
    forall i, j | 0 <= i < j < |xs| :: xs[i] < xs[j]
  }

  /**
   Whatever the clock does, a generator's ids increase strictly, stay above its start, and carry its
   worker number.
   */
  lemma {:induction false} StrictlyIncreasing(instance: int, last: int, clock: seq<int>, ids: seq<Option<int>>)
    requires Emits(instance, last, clock, ids)
    ensures Increasing(Issued(ids))
    ensures forall i | 0 <= i < |Issued(ids)| :: Issued(ids)[i] > last && Issued(ids)[i] / 4096 % 1024 == instance
    decreases |ids|
  {
    if ids != [] {
      var rest := if ids[0].Some? then ids[0].value else last;
      StrictlyIncreasing(instance, rest, clock[1..], ids[1..]);
    }
  }

  /** Generators of different workers never issue the same id. */
  lemma WorkersDisjoint(instance: int, last: int, clock: seq<int>, ids: seq<Option<int>>,
                        instance': int, last': int, clock': seq<int>, ids': seq<Option<int>>)
    requires Emits(instance, last, clock, ids) && Emits(instance', last', clock', ids') && instance != instance'
    ensures forall i, j | 0 <= i < |Issued(ids)| && 0 <= j < |Issued(ids')| :: Issued(ids)[i] != Issued(ids')[j]
  {
    StrictlyIncreasing(instance, last, clock, ids);
    StrictlyIncreasing(instance', last', clock', ids');
  }

  function InMillisecond(xs: seq<int>, ms: int): nat {
    if xs == [] then 0
    else InMillisecond(xs[..|xs| - 1], ms) + if xs[|xs| - 1] / 0x40_0000 == ms then 1 else 0
  }

  lemma {:induction false} SequenceBound(xs: seq<int>, instance: int, ms: int, bound: nat)
    requires Increasing(xs) && (forall i | 0 <= i < |xs| :: xs[i] / 4096 % 1024 == instance)
    requires forall i | 0 <= i < |xs| && xs[i] / 0x40_0000 == ms :: xs[i] % 4096 < bound
    ensures InMillisecond(xs, ms) <= bound
    decreases |xs|
  {
    if xs != [] {
      var n := |xs| - 1;
      var b := if xs[n] / 0x40_0000 == ms then xs[n] % 4096 else bound;
      forall i | 0 <= i < n && xs[i] / 0x40_0000 == ms ensures xs[i] % 4096 < b {
        assert xs[i] < xs[n];
      }
      SequenceBound(xs[..n], instance, ms, b);
    }
  }

  /** No millisecond gets more than 4096 ids from one generator. */
  lemma PerMillisecond(instance: int, last: int, clock: seq<int>, ids: seq<Option<int>>, ms: int)
    requires Emits(instance, last, clock, ids)
    ensures InMillisecond(Issued(ids), ms) <= 4096
  {
    StrictlyIncreasing(instance, last, clock, ids);
    SequenceBound(Issued(ids), instance, ms, 4096);
  }

  // ---------- The one-shot helper ----------

  /** The id that a call gives whose generator was made at `made` and answered at `now`. */
  function OneShot(instance: int, epoch: int, made: int, now: int): int {
    Pack(now - epoch, instance, if now == made then 1 else 0)
  }

  lemma OneShotAnswer(instance: int, epoch: int, made: int, now: int, id: Option<int>)
    requires 0 <= instance <= MAX_INSTANCE && NextId(instance, now - epoch, Pack(made - epoch, instance, 0), id)
    ensures id == if now >= made then Some(OneShot(instance, epoch, made, now)) else None
  {
    NextIdExactly(instance, made - epoch, 0, now - epoch, id);
  }

  /**
   Makes a generator at `made` and asks it up to `maxRetries` times, at the clock readings given.
   The first reading not behind `made` yields the id.
   */
  method GenerateSnowflake(instance: int, epoch: int, maxRetries: int, made: int, readings: seq<int>)
    returns (r: Result<int, Invalid>)
    requires |readings| >= maxRetries
    ensures r.Ok? <==> Acceptable(instance, 0, epoch, made, made) && exists i | 0 <= i < maxRetries ::
                         readings[i] >= made
    ensures r.Ok? ==> exists i | 0 <= i < maxRetries ::
                && readings[i] >= made && (forall j | 0 <= j < i :: readings[j] < made)
                && r.value == OneShot(instance, epoch, made, readings[i])
  {
    var created := SnowflakeGenerator.Create(instance, 0, epoch, None, made);
    if created.Err? {
      return Err(created.error);
    }
    var generator := created.value;
    var k := 0;
    while k < maxRetries
      invariant 0 <= k && (k <= maxRetries || k == 0)
      invariant fresh(generator) && generator.Of(instance) && generator.epo == epoch
      invariant generator.Last(instance) == Pack(made - epoch, instance, 0)
      invariant forall j | 0 <= j < k :: readings[j] < made
    {
      var id := generator.Next(readings[k], instance);
      OneShotAnswer(instance, epoch, made, readings[k], id);
      if id.Some? {
        return Ok(id.value);
      }
      k := k + 1;
    }
    r := Err(RetriesExhausted);
  }

  /**
   Two one-shot calls of a worker collide exactly when answered in one millisecond and both, or neither,
   in the one they started in.
   */
  lemma OneShotsCollide(instance: int, epoch: int, made: int, now: int, made': int, now': int)
    requires 0 <= instance <= MAX_INSTANCE
    ensures OneShot(instance, epoch, made, now) == OneShot(instance, epoch, made', now')
       <==> now == now' && (now == made <==> now' == made')
  {
    PackFields(now - epoch, instance, if now == made then 1 else 0);
    PackFields(now' - epoch, instance, if now' == made' then 1 else 0);
  }
}
