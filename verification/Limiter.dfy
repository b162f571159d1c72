/** The debt-based rate limiter. Bytes are booked at once, possibly into debt,
    and the caller then sleeps until the debt is repaid. Times are in seconds,
    levels in bytes; the original's floating point is taken as exact. */
module Limiter {
  import opened Prelude

  const MIN_BURST: real := 8192.0
  const MAX_SLEEP: real := 0.5

  function Normalize(limit: Option<nat>): Option<real> {
    match limit
    case None => None
    case Some(n) => if n == 0 then None else Some(n as real)
  }

  function BurstFor(rate: real): real { if rate < MIN_BURST then MIN_BURST else rate }

  /** A second's worth, but never less than the minimum. */
  lemma BurstExactly(rate: real)
    ensures BurstFor(rate) >= rate && BurstFor(rate) >= 8192.0 && (BurstFor(rate) == rate || BurstFor(rate) == 8192.0)
  {
  }

  function MinReal(a: real, b: real): real { if a < b then a else b }

  datatype Bucket = Bucket(rate: Option<real>, tokens: real, last: real)

  function Full(rate: Option<real>, now: real): Bucket {
    Bucket(rate, if rate.Some? then BurstFor(rate.value) else 0.0, now)
  }

  /** What a rate yields in a time. */
  function Earned(rate: real, time: real): real { rate * time }

  /** The bucket after refilling up to `now`. */
  function Refilled(b: Bucket, now: real): Bucket
    requires b.rate.Some?
  {
    b.(tokens := MinReal(b.tokens + Earned(b.rate.value, now - b.last), BurstFor(b.rate.value)), last := now)
  }

  function Limited(b: Bucket, limit: Option<nat>, now: real): Bucket {
    if b.rate == Normalize(limit) then b else Full(Normalize(limit), now)
  }

  // ------------------------------------------------------- many callers

  /** The bucket, the bytes of each call still waiting, and the bytes booked and
      returned so far. */
  datatype System = System(bucket: Bucket, waiting: seq<nat>, booked: nat, returned: nat)

  datatype Op = Acquire(bytes: nat, now: real) | Poll(k: nat, now: real)

  /** One critical section; the flag tells whether its call returns. */
  function Apply(s: System, op: Op): Option<(System, bool)>
    requires s.bucket.rate.Some?
  {
    if op.now < s.bucket.last then None
    else
      var b := Refilled(s.bucket, op.now);
      match op
      case Acquire(bytes, now) =>
        if bytes == 0 then Some((s, true))
        else
          var spent := b.(tokens := b.tokens - bytes as real);
          if spent.tokens >= 0.0 then Some((s.(bucket := spent, booked := s.booked + bytes, returned := s.returned + bytes), true))
          else Some((s.(bucket := spent, booked := s.booked + bytes, waiting := s.waiting + [bytes]), false))
      case Poll(k, now) =>
        if k >= |s.waiting| then None
        else if b.tokens >= 0.0 then
          Some((s.(bucket := b, returned := s.returned + s.waiting[k], waiting := s.waiting[..k] + s.waiting[k + 1..]), true))
        else Some((s.(bucket := b), false))
  }

  /** What may be sent in a window of the given length. */
  function Allowance(rate: real, length: real): real { BurstFor(rate) + Earned(rate, length) }

  /** Every byte booked is returned or still waiting; the level never exceeds the
      burst; and against any earlier time `from`, at which `base` bytes had been
      booked, the level pays for what has been booked since. */
  ghost predicate Ok(s: System, rate: real, from: real, base: nat) {
    && s.bucket.rate == Some(rate) && rate > 0.0
    && s.booked == s.returned + Sum(s.waiting) && base <= s.booked
    && s.bucket.tokens <= BurstFor(rate)
    && (if s.bucket.last < from then s.booked == base
        else s.bucket.tokens + (s.booked - base) as real <= Allowance(rate, s.bucket.last - from))
  }

  lemma EarnedAdds(rate: real, a: real, b: real)
    ensures Earned(rate, a) + Earned(rate, b) == Earned(rate, a + b)
  {
    assert rate * a + rate * b == rate * (a + b);
  }

  lemma EarnedGrows(rate: real, a: real, b: real)
    requires rate > 0.0 && a <= b
    ensures Earned(rate, a) <= Earned(rate, b)
    ensures Earned(rate, 0.0) == 0.0
  {
    assert rate * (b - a) >= 0.0;
    EarnedAdds(rate, a, b - a);
  }

  /** Refilling keeps the account. */
  lemma RefillPays(s: System, rate: real, from: real, base: nat, now: real)
    requires Ok(s, rate, from, base) && s.bucket.last <= now && from <= now
    ensures var b := Refilled(s.bucket, now);
      b.tokens <= BurstFor(rate) && b.tokens + (s.booked - base) as real <= Allowance(rate, now - from)
  {
    hide Earned;
    if s.bucket.last < from {
      EarnedGrows(rate, 0.0, now - from);
    } else {
      EarnedAdds(rate, s.bucket.last - from, now - s.bucket.last);
    }
  }

  lemma AcquireKeeps(s: System, rate: real, from: real, base: nat, op: Op)
    requires Ok(s, rate, from, base) && from <= op.now && op.Acquire? && op.bytes > 0 && s.bucket.last <= op.now
    ensures var (s', done) := Apply(s, op).value;
      && Ok(s', rate, from, base) && s'.bucket.last == op.now
      && (done ==> (s'.booked - base) as real <= Allowance(rate, op.now - from))
      && (!done ==> s'.returned == s.returned)
  {
    RefillPays(s, rate, from, base, op.now);
    SumSnoc(s.waiting, op.bytes);
    hide Refilled, Allowance, Earned, BurstFor, Sum;
    RefillShape(s.bucket, op.now);
  }

  lemma RefillShape(b: Bucket, now: real)
    requires b.rate.Some?
    ensures Refilled(b, now).rate == b.rate && Refilled(b, now).last == now
  {
  }

  lemma PollKeeps(s: System, rate: real, from: real, base: nat, op: Op)
    requires Ok(s, rate, from, base) && from <= op.now && op.Poll? && op.k < |s.waiting| && s.bucket.last <= op.now
    ensures var (s', done) := Apply(s, op).value;
      && Ok(s', rate, from, base) && s'.bucket.last == op.now
      && (done ==> (s'.booked - base) as real <= Allowance(rate, op.now - from))
      && (!done ==> s'.returned == s.returned)
  {
    RefillPays(s, rate, from, base, op.now);
    SumWithout(s.waiting, op.k);
    hide Refilled, Allowance, Earned, BurstFor, Sum;
    RefillShape(s.bucket, op.now);
  }

  /** A call of no bytes; every other step books, pays, or moves the time on. */
  predicate Idle(op: Op) { op.Acquire? && op.bytes == 0 }

  lemma ApplyKeeps(s: System, rate: real, from: real, base: nat, op: Op)
    requires Ok(s, rate, from, base) && from <= op.now && Apply(s, op).Some?
    ensures var (s', done) := Apply(s, op).value;
      && Ok(s', rate, from, base)
      && (Idle(op) ==> s' == s)
      && (!Idle(op) ==> s'.bucket.last == op.now)
      && (!Idle(op) && done ==> (s'.booked - base) as real <= Allowance(rate, op.now - from))
      && (!done ==> s'.returned == s.returned)
  {
    hide Ok, Refilled, Allowance;
    OkRate(s, rate, from, base);
    if op.Poll? { PollKeeps(s, rate, from, base, op); }
    else if op.bytes > 0 { AcquireKeeps(s, rate, from, base, op); }
  }

  /** A call of some bytes returns at once exactly if the level, refilled, pays
      for them; a waiting call returns exactly when the debt has been earned. */
  lemma ReturnsExactly(s: System, op: Op)
    requires s.bucket.rate.Some? && s.bucket.last <= op.now
    requires op.Poll? ==> op.k < |s.waiting|
    ensures Apply(s, op).Some?
    ensures var level := s.bucket.tokens + Earned(s.bucket.rate.value, op.now - s.bucket.last);
      Apply(s, op).value.1 <==>
        if op.Acquire? then op.bytes == 0 || op.bytes as real <= MinReal(level, BurstFor(s.bucket.rate.value))
        else level >= 0.0
    ensures !Idle(op) ==>
      var level := s.bucket.tokens + Earned(s.bucket.rate.value, op.now - s.bucket.last);
      Apply(s, op).value.0.bucket == s.bucket.(last := op.now,
        tokens := MinReal(level, BurstFor(s.bucket.rate.value)) - if op.Acquire? then op.bytes as real else 0.0)
  {
    hide Earned;
  }

  /** A run of calls and polls, in time order. */
  ghost predicate Runs(s: System, ops: seq<Op>, s': System)
    decreases |ops|
  {
    if ops == [] then s' == s
    else s.bucket.rate.Some? && Apply(s, ops[0]).Some? && Runs(Apply(s, ops[0]).value.0, ops[1..], s')
  }

  lemma {:induction false} RunKeeps(s: System, rate: real, from: real, base: nat, ops: seq<Op>, s': System)
    requires Ok(s, rate, from, base) && Runs(s, ops, s')
    requires forall k :: 0 <= k < |ops| ==> from <= ops[k].now
    ensures Ok(s', rate, from, base)
    decreases |ops|
  {
    hide Apply, Ok;
    if ops != [] {
      OkRate(s, rate, from, base);
      ApplyKeeps(s, rate, from, base, ops[0]);
      RunKeeps(Apply(s, ops[0]).value.0, rate, from, base, ops[1..], s');
    }
  }

  lemma OkRate(s: System, rate: real, from: real, base: nat)
    requires Ok(s, rate, from, base)
    ensures s.bucket.rate.Some?
  {
  }

  /** At the start of any window the account is even. */
  lemma WindowOpens(s: System, rate: real, start: real, base: nat, from: real)
    requires Ok(s, rate, start, base) && s.bucket.last <= from
    ensures Ok(s, rate, from, s.booked)
  {
    EarnedGrows(rate, 0.0, 0.0);
  }

  /** For any number of callers: the bytes booked in any window that ends with a
      return are at most the burst and the rate times the length of the window. */
  lemma WindowBound(s: System, rate: real, start: real, base: nat, from: real, ops: seq<Op>, s1: System, op: Op)
    requires Ok(s, rate, start, base) && s.bucket.last <= from
    requires Runs(s, ops, s1) && forall k :: 0 <= k < |ops| ==> from <= ops[k].now
    requires s1.bucket.rate.Some? && from <= op.now && Apply(s1, op).Some? && Apply(s1, op).value.1
    requires op.Acquire? ==> op.bytes > 0
    ensures (Apply(s1, op).value.0.booked - s.booked) as real <= Allowance(rate, op.now - from)
  {
    WindowOpens(s, rate, start, base, from);
    RunKeeps(s, rate, from, s.booked, ops, s1);
    hide Ok, Allowance, Apply;
    ApplyKeeps(s1, rate, from, s.booked, op);
  }

  /** What has been returned is paid for. */
  ghost predicate Paid(s: System, rate: real, from: real) {
    from <= s.bucket.last && s.returned as real <= Allowance(rate, s.bucket.last - from)
  }

  lemma PaidLater(returned: nat, rate: real, from: real, last: real, now: real)
    requires rate > 0.0 && last <= now && returned as real <= Allowance(rate, last - from)
    ensures returned as real <= Allowance(rate, now - from)
  {
    hide Earned;
    EarnedGrows(rate, last - from, now - from);
  }

  lemma ApplyPaid(s: System, rate: real, from: real, op: Op)
    requires Ok(s, rate, from, 0) && Paid(s, rate, from) && Apply(s, op).Some?
    ensures Paid(Apply(s, op).value.0, rate, from)
  {
    ApplyKeeps(s, rate, from, 0, op);
    var (s', done) := Apply(s, op).value;
    hide Allowance, Apply;
    if !done { PaidLater(s.returned, rate, from, s.bucket.last, op.now); }
  }

  lemma NotBefore(s: System, op: Op)
    requires s.bucket.rate.Some? && Apply(s, op).Some?
    ensures s.bucket.last <= op.now
  {
  }

  lemma {:induction false} RunPaid(s: System, rate: real, from: real, ops: seq<Op>, s': System)
    requires Ok(s, rate, from, 0) && Paid(s, rate, from) && Runs(s, ops, s')
    ensures Ok(s', rate, from, 0) && Paid(s', rate, from)
    decreases |ops|
  {
    hide Apply, Ok, Allowance;
    if ops != [] {
      OkRate(s, rate, from, 0);
      NotBefore(s, ops[0]);
      ApplyPaid(s, rate, from, ops[0]);
      ApplyKeeps(s, rate, from, 0, ops[0]);
      RunPaid(Apply(s, ops[0]).value.0, rate, from, ops[1..], s');
    }
  }

  /** From a new limiter, at any time, the bytes of all calls that have returned
      are at most the burst and the rate times the time gone by. */
  lemma ReturnedBound(rate: real, from: real, ops: seq<Op>, s: System, now: real)
    requires rate > 0.0 && Runs(System(Full(Some(rate), from), [], 0, 0), ops, s) && s.bucket.last <= now
    ensures s.returned as real <= Allowance(rate, now - from)
    ensures s.returned <= s.booked
  {
    var s0 := System(Full(Some(rate), from), [], 0, 0);
    EarnedGrows(rate, 0.0, 0.0);
    hide Earned, Runs;
    RunPaid(s0, rate, from, ops, s);
    PaidLater(s.returned, rate, from, s.bucket.last, now);
  }

  /** A limit that changes forgives all debt: every sleeping call returns at its
      next check. */
  lemma ChangeForgives(b: Bucket, limit: Option<nat>, now: real, later: real)
    requires b.rate != Normalize(limit) && now <= later
    ensures var b' := Limited(b, limit, now);
      b'.rate.Some? ==> Refilled(b', later).tokens >= 0.0
  {
    var b' := Limited(b, limit, now);
    if b'.rate.Some? {
      hide Earned;
      EarnedGrows(b'.rate.value, 0.0, later - now);
    }
  }

  /** Setting the limit that is in force, at any time and however often, changes
      nothing; another starts over with the burst of its rate. No limit and a
      limit of zero are one. */
  lemma LimitExactly(b: Bucket, limit: Option<nat>, now: real)
    ensures Normalize(limit) == Normalize(Some(0)) <==> limit == None || limit == Some(0)
    ensures limit.Some? && limit.value > 0 ==> Normalize(limit) == Some(limit.value as real)
    ensures Limited(b, limit, now) == b <==>
      b.rate == Normalize(limit) || b == Full(Normalize(limit), now)
    ensures Limited(b, limit, now).rate == Normalize(limit)
    ensures forall later: real, again: Option<nat> :: Normalize(again) == Normalize(limit) ==>
      Limited(Limited(b, limit, now), again, later) == Limited(b, limit, now)
  {
  }

  // --------------------------------------------------------- one caller's wait

  lemma RefilledLevel(b: Bucket, now: real)
    requires b.rate.Some?
    ensures Refilled(b, now).tokens == MinReal(b.tokens + Earned(b.rate.value, now - b.last), BurstFor(b.rate.value))
    ensures Refilled(b, now).rate == b.rate && Refilled(b, now).last == now
  {
  }

  /** Refilling in two steps is refilling in one. */
  lemma RefilledTwice(b: Bucket, mid: real, now: real)
    requires b.rate.Some? && b.rate.value > 0.0 && mid <= now
    ensures Refilled(Refilled(b, mid), now) == Refilled(b, now)
  {
    var r := b.rate.value;
    EarnedGrows(r, 0.0, now - mid);
    EarnedAdds(r, mid - b.last, now - mid);
    hide Earned;
  }

  /** How the level rises while a caller sleeps. */
  lemma LevelRises(b: Bucket, mid: real, now: real, d: real)
    requires b.rate.Some? && b.rate.value > 0.0 && mid + d <= now && d >= 0.0
    ensures Refilled(b, now).tokens >= 0.0 || Refilled(b, now).tokens >= Refilled(b, mid).tokens + Earned(b.rate.value, d)
  {
    var r := b.rate.value;
    RefilledTwice(b, mid, now);
    RefilledLevel(Refilled(b, mid), now);
    EarnedGrows(r, d, now - mid);
    hide Earned, Refilled;
  }

  lemma DebtSeconds(rate: real, debt: real) returns (seconds: real)
    requires rate > 0.0
    ensures Earned(rate, seconds) == debt && seconds == debt / rate
    ensures debt > 0.0 <==> seconds > 0.0
  {
    seconds := debt / rate;
    assert rate * seconds == debt;
    if seconds <= 0.0 { EarnedGrows(rate, seconds, 0.0); }
    if debt <= 0.0 && seconds > 0.0 { PositiveEarned(rate, seconds); }
  }

  lemma PositiveEarned(rate: real, seconds: real)
    requires rate > 0.0 && seconds > 0.0
    ensures Earned(rate, seconds) > 0.0
  {
  }

  /** Still in debt after `n` full sleeps: fewer than the debt allows. */
  lemma StillInDebt(rate: real, n: nat, seconds: real, level: real)
    requires rate > 0.0 && level < 0.0
    requires level >= -Earned(rate, seconds) + Earned(rate, n as real * MAX_SLEEP)
    ensures n as real < 2.0 * seconds
  {
    hide Earned;
    if n as real >= 2.0 * seconds { EarnedGrows(rate, seconds, n as real * MAX_SLEEP); }
  }

  lemma OneMoreSleep(rate: real, n: nat)
    ensures Earned(rate, n as real * MAX_SLEEP) + Earned(rate, MAX_SLEEP) == Earned(rate, (n + 1) as real * MAX_SLEEP)
  {
    EarnedAdds(rate, n as real * MAX_SLEEP, MAX_SLEEP);
    assert (n + 1) as real * MAX_SLEEP == n as real * MAX_SLEEP + MAX_SLEEP;
  }

  /** A nap taken at a level below zero: never longer than the longest allowed, nor
      than it takes to earn the debt, and as long as both allow. */
  predicate Nap(rate: real, level: real, d: real) {
    && level < 0.0 && 0.0 < d <= MAX_SLEEP && Earned(rate, d) <= -level
    && (d == MAX_SLEEP || Earned(rate, d) == -level)
  }

  lemma NapIsRight(rate: real, level: real, wait: real)
    requires rate > 0.0 && level < 0.0 && wait > 0.0 && Earned(rate, wait) == -level
    ensures Nap(rate, level, if wait < MAX_SLEEP then wait else MAX_SLEEP)
  {
    if wait >= MAX_SLEEP { EarnedGrows(rate, MAX_SLEEP, wait); }
    hide Earned;
  }

  class Clock {
    var now: real

    constructor (start: real)
      ensures now == start
    {
      now := start;
    }

    /** Sleeping takes at least as long as asked for. */
    method Sleep(d: real)
      requires d >= 0.0
      modifies this
      ensures now >= old(now) + d
    {
      now := now + d;
    }
  }

  class RateLimiter {
    var rate: Option<real>
    var tokens: real
    var lastRefill: real

    function State(): Bucket
      reads this
    {
      Bucket(rate, tokens, lastRefill)
    }

    ghost predicate Valid(now: real)
      reads this
    {
      lastRefill <= now && (rate.Some? ==> rate.value > 0.0)
    }

    constructor (limit: Option<nat>, now: real)
      ensures Valid(now) && State() == Full(Normalize(limit), now)
    {
      var normalized := Normalize(limit);
      rate, lastRefill := normalized, now;
      tokens := if normalized.Some? then BurstFor(normalized.value) else 0.0;
    }

    method SetLimit(limit: Option<nat>, now: real)
      requires Valid(now)
      modifies this
      ensures Valid(now) && State() == Limited(old(State()), limit, now)
    {
      var normalized := Normalize(limit);
      if rate == normalized { return; }
      rate := normalized;
      tokens := if normalized.Some? then BurstFor(normalized.value) else 0.0;
      lastRefill := now;
    }

    method Refill(now: real)
      requires Valid(now) && rate.Some?
      modifies this`tokens, this`lastRefill
      ensures Valid(now) && State() == Refilled(old(State()), now)
    {
      var elapsed := now - lastRefill;
      lastRefill := now;
      tokens := MinReal(tokens + elapsed * rate.value, BurstFor(rate.value));
      assert elapsed * rate.value == rate.value * elapsed;
    }

    /** Booking a transfer. Without a limit, or with nothing to book, the call
        returns at once; otherwise it waits exactly if the bucket is left in
        debt. */
    method Book(bytes: nat, now: real) returns (mustWait: bool)
      requires Valid(now)
      modifies this`tokens, this`lastRefill
      ensures Valid(now)
      ensures bytes == 0 || rate.None? ==> !mustWait && State() == old(State())
      ensures bytes > 0 && rate.Some? ==>
        State() == Refilled(old(State()), now).(tokens := Refilled(old(State()), now).tokens - bytes as real)
      ensures bytes > 0 && rate.Some? ==> (mustWait <==> tokens < 0.0)
    {
      if bytes == 0 || rate.None? { return false; }
      Refill(now);
      tokens := tokens - bytes as real;
      return tokens < 0.0;
    }

    /** Other callers, refilling the bucket while this one sleeps. */
    method OthersPoll(clock: Clock)
      requires Valid(clock.now) && rate.Some?
      modifies this`tokens, this`lastRefill
      ensures Valid(clock.now)
      ensures State() == old(State()) || State() == Refilled(old(State()), clock.now)
    {
      if * { Refill(clock.now); }
    }

    /** Sleeping until the debt is repaid. With nothing else booked and the limit
        left alone, a debt worth `seconds` takes fewer than two sleeps a second,
        and one more. `naps` are the sleeps, and `levels` what they were taken at. */
    method WaitOutDebt(clock: Clock)
        returns (sleeps: nat, ghost seconds: real, ghost naps: seq<real>, ghost levels: seq<real>)
      requires Valid(clock.now)
      modifies this`tokens, this`lastRefill, clock
      ensures Valid(clock.now)
      ensures rate.None? ==> sleeps == 0 && State() == old(State())
      ensures rate.Some? ==> tokens >= 0.0 && lastRefill == clock.now
      ensures rate.Some? ==> Earned(rate.value, seconds) == -Refilled(old(State()), old(clock.now)).tokens
      ensures rate.Some? && seconds <= 0.0 ==> sleeps == 0
      ensures rate.Some? && seconds > 0.0 ==> sleeps as real < 2.0 * seconds + 1.0
      ensures |naps| == |levels| == sleeps
      ensures rate.Some? ==> forall k :: 0 <= k < sleeps ==> Nap(rate.value, levels[k], naps[k])
    {
      hide Earned, Refilled, Nap;
      sleeps, seconds, naps, levels := 0, 0.0, [], [];
      if rate.None? { return; }
      var r := rate.value;
      ghost var level := Refilled(State(), clock.now).tokens;
      seconds := DebtSeconds(r, -level);
      while true
        invariant Valid(clock.now) && rate == Some(r) && rate == old(rate)
        invariant |naps| == |levels| == sleeps && forall k :: 0 <= k < sleeps ==> Nap(r, levels[k], naps[k])
        invariant sleeps == 0 ==> Refilled(State(), clock.now).tokens == level
        invariant sleeps > 0 ==> level < 0.0 && sleeps as real < 2.0 * seconds + 1.0
        invariant sleeps > 0 ==>
          Refilled(State(), clock.now).tokens >= 0.0
          || Refilled(State(), clock.now).tokens >= -Earned(r, seconds) + Earned(r, sleeps as real * MAX_SLEEP)
        decreases (2.0 * seconds).Floor + 1 - sleeps
      {
        RefilledLevel(State(), clock.now);
        Refill(clock.now);
        if tokens >= 0.0 { return; }
        EarnedGrows(r, 0.0, 0.0);
        StillInDebt(r, sleeps, seconds, tokens);
        var wait := -tokens / r;
        ghost var w := DebtSeconds(r, -tokens);
        var d := if wait < MAX_SLEEP then wait else MAX_SLEEP;
        NapIsRight(r, tokens, w);
        naps, levels := naps + [d], levels + [tokens];
        ghost var before, slept := State(), clock.now;
        clock.Sleep(d);
        LevelRises(before, slept, clock.now, d);
        OneMoreSleep(r, sleeps);
        Same(before, slept);
        RefilledTwice(before, clock.now, clock.now);
        OthersPoll(clock);
        sleeps := sleeps + 1;
      }
    }
  }

  lemma Same(b: Bucket, now: real)
    requires b.rate.Some? && b.rate.value > 0.0 && b.last == now && b.tokens <= BurstFor(b.rate.value)
    ensures Refilled(b, now) == b
  {
    EarnedGrows(b.rate.value, 0.0, 0.0);
  }
}
