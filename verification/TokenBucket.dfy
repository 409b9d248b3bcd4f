/** The token bucket in front of the audit parser, refilled continuously from the clock. */
module TokenBucket {
  import opened Wrappers

  /** One call of `TryConsume`. */
  datatype Call = Call(at: int, count: real)

  datatype Level = Level(tokens: real, lastRefill: int)

  datatype Rate = Rate(capacity: real, refillPerSecond: real)

  /** Tokens the clock hands out between two moments, millisecond by millisecond, before the capacity is applied. */
  function Earned(from: int, to: int, rate: Rate): real
    decreases Max(0, to - from)
  {
    if to <= from then 0.0 else Earned(from, to - 1, rate) + rate.refillPerSecond / 1000.0
  }

  /** That is the rate per second times the seconds between them. */
  lemma {:induction false} EarnedPerSecond(from: int, to: int, rate: Rate)
    requires from <= to
    ensures Earned(from, to, rate) == rate.refillPerSecond * (to - from) as real / 1000.0
    decreases Max(0, to - from)
  {
    if from < to {
      EarnedPerSecond(from, to - 1, rate);
      OneMoreMillisecond(rate.refillPerSecond, to - from);
    }
  }

  lemma EarnedInSeconds(from: int, to: int, rate: Rate, seconds: real)
    requires seconds == Max(0, to - from) as real / 1000.0
    ensures Earned(from, to, rate) == seconds * rate.refillPerSecond
  {
    if from <= to { EarnedPerSecond(from, to, rate); }
  }

  lemma OneMoreMillisecond(refill: real, ms: int)
    ensures refill * ms as real / 1000.0 == refill * (ms - 1) as real / 1000.0 + refill / 1000.0
  {
    assert ms as real == (ms - 1) as real + 1.0;
  }

  lemma {:induction false} EarnedIsNoDebt(from: int, to: int, rate: Rate)
    requires rate.refillPerSecond >= 0.0
    ensures Earned(from, to, rate) >= 0.0
    decreases Max(0, to - from)
  {
    if from < to { EarnedIsNoDebt(from, to - 1, rate); }
  }

  function Refill(level: Level, at: int, rate: Rate): Level {
    var tokens := level.tokens + Earned(level.lastRefill, at, rate);
    Level(if tokens > rate.capacity then rate.capacity else tokens, at)
  }

  predicate Grants(level: Level, call: Call, rate: Rate) {
    Refill(level, call.at, rate).tokens >= call.count
  }

  function Consume(level: Level, call: Call, rate: Rate): Level {
    var refilled := Refill(level, call.at, rate);
    if Grants(level, call, rate) then refilled.(tokens := refilled.tokens - call.count) else refilled
  }

  /** The bucket after a history of calls; it starts full. */
  function After(calls: seq<Call>, start: int, rate: Rate): Level {
    if |calls| == 0 then Level(rate.capacity, start)
    else Consume(After(calls[..|calls| - 1], start, rate), calls[|calls| - 1], rate)
  }

  /** What calls `i` to `j`, the last excluded, were granted. */
  function Granted(calls: seq<Call>, i: nat, j: nat, start: int, rate: Rate): real
    requires i <= j <= |calls|
    decreases j
  {
    if i == j then 0.0
    else
      Granted(calls, i, j - 1, start, rate) +
      (if Grants(After(calls[..j - 1], start, rate), calls[j - 1], rate) then calls[j - 1].count else 0.0)
  }

  ghost predicate WellTimed(calls: seq<Call>, start: int) {
    && (forall k :: 0 <= k < |calls| ==> start <= calls[k].at && calls[k].count >= 0.0)
    && (forall k, m :: 0 <= k < m < |calls| ==> calls[k].at <= calls[m].at)
  }

  lemma AfterOneMore(calls: seq<Call>, j: nat, start: int, rate: Rate)
    requires j < |calls|
    ensures After(calls[..j + 1], start, rate) == Consume(After(calls[..j], start, rate), calls[j], rate)
  {
    assert calls[..j + 1][..j] == calls[..j];
  }

  lemma {:induction false} LastRefillIsLastCall(calls: seq<Call>, j: nat, start: int, rate: Rate)
    requires j < |calls|
    ensures After(calls[..j + 1], start, rate).lastRefill == calls[j].at
  {
    AfterOneMore(calls, j, start, rate);
  }

  lemma {:induction false} NeverNegative(calls: seq<Call>, j: nat, start: int, rate: Rate)
    requires j <= |calls| && rate.capacity >= 0.0 && rate.refillPerSecond >= 0.0
    ensures After(calls[..j], start, rate).tokens >= 0.0
  {
    if j > 0 {
      NeverNegative(calls, j - 1, start, rate);
      AfterOneMore(calls, j - 1, start, rate);
      EarnedIsNoDebt(After(calls[..j - 1], start, rate).lastRefill, calls[j - 1].at, rate);
    }
  }

  lemma {:induction false} EarningsAdd(a: int, b: int, c: int, rate: Rate)
    requires a <= b <= c
    ensures Earned(a, b, rate) + Earned(b, c, rate) == Earned(a, c, rate)
    ensures Earned(a, a, rate) == 0.0
    decreases Max(0, c - b)
  {
    if b < c { EarningsAdd(a, b, c - 1, rate); }
  }

  /** A call moves tokens, it does not make them: what it grants comes out of the refilled bucket. */
  lemma CallConserves(level: Level, call: Call, rate: Rate)
    ensures
      var grant := if Grants(level, call, rate) then call.count else 0.0;
      var refilled := Refill(level, call.at, rate).tokens;
      && Consume(level, call, rate).tokens + grant == refilled
      && refilled <= rate.capacity
      && refilled <= level.tokens + Earned(level.lastRefill, call.at, rate)
  {
  }

  /** One more call keeps a backed sum backed. */
  lemma BackedStep(level: Level, call: Call, rate: Rate, granted: real, earned: real, earnedAfter: real)
    requires granted + level.tokens <= rate.capacity + earned
    requires earned + Earned(level.lastRefill, call.at, rate) == earnedAfter
    ensures granted + (if Grants(level, call, rate) then call.count else 0.0) + Consume(level, call, rate).tokens
         <= rate.capacity + earnedAfter
  {
    CallConserves(level, call, rate);
  }

  /** Grants plus what is left never exceed a full bucket plus the refill since the first of the calls. */
  lemma {:induction false} GrantsAreBacked(calls: seq<Call>, i: nat, j: nat, start: int, rate: Rate)
    requires WellTimed(calls, start) && i < j <= |calls|
    ensures Granted(calls, i, j, start, rate) + After(calls[..j], start, rate).tokens
         <= rate.capacity + Earned(calls[i].at, calls[j - 1].at, rate)
  {
    AfterOneMore(calls, j - 1, start, rate);
    var before, call := After(calls[..j - 1], start, rate), calls[j - 1];
    if i + 1 == j {
      CallConserves(before, call, rate);
      EarningsAdd(call.at, call.at, call.at, rate);
      assert Granted(calls, i, i, start, rate) == 0.0;
    } else {
      GrantsAreBacked(calls, i, j - 1, start, rate);
      LastRefillIsLastCall(calls, j - 2, start, rate);
      EarningsAdd(calls[i].at, calls[j - 2].at, call.at, rate);
      BackedStep(before, call, rate, Granted(calls, i, j - 1, start, rate),
                 Earned(calls[i].at, calls[j - 2].at, rate), Earned(calls[i].at, call.at, rate));
    }
  }

  /** The bound between any two calls of any history. */
  lemma RateBound(calls: seq<Call>, i: nat, j: nat, start: int, rate: Rate)
    requires WellTimed(calls, start) && i < j <= |calls|
    requires rate.capacity >= 0.0 && rate.refillPerSecond >= 0.0
    ensures Granted(calls, i, j, start, rate)
         <= rate.capacity + rate.refillPerSecond * (calls[j - 1].at - calls[i].at) as real / 1000.0
  {
    RateBoundEarned(calls, i, j, start, rate);
    EarnedPerSecond(calls[i].at, calls[j - 1].at, rate);
  }

  lemma RateBoundEarned(calls: seq<Call>, i: nat, j: nat, start: int, rate: Rate)
    requires WellTimed(calls, start) && i < j <= |calls|
    requires rate.capacity >= 0.0 && rate.refillPerSecond >= 0.0
    ensures Granted(calls, i, j, start, rate) <= rate.capacity + Earned(calls[i].at, calls[j - 1].at, rate)
  {
    GrantsAreBacked(calls, i, j, start, rate);
    NeverNegative(calls, j, start, rate);
  }

  /** Granting call `j` would keep to the bound counted from call `i`. */
  predicate WithinRate(calls: seq<Call>, i: nat, j: nat, start: int, rate: Rate)
    requires i <= j < |calls|
  {
    Granted(calls, i, j, start, rate) + calls[j].count
      <= rate.capacity + rate.refillPerSecond * (calls[j].at - calls[i].at) as real / 1000.0
  }

  /** What call `j` finds in the bucket, if it was full at call `i` and never since. */
  function FullSince(calls: seq<Call>, i: nat, j: nat, start: int, rate: Rate): real
    requires i <= j < |calls|
  {
    rate.capacity + Earned(calls[i].at, calls[j].at, rate) - Granted(calls, i, j, start, rate)
  }

  /** The bucket holds the least of what it would hold had it been full at any one of the calls, and never since. */
  lemma {:induction false} FoundIsLeast(calls: seq<Call>, j: nat, start: int, rate: Rate) returns (full: nat)
    requires WellTimed(calls, start) && j < |calls| && rate.refillPerSecond >= 0.0
    ensures full <= j
    ensures Refill(After(calls[..j], start, rate), calls[j].at, rate).tokens == FullSince(calls, full, j, start, rate)
    ensures forall i :: 0 <= i <= j ==>
      Refill(After(calls[..j], start, rate), calls[j].at, rate).tokens <= FullSince(calls, i, j, start, rate)
  {
    full := j;
    EarningsAdd(calls[j].at, calls[j].at, calls[j].at, rate);
    if j == 0 {
      EarnedIsNoDebt(start, calls[0].at, rate);
    } else {
      var earlier := FoundIsLeast(calls, j - 1, start, rate);
      AfterOneMore(calls, j - 1, start, rate);
      CallConserves(After(calls[..j - 1], start, rate), calls[j - 1], rate);
      forall i | 0 <= i < j
        ensures FullSince(calls, i, j, start, rate)
          == FullSince(calls, i, j - 1, start, rate) + Earned(calls[j - 1].at, calls[j].at, rate)
             - (if Grants(After(calls[..j - 1], start, rate), calls[j - 1], rate) then calls[j - 1].count else 0.0)
      {
        EarningsAdd(calls[i].at, calls[j - 1].at, calls[j].at, rate);
      }
      if Refill(After(calls[..j], start, rate), calls[j].at, rate).tokens < rate.capacity { full := earlier; }
    }
  }

  lemma WithinRateIsFound(calls: seq<Call>, i: nat, j: nat, start: int, rate: Rate)
    requires i <= j < |calls| && calls[i].at <= calls[j].at
    ensures WithinRate(calls, i, j, start, rate) <==> calls[j].count <= FullSince(calls, i, j, start, rate)
  {
    EarnedPerSecond(calls[i].at, calls[j].at, rate);
  }

  /** A call is granted exactly when that keeps to the rate counted from every call so far, itself included. */
  lemma GrantedIffWithinRate(calls: seq<Call>, j: nat, start: int, rate: Rate)
    requires WellTimed(calls, start) && j < |calls| && rate.refillPerSecond >= 0.0
    ensures Grants(After(calls[..j], start, rate), calls[j], rate)
      <==> forall i :: 0 <= i <= j ==> WithinRate(calls, i, j, start, rate)
  {
    var full := FoundIsLeast(calls, j, start, rate);
    forall i | 0 <= i <= j
      ensures WithinRate(calls, i, j, start, rate) <==> calls[j].count <= FullSince(calls, i, j, start, rate)
    {
      WithinRateIsFound(calls, i, j, start, rate);
    }
  }

  /** The moment of the last call, or of the start. */
  function LastCallAt(calls: seq<Call>, start: int): int {
    if |calls| == 0 then start else calls[|calls| - 1].at
  }

  /** Nothing within the capacity starves: once the clock has earned it since the last call, a request is granted. */
  lemma GrantedOnceEarned(calls: seq<Call>, call: Call, start: int, rate: Rate)
    requires rate.capacity >= 0.0 && rate.refillPerSecond >= 0.0 && call.count <= rate.capacity
    requires LastCallAt(calls, start) <= call.at
    requires call.count <= rate.refillPerSecond * (call.at - LastCallAt(calls, start)) as real / 1000.0
    ensures Grants(After(calls, start, rate), call, rate)
  {
    assert calls[..|calls|] == calls;
    NeverNegative(calls, |calls|, start, rate);
    if |calls| > 0 { LastRefillIsLastCall(calls, |calls| - 1, start, rate); }
    EarnedIsEnough(After(calls, start, rate), call, rate);
  }

  lemma EarnedIsEnough(level: Level, call: Call, rate: Rate)
    requires level.tokens >= 0.0 && call.count <= rate.capacity && level.lastRefill <= call.at
    requires call.count <= rate.refillPerSecond * (call.at - level.lastRefill) as real / 1000.0
    ensures Grants(level, call, rate)
  {
    EarnedPerSecond(level.lastRefill, call.at, rate);
  }

  class TokenBucket {
    const rate: Rate
    ghost const start: int
    var tokens: real
    var lastRefill: int
    ghost var calls: seq<Call>

    ghost predicate Valid()
      reads this
    {
      Level(tokens, lastRefill) == After(calls, start, rate)
    }

    constructor (rate: Rate, now: int)
      ensures Valid() && calls == [] && this.rate == rate && start == now
    {
      this.rate, this.start := rate, now;
      tokens, lastRefill, calls := rate.capacity, now, [];
    }

    /** Grants exactly what keeps to the rate counted from every call so far, the first of which found it full. */
    method TryConsume(count: real, now: int) returns (granted: bool)
      requires Valid()
      modifies this
      ensures Valid() && calls == old(calls) + [Call(now, count)]
      ensures granted <==> Grants(After(old(calls), start, rate), Call(now, count), rate)
      ensures WellTimed(calls, start) && rate.refillPerSecond >= 0.0 ==>
        (granted <==> forall i :: 0 <= i <= |old(calls)| ==> WithinRate(calls, i, |old(calls)|, start, rate))
    {
      granted := Take(count, now);
      assert calls[..|old(calls)|] == old(calls);
      if WellTimed(calls, start) && rate.refillPerSecond >= 0.0 {
        GrantedIffWithinRate(calls, |old(calls)|, start, rate);
      }
    }

    method EarnedBy(now: int) returns (earned: real)
      ensures earned == Earned(lastRefill, now, rate)
    {
      var elapsedSeconds := Max(0, now - lastRefill) as real / 1000.0;
      EarnedInSeconds(lastRefill, now, rate, elapsedSeconds);
      earned := elapsedSeconds * rate.refillPerSecond;
    }

    method Take(count: real, now: int) returns (granted: bool)
      requires Valid()
      modifies this
      ensures Valid() && calls == old(calls) + [Call(now, count)]
      ensures granted <==> Grants(After(old(calls), start, rate), Call(now, count), rate)
    {
      var earned := EarnedBy(now);
      var refilled := tokens + earned;
      tokens := if refilled > rate.capacity then rate.capacity else refilled;
      lastRefill := now;
      calls := calls + [Call(now, count)];
      assert calls[..|calls| - 1] == old(calls);
      if tokens < count {
        return false;
      }
      tokens := tokens - count;
      return true;
    }
  }
}
