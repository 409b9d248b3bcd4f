/** The sliding-window limiter of the configuration API. */
module RateLimiter {
  import opened Wrappers
  import opened SlidingWindow

  /** What a check reports: hits counted in the window and how long until the oldest leaves it. */
  datatype LimitState = LimitState(hits: nat, resetInMs: int)

  function Under(times: map<string, seq<int>>, key: string): seq<int> {
    if key in times then times[key] else []
  }

  /** Every admission found fewer than `limit` others in its window. */
  ghost predicate Admissible(times: seq<int>, limit: int, windowMs: int) {
    && Ordered(times)
    && forall j :: 0 <= j < |times| ==> |InWindow(times[..j], times[j], windowMs)| < limit
  }

  lemma AdmissibleExtends(times: seq<int>, now: int, limit: int, windowMs: int)
    requires Admissible(times, limit, windowMs) && NoneAfter(times, now)
    requires |InWindow(times, now, windowMs)| < limit
    ensures Admissible(times + [now], limit, windowMs)
  {
    var more := times + [now];
    forall j | 0 <= j < |more| ensures |InWindow(more[..j], more[j], windowMs)| < limit {
      assert more[..j] == times[..j];
      if j == |times| { assert times[..j] == times; }
    }
  }

  /** The bound itself: any stretch of admissions shorter than the window has at most `limit` members. */
  lemma WindowBound(times: seq<int>, i: nat, j: nat, limit: int, windowMs: int)
    requires Admissible(times, limit, windowMs)
    requires i <= j < |times| && times[j] - times[i] < windowMs
    ensures j - i + 1 <= limit
  {
    assert |InWindow(times[..j], times[j], windowMs)| < limit;
    if i < j {
      WindowCountsTheStretch(times, i, j, windowMs);
    }
  }

  /** The window never holds more than `limit` admissions, at whatever moment it is asked. */
  lemma NeverMoreThanLimit(times: seq<int>, now: int, limit: nat, windowMs: int)
    requires Admissible(times, limit, windowMs) && NoneAfter(times, now)
    ensures |InWindow(times, now, windowMs)| <= limit
  {
    WindowIsSuffix(times, now, windowMs);
    var k := Expired(times, now, windowMs);
    if k < |times| {
      WindowBound(times, k, |times| - 1, limit, windowMs);
    }
  }

  /** Waiting as long as a refusal says, with nothing admitted meanwhile, earns an admission. */
  lemma RetryAfterIsEnough(times: seq<int>, now: int, limit: int, windowMs: int)
    requires Admissible(times, limit, windowMs) && NoneAfter(times, now)
    requires 1 <= limit <= |InWindow(times, now, windowMs)|
    ensures
      var later := now + Max(0, InWindow(times, now, windowMs)[0] + windowMs - now);
      |InWindow(times, later, windowMs)| < limit
  {
    var kept := InWindow(times, now, windowMs);
    var later := now + Max(0, kept[0] + windowMs - now);
    NeverMoreThanLimit(times, now, limit, windowMs);
    WindowIsSuffix(times, now, windowMs);
    WindowIsSuffix(times, later, windowMs);
    var k := Expired(times, now, windowMs);
    assert kept[0] == times[k];
    assert later - times[k] >= windowMs;
    assert Expired(times, later, windowMs) > k;
  }

  /** One key: what is kept stands in for everything admitted since the key was last reset. */
  ghost predicate KeyOk(kept: seq<int>, full: seq<int>, clock: int, limit: int, windowMs: int) {
    && SameFrom(kept, full, clock, windowMs)
    && Admissible(full, limit, windowMs)
    && NoneAfter(full, clock)
  }

  ghost predicate TableOk(
      hits: map<string, seq<int>>, admitted: map<string, seq<int>>, clock: int, limit: int, windowMs: int)
  {
    forall key :: KeyOk(Under(hits, key), Under(admitted, key), clock, limit, windowMs)
  }

  lemma TimePasses(
      hits: map<string, seq<int>>, admitted: map<string, seq<int>>, clock: int, now: int, limit: int, windowMs: int)
    requires TableOk(hits, admitted, clock, limit, windowMs) && clock <= now
    ensures TableOk(hits, admitted, now, limit, windowMs)
  {
    forall key ensures KeyOk(Under(hits, key), Under(admitted, key), now, limit, windowMs) {
      assert KeyOk(Under(hits, key), Under(admitted, key), clock, limit, windowMs);
    }
  }

  /** A table stays right when one key's two lists are replaced by a right pair. */
  lemma KeyReplaced(
      hits: map<string, seq<int>>, admitted: map<string, seq<int>>,
      hits': map<string, seq<int>>, admitted': map<string, seq<int>>,
      key: string, clock: int, limit: int, windowMs: int)
    requires TableOk(hits, admitted, clock, limit, windowMs)
    requires KeyOk(Under(hits', key), Under(admitted', key), clock, limit, windowMs)
    requires hits' - {key} == hits - {key} && admitted' - {key} == admitted - {key}
    ensures TableOk(hits', admitted', clock, limit, windowMs)
  {
    forall k ensures KeyOk(Under(hits', k), Under(admitted', k), clock, limit, windowMs) {
      if k != key {
        assert Under(hits', k) == Under(hits' - {key}, k) == Under(hits, k);
        assert Under(admitted', k) == Under(admitted' - {key}, k) == Under(admitted, k);
        assert KeyOk(Under(hits, k), Under(admitted, k), clock, limit, windowMs);
      }
    }
  }

  /** Both ways a check can end keep the table right, and what is kept gives the true count. */
  lemma CheckKeepsTable(
      hits: map<string, seq<int>>, admitted: map<string, seq<int>>, key: string,
      clock: int, now: int, limit: int, windowMs: int)
    requires TableOk(hits, admitted, clock, limit, windowMs) && clock <= now
    ensures
      var window := InWindow(Under(hits, key), now, windowMs);
      && window == InWindow(Under(admitted, key), now, windowMs)
      && TableOk(hits[key := window], admitted, now, limit, windowMs)
      && (|window| < limit ==>
           TableOk(hits[key := window + [now]], admitted[key := Under(admitted, key) + [now]], now, limit, windowMs))
  {
    var before := Under(admitted, key);
    var window := InWindow(Under(hits, key), now, windowMs);
    assert KeyOk(Under(hits, key), before, clock, limit, windowMs);
    FilteredIsSame(Under(hits, key), before, clock, now, windowMs);
    TimePasses(hits, admitted, clock, now, limit, windowMs);
    KeyReplaced(hits, admitted, hits[key := window], admitted, key, now, limit, windowMs);
    if |window| < limit {
      ExtendedIsSame(window, before, now, now, windowMs);
      AdmissibleExtends(before, now, limit, windowMs);
      KeyReplaced(hits, admitted, hits[key := window + [now]], admitted[key := before + [now]],
                  key, now, limit, windowMs);
    }
  }

  class SlidingWindowLimiter {
    const limit: int
    const windowMs: int
    var hits: map<string, seq<int>>

    /** When each key was admitted since it was last reset, and the latest clock reading. */
    ghost var admitted: map<string, seq<int>>
    ghost var clock: int

    ghost predicate Valid()
      reads this
    {
      TableOk(hits, admitted, clock, limit, windowMs)
    }

    constructor (limit: int, windowMs: int, now: int)
      ensures Valid() && clock == now && this.limit == limit && this.windowMs == windowMs
      ensures admitted == map[]
    {
      this.limit, this.windowMs := limit, windowMs;
      hits, admitted, clock := map[], map[], now;
    }

    /** Admits exactly when fewer than `limit` admissions lie in the trailing window; a refusal leaves no mark. */
    method Check(key: string, now: int) returns (allowed: bool, state: LimitState)
      requires Valid() && now >= clock
      modifies this
      ensures Valid() && clock == now
      ensures allowed <==> |InWindow(Under(old(admitted), key), now, windowMs)| < limit
      ensures admitted == if allowed then old(admitted)[key := Under(old(admitted), key) + [now]] else old(admitted)
      ensures state.hits == |InWindow(Under(old(admitted), key), now, windowMs)| + (if allowed then 1 else 0)
      ensures allowed ==> state.resetInMs == windowMs
      ensures !allowed && state.hits > 0 ==>
        state.resetInMs == Max(0, InWindow(Under(old(admitted), key), now, windowMs)[0] + windowMs - now)
    {
      CheckKeepsTable(hits, admitted, key, clock, now, limit, windowMs);
      var timestamps := InWindow(Under(hits, key), now, windowMs);
      clock := now;
      if |timestamps| >= limit {
        hits := hits[key := timestamps];
        var oldest := if |timestamps| > 0 then timestamps[0] else now;
        return false, LimitState(|timestamps|, Max(0, oldest + windowMs - now));
      }
      hits := hits[key := timestamps + [now]];
      admitted := admitted[key := Under(admitted, key) + [now]];
      return true, LimitState(|timestamps| + 1, windowMs);
    }

    /** Forgets one key, and its history with it. */
    method Reset(key: string)
      requires Valid()
      modifies this
      ensures Valid() && clock == old(clock)
      ensures admitted == old(admitted) - {key}
    {
      KeyReplaced(hits, admitted, hits - {key}, admitted - {key}, key, clock, limit, windowMs);
      hits := hits - {key};
      admitted := admitted - {key};
    }

    method ResetAll()
      requires Valid()
      modifies this
      ensures Valid() && clock == old(clock) && admitted == map[] && hits == map[]
    {
      hits, admitted := map[], map[];
    }

    method PruneKey(key: string, now: int) returns (dropped: bool)
      requires Valid() && key in hits && now == clock
      modifies `hits
      ensures Valid()
      ensures
        var live := InWindow(old(hits)[key], now, windowMs);
        dropped == (|live| == 0) && hits == if dropped then old(hits) - {key} else old(hits)[key := live]
      ensures hits.Keys == if dropped then old(hits).Keys - {key} else old(hits).Keys
    {
      var live := InWindow(hits[key], now, windowMs);
      assert KeyOk(Under(hits, key), Under(admitted, key), clock, limit, windowMs);
      FilteredIsSame(hits[key], Under(admitted, key), clock, clock, windowMs);
      var left := if |live| == 0 then hits - {key} else hits[key := live];
      KeyReplaced(hits, admitted, left, admitted, key, clock, limit, windowMs);
      assert left.Keys == if |live| == 0 then hits.Keys - {key} else hits.Keys;
      hits := left;
      dropped := |live| == 0;
    }

    /** Drops expired timestamps and empty keys. No admission is forgotten, so no answer changes. */
    method Prune(now: int) returns (removed: nat)
      requires Valid() && now >= clock
      modifies this
      ensures Valid() && clock == now
      ensures admitted == old(admitted)
      ensures forall key :: key in hits ==> key in old(hits) && |hits[key]| > 0
      ensures removed == |old(hits).Keys| - |hits.Keys|
    {
      removed := 0;
      TimePasses(hits, admitted, clock, now, limit, windowMs);
      clock := now;
      var keys := hits.Keys;
      while keys != {}
        invariant Valid() && clock == now && admitted == old(admitted)
        invariant hits.Keys <= old(hits).Keys && keys <= hits.Keys
        invariant forall key :: key in hits && key !in keys ==> |hits[key]| > 0
        invariant removed + |hits.Keys| == |old(hits).Keys|
        decreases keys
      {
        var key :| key in keys;
        var dropped := PruneKey(key, now);
        removed := removed + if dropped then 1 else 0;
        keys := keys - {key};
      }
    }
  }
}
