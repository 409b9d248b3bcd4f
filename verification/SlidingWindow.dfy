/** Timestamps inside a trailing window, as the rate limiter and the echo guard keep them. */
module SlidingWindow {

  ghost predicate Ordered(times: seq<int>) {
    forall i, j :: 0 <= i < j < |times| ==> times[i] <= times[j]
  }

  ghost predicate NoneAfter(times: seq<int>, now: int) {
    forall i :: 0 <= i < |times| ==> times[i] <= now
  }

  /** The timestamps less than `windowMs` old, in order. */
  function InWindow(times: seq<int>, now: int, windowMs: int): seq<int> {
    if |times| == 0 then
      []
    else
      var rest := InWindow(times[..|times| - 1], now, windowMs);
      var last := times[|times| - 1];
      if now - last < windowMs then rest + [last] else rest
  }

  /** How many of the oldest timestamps have left the window. */
  ghost function Expired(times: seq<int>, now: int, windowMs: int): (k: nat)
    requires Ordered(times)
    ensures k <= |times|
    ensures forall i :: 0 <= i < k ==> now - times[i] >= windowMs
    ensures forall i :: k <= i < |times| ==> now - times[i] < windowMs
  {
    if |times| == 0 || now - times[|times| - 1] >= windowMs then
      |times|
    else
      var init := times[..|times| - 1];
      assert forall i :: 0 <= i < |init| ==> init[i] == times[i];
      Expired(init, now, windowMs)
  }

  /** On ordered timestamps the window is exactly a suffix. */
  lemma {:induction false} WindowIsSuffix(times: seq<int>, now: int, windowMs: int)
    requires Ordered(times)
    ensures InWindow(times, now, windowMs) == times[Expired(times, now, windowMs)..]
  {
    if |times| > 0 {
      var init := times[..|times| - 1];
      WindowIsSuffix(init, now, windowMs);
      assert forall i :: 0 <= i < |init| ==> init[i] == times[i];
      var k := Expired(times, now, windowMs);
      var m := Expired(init, now, windowMs);
      if now - times[|times| - 1] < windowMs {
        assert times[k..] == init[k..] + [times[|times| - 1]];
      } else {
        assert k == |times|;
        assert forall n :: 0 <= n < |init| ==> init[n] <= times[|times| - 1];
        assert m == |init|;
      }
    }
  }

  /** Dropping expired timestamps early never changes a later answer. */
  lemma {:induction false} PruningIsInvisible(times: seq<int>, earlier: int, now: int, windowMs: int)
    requires earlier <= now
    ensures InWindow(InWindow(times, earlier, windowMs), now, windowMs) == InWindow(times, now, windowMs)
  {
    if |times| > 0 {
      var init, last := times[..|times| - 1], times[|times| - 1];
      PruningIsInvisible(init, earlier, now, windowMs);
      var kept := InWindow(init, earlier, windowMs);
      if earlier - last < windowMs {
        assert (kept + [last])[..|kept + [last]| - 1] == kept;
      }
    }
  }

  lemma {:induction false} WindowOfAppended(times: seq<int>, last: int, now: int, windowMs: int)
    ensures InWindow(times + [last], now, windowMs)
         == InWindow(times, now, windowMs) + (if now - last < windowMs then [last] else [])
  {
    assert (times + [last])[..|times|] == times;
  }

  /** A stretch of timestamps that fits in one window is counted in full by its last member. */
  lemma WindowCountsTheStretch(times: seq<int>, i: nat, j: nat, windowMs: int)
    requires Ordered(times) && i < j < |times|
    requires times[j] - times[i] < windowMs
    ensures |InWindow(times[..j], times[j], windowMs)| >= j - i
  {
    var before := times[..j];
    WindowIsSuffix(before, times[j], windowMs);
    var k := Expired(before, times[j], windowMs);
    assert before[i] == times[i];
    assert k <= i;
  }

  /** From `from` on, `kept` answers every window question as the full history does. */
  ghost predicate SameFrom(kept: seq<int>, full: seq<int>, from: int, windowMs: int) {
    forall now :: now >= from ==> InWindow(kept, now, windowMs) == InWindow(full, now, windowMs)
  }

  lemma FilteredIsSame(kept: seq<int>, full: seq<int>, from: int, now: int, windowMs: int)
    requires SameFrom(kept, full, from, windowMs) && from <= now
    ensures SameFrom(InWindow(kept, now, windowMs), full, now, windowMs)
  {
    forall t | t >= now
      ensures InWindow(InWindow(kept, now, windowMs), t, windowMs) == InWindow(full, t, windowMs)
    {
      PruningIsInvisible(kept, now, t, windowMs);
    }
  }

  lemma ExtendedIsSame(kept: seq<int>, full: seq<int>, last: int, from: int, windowMs: int)
    requires SameFrom(kept, full, from, windowMs)
    ensures SameFrom(kept + [last], full + [last], from, windowMs)
  {
    forall t | t >= from
      ensures InWindow(kept + [last], t, windowMs) == InWindow(full + [last], t, windowMs)
    {
      WindowOfAppended(kept, last, t, windowMs);
      WindowOfAppended(full, last, t, windowMs);
    }
  }
}
