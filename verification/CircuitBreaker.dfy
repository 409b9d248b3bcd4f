/**
 The circuit breaker of one share. The functions are the orchestrator's own updates; the lemmas
 say that, whatever the interleaving of reconciles produced the events, the breaker is a simple
 function of its history.
 */
module CircuitBreaker {

  datatype Breaker = Closed | Open | HalfOpen

  datatype BreakerState = BreakerState(
    breaker: Breaker,
    consecutiveFailures: nat,
    openedAt: int,
    probeUsed: bool)

  const INITIAL := BreakerState(Closed, 0, 0, false)

  /** A cycle asks to start. */
  function Enter(b: BreakerState, now: int, cooldownMs: int): BreakerState {
    if b.breaker.Open? && now - b.openedAt >= cooldownMs then
      b.(breaker := HalfOpen, probeUsed := false)
    else
      b
  }

  predicate MayEnter(b: BreakerState, now: int, cooldownMs: int) {
    !Enter(b, now, cooldownMs).breaker.Open?
  }

  /** One reconcile reaches the gate; `GateLetsThrough` says whether it goes on. */
  function Gate(b: BreakerState): BreakerState {
    if b.breaker.HalfOpen? then b.(probeUsed := true) else b
  }

  predicate GateLetsThrough(b: BreakerState) {
    b.breaker.Closed? || (b.breaker.HalfOpen? && !b.probeUsed)
  }

  function Succeeded(b: BreakerState): BreakerState {
    b.(consecutiveFailures := 0, breaker := Closed)
  }

  function Failed(b: BreakerState, now: int, threshold: int): BreakerState {
    var counted := b.(consecutiveFailures := b.consecutiveFailures + 1);
    if b.breaker.HalfOpen? || counted.consecutiveFailures >= threshold then
      counted.(breaker := Open, openedAt := now)
    else
      counted
  }

  function Resynced(b: BreakerState): BreakerState {
    b.(consecutiveFailures := 0, breaker := Closed)
  }

  // ---------------------------------------------------------------------------
  // History
  // ---------------------------------------------------------------------------

  datatype Event =
    | EnterEvent(now: int)
    | GateEvent
    | SuccessEvent
    | FailureEvent(at: int)
    | ResyncEvent

  function Step(b: BreakerState, e: Event, threshold: int, cooldownMs: int): BreakerState {
    match e
    case EnterEvent(now) => Enter(b, now, cooldownMs)
    case GateEvent => Gate(b)
    case SuccessEvent => Succeeded(b)
    case FailureEvent(at) => Failed(b, at, threshold)
    case ResyncEvent => Resynced(b)
  }

  function After(h: seq<Event>, threshold: int, cooldownMs: int): BreakerState {
    if |h| == 0 then INITIAL
    else Step(After(h[..|h| - 1], threshold, cooldownMs), h[|h| - 1], threshold, cooldownMs)
  }

  /** Failures since the last success or resync. */
  function FailuresSince(h: seq<Event>): nat {
    if |h| == 0 then 0
    else
      var rest := FailuresSince(h[..|h| - 1]);
      match h[|h| - 1]
      case SuccessEvent => 0
      case ResyncEvent => 0
      case FailureEvent(_) => rest + 1
      case _ => rest
  }

  ghost predicate LastFailureIs(h: seq<Event>, f: nat) {
    && f < |h|
    && h[f].FailureEvent?
    && forall k :: f < k < |h| ==> !h[k].FailureEvent?
  }

  /** A cycle started at `k`, long enough after the last failure at `f`. */
  ghost predicate CooledDownAt(h: seq<Event>, f: nat, k: nat, cooldownMs: int) {
    && LastFailureIs(h, f)
    && f < k < |h|
    && h[k].EnterEvent?
    && h[k].now - h[f].at >= cooldownMs
  }

  ghost predicate CooledDown(h: seq<Event>, cooldownMs: int) {
    exists f: nat, k: nat :: CooledDownAt(h, f, k, cooldownMs)
  }

  /** After cooling down, a reconcile already reached the gate. */
  ghost predicate ProbeSpent(h: seq<Event>, cooldownMs: int) {
    exists f: nat, k: nat, g: nat :: CooledDownAt(h, f, k, cooldownMs) && k < g < |h| && h[g].GateEvent?
  }

  ghost function Expected(h: seq<Event>, threshold: int, cooldownMs: int): Breaker {
    if FailuresSince(h) < threshold then Closed
    else if CooledDown(h, cooldownMs) then HalfOpen
    else Open
  }

  /** The breaker, its counter and its probe, read off the history alone. */
  ghost predicate HistoryLaw(h: seq<Event>, threshold: int, cooldownMs: int) {
    var b := After(h, threshold, cooldownMs);
    && b.consecutiveFailures == FailuresSince(h)
    && b.breaker == Expected(h, threshold, cooldownMs)
    && (b.breaker.Open? ==> exists f: nat :: LastFailureIs(h, f) && b.openedAt == h[f].at)
    && (b.breaker.HalfOpen? ==> (b.probeUsed <==> ProbeSpent(h, cooldownMs)))
  }

  lemma {:induction false} HistoryLawHolds(h: seq<Event>, threshold: int, cooldownMs: int)
    requires threshold >= 1
    ensures HistoryLaw(h, threshold, cooldownMs)
  {
    if |h| > 0 {
      var init, e := h[..|h| - 1], h[|h| - 1];
      HistoryLawHolds(init, threshold, cooldownMs);
      assert h == init + [e];
      var b := After(init, threshold, cooldownMs);
      match e {
        case FailureEvent(_) =>
          assert LastFailureIs(h, |h| - 1);
          assert forall f: nat :: LastFailureIs(h, f) ==> f == |h| - 1;
        case SuccessEvent =>
        case ResyncEvent =>
        case EnterEvent(now) => SameLastFailure(init, e);
          if b.breaker.Open? {
            var f: nat :| LastFailureIs(init, f) && b.openedAt == init[f].at;
            assert LastFailureIs(h, f);
            if now - b.openedAt >= cooldownMs { assert CooledDownAt(h, f, |h| - 1, cooldownMs); }
            NewestEnter(init, e, cooldownMs);
          }
          NewestEnter(init, e, cooldownMs);
        case GateEvent => SameLastFailure(init, e);
          NewestEnter(init, e, cooldownMs);
          if b.breaker.HalfOpen? {
            var f: nat, k: nat :| CooledDownAt(init, f, k, cooldownMs);
            assert CooledDownAt(h, f, k, cooldownMs) && k < |h| - 1;
          }
      }
    }
  }

  lemma SameLastFailure(init: seq<Event>, e: Event)
    requires !e.FailureEvent?
    ensures forall f: nat :: LastFailureIs(init + [e], f) <==> LastFailureIs(init, f)
  {
    var h := init + [e];
    forall f: nat ensures LastFailureIs(h, f) <==> LastFailureIs(init, f) {
      assert forall k :: f < k < |init| ==> h[k] == init[k];
      if LastFailureIs(h, f) {
        forall k | f < k < |init| ensures !init[k].FailureEvent? { assert h[k] == init[k]; }
      }
    }
  }

  /** Adding an event other than a failure keeps every earlier fact about cooling down. */
  lemma NewestEnter(init: seq<Event>, e: Event, cooldownMs: int)
    requires !e.FailureEvent?
    ensures forall f: nat, k: nat :: k < |init| ==>
      (CooledDownAt(init + [e], f, k, cooldownMs) <==> CooledDownAt(init, f, k, cooldownMs))
  {
    SameLastFailure(init, e);
  }

  /**
   The published law: closed exactly while fewer than the threshold of failures have happened
   since the last success or resync. A threshold below one breaks it before anything happens.
   */
  lemma ClosedIffFewFailures(threshold: int, cooldownMs: int)
    ensures (forall h: seq<Event> ::
      After(h, threshold, cooldownMs).breaker.Closed? <==> FailuresSince(h) < threshold)
      <==> threshold >= 1
  {
    if threshold >= 1 {
      forall h: seq<Event>
        ensures After(h, threshold, cooldownMs).breaker.Closed? <==> FailuresSince(h) < threshold
      {
        HistoryLawHolds(h, threshold, cooldownMs);
      }
    } else {
      assert After([], threshold, cooldownMs).breaker.Closed?;
      assert FailuresSince([]) == 0;
    }
  }

  /** A cycle may start unless the breaker is open and has not cooled down by then. */
  lemma CycleStartFollowsHistory(h: seq<Event>, now: int, threshold: int, cooldownMs: int)
    requires threshold >= 1
    ensures MayEnter(After(h, threshold, cooldownMs), now, cooldownMs) <==>
      FailuresSince(h) < threshold || CooledDown(h + [EnterEvent(now)], cooldownMs)
  {
    var next := h + [EnterEvent(now)];
    assert next[..|h|] == h;
    HistoryLawHolds(next, threshold, cooldownMs);
  }

  // ---------------------------------------------------------------------------
  // The gate
  // ---------------------------------------------------------------------------

  /** Event `i` is a reconcile that got past the gate. */
  ghost predicate PassedAt(h: seq<Event>, i: nat, threshold: int, cooldownMs: int) {
    && i < |h|
    && h[i].GateEvent?
    && GateLetsThrough(After(h[..i], threshold, cooldownMs))
  }

  ghost predicate HalfOpenThroughout(h: seq<Event>, i: nat, j: nat, threshold: int, cooldownMs: int) {
    i <= j <= |h| && forall k: nat :: i <= k <= j ==> After(h[..k], threshold, cooldownMs).breaker.HalfOpen?
  }

  lemma NobodyPassesAnOpenBreaker(h: seq<Event>, i: nat, threshold: int, cooldownMs: int)
    requires threshold >= 1
    requires PassedAt(h, i, threshold, cooldownMs)
    ensures Expected(h[..i], threshold, cooldownMs) != Open
  {
    HistoryLawHolds(h[..i], threshold, cooldownMs);
  }

  /** Whom the gate lets through, read off the history: everybody while closed, and the first one after cooling down. */
  lemma GateFollowsHistory(h: seq<Event>, threshold: int, cooldownMs: int)
    requires threshold >= 1
    ensures GateLetsThrough(After(h, threshold, cooldownMs)) <==>
      FailuresSince(h) < threshold || (CooledDown(h, cooldownMs) && !ProbeSpent(h, cooldownMs))
  {
    HistoryLawHolds(h, threshold, cooldownMs);
  }

  /** While the breaker stays half-open the probe stays spent. */
  lemma {:induction false} ProbeStaysSpent(h: seq<Event>, i: nat, j: nat, threshold: int, cooldownMs: int)
    requires i < j && HalfOpenThroughout(h, i, j, threshold, cooldownMs)
    requires h[i].GateEvent?
    ensures After(h[..j], threshold, cooldownMs).probeUsed
  {
    assert h[..j][..j - 1] == h[..j - 1];
    assert After(h[..j - 1], threshold, cooldownMs).breaker.HalfOpen?;
    assert After(h[..j], threshold, cooldownMs).breaker.HalfOpen?;
    if i < j - 1 {
      ProbeStaysSpent(h, i, j - 1, threshold, cooldownMs);
    }
  }

  /** One half-open episode lets at most one reconcile through. */
  lemma OneProbePerEpisode(h: seq<Event>, i: nat, j: nat, threshold: int, cooldownMs: int)
    requires PassedAt(h, i, threshold, cooldownMs) && PassedAt(h, j, threshold, cooldownMs)
    requires i <= j && HalfOpenThroughout(h, i, j, threshold, cooldownMs)
    ensures i == j
  {
    if i < j {
      ProbeStaysSpent(h, i, j, threshold, cooldownMs);
    }
  }
}
