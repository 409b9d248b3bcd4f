/** Failover to read-only: one controller's four latched reasons, each against the history of its own inputs. */
module Failover {
  import opened Wrappers

  datatype Reason = ServerUnreachable | DiskFull | SyncError | Manual

  datatype FailoverState = Healthy | Degraded | ReadOnly

  datatype Limits = Limits(serverGraceS: int, diskFullPct: real, recoveryStabilityS: int)

  datatype Health = Health(serverReachable: bool, diskUsedPct: real, syncHealthy: bool)

  /** One call of the controller. */
  datatype Event = Observe(at: int, health: Health) | Hold(at: int) | Resume(at: int) | Reset(at: int)

  // -- What each reason is told -----------------------------------------------

  datatype LinkSignal = Up(at: int) | Down(at: int) | LinkReset(at: int)
  datatype DiskSignal = Usage(pct: real) | DiskReset
  datatype SyncSignal = Synced(healthy: bool) | SyncReset
  datatype HoldSignal = Held | Lifted

  function LinkOf(event: Event): seq<LinkSignal> {
    match event
    case Observe(at, health) => [if health.serverReachable then Up(at) else Down(at)]
    case Reset(at) => [LinkReset(at)]
    case _ => []
  }

  function DiskOf(event: Event): seq<DiskSignal> {
    match event
    case Observe(_, health) => [Usage(health.diskUsedPct)]
    case Reset(_) => [DiskReset]
    case _ => []
  }

  function SyncOf(event: Event): seq<SyncSignal> {
    match event
    case Observe(_, health) => [Synced(health.syncHealthy)]
    case Reset(_) => [SyncReset]
    case _ => []
  }

  function HoldOf(event: Event): seq<HoldSignal> {
    match event
    case Hold(_) => [Held]
    case Resume(_) => [Lifted]
    case Reset(_) => [Lifted]
    case Observe(_, _) => []
  }

  function Told<S>(events: seq<Event>, part: Event -> seq<S>): seq<S> {
    if |events| == 0 then [] else Told(events[..|events| - 1], part) + part(events[|events| - 1])
  }

  // -- The server link --------------------------------------------------------

  datatype Link = Link(downSince: Option<int>, healthySince: Option<int>, latched: bool)

  function Since(earlier: Option<int>, now: int): int {
    if earlier.Some? then earlier.value else now
  }

  function LinkStep(link: Link, signal: LinkSignal, limits: Limits): Link {
    match signal
    case Up(now) =>
      var since := Since(link.healthySince, now);
      Link(None, Some(since), link.latched && now - since < limits.recoveryStabilityS)
    case Down(now) =>
      var since := Since(link.downSince, now);
      Link(Some(since), None, link.latched || now - since >= limits.serverGraceS)
    case LinkReset(now) => Link(None, Some(now), false)
  }

  function LinkAfter(signals: seq<LinkSignal>, limits: Limits): Link {
    if |signals| == 0 then Link(None, None, false)
    else LinkStep(LinkAfter(signals[..|signals| - 1], limits), signals[|signals| - 1], limits)
  }

  /** The link has been down from the signal at `n` to the last one, and was not down before it. */
  ghost predicate OutageFrom(signals: seq<LinkSignal>, n: int) {
    && 0 <= n < |signals|
    && (forall k :: n <= k < |signals| ==> signals[k].Down?)
    && (n > 0 ==> !signals[n - 1].Down?)
  }

  /** The outage that latches was unbroken, and began at least a grace period before. */
  lemma {:induction false} DownSinceIsUnbroken(signals: seq<LinkSignal>, limits: Limits)
    ensures
      var link := LinkAfter(signals, limits);
      && (link.downSince.Some? <==> |signals| > 0 && signals[|signals| - 1].Down?)
      && (link.downSince.Some? ==> exists n :: OutageFrom(signals, n) && signals[n].at == link.downSince.value)
  {
    if |signals| > 0 && signals[|signals| - 1].Down? {
      var init := signals[..|signals| - 1];
      DownSinceIsUnbroken(init, limits);
      if LinkAfter(init, limits).downSince.Some? {
        var n :| OutageFrom(init, n) && init[n].at == LinkAfter(init, limits).downSince.value;
        assert OutageFrom(signals, n);
      } else {
        assert OutageFrom(signals, |signals| - 1);
      }
    }
  }

  /** The link has been healthy since the signal at `m`: its first success after an outage or at the start, or a reset. */
  ghost predicate HealthyFrom(signals: seq<LinkSignal>, m: int) {
    && 0 <= m < |signals|
    && !signals[m].Down? && (forall k :: m < k < |signals| ==> signals[k].Up?)
    && (signals[m].Up? && m > 0 ==> signals[m - 1].Down?)
  }

  lemma {:induction false} HealthySinceIsUnbroken(signals: seq<LinkSignal>, limits: Limits)
    ensures
      var link := LinkAfter(signals, limits);
      && (link.healthySince.Some? <==> |signals| > 0 && !signals[|signals| - 1].Down?)
      && (link.healthySince.Some? ==> exists m :: HealthyFrom(signals, m) && signals[m].at == link.healthySince.value)
  {
    if |signals| > 0 && !signals[|signals| - 1].Down? {
      var init, last := signals[..|signals| - 1], signals[|signals| - 1];
      HealthySinceIsUnbroken(init, limits);
      if last.Up? && LinkAfter(init, limits).healthySince.Some? {
        var m :| HealthyFrom(init, m) && init[m].at == LinkAfter(init, limits).healthySince.value;
        assert HealthyFrom(signals, m);
      } else {
        assert HealthyFrom(signals, |signals| - 1);
      }
    }
  }

  /** The last signal finds the link down for a whole grace period. */
  ghost predicate OutageTooLong(signals: seq<LinkSignal>, limits: Limits) {
    exists n :: OutageFrom(signals, n) && signals[|signals| - 1].at - signals[n].at >= limits.serverGraceS
  }

  /** The last signal resets, or finds the link healthy for a whole stability period. */
  ghost predicate Recovered(signals: seq<LinkSignal>, limits: Limits) {
    |signals| > 0 &&
    (|| signals[|signals| - 1].LinkReset?
     || (signals[|signals| - 1].Up? &&
         exists m :: HealthyFrom(signals, m) && signals[|signals| - 1].at - signals[m].at >= limits.recoveryStabilityS))
  }

  lemma OutageJudged(signals: seq<LinkSignal>, limits: Limits)
    requires |signals| > 0 && signals[|signals| - 1].Down?
    ensures OutageTooLong(signals, limits) <==>
      signals[|signals| - 1].at - LinkAfter(signals, limits).downSince.value >= limits.serverGraceS
    ensures !Recovered(signals, limits)
  {
    DownSinceIsUnbroken(signals, limits);
    var n :| OutageFrom(signals, n) && signals[n].at == LinkAfter(signals, limits).downSince.value;
    assert forall n' :: OutageFrom(signals, n') ==> n' == n;
  }

  lemma HealthyFromIsOne(signals: seq<LinkSignal>, m: int, m': int)
    requires HealthyFrom(signals, m) && HealthyFrom(signals, m')
    ensures m == m'
  {
  }

  lemma RecoveryJudged(signals: seq<LinkSignal>, limits: Limits)
    requires |signals| > 0 && signals[|signals| - 1].Up?
    ensures Recovered(signals, limits) <==>
      signals[|signals| - 1].at - LinkAfter(signals, limits).healthySince.value >= limits.recoveryStabilityS
    ensures !OutageTooLong(signals, limits)
  {
    HealthySinceIsUnbroken(signals, limits);
    var m :| HealthyFrom(signals, m) && signals[m].at == LinkAfter(signals, limits).healthySince.value;
    forall m' | HealthyFrom(signals, m')
      ensures m' == m
    {
      HealthyFromIsOne(signals, m, m');
    }
  }

  /** Something switched on, and nothing after it switched off. */
  ghost predicate Lasting(on: seq<bool>, off: seq<bool>)
    requires |on| == |off|
  {
    exists i :: 0 <= i < |on| && on[i] && forall k :: i < k < |on| ==> !off[k]
  }

  lemma LastingOneMore(on: seq<bool>, off: seq<bool>, a: bool, b: bool)
    requires |on| == |off|
    ensures Lasting(on + [a], off + [b]) <==> a || (Lasting(on, off) && !b)
  {
    var on', off' := on + [a], off + [b];
    if a {
      assert on'[|on|];
    }
    if Lasting(on, off) && !b {
      var i :| 0 <= i < |on| && on[i] && forall k :: i < k < |on| ==> !off[k];
      assert on'[i];
    }
    if Lasting(on', off') && !a {
      var i :| 0 <= i < |on'| && on'[i] && forall k :: i < k < |on'| ==> !off'[k];
      assert on[i] && !off'[|off|];
      assert forall k :: i < k < |on| ==> off[k] == off'[k];
    }
  }

  /** After each signal, whether it found an outage too long. */
  ghost function Outages(signals: seq<LinkSignal>, limits: Limits): (r: seq<bool>)
    ensures |r| == |signals|
  {
    if |signals| == 0 then [] else Outages(signals[..|signals| - 1], limits) + [OutageTooLong(signals, limits)]
  }

  /** After each signal, whether it was a recovery. */
  ghost function Recoveries(signals: seq<LinkSignal>, limits: Limits): (r: seq<bool>)
    ensures |r| == |signals|
  {
    if |signals| == 0 then [] else Recoveries(signals[..|signals| - 1], limits) + [Recovered(signals, limits)]
  }

  /**
   The server counts as unreachable exactly when some outage outlasted the grace period and the link has
   not since been healthy for a whole stability period, nor been reset.
   */
  lemma {:induction false} ServerHysteresis(signals: seq<LinkSignal>, limits: Limits)
    ensures LinkAfter(signals, limits).latched <==> Lasting(Outages(signals, limits), Recoveries(signals, limits))
  {
    if |signals| > 0 {
      var init := signals[..|signals| - 1];
      ServerHysteresis(init, limits);
      LastingOneMore(Outages(init, limits), Recoveries(init, limits), OutageTooLong(signals, limits), Recovered(signals, limits));
      match signals[|signals| - 1]
      case Down(_) => OutageJudged(signals, limits);
      case Up(_) => RecoveryJudged(signals, limits);
      case LinkReset(_) =>
        assert Recovered(signals, limits) && forall n :: !OutageFrom(signals, n);
    }
  }

  // -- The other reasons ------------------------------------------------------

  function DiskStep(latched: bool, signal: DiskSignal, limits: Limits): bool {
    match signal
    case Usage(pct) =>
      if pct >= limits.diskFullPct then true
      else if pct < limits.diskFullPct - 5.0 then false
      else latched
    case DiskReset => false
  }

  function DiskAfter(signals: seq<DiskSignal>, limits: Limits): bool {
    if |signals| == 0 then false
    else DiskStep(DiskAfter(signals[..|signals| - 1], limits), signals[|signals| - 1], limits)
  }

  predicate Fills(signal: DiskSignal, limits: Limits) {
    signal.Usage? && signal.pct >= limits.diskFullPct
  }

  predicate Empties(signal: DiskSignal, limits: Limits) {
    signal.DiskReset? || signal.pct < limits.diskFullPct - 5.0
  }

  function Fillings(signals: seq<DiskSignal>, limits: Limits): (r: seq<bool>)
    ensures |r| == |signals| && forall i :: 0 <= i < |r| ==> r[i] == Fills(signals[i], limits)
  {
    seq(|signals|, i requires 0 <= i < |signals| => Fills(signals[i], limits))
  }

  function Emptyings(signals: seq<DiskSignal>, limits: Limits): (r: seq<bool>)
    ensures |r| == |signals| && forall i :: 0 <= i < |r| ==> r[i] == Empties(signals[i], limits)
  {
    seq(|signals|, i requires 0 <= i < |signals| => Empties(signals[i], limits))
  }

  /** Five points of hysteresis: the disk is full iff it filled up and has not since been seen well below the limit. */
  lemma {:induction false} DiskHysteresis(signals: seq<DiskSignal>, limits: Limits)
    ensures DiskAfter(signals, limits) <==> Lasting(Fillings(signals, limits), Emptyings(signals, limits))
  {
    if |signals| > 0 {
      var init, last := signals[..|signals| - 1], signals[|signals| - 1];
      DiskHysteresis(init, limits);
      assert Fillings(signals, limits) == Fillings(init, limits) + [Fills(last, limits)];
      assert Emptyings(signals, limits) == Emptyings(init, limits) + [Empties(last, limits)];
      LastingOneMore(Fillings(init, limits), Emptyings(init, limits), Fills(last, limits), Empties(last, limits));
    }
  }

  /** The engine's own verdict, as last heard. */
  function SyncFailing(signals: seq<SyncSignal>): bool {
    |signals| > 0 && signals[|signals| - 1] == Synced(false)
  }

  function OnHold(signals: seq<HoldSignal>): bool {
    |signals| > 0 && signals[|signals| - 1] == Held
  }

  // -- All four ---------------------------------------------------------------

  function ReasonSet(link: bool, disk: bool, sync: bool, manual: bool): (r: set<Reason>)
    ensures ServerUnreachable in r <==> link
    ensures DiskFull in r <==> disk
    ensures SyncError in r <==> sync
    ensures Manual in r <==> manual
  {
    (if link then {ServerUnreachable} else {}) + (if disk then {DiskFull} else {})
    + (if sync then {SyncError} else {}) + (if manual then {Manual} else {})
  }

  function StateOf(reasons: set<Reason>, downSince: Option<int>): FailoverState {
    if reasons != {} then ReadOnly else if downSince.Some? then Degraded else Healthy
  }

  /** The controller's fields. */
  datatype Fields = Fields(reasons: set<Reason>, downSince: Option<int>, healthySince: Option<int>, manualHold: bool, changedAt: int)

  function Changed(before: Fields, reasons: set<Reason>, now: int): int {
    if reasons != before.reasons then now else before.changedAt
  }

  /** What an observation makes of the fields. */
  function Observed(fields: Fields, health: Health, now: int, limits: Limits): Fields {
    var link := LinkStep(Link(fields.downSince, fields.healthySince, ServerUnreachable in fields.reasons),
                         if health.serverReachable then Up(now) else Down(now), limits);
    var reasons := ReasonSet(link.latched, DiskStep(DiskFull in fields.reasons, Usage(health.diskUsedPct), limits),
                             !health.syncHealthy, fields.manualHold);
    Fields(reasons, link.downSince, link.healthySince, fields.manualHold, Changed(fields, reasons, now))
  }

  function Step(fields: Fields, event: Event, limits: Limits): Fields {
    match event
    case Observe(now, health) => Observed(fields, health, now, limits)
    case Hold(now) =>
      var reasons := fields.reasons + {Manual};
      fields.(reasons := reasons, manualHold := true, changedAt := Changed(fields, reasons, now))
    case Resume(now) =>
      var reasons := fields.reasons - {Manual};
      fields.(reasons := reasons, manualHold := false, changedAt := Changed(fields, reasons, now))
    case Reset(now) => Fields({}, None, Some(now), false, Changed(fields, {}, now))
  }

  /** The fields after a history of calls. */
  function After(events: seq<Event>, created: int, limits: Limits): Fields {
    if |events| == 0 then Fields({}, None, None, false, created)
    else Step(After(events[..|events| - 1], created, limits), events[|events| - 1], limits)
  }

  lemma AfterOneMore(events: seq<Event>, event: Event, created: int, limits: Limits)
    ensures After(events + [event], created, limits) == Step(After(events, created, limits), event, limits)
  {
    assert (events + [event])[..|events|] == events;
  }

  lemma LinkStepIs(signals: seq<LinkSignal>, signal: LinkSignal, limits: Limits)
    ensures LinkAfter(signals + [signal], limits) == LinkStep(LinkAfter(signals, limits), signal, limits)
    ensures LinkAfter(signals + [], limits) == LinkAfter(signals, limits)
  {
    assert (signals + [signal])[..|signals|] == signals;
    assert signals + [] == signals;
  }

  lemma DiskStepIs(signals: seq<DiskSignal>, signal: DiskSignal, limits: Limits)
    ensures DiskAfter(signals + [signal], limits) == DiskStep(DiskAfter(signals, limits), signal, limits)
    ensures DiskAfter(signals + [], limits) == DiskAfter(signals, limits)
  {
    assert (signals + [signal])[..|signals|] == signals;
    assert signals + [] == signals;
  }

  /** The link's part of the fields depends on the link's signals alone. */
  lemma {:induction false} LinkIsItsOwn(events: seq<Event>, created: int, limits: Limits)
    ensures
      var fields, link := After(events, created, limits), LinkAfter(Told(events, LinkOf), limits);
      && fields.downSince == link.downSince && fields.healthySince == link.healthySince
      && (ServerUnreachable in fields.reasons <==> link.latched)
  {
    if |events| > 0 {
      var init, last := events[..|events| - 1], events[|events| - 1];
      LinkIsItsOwn(init, created, limits);
      var told := Told(init, LinkOf);
      match last
      case Observe(now, health) =>
        LinkStepIs(told, if health.serverReachable then Up(now) else Down(now), limits);
      case Reset(now) => LinkStepIs(told, LinkReset(now), limits);
      case _ => LinkStepIs(told, LinkReset(0), limits);
    }
  }

  lemma {:induction false} DiskIsItsOwn(events: seq<Event>, created: int, limits: Limits)
    ensures DiskFull in After(events, created, limits).reasons <==> DiskAfter(Told(events, DiskOf), limits)
  {
    if |events| > 0 {
      var init, last := events[..|events| - 1], events[|events| - 1];
      DiskIsItsOwn(init, created, limits);
      var signals := DiskOf(last);
      DiskStepIs(Told(init, DiskOf), if |signals| > 0 then signals[0] else DiskReset, limits);
    }
  }

  lemma {:induction false} SyncIsItsOwn(events: seq<Event>, created: int, limits: Limits)
    ensures SyncError in After(events, created, limits).reasons <==> SyncFailing(Told(events, SyncOf))
  {
    if |events| > 0 {
      SyncIsItsOwn(events[..|events| - 1], created, limits);
      assert SyncOf(events[|events| - 1]) == [] ==> Told(events, SyncOf) == Told(events[..|events| - 1], SyncOf);
    }
  }

  lemma {:induction false} HoldIsItsOwn(events: seq<Event>, created: int, limits: Limits)
    ensures
      var fields := After(events, created, limits);
      && (Manual in fields.reasons <==> OnHold(Told(events, HoldOf)))
      && (fields.manualHold <==> OnHold(Told(events, HoldOf)))
  {
    if |events| > 0 {
      HoldIsItsOwn(events[..|events| - 1], created, limits);
      assert HoldOf(events[|events| - 1]) == [] ==> Told(events, HoldOf) == Told(events[..|events| - 1], HoldOf);
    }
  }

  /** The reasons after any history: each is judged on its own signals, whatever the others were told. */
  lemma ReasonsAreIndependent(events: seq<Event>, created: int, limits: Limits)
    ensures After(events, created, limits).reasons
         == ReasonSet(LinkAfter(Told(events, LinkOf), limits).latched, DiskAfter(Told(events, DiskOf), limits),
                      SyncFailing(Told(events, SyncOf)), OnHold(Told(events, HoldOf)))
  {
    LinkIsItsOwn(events, created, limits);
    DiskIsItsOwn(events, created, limits);
    SyncIsItsOwn(events, created, limits);
    HoldIsItsOwn(events, created, limits);
    AnyReasonSet(After(events, created, limits).reasons);
  }

  // -- The state shown ---

  /** The last call that said anything about the link said it is down. */
  ghost predicate LastHeardDown(events: seq<Event>, k: int) {
    && 0 <= k < |events| && events[k].Observe? && !events[k].health.serverReachable
    && forall m :: k < m < |events| ==> events[m].Hold? || events[m].Resume?
  }

  lemma {:induction false} DownIsLastHeard(events: seq<Event>, created: int, limits: Limits)
    ensures After(events, created, limits).downSince.Some? <==> exists k :: LastHeardDown(events, k)
  {
    if |events| > 0 {
      var init, last := events[..|events| - 1], events[|events| - 1];
      DownIsLastHeard(init, created, limits);
      if k :| LastHeardDown(init, k) {
        assert last.Hold? || last.Resume? ==> LastHeardDown(events, k);
      }
      if k :| LastHeardDown(events, k) {
        assert k < |init| ==> LastHeardDown(init, k);
      }
      if last.Observe? && !last.health.serverReachable {
        assert LastHeardDown(events, |events| - 1);
      }
    }
  }

  /** Read-only for any reason; short of that degraded exactly while the link was last heard to be down. */
  lemma StateMeans(events: seq<Event>, created: int, limits: Limits)
    ensures
      var fields := After(events, created, limits);
      var state := StateOf(fields.reasons, fields.downSince);
      && (state == ReadOnly <==> ServerUnreachable in fields.reasons || DiskFull in fields.reasons
                                 || SyncError in fields.reasons || Manual in fields.reasons)
      && (state == Degraded <==> state != ReadOnly && exists k :: LastHeardDown(events, k))
      && (state == Healthy <==> state != ReadOnly && !exists k :: LastHeardDown(events, k))
  {
    DownIsLastHeard(events, created, limits);
    AnyReasonSet(After(events, created, limits).reasons);
  }

  // -- Hysteresis -------------------------------------------------------------

  ghost predicate ClockMonotone(events: seq<Event>) {
    forall i, j :: 0 <= i < j < |events| ==> events[i].at <= events[j].at
  }

  ghost predicate NeverReset(events: seq<Event>) {
    forall n :: 0 <= n < |events| ==> !events[n].Reset?
  }

  /** The call at `i` turns `server_unreachable` on. */
  predicate LatchesAt(events: seq<Event>, i: nat, created: int, limits: Limits)
    requires i < |events|
  {
    && ServerUnreachable !in After(events[..i], created, limits).reasons
    && ServerUnreachable in After(events[..i + 1], created, limits).reasons
  }

  lemma AfterPrefix(events: seq<Event>, k: nat, created: int, limits: Limits)
    requires k < |events|
    ensures After(events[..k + 1], created, limits) == Step(After(events[..k], created, limits), events[k], limits)
  {
    assert events[..k + 1][..k] == events[..k];
  }

  /** Since a latching, writes resume only once the link was stable, and a new outage starts counting only then. */
  ghost predicate Settling(fields: Fields, last: int, latching: int, limits: Limits) {
    var stable := latching + limits.recoveryStabilityS;
    && (fields.healthySince.Some? ==> fields.healthySince.value >= latching)
    && (ServerUnreachable !in fields.reasons ==> last >= stable)
    && (ServerUnreachable !in fields.reasons && fields.downSince.Some? ==> fields.downSince.value >= stable)
  }

  lemma LatchingSettles(fields: Fields, event: Event, limits: Limits)
    requires ServerUnreachable !in fields.reasons && ServerUnreachable in Step(fields, event, limits).reasons
    ensures Settling(Step(fields, event, limits), event.at, event.at, limits)
    ensures fields.downSince.Some? ==> event.at >= fields.downSince.value + limits.serverGraceS
    ensures fields.downSince.None? ==> 0 >= limits.serverGraceS
  {
  }

  lemma SettlingStep(fields: Fields, event: Event, last: int, latching: int, limits: Limits)
    requires Settling(fields, last, latching, limits) && last <= event.at && latching <= last && !event.Reset?
    ensures Settling(Step(fields, event, limits), event.at, latching, limits)
  {
  }

  lemma {:induction false} SinceLatching(events: seq<Event>, i: nat, k: nat, created: int, limits: Limits)
    requires i < k <= |events| && ClockMonotone(events) && NeverReset(events) && LatchesAt(events, i, created, limits)
    ensures Settling(After(events[..k], created, limits), events[k - 1].at, events[i].at, limits)
  {
    AfterPrefix(events, k - 1, created, limits);
    if i < k - 1 {
      SinceLatching(events, i, k - 1, created, limits);
      SettlingStep(After(events[..k - 1], created, limits), events[k - 1], events[k - 2].at, events[i].at, limits);
    } else {
      LatchingSettles(After(events[..i], created, limits), events[i], limits);
    }
  }

  /** Two latchings without a reset between them are a grace and a stability period apart. */
  lemma LatchingsAreApart(events: seq<Event>, i: nat, j: nat, created: int, limits: Limits)
    requires i < j < |events| && ClockMonotone(events) && NeverReset(events)
    requires LatchesAt(events, i, created, limits) && LatchesAt(events, j, created, limits)
    ensures events[j].at - events[i].at >= limits.serverGraceS + limits.recoveryStabilityS
  {
    SinceLatching(events, i, j, created, limits);
    AfterPrefix(events, j, created, limits);
    LatchingSettles(After(events[..j], created, limits), events[j], limits);
  }

  /** The reasons after each call, the start included. */
  function ReasonsAt(events: seq<Event>, k: nat, created: int, limits: Limits): set<Reason>
    requires k <= |events|
  {
    After(events[..k], created, limits).reasons
  }

  /** `changedAt` is when the reasons last changed: at the last such call, or at the start. */
  lemma {:induction false} ChangedAtIsLastChange(events: seq<Event>, j: nat, created: int, limits: Limits) returns (n: nat)
    requires j <= |events|
    ensures n <= j
    ensures After(events[..j], created, limits).changedAt == if n == 0 then created else events[n - 1].at
    ensures n > 0 ==> ReasonsAt(events, n, created, limits) != ReasonsAt(events, n - 1, created, limits)
    ensures forall k :: n <= k <= j ==> ReasonsAt(events, k, created, limits) == ReasonsAt(events, j, created, limits)
  {
    n := 0;
    if j > 0 {
      AfterPrefix(events, j - 1, created, limits);
      if ReasonsAt(events, j, created, limits) != ReasonsAt(events, j - 1, created, limits) {
        n := j;
      } else {
        n := ChangedAtIsLastChange(events, j - 1, created, limits);
      }
    }
  }

  /** What one observation can and must do to the reasons. */
  predicate Follows(before: set<Reason>, after: set<Reason>, health: Health, limits: Limits) {
    && (SyncError in after <==> !health.syncHealthy)
    && (health.diskUsedPct >= limits.diskFullPct ==> DiskFull in after)
    && (health.serverReachable && ServerUnreachable in after ==> ServerUnreachable in before)
    && (!health.serverReachable && ServerUnreachable in before ==> ServerUnreachable in after)
  }

  class FailoverController {
    const limits: Limits
    ghost const created: int
    /** Which share asks; it tells one controller from another. */
    ghost const share: nat
    var reasons: set<Reason>
    var serverDownSince: Option<int>
    var healthySince: Option<int>
    var changedAt: int
    var manualHold: bool
    ghost var events: seq<Event>

    ghost function Now(): Fields
      reads this
    {
      Fields(reasons, serverDownSince, healthySince, manualHold, changedAt)
    }

    ghost predicate Valid()
      reads this
    {
      Now() == After(events, created, limits)
    }

    constructor (limits: Limits, now: int, ghost share: nat)
      ensures Valid() && events == [] && reasons == {} && this.limits == limits && created == now && this.share == share
    {
      this.limits, created, this.share := limits, now, share;
      reasons, serverDownSince, healthySince, changedAt, manualHold, events := {}, None, None, now, false, [];
    }

    method NoteChange(before: set<Reason>, now: int) returns (changed: bool)
      modifies `changedAt
      ensures changed == (reasons != before) && changedAt == if changed then now else old(changedAt)
    {
      changed := reasons != before;
      if changed {
        changedAt := now;
      }
    }

    method ObserveLink(reachable: bool, now: int)
      modifies `serverDownSince, `healthySince, `reasons
      ensures
        var link := LinkStep(Link(old(serverDownSince), old(healthySince), ServerUnreachable in old(reasons)),
                             if reachable then Up(now) else Down(now), limits);
        && serverDownSince == link.downSince && healthySince == link.healthySince
        && reasons == ReasonSet(link.latched, DiskFull in old(reasons), SyncError in old(reasons), Manual in old(reasons))
    {
      if reachable {
        serverDownSince := None;
        if healthySince.None? {
          healthySince := Some(now);
        }
        if now - healthySince.value >= limits.recoveryStabilityS {
          reasons := reasons - {ServerUnreachable};
        }
      } else {
        healthySince := None;
        if serverDownSince.None? {
          serverDownSince := Some(now);
        }
        if now - serverDownSince.value >= limits.serverGraceS {
          reasons := reasons + {ServerUnreachable};
        }
      }
      AnyReasonSet(reasons);
      AnyReasonSet(old(reasons));
    }

    method ObserveRest(diskUsedPct: real, syncHealthy: bool)
      modifies `reasons
      ensures reasons == ReasonSet(ServerUnreachable in old(reasons),
                                   DiskStep(DiskFull in old(reasons), Usage(diskUsedPct), limits), !syncHealthy, manualHold)
    {
      if diskUsedPct >= limits.diskFullPct {
        reasons := reasons + {DiskFull};
      } else if diskUsedPct < limits.diskFullPct - 5.0 {
        reasons := reasons - {DiskFull};
      }
      reasons := if syncHealthy then reasons - {SyncError} else reasons + {SyncError};
      reasons := if manualHold then reasons + {Manual} else reasons - {Manual};
      AnyReasonSet(reasons);
    }

    method Observe(health: Health, now: int) returns (state: FailoverState, changed: bool)
      requires Valid()
      modifies this
      ensures Valid() && events == old(events) + [Event.Observe(now, health)]
      ensures state == StateOf(reasons, serverDownSince) && changed == (reasons != old(reasons))
      ensures Follows(old(reasons), reasons, health, limits)
    {
      AfterOneMore(events, Event.Observe(now, health), created, limits);
      var before := reasons;
      ObserveLink(health.serverReachable, now);
      ObserveRest(health.diskUsedPct, health.syncHealthy);
      changed := NoteChange(before, now);
      events := events + [Event.Observe(now, health)];
      state := StateOf(reasons, serverDownSince);
    }

    method HoldWrites(now: int) returns (state: FailoverState, changed: bool)
      requires Valid()
      modifies this
      ensures Valid() && events == old(events) + [Hold(now)] && reasons == old(reasons) + {Manual}
      ensures state == ReadOnly && changed == (reasons != old(reasons))
    {
      AfterOneMore(events, Hold(now), created, limits);
      var before := reasons;
      manualHold := true;
      reasons := reasons + {Manual};
      changed := NoteChange(before, now);
      events := events + [Hold(now)];
      state := StateOf(reasons, serverDownSince);
    }

    /** Lifts a hold; every automatic reason stays. */
    method ResumeWrites(now: int) returns (state: FailoverState, changed: bool)
      requires Valid()
      modifies this
      ensures Valid() && events == old(events) + [Resume(now)] && reasons == old(reasons) - {Manual}
      ensures state == StateOf(reasons, serverDownSince) && changed == (reasons != old(reasons))
    {
      AfterOneMore(events, Resume(now), created, limits);
      var before := reasons;
      manualHold := false;
      reasons := reasons - {Manual};
      changed := NoteChange(before, now);
      events := events + [Resume(now)];
      state := StateOf(reasons, serverDownSince);
    }

    method ResetAll(now: int) returns (state: FailoverState, changed: bool)
      requires Valid()
      modifies this
      ensures Valid() && events == old(events) + [Reset(now)] && reasons == {} && state == Healthy
      ensures changed == (reasons != old(reasons))
    {
      AfterOneMore(events, Reset(now), created, limits);
      var before := reasons;
      reasons, manualHold := {}, false;
      serverDownSince, healthySince := None, Some(now);
      changed := NoteChange(before, now);
      events := events + [Reset(now)];
      state := StateOf(reasons, serverDownSince);
    }
  }

  lemma AnyReasonSet(reasons: set<Reason>)
    ensures reasons == ReasonSet(ServerUnreachable in reasons, DiskFull in reasons, SyncError in reasons, Manual in reasons)
  {
    var same := ReasonSet(ServerUnreachable in reasons, DiskFull in reasons, SyncError in reasons, Manual in reasons);
    forall r: Reason
      ensures r in reasons <==> r in same
    {
      match r
      case ServerUnreachable =>
      case DiskFull =>
      case SyncError =>
      case Manual =>
    }
  }
}
