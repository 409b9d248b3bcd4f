/**
 The sync orchestrator. A reconcile is a coroutine: the code between two awaits is one segment,
 and a path's `Phase` says which await it is suspended at. The functions give each segment's
 effect on one path; class `SyncOrchestrator` holds the durable store, the breaker and the
 quarantine set that all reconciles share, and its methods are proved to be those segments.
 */
module Orchestrator {
  import opened Wrappers
  import opened DiffEngine
  import opened CircuitBreaker

  type Path = string

  /** The durable record of one path. `base` is what both sides were last known to agree on. */
  datatype FileRecord = FileRecord(base: Side, retryCount: nat, nextRetryAt: Option<int>)

  function BaseOf(record: Option<FileRecord>): Side {
    if record.None? then None else record.value.base
  }

  function RetriesOf(record: Option<FileRecord>): nat {
    if record.None? then 0 else record.value.retryCount
  }

  function RetryDelay(retryCount: nat, delays: seq<int>): int {
    var i := Min(retryCount - 1, |delays| - 1);
    if 0 <= i then delays[i] else 0
  }

  /** The delay after a failure, by the number of failures before it: each has its own, and from the last on it stays. */
  function BackoffAfter(failures: nat, delays: seq<int>): int {
    if delays == [] then 0 else if failures < |delays| then delays[failures] else delays[|delays| - 1]
  }

  lemma RetryDelayIsBackoff(failures: nat, delays: seq<int>)
    ensures RetryDelay(failures + 1, delays) == BackoffAfter(failures, delays)
  {
  }

  /** Delays that never shrink in the configuration never shrink from one failure to the next. */
  lemma BackoffNeverShrinks(a: nat, b: nat, delays: seq<int>)
    requires a <= b && forall i, j :: 0 <= i <= j < |delays| ==> delays[i] <= delays[j]
    ensures RetryDelay(a + 1, delays) <= RetryDelay(b + 1, delays)
    ensures |delays| > 0 ==> RetryDelay(a + 1, delays) in delays
  {
  }

  /** A path waits out its backoff, measured against the time the cycle started. */
  predicate Due(record: Option<FileRecord>, cycleNow: int) {
    record.Some? && record.value.nextRetryAt.Some? ==> record.value.nextRetryAt.value <= cycleNow
  }

  // ---------------------------------------------------------------------------
  // What is written to the store
  // ---------------------------------------------------------------------------

  /** Committed after the transfer: the surviving side becomes the base; a deletion leaves no record. */
  function SyncedRecord(action: Action, local: Side, remote: Side): Option<FileRecord> {
    if action.DeleteLocal? || action.DeleteRemote? then
      None
    else
      var survivor := if action.Pull? then remote else if action.Push? then local
                      else if local.Some? then local else remote;
      Some(FileRecord(survivor, 0, None))
  }

  /** A verdict that needs no transfer keeps the base and the retry count. */
  function InertRecord(record: Option<FileRecord>): FileRecord {
    FileRecord(BaseOf(record), RetriesOf(record), None)
  }

  function FailedRecord(record: Option<FileRecord>, at: int, delays: seq<int>): FileRecord {
    var retryCount := RetriesOf(record) + 1;
    FileRecord(BaseOf(record), retryCount, Some(at + RetryDelay(retryCount, delays)))
  }

  // ---------------------------------------------------------------------------
  // One path
  // ---------------------------------------------------------------------------

  /** Where a path's reconcile is suspended. The record is the one read when it began. */
  datatype Phase =
    | Idle
    | Queued
    | Statting(record: Option<FileRecord>)
    | Capturing(record: Option<FileRecord>, verdict: Verdict, local: Side, remote: Side)
    | Transferring(record: Option<FileRecord>, verdict: Verdict, local: Side, remote: Side)

  /** The two sides, the version store and the bridge's own knowledge of one path. */
  datatype PathState = PathState(
    local: Side,
    remote: Side,
    versions: set<FileSide>,
    record: Option<FileRecord>,
    quarantined: bool,
    phase: Phase)

  /**
   How an awaited port call ends. A failed call may or may not have had its effect (`stored`,
   `landed`); `tripped` is the echo guard quarantining the path as the sync is recorded.
   */
  datatype Port =
    | StatAnswered(readable: bool, config: DiffConfig)
    | StatFailed(at: int)
    | CaptureAnswered
    | CaptureFailed(at: int, stored: bool)
    | TransferAnswered(tripped: bool)
    | TransferFailed(at: int, landed: bool)

  /** What a segment tells the breaker. */
  datatype Signal = Quiet | Success | Failure(at: int)

  /** The sides are read truthfully, except that an offline server may read as empty. */
  function RemoteView(remote: Side, online: bool, readable: bool): Side {
    if online || readable then remote else None
  }

  function EffectiveConfig(config: DiffConfig, online: bool): DiffConfig {
    config.(serverOffline := config.serverOffline || !online)
  }

  function VictimOf(verdict: Verdict, local: Side, remote: Side): Side {
    match verdict.capture
    case Some(LocalSide) => local
    case Some(RemoteSide) => remote
    case None => None
  }

  function Stored(versions: set<FileSide>, victim: Side): set<FileSide> {
    if victim.Some? then versions + {victim.value} else versions
  }

  function Landed(ps: PathState): PathState
    requires ps.phase.Transferring?
  {
    var action := ps.phase.verdict.action;
    ps.(local := LocalAfter(action, ps.local, ps.remote),
        remote := RemoteAfter(action, ps.local, ps.remote))
  }

  /** The segment before the first await, once past the breaker. */
  function BeginPath(ps: PathState, cycleNow: int): PathState {
    if Due(ps.record, cycleNow) && !ps.quarantined then
      ps.(phase := Statting(ps.record))
    else
      ps.(phase := Idle)
  }

  function FailPath(ps: PathState, record: Option<FileRecord>, at: int, delays: seq<int>): PathState {
    ps.(record := Some(FailedRecord(record, at, delays)), phase := Idle)
  }

  function DecidedPath(ps: PathState, record: Option<FileRecord>, v: Verdict, local: Side, remote: Side): PathState {
    if Inert(v.action) then
      ps.(record := Some(InertRecord(record)), phase := Idle)
    else if v.capture.Some? then
      ps.(phase := Capturing(record, v, local, remote))
    else
      ps.(phase := Transferring(record, v, local, remote))
  }

  predicate Answers(phase: Phase, port: Port) {
    match port
    case StatAnswered(_, _) => phase.Statting?
    case StatFailed(_) => phase.Statting?
    case CaptureAnswered => phase.Capturing?
    case CaptureFailed(_, _) => phase.Capturing?
    case TransferAnswered(_) => phase.Transferring?
    case TransferFailed(_, _) => phase.Transferring? && !phase.verdict.action.Converge?
  }

  /** The segment after an await. */
  function ResumePath(ps: PathState, online: bool, port: Port, delays: seq<int>): (PathState, Signal)
    requires Answers(ps.phase, port)
  {
    match port
    case StatAnswered(readable, config) =>
      var remote := RemoteView(ps.remote, online, readable);
      var v := Decide(ps.local, remote, BaseOf(ps.phase.record), EffectiveConfig(config, online));
      (DecidedPath(ps, ps.phase.record, v, ps.local, remote), Quiet)
    case StatFailed(at) =>
      (FailPath(ps, ps.phase.record, at, delays), Failure(at))
    case CaptureAnswered =>
      var Capturing(record, v, local, remote) := ps.phase;
      (ps.(versions := Stored(ps.versions, VictimOf(v, ps.local, ps.remote)),
           phase := Transferring(record, v, local, remote)), Quiet)
    case CaptureFailed(at, stored) =>
      var versions := if stored then Stored(ps.versions, VictimOf(ps.phase.verdict, ps.local, ps.remote)) else ps.versions;
      (FailPath(ps.(versions := versions), ps.phase.record, at, delays), Failure(at))
    case TransferAnswered(tripped) =>
      var Transferring(record, v, local, remote) := ps.phase;
      (Landed(ps).(record := SyncedRecord(v.action, local, remote),
                   quarantined := ps.quarantined || tripped,
                   phase := Idle), Success)
    case TransferFailed(at, landed) =>
      (FailPath(if landed then Landed(ps) else ps, ps.phase.record, at, delays), Failure(at))
  }

  function Signalled(b: BreakerState, signal: Signal, threshold: int): BreakerState {
    match signal
    case Quiet => b
    case Success => Succeeded(b)
    case Failure(at) => Failed(b, at, threshold)
  }

  /** When a call failed, if this is how one fails. */
  function FailedAt(port: Port): Option<int> {
    match port
    case StatFailed(at) => Some(at)
    case CaptureFailed(at, _) => Some(at)
    case TransferFailed(at, _) => Some(at)
    case _ => None
  }

  /** The breaker hears of a reconcile that failed or committed, and of no other segment. */
  lemma WhatTheBreakerHears(ps: PathState, online: bool, port: Port, delays: seq<int>)
    requires Answers(ps.phase, port)
    ensures ResumePath(ps, online, port, delays).1 ==
      if port.TransferAnswered? then Success else if FailedAt(port).Some? then Failure(FailedAt(port).value) else Quiet
  {
  }

  /** A failed call that had its effect all the same leaves what a resolved one would have; one that had none leaves everything. */
  lemma FailedCallMayHaveLanded(ps: PathState, online: bool, at: int, happened: bool, tripped: bool, delays: seq<int>)
    ensures ps.phase.Capturing? ==>
      var failed, resolved := ResumePath(ps, online, CaptureFailed(at, happened), delays).0, ResumePath(ps, online, CaptureAnswered, delays).0;
      && failed.versions == (if happened then resolved.versions else ps.versions)
      && failed.local == ps.local && failed.remote == ps.remote
    ensures ps.phase.Transferring? && !ps.phase.verdict.action.Converge? ==>
      var failed := ResumePath(ps, online, TransferFailed(at, happened), delays).0;
      var resolved := ResumePath(ps, online, TransferAnswered(tripped), delays).0;
      && (failed.local, failed.remote) == (if happened then (resolved.local, resolved.remote) else (ps.local, ps.remote))
      && failed.versions == ps.versions
  {
  }

  // ---------------------------------------------------------------------------
  // The shared object
  // ---------------------------------------------------------------------------

  function Lookup(store: map<Path, FileRecord>, p: Path): Option<FileRecord> {
    if p in store then Some(store[p]) else None
  }

  class SyncOrchestrator {
    const breakerThreshold: int
    const breakerCooldownMs: int
    const retryDelaysMs: seq<int>

    var store: map<Path, FileRecord>
    var quarantined: set<Path>
    var breaker: Breaker
    var consecutiveFailures: nat
    var breakerOpenedAt: int
    var probeUsed: bool

    ghost function BreakerNow(): BreakerState
      reads this
    {
      BreakerState(breaker, consecutiveFailures, breakerOpenedAt, probeUsed)
    }

    /** The object's share of a path's state. */
    ghost predicate Holds(ps: PathState, p: Path)
      reads this
    {
      ps.record == Lookup(store, p) && ps.quarantined == (p in quarantined)
    }

    /** Every other path is left alone. */
    twostate predicate OnlyTouched(p: Path)
      reads this
    {
      store - {p} == old(store) - {p} && quarantined - {p} == old(quarantined) - {p}
    }

    constructor (threshold: int, cooldownMs: int, delays: seq<int>, initial: map<Path, FileRecord>)
      ensures BreakerNow() == INITIAL && store == initial && quarantined == {}
      ensures breakerThreshold == threshold && breakerCooldownMs == cooldownMs && retryDelaysMs == delays
    {
      breakerThreshold, breakerCooldownMs, retryDelaysMs := threshold, cooldownMs, delays;
      store, quarantined := initial, {};
      breaker, consecutiveFailures, breakerOpenedAt, probeUsed := Closed, 0, 0, false;
    }

    // -- The breaker ----------------------------------------------------------

    method TryEnterBreaker(now: int) returns (proceed: bool)
      modifies this`breaker, this`probeUsed
      ensures BreakerNow() == Enter(old(BreakerNow()), now, breakerCooldownMs)
      ensures proceed <==> MayEnter(old(BreakerNow()), now, breakerCooldownMs)
      ensures proceed <==> !old(breaker).Open? || now - old(breakerOpenedAt) >= breakerCooldownMs
    {
      if breaker.Closed? || breaker.HalfOpen? {
        return true;
      }
      if now - breakerOpenedAt >= breakerCooldownMs {
        breaker := HalfOpen;
        probeUsed := false;
        return true;
      }
      return false;
    }

    method OnSuccess()
      modifies this`breaker, this`consecutiveFailures
      ensures BreakerNow() == Succeeded(old(BreakerNow()))
    {
      consecutiveFailures := 0;
      if !breaker.Closed? {
        breaker := Closed;
      }
    }

    method OpenBreaker(now: int)
      modifies this`breaker, this`breakerOpenedAt
      ensures breaker == Open && breakerOpenedAt == now
    {
      breaker := Open;
      breakerOpenedAt := now;
    }

    method OnFailure(now: int)
      modifies this`breaker, this`breakerOpenedAt, this`consecutiveFailures
      ensures BreakerNow() == Failed(old(BreakerNow()), now, breakerThreshold)
    {
      consecutiveFailures := consecutiveFailures + 1;
      if breaker.HalfOpen? {
        OpenBreaker(now);
        return;
      }
      if consecutiveFailures >= breakerThreshold {
        OpenBreaker(now);
      }
    }

    /** Forgets every base, so agreement is derived again from the two sides. */
    method FullResync()
      modifies this
      ensures store == map[] && quarantined == {}
      ensures BreakerNow() == Resynced(old(BreakerNow()))
    {
      var paths := store.Keys;
      while paths != {}
        invariant store.Keys == paths
        invariant BreakerNow() == old(BreakerNow())
        decreases |paths|
      {
        var path :| path in paths;
        store := store - {path};
        paths := paths - {path};
      }
      quarantined := {};
      consecutiveFailures := 0;
      breaker := Closed;
    }

    // -- The segments of a reconcile ------------------------------------------

    /** Up to the first await: breaker, backoff, quarantine. */
    method Begin(p: Path, cycleNow: int, ghost ps: PathState) returns (phase: Phase)
      requires Holds(ps, p)
      modifies this`probeUsed
      ensures BreakerNow() == Gate(old(BreakerNow()))
      ensures phase == if GateLetsThrough(old(BreakerNow())) then BeginPath(ps, cycleNow).phase else Idle
      ensures Holds(BeginPath(ps, cycleNow), p)
      ensures phase.Statting? <==>
        && (old(breaker).Closed? || (old(breaker).HalfOpen? && !old(probeUsed)))
        && p !in quarantined
        && (p in store && store[p].nextRetryAt.Some? ==> store[p].nextRetryAt.value <= cycleNow)
      ensures phase == Idle || phase == Statting(if p in store then Some(store[p]) else None)
    {
      if breaker.Open? {
        return Idle;
      }
      if breaker.HalfOpen? {
        if probeUsed {
          return Idle;
        }
        probeUsed := true;
      }
      var record := Lookup(store, p);
      if record.Some? && record.value.nextRetryAt.Some? && record.value.nextRetryAt.value > cycleNow {
        return Idle;
      }
      if p in quarantined {
        return Idle;
      }
      return Statting(record);
    }

    /** Both stats answered: decide, then finish or await the first effect. */
    method StatsArrived(p: Path, record: Option<FileRecord>, local: Side, remote: Side, online: bool,
                        config: DiffConfig, ghost readable: bool, ghost ps: PathState)
      returns (phase: Phase)
      requires Holds(ps, p) && ps.phase == Statting(record)
      requires local == ps.local && remote == RemoteView(ps.remote, online, readable)
      modifies this`store
      ensures
        var next := ResumePath(ps, online, StatAnswered(readable, config), retryDelaysMs).0;
        Holds(next, p) && phase == next.phase
      ensures OnlyTouched(p)
      ensures ResumePath(ps, online, StatAnswered(readable, config), retryDelaysMs).1 == Quiet
    {
      var verdict := Decide(local, remote, BaseOf(record), EffectiveConfig(config, online));
      if Inert(verdict.action) {
        CommitInert(p, record);
        return Idle;
      }
      if verdict.capture.Some? {
        return Capturing(record, verdict, local, remote);
      }
      return Transferring(record, verdict, local, remote);
    }

    /** The version is stored; only now does the transfer start. */
    method VersionCaptured(p: Path, phase: Phase, ghost online: bool, ghost ps: PathState) returns (next: Phase)
      requires Holds(ps, p) && ps.phase == phase && phase.Capturing?
      ensures next == ResumePath(ps, online, CaptureAnswered, retryDelaysMs).0.phase
      ensures Holds(ResumePath(ps, online, CaptureAnswered, retryDelaysMs).0, p)
      ensures ResumePath(ps, online, CaptureAnswered, retryDelaysMs).1 == Quiet
    {
      return Transferring(phase.record, phase.verdict, phase.local, phase.remote);
    }

    /** The transfer resolved: the base is committed now and not before. */
    method TransferDone(p: Path, phase: Phase, tripped: bool, ghost online: bool, ghost ps: PathState)
      requires Holds(ps, p) && ps.phase == phase && phase.Transferring?
      modifies this`store, this`quarantined, this`breaker, this`consecutiveFailures
      ensures Holds(ResumePath(ps, online, TransferAnswered(tripped), retryDelaysMs).0, p)
      ensures BreakerNow() == Succeeded(old(BreakerNow()))
      ensures BreakerNow() == Signalled(old(BreakerNow()), ResumePath(ps, online, TransferAnswered(tripped), retryDelaysMs).1,
                                        breakerThreshold)
      ensures OnlyTouched(p) && (p in quarantined <==> p in old(quarantined) || tripped)
    {
      if tripped {
        quarantined := quarantined + {p};
      }
      CommitSuccess(p, phase.verdict, phase.local, phase.remote);
      OnSuccess();
    }

    /** Any awaited call rejected. */
    method RecordFailure(p: Path, record: Option<FileRecord>, now: int, ghost ps: PathState)
      requires Holds(ps, p)
      modifies this`store, this`breaker, this`breakerOpenedAt, this`consecutiveFailures
      ensures Holds(FailPath(ps, record, now, retryDelaysMs), p)
      ensures BreakerNow() == Failed(old(BreakerNow()), now, breakerThreshold)
      ensures OnlyTouched(p)
      ensures
        var failures := if record.Some? then record.value.retryCount else 0;
        && p in store && store[p].retryCount == failures + 1
        && store[p].base == (if record.Some? then record.value.base else None)
        && store[p].nextRetryAt == Some(now + BackoffAfter(failures, retryDelaysMs))
    {
      var retryCount := RetriesOf(record) + 1;
      var i := Min(retryCount - 1, |retryDelaysMs| - 1);
      var delay := if 0 <= i then retryDelaysMs[i] else 0;
      store := store[p := FileRecord(BaseOf(record), retryCount, Some(now + delay))];
      OnFailure(now);
    }

    method CommitSuccess(p: Path, verdict: Verdict, local: Side, remote: Side)
      modifies this`store
      ensures Lookup(store, p) == SyncedRecord(verdict.action, local, remote)
      ensures OnlyTouched(p)
      ensures p !in store <==> verdict.action in {DeleteLocal, DeleteRemote}
      ensures p in store ==>
        && store[p].retryCount == 0 && store[p].nextRetryAt == None
        && (verdict.action == Push ==> store[p].base == local) && (verdict.action == Pull ==> store[p].base == remote)
        && (verdict.action == Converge ==> store[p].base == if local == None then remote else local)
    {
      if verdict.action.DeleteLocal? || verdict.action.DeleteRemote? {
        store := store - {p};
        return;
      }
      var survivor := local;
      if verdict.action.Pull? {
        survivor := remote;
      } else if !verdict.action.Push? && local.None? {
        survivor := remote;
      }
      store := store[p := FileRecord(survivor, 0, None)];
    }

    method CommitInert(p: Path, record: Option<FileRecord>)
      modifies this`store
      ensures Lookup(store, p) == Some(InertRecord(record))
      ensures OnlyTouched(p)
      ensures p in store && store[p].nextRetryAt == None
      ensures record == None ==> store[p].base == None && store[p].retryCount == 0
      ensures record != None ==> store[p].base == record.value.base && store[p].retryCount == record.value.retryCount
    {
      store := store[p := FileRecord(BaseOf(record), RetriesOf(record), None)];
    }
  }
}
