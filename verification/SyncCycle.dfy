/**
 One cycle, over every order in which its reconciles can interleave. A script fixes how each
 path's own port calls end; a schedule says whose turn is next.
 */
module SyncCycle {
  import opened Wrappers
  import opened DiffEngine
  import opened CircuitBreaker
  import opened Orchestrator
  import opened SyncRuns

  /** How the calls of one path's reconcile end, whenever they are made. */
  datatype Script = Script(stat: Port, capture: Port, transfer: Port, tripped: bool)

  type Scripts = map<Path, Script>

  predicate Playable(script: Script) {
    && (script.stat.StatAnswered? || script.stat.StatFailed?)
    && (script.capture.CaptureAnswered? || script.capture.CaptureFailed?)
    && (script.transfer.TransferAnswered? || script.transfer.TransferFailed?)
  }

  /** Converging makes no port call, so it cannot fail. */
  function PortFor(phase: Phase, script: Script): (port: Port)
    requires !Resting(phase) && Playable(script)
    ensures Answers(phase, port)
  {
    match phase
    case Statting(_) => script.stat
    case Capturing(_, _, _, _) => script.capture
    case Transferring(_, v, _, _) =>
      if v.action.Converge? then TransferAnswered(script.tripped) else script.transfer
  }

  // ---------------------------------------------------------------------------
  // One path on its own
  // ---------------------------------------------------------------------------

  function AdvancePath(ps: PathState, script: Script, cycle: Cycle, s: Settings): (PathState, Signal)
    requires Playable(script)
  {
    match ps.phase
    case Idle => (ps, Quiet)
    case Queued => (BeginPath(ps, cycle.now), Quiet)
    case _ => ResumePath(ps, cycle.online, PortFor(ps.phase, script), s.retryDelaysMs)
  }

  function Iterate(ps: PathState, n: nat, script: Script, cycle: Cycle, s: Settings): PathState
    requires Playable(script)
  {
    if n == 0 then ps else AdvancePath(Iterate(ps, n - 1, script, cycle, s), script, cycle, s).0
  }

  /** The path's reconcile run from start to end with nothing else going on. */
  function Solo(ps: PathState, script: Script, cycle: Cycle, s: Settings): PathState
    requires Playable(script)
  {
    Iterate(ps, 4, script, cycle, s)
  }

  predicate FailsAlone(ps: PathState, script: Script, cycle: Cycle, s: Settings)
    requires Playable(script)
  {
    exists n :: 0 <= n < 4 && AdvancePath(Iterate(ps, n, script, cycle, s), script, cycle, s).1.Failure?
  }

  function AwaitsLeft(phase: Phase): nat {
    match phase
    case Idle => 0
    case Queued => 4
    case Statting(_) => 3
    case Capturing(_, _, _, _) => 2
    case Transferring(_, _, _, _) => 1
  }

  lemma TurnShortensTheRest(ps: PathState, script: Script, cycle: Cycle, s: Settings)
    requires Playable(script)
    ensures AwaitsLeft(AdvancePath(ps, script, cycle, s).0.phase) <= Max(0, AwaitsLeft(ps.phase) - 1)
  {
  }

  lemma {:induction false} EveryTurnShortensTheRest(ps: PathState, n: nat, script: Script, cycle: Cycle, s: Settings)
    requires Playable(script)
    ensures AwaitsLeft(Iterate(ps, n, script, cycle, s).phase) <= Max(0, 4 - n)
  {
    if n > 0 {
      EveryTurnShortensTheRest(ps, n - 1, script, cycle, s);
      TurnShortensTheRest(Iterate(ps, n - 1, script, cycle, s), script, cycle, s);
    }
  }

  lemma {:induction false} FinishedStaysFinished(ps: PathState, n: nat, m: nat, script: Script, cycle: Cycle, s: Settings)
    requires Playable(script) && n <= m
    requires Iterate(ps, n, script, cycle, s).phase.Idle?
    ensures Iterate(ps, m, script, cycle, s) == Iterate(ps, n, script, cycle, s)
  {
    if n < m {
      FinishedStaysFinished(ps, n, m - 1, script, cycle, s);
    }
  }

  lemma FinishedIsSolo(ps: PathState, n: nat, script: Script, cycle: Cycle, s: Settings)
    requires Playable(script)
    requires Iterate(ps, n, script, cycle, s).phase.Idle? || n >= 4
    ensures Iterate(ps, n, script, cycle, s) == Solo(ps, script, cycle, s)
    ensures Solo(ps, script, cycle, s).phase.Idle?
  {
    EveryTurnShortensTheRest(ps, 4, script, cycle, s);
    if n < 4 {
      FinishedStaysFinished(ps, n, 4, script, cycle, s);
    } else {
      FinishedStaysFinished(ps, 4, n, script, cycle, s);
    }
  }

  // ---------------------------------------------------------------------------
  // All paths, interleaved
  // ---------------------------------------------------------------------------

  predicate Scripted(w: World, scripts: Scripts) {
    && w.cycle.Some?
    && forall p :: p in w.paths ==> p in scripts && Playable(scripts[p])
  }

  /** The step that is due when it is `p`'s turn. */
  function TurnStep(w: World, p: Path, scripts: Scripts): (e: Step)
    requires Scripted(w, scripts) && p in w.paths && !w.paths[p].phase.Idle?
    ensures forall hashed :: Enabled(w, e, hashed)
  {
    if w.paths[p].phase.Queued? then Start(p) else Resume(p, PortFor(w.paths[p].phase, scripts[p]))
  }

  /** One turn: the path goes on from its current await, if it is still running. */
  function Turn(w: World, p: Path, scripts: Scripts, s: Settings, hashed: bool): World
    requires Scripted(w, scripts)
  {
    if p in w.paths && !w.paths[p].phase.Idle? then
      Next(w, TurnStep(w, p, scripts), s, hashed)
    else
      w
  }

  /** The world after the turns of a schedule. */
  function Play(w: World, schedule: seq<Path>, scripts: Scripts, s: Settings, hashed: bool): (w': World)
    requires Scripted(w, scripts)
    ensures w'.paths.Keys == w.paths.Keys && w'.cycle == w.cycle
  {
    if |schedule| == 0 then
      w
    else
      var before := Play(w, schedule[..|schedule| - 1], scripts, s, hashed);
      var after := Turn(before, schedule[|schedule| - 1], scripts, s, hashed);
      assert after.paths.Keys == before.paths.Keys;
      after
  }

  function Failing(w: World, scripts: Scripts, s: Settings): set<Path>
    requires Scripted(w, scripts)
  {
    set p | p in w.paths && FailsAlone(w.paths[p], scripts[p], w.cycle.value, s)
  }

  /** Too few paths fail to open the breaker, with the failures already counted. */
  predicate FewFail(w: World, scripts: Scripts, s: Settings)
    requires Scripted(w, scripts)
  {
    Failing(w, scripts, s) == {} || w.breaker.consecutiveFailures + |Failing(w, scripts, s)| < s.breakerThreshold
  }

  /** The failing paths whose reconcile is over. */
  function FailedBy(w: World, now: World, scripts: Scripts, s: Settings): set<Path>
    requires Scripted(w, scripts) && now.paths.Keys == w.paths.Keys
  {
    set p | p in Failing(w, scripts, s) && now.paths[p].phase.Idle?
  }

  lemma SubsetSize<T>(a: set<T>, b: set<T>)
    requires a <= b
    ensures |a| <= |b|
  {
    if a != {} {
      var x :| x in a;
      SubsetSize(a - {x}, b - {x});
    }
  }

  lemma FailureIsOneOfTheFailing(
      w: World, p: Path, n: nat, scripts: Scripts, s: Settings)
    requires Scripted(w, scripts) && p in w.paths
    requires AdvancePath(Iterate(w.paths[p], n, scripts[p], w.cycle.value, s), scripts[p], w.cycle.value, s).1.Failure?
    ensures p in Failing(w, scripts, s)
  {
    EveryTurnShortensTheRest(w.paths[p], n, scripts[p], w.cycle.value, s);
    assert n < 4;
  }

  /** While the breaker is closed, a turn is the path's own next segment and touches no other path. */
  lemma TurnIsOwnSegment(w: World, p: Path, scripts: Scripts, s: Settings, hashed: bool)
    requires Scripted(w, scripts) && w.breaker.breaker.Closed? && p in w.paths && !w.paths[p].phase.Idle?
    ensures
      var (next, signal) := AdvancePath(w.paths[p], scripts[p], w.cycle.value, s);
      Turn(w, p, scripts, s, hashed)
        == World(w.paths[p := next], Signalled(w.breaker, signal, s.breakerThreshold), w.cycle)
  {
  }

  /** A counted failure is a failing path that just finished, so the count stays under the threshold. */
  lemma FailureCountStaysLow(w: World, before: World, p: Path, n: nat, scripts: Scripts, s: Settings, hashed: bool)
    requires Scripted(w, scripts) && FewFail(w, scripts, s)
    requires before.paths.Keys == w.paths.Keys && before.cycle == w.cycle
    requires p in w.paths && before.paths[p] == Iterate(w.paths[p], n, scripts[p], w.cycle.value, s)
    requires !before.paths[p].phase.Idle? && before.breaker.breaker.Closed?
    requires before.breaker.consecutiveFailures <= w.breaker.consecutiveFailures + |FailedBy(w, before, scripts, s)|
    ensures
      var now := Turn(before, p, scripts, s, hashed);
      && now.paths.Keys == w.paths.Keys
      && now.breaker.breaker.Closed?
      && now.breaker.consecutiveFailures <= w.breaker.consecutiveFailures + |FailedBy(w, now, scripts, s)|
  {
    TurnIsOwnSegment(before, p, scripts, s, hashed);
    var now := Turn(before, p, scripts, s, hashed);
    var signal := AdvancePath(before.paths[p], scripts[p], w.cycle.value, s).1;
    var failedBefore, failedNow := FailedBy(w, before, scripts, s), FailedBy(w, now, scripts, s);
    assert failedBefore <= failedNow;
    SubsetSize(failedBefore, failedNow);
    SubsetSize(failedNow, Failing(w, scripts, s));
    if signal.Failure? {
      FailureIsOneOfTheFailing(w, p, n, scripts, s);
      FailureEndsTheReconcile(before.paths[p], scripts[p], w.cycle.value, s);
      SubsetSize(failedBefore + {p}, failedNow);
    }
  }

  lemma FailureEndsTheReconcile(ps: PathState, script: Script, cycle: Cycle, s: Settings)
    requires Playable(script) && AdvancePath(ps, script, cycle, s).1.Failure?
    ensures AdvancePath(ps, script, cycle, s).0.phase.Idle? && !ps.phase.Idle?
  {
  }

  /** Each path is where the turns counted in `turns` bring it when it runs alone. */
  ghost predicate PathsInStep(
      start: map<Path, PathState>, now: map<Path, PathState>, turns: multiset<Path>, scripts: Scripts, cycle: Cycle, s: Settings)
    requires forall p :: p in start ==> p in scripts && Playable(scripts[p])
  {
    && now.Keys == start.Keys
    && forall p :: p in start ==> now[p] == Iterate(start[p], turns[p], scripts[p], cycle, s)
  }

  /** The same for the world, with the failures of the reconciles that are over counted and the breaker closed. */
  ghost predicate InStep(w: World, now: World, turns: multiset<Path>, scripts: Scripts, s: Settings)
    requires Scripted(w, scripts)
  {
    && PathsInStep(w.paths, now.paths, turns, scripts, w.cycle.value, s) && now.cycle == w.cycle
    && now.breaker.breaker.Closed?
    && now.breaker.consecutiveFailures <= w.breaker.consecutiveFailures + |FailedBy(w, now, scripts, s)|
  }

  lemma AdvancedStaysInStep(
      start: map<Path, PathState>, now: map<Path, PathState>, turns: multiset<Path>, p: Path,
      scripts: Scripts, cycle: Cycle, s: Settings)
    requires forall q :: q in start ==> q in scripts && Playable(scripts[q])
    requires PathsInStep(start, now, turns, scripts, cycle, s) && p in start
    ensures PathsInStep(start, now[p := AdvancePath(now[p], scripts[p], cycle, s).0], turns + multiset{p}, scripts, cycle, s)
  {
    assert (turns + multiset{p})[p] == turns[p] + 1;
  }

  lemma AbsentStaysInStep(
      start: map<Path, PathState>, now: map<Path, PathState>, turns: multiset<Path>, p: Path,
      scripts: Scripts, cycle: Cycle, s: Settings)
    requires forall q :: q in start ==> q in scripts && Playable(scripts[q])
    requires PathsInStep(start, now, turns, scripts, cycle, s) && p !in start
    ensures PathsInStep(start, now, turns + multiset{p}, scripts, cycle, s)
  {
  }

  lemma TurnKeepsInStep(
      w: World, before: World, turns: multiset<Path>, p: Path, scripts: Scripts, s: Settings, hashed: bool)
    requires Scripted(w, scripts) && FewFail(w, scripts, s) && InStep(w, before, turns, scripts, s)
    ensures InStep(w, Turn(before, p, scripts, s, hashed), turns + multiset{p}, scripts, s)
  {
    if p !in w.paths {
      AbsentStaysInStep(w.paths, before.paths, turns, p, scripts, w.cycle.value, s);
    } else {
      AdvancedStaysInStep(w.paths, before.paths, turns, p, scripts, w.cycle.value, s);
      if before.paths[p].phase.Idle? {
        assert before.paths[p := before.paths[p]] == before.paths;
      } else {
        TurnIsOwnSegment(before, p, scripts, s, hashed);
        FailureCountStaysLow(w, before, p, turns[p], scripts, s, hashed);
      }
    }
  }

  /** At every moment of every schedule each path is where its own turns have brought it. */
  lemma {:induction false} TurnsAreIndependent(
      w: World, schedule: seq<Path>, scripts: Scripts, s: Settings, hashed: bool)
    requires Scripted(w, scripts) && w.breaker.breaker.Closed? && FewFail(w, scripts, s)
    ensures InStep(w, Play(w, schedule, scripts, s, hashed), multiset(schedule), scripts, s)
  {
    if |schedule| > 0 {
      var rest, p := schedule[..|schedule| - 1], schedule[|schedule| - 1];
      TurnsAreIndependent(w, rest, scripts, s, hashed);
      assert schedule == rest + [p];
      assert multiset(schedule) == multiset(rest) + multiset{p};
      TurnKeepsInStep(w, Play(w, rest, scripts, s, hashed), multiset(rest), p, scripts, s, hashed);
    }
  }

  /** Every path has had its turns, so every reconcile is over. */
  predicate Complete(w: World, schedule: seq<Path>) {
    forall p :: p in w.paths ==> multiset(schedule)[p] >= 4
  }

  /**
   Confluence: when too few paths fail to open the breaker, every interleaving that lets the
   reconciles finish leaves each path exactly as its own reconcile alone would have.
   */
  lemma CycleIsConfluent(w: World, schedule: seq<Path>, scripts: Scripts, s: Settings, hashed: bool)
    requires Scripted(w, scripts) && w.breaker.breaker.Closed? && FewFail(w, scripts, s)
    requires Complete(w, schedule) || AllIdle(Play(w, schedule, scripts, s, hashed))
    ensures
      var now := Play(w, schedule, scripts, s, hashed);
      && AllIdle(now) && now.breaker.breaker.Closed?
      && forall p :: p in w.paths ==> now.paths[p] == Solo(w.paths[p], scripts[p], w.cycle.value, s)
  {
    TurnsAreIndependent(w, schedule, scripts, s, hashed);
    forall p | p in w.paths
      ensures Iterate(w.paths[p], multiset(schedule)[p], scripts[p], w.cycle.value, s)
           == Solo(w.paths[p], scripts[p], w.cycle.value, s)
      ensures Solo(w.paths[p], scripts[p], w.cycle.value, s).phase.Idle?
    {
      assert Play(w, schedule, scripts, s, hashed).paths[p] ==
             Iterate(w.paths[p], multiset(schedule)[p], scripts[p], w.cycle.value, s);
      FinishedIsSolo(w.paths[p], multiset(schedule)[p], scripts[p], w.cycle.value, s);
    }
  }

  // ---------------------------------------------------------------------------
  // Convergence
  // ---------------------------------------------------------------------------

  /** Nothing fails, and no lock, read-only mode, override, backoff or quarantine holds the path. */
  predicate Unhindered(ps: PathState, script: Script, cycle: Cycle) {
    && cycle.online
    && Due(ps.record, cycle.now) && !ps.quarantined
    && script.stat.StatAnswered? && script.capture.CaptureAnswered? && script.transfer.TransferAnswered?
    && script.stat.config == Unrestricted(script.stat.config)
    && !PathOverride(ps.local, ps.remote, script.stat.config)
  }

  lemma UnhinderedPathConverges(ps: PathState, script: Script, cycle: Cycle, s: Settings, hashed: bool)
    requires PathSound(ps, hashed) && ps.phase.Queued? && Unhindered(ps, script, cycle)
    ensures !FailsAlone(ps, script, cycle, s)
    ensures
      var merged := Merged(ps.local, ps.remote, BaseOf(ps.record), script.stat.config);
      var after := Solo(ps, script, cycle, s);
      Agree(after.local, merged) && Agree(after.remote, merged) && Settled(after) && Quiescent(after)
  {
    var config := script.stat.config;
    DecisionIsThreeWayMerge(ps.local, ps.remote, BaseOf(ps.record), config, hashed);
    NothingToTransferIffAgreed(ps.local, ps.remote, BaseOf(ps.record), config, hashed);
    var one := AdvancePath(ps, script, cycle, s).0;
    assert one == Iterate(ps, 1, script, cycle, s) by { assert Iterate(ps, 0, script, cycle, s) == ps; }
    var v := Decide(ps.local, ps.remote, BaseOf(ps.record), config);
    assert EffectiveConfig(config, true) == config;
    var two := AdvancePath(one, script, cycle, s).0;
    assert two == DecidedPath(one, ps.record, v, ps.local, ps.remote);
    assert two == Iterate(ps, 2, script, cycle, s);
    ResumeKeepsPathSound(one, true, script.stat, s.retryDelaysMs, hashed);
    FinishesFrom(two, script, cycle, s, hashed);
    var three := AdvancePath(two, script, cycle, s).0;
    assert three == Iterate(ps, 3, script, cycle, s);
    assert AdvancePath(three, script, cycle, s).0 == Iterate(ps, 4, script, cycle, s);
  }

  /** From the decision on, two more clean answers carry the verdict out and commit it. */
  lemma FinishesFrom(ps: PathState, script: Script, cycle: Cycle, s: Settings, hashed: bool)
    requires PathSound(ps, hashed) && Playable(script)
    requires !ps.phase.Queued? && !ps.phase.Statting?
    requires script.capture.CaptureAnswered? && script.transfer.TransferAnswered?
    ensures
      var mid := AdvancePath(ps, script, cycle, s);
      var end := AdvancePath(mid.0, script, cycle, s);
      && !mid.1.Failure? && !end.1.Failure? && end.0.phase.Idle?
      && (ps.phase.Idle? ==> end.0 == ps)
      && (!ps.phase.Idle? ==>
           var action := ps.phase.verdict.action;
           && end.0.local == LocalAfter(action, ps.local, ps.remote)
           && end.0.remote == RemoteAfter(action, ps.local, ps.remote)
           && end.0.record == SyncedRecord(action, ps.local, ps.remote))
  {
  }

  /** A world as one cycle's queue leaves it: listed paths are queued, the others are on neither side. */
  predicate CleanStart(w: World, scripts: Scripts) {
    && Scripted(w, scripts) && w.breaker.breaker.Closed?
    && forall p :: p in w.paths ==>
         var ps := w.paths[p];
         || (ps.phase.Queued? && Unhindered(ps, scripts[p], w.cycle.value))
         || (ps.phase.Idle? && ps.local.None? && ps.remote.None?)
  }

  /**
   Convergence: one failure-free online cycle, in any interleaving, leaves both sides of every path
   with the three-way merge of what they held, and nothing in flight.
   */
  lemma CleanCycleConverges(w: World, schedule: seq<Path>, scripts: Scripts, s: Settings, hashed: bool)
    requires Sound(w, hashed) && CleanStart(w, scripts)
    requires Complete(w, schedule) || AllIdle(Play(w, schedule, scripts, s, hashed))
    ensures
      var now := Play(w, schedule, scripts, s, hashed);
      && AllIdle(now)
      && forall p :: p in w.paths ==>
           var before, after := w.paths[p], now.paths[p];
           && Settled(after) && Quiescent(after)
           && (before.phase.Queued? ==>
                Agree(after.local, Merged(before.local, before.remote, BaseOf(before.record), scripts[p].stat.config)))
  {
    forall p | p in w.paths
      ensures !FailsAlone(w.paths[p], scripts[p], w.cycle.value, s)
      ensures Settled(Solo(w.paths[p], scripts[p], w.cycle.value, s)) && Quiescent(Solo(w.paths[p], scripts[p], w.cycle.value, s))
      ensures w.paths[p].phase.Queued? ==>
        Agree(Solo(w.paths[p], scripts[p], w.cycle.value, s).local,
              Merged(w.paths[p].local, w.paths[p].remote, BaseOf(w.paths[p].record), scripts[p].stat.config))
    {
      if w.paths[p].phase.Queued? {
        UnhinderedPathConverges(w.paths[p], scripts[p], w.cycle.value, s, hashed);
      } else {
        forall n: nat ensures Iterate(w.paths[p], n, scripts[p], w.cycle.value, s) == w.paths[p] {
          FinishedStaysFinished(w.paths[p], 0, n, scripts[p], w.cycle.value, s);
        }
      }
    }
    CycleIsConfluent(w, schedule, scripts, s, hashed);
  }

  /**
   After such a cycle nothing is applied to a path again: in every later state, until it is edited or a
   resync forgets its base, no verdict of it is being carried out, and sides, versions and base stay.
   */
  lemma ConvergedForGood(
      w: World, schedule: seq<Path>, scripts: Scripts, s: Settings, hashed: bool,
      ws: seq<World>, es: seq<Step>, j: nat, p: Path)
    requires Sound(w, hashed) && CleanStart(w, scripts) && p in w.paths
    requires Complete(w, schedule) || AllIdle(Play(w, schedule, scripts, s, hashed))
    requires IsRun(ws, es, s, hashed) && j < |ws| && ws[0] == Play(w, schedule, scripts, s, hashed)
    requires forall k :: 0 <= k < j ==> !(es[k].Edit? && es[k].p == p) && !es[k].Resync?
    ensures p in ws[j].paths && Quiescent(ws[j].paths[p]) && Agree(ws[j].paths[p].local, ws[j].paths[p].remote)
    ensures !ws[j].paths[p].phase.Capturing? && !ws[j].paths[p].phase.Transferring?
    ensures ws[j].paths[p].local == ws[0].paths[p].local
    ensures ws[j].paths[p].remote == ws[0].paths[p].remote
    ensures ws[j].paths[p].versions == ws[0].paths[p].versions
    ensures BaseOf(ws[j].paths[p].record) == BaseOf(ws[0].paths[p].record)
  {
    CleanCycleConverges(w, schedule, scripts, s, hashed);
    NothingAppliedAgain(ws, es, s, hashed, 0, j, p);
  }

  /** With resyncs as well, the base may be written again, but the sides and versions still stay. */
  lemma ConvergedThroughResyncs(
      w: World, schedule: seq<Path>, scripts: Scripts, s: Settings, hashed: bool,
      ws: seq<World>, es: seq<Step>, j: nat, p: Path)
    requires Sound(w, hashed) && CleanStart(w, scripts) && p in w.paths
    requires Complete(w, schedule) || AllIdle(Play(w, schedule, scripts, s, hashed))
    requires IsRun(ws, es, s, hashed) && j < |ws| && ws[0] == Play(w, schedule, scripts, s, hashed)
    requires forall k :: 0 <= k < j ==> !(es[k].Edit? && es[k].p == p)
    ensures p in ws[j].paths && Settled(ws[j].paths[p]) && Agree(ws[j].paths[p].local, ws[j].paths[p].remote)
    ensures ws[j].paths[p].local == ws[0].paths[p].local
    ensures ws[j].paths[p].remote == ws[0].paths[p].remote
    ensures ws[j].paths[p].versions == ws[0].paths[p].versions
  {
    CleanCycleConverges(w, schedule, scripts, s, hashed);
    AgreementIsStable(ws, es, s, hashed, 0, j, p);
  }
}
