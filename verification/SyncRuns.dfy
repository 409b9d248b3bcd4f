/**
 Whole runs of the bridge over one share: cycles whose reconciles interleave at every await, port
 calls that fail with or without their effect, processes that die at any await, full resyncs,
 and people editing both sides in between.
 */
module SyncRuns {
  import opened Wrappers
  import opened DiffEngine
  import opened CircuitBreaker
  import opened Orchestrator

  datatype Settings = Settings(breakerThreshold: int, breakerCooldownMs: int, retryDelaysMs: seq<int>)

  /** The cycle in progress: its start time and whether the server answered. */
  datatype Cycle = Cycle(now: int, online: bool)

  datatype World = World(paths: map<Path, PathState>, breaker: BreakerState, cycle: Option<Cycle>)

  datatype Step =
    | BeginCycle(now: int, online: bool, listed: set<Path>)
    | Start(p: Path)
    | Resume(p: Path, port: Port)
    | EndCycle
    | Edit(p: Path, side: Which, content: Side)
    | Crash(landed: set<Path>)
    | Resync
    | Lift(p: Path)

  predicate Resting(phase: Phase) {
    phase.Idle? || phase.Queued?
  }

  predicate AllIdle(w: World) {
    forall p :: p in w.paths ==> w.paths[p].phase.Idle?
  }

  /** Outside edits happen only between a path's reconciles; `hashed` is the world's hash regime. */
  predicate Enabled(w: World, e: Step, hashed: bool) {
    match e
    case BeginCycle(_, _, _) => w.cycle.None? && AllIdle(w)
    case Start(p) => w.cycle.Some? && p in w.paths && w.paths[p].phase.Queued?
    case Resume(p, port) => w.cycle.Some? && p in w.paths && Answers(w.paths[p].phase, port)
    case EndCycle => w.cycle.Some? && AllIdle(w)
    case Edit(p, _, content) => p in w.paths && Resting(w.paths[p].phase) && HashesKnown(content, hashed)
    case Crash(_) => true
    case Resync => true
    case Lift(p) => p in w.paths
  }

  /** The process dies: a call in flight may still have had its effect, and memory is gone. */
  function Crashed(ps: PathState, landed: bool): PathState {
    var left :=
      if landed && ps.phase.Capturing? then
        ps.(versions := Stored(ps.versions, VictimOf(ps.phase.verdict, ps.local, ps.remote)))
      else if landed && ps.phase.Transferring? then
        Landed(ps)
      else
        ps;
    left.(phase := Idle, quarantined := false)
  }

  function Next(w: World, e: Step, s: Settings, hashed: bool): World
    requires Enabled(w, e, hashed)
  {
    match e
    case BeginCycle(now, online, listed) =>
      if MayEnter(w.breaker, now, s.breakerCooldownMs) then
        World(map p | p in w.paths :: if p in listed then w.paths[p].(phase := Queued) else w.paths[p],
              Enter(w.breaker, now, s.breakerCooldownMs),
              Some(Cycle(now, online)))
      else
        w
    case Start(p) =>
      var ps := w.paths[p];
      var next := if GateLetsThrough(w.breaker) then BeginPath(ps, w.cycle.value.now) else ps.(phase := Idle);
      w.(paths := w.paths[p := next], breaker := Gate(w.breaker))
    case Resume(p, port) =>
      var (next, signal) := ResumePath(w.paths[p], w.cycle.value.online, port, s.retryDelaysMs);
      w.(paths := w.paths[p := next], breaker := Signalled(w.breaker, signal, s.breakerThreshold))
    case EndCycle =>
      w.(cycle := None)
    case Edit(p, side, content) =>
      var ps := w.paths[p];
      w.(paths := w.paths[p := if side.LocalSide? then ps.(local := content) else ps.(remote := content)])
    case Crash(landed) =>
      World(map p | p in w.paths :: Crashed(w.paths[p], p in landed), INITIAL, None)
    case Resync =>
      w.(paths := map p | p in w.paths :: w.paths[p].(record := None, quarantined := false),
         breaker := Resynced(w.breaker))
    case Lift(p) =>
      w.(paths := w.paths[p := w.paths[p].(quarantined := false)])
  }

  // ---------------------------------------------------------------------------
  // The invariant of every reachable world
  // ---------------------------------------------------------------------------

  /** A reconcile past its decision acts on the sides as they are, and has secured what it destroys. */
  predicate PhaseSound(ps: PathState) {
    match ps.phase
    case Idle => true
    case Queued => true
    case Statting(_) => true
    case Capturing(_, v, local, remote) =>
      local == ps.local && remote == ps.remote && VerdictSound(v, ps.local, ps.remote) && v.capture.Some?
    case Transferring(_, v, local, remote) =>
      && local == ps.local && remote == ps.remote && VerdictSound(v, ps.local, ps.remote)
      && (v.capture.Some? ==> VictimOf(v, ps.local, ps.remote).value in ps.versions)
  }

  predicate VerdictSound(v: Verdict, local: Side, remote: Side) {
    && !Inert(v.action)
    && (v.capture.Some? <==> DestroysData(local, remote, v.action))
    && (v.capture.Some? ==> VictimOf(v, local, remote).Some?)
    && (v.capture.Some? && MutatesLocal(v.action) ==> v.capture.value.LocalSide?)
    && (v.capture.Some? && MutatesServer(v.action) ==> v.capture.value.RemoteSide?)
    && (v.action.Push? ==> local.Some?)
    && (v.action.Pull? ==> remote.Some?)
    && (v.action.DeleteLocal? ==> remote.None?)
    && (v.action.DeleteRemote? ==> local.None?)
    && (v.action.Converge? ==> local.Some? && Agree(local, remote))
  }

  predicate PathSound(ps: PathState, hashed: bool) {
    && Uniform(ps.local, ps.remote, BaseOf(ps.record), hashed)
    && (!Resting(ps.phase) ==> HashesKnown(BaseOf(ps.phase.record), hashed))
    && (forall v :: v in ps.versions ==> v.hash.Some? == hashed)
    && PhaseSound(ps)
  }

  predicate Sound(w: World, hashed: bool) {
    forall p :: p in w.paths ==> PathSound(w.paths[p], hashed)
  }

  /** An offline server that reads as empty never gives a reason to act. */
  lemma UnreadableServerIsInert(local: Side, base: Side, config: DiffConfig)
    requires config.serverOffline
    ensures Inert(Decide(local, None, base, config).action)
  {
  }

  /** The segment that decides leaves a verdict about the sides as they are. */
  lemma DecisionKeepsPathSound(ps: PathState, online: bool, readable: bool, config: DiffConfig, delays: seq<int>, hashed: bool)
    requires PathSound(ps, hashed) && ps.phase.Statting?
    ensures PathSound(ResumePath(ps, online, StatAnswered(readable, config), delays).0, hashed)
  {
    if RemoteView(ps.remote, online, readable) != ps.remote {
      UnreadableServerIsInert(ps.local, BaseOf(ps.phase.record), EffectiveConfig(config, online));
    }
  }

  lemma ResumeKeepsPathSound(ps: PathState, online: bool, port: Port, delays: seq<int>, hashed: bool)
    requires PathSound(ps, hashed) && Answers(ps.phase, port)
    ensures PathSound(ResumePath(ps, online, port, delays).0, hashed)
  {
    if port.StatAnswered? {
      DecisionKeepsPathSound(ps, online, port.readable, port.config, delays, hashed);
    }
  }

  lemma CrashKeepsPathSound(ps: PathState, landed: bool, hashed: bool)
    requires PathSound(ps, hashed)
    ensures PathSound(Crashed(ps, landed), hashed)
  {
  }

  lemma StepKeepsPathSound(w: World, e: Step, s: Settings, hashed: bool, p: Path)
    requires Sound(w, hashed) && Enabled(w, e, hashed) && p in w.paths
    ensures
      var next := Next(w, e, s, hashed);
      next.paths.Keys == w.paths.Keys && PathSound(next.paths[p], hashed)
  {
    assert PathSound(w.paths[p], hashed);
    match e
    case Resume(q, port) =>
      if q == p {
        ResumeKeepsPathSound(w.paths[p], w.cycle.value.online, port, s.retryDelaysMs, hashed);
      }
    case Crash(landed) => CrashKeepsPathSound(w.paths[p], p in landed, hashed);
    case _ =>
  }

  lemma SoundIsInvariant(w: World, e: Step, s: Settings, hashed: bool)
    requires Sound(w, hashed) && Enabled(w, e, hashed)
    ensures
      var next := Next(w, e, s, hashed);
      next.paths.Keys == w.paths.Keys && Sound(next, hashed)
  {
    var next := Next(w, e, s, hashed);
    assert next.paths.Keys == w.paths.Keys;
    forall p | p in next.paths ensures PathSound(next.paths[p], hashed) {
      StepKeepsPathSound(w, e, s, hashed, p);
    }
  }

  // ---------------------------------------------------------------------------
  // Runs
  // ---------------------------------------------------------------------------

  /** The world after the first steps; a step that is not enabled cannot occur in a run. */
  ghost predicate IsRun(ws: seq<World>, es: seq<Step>, s: Settings, hashed: bool) {
    && |ws| == |es| + 1
    && Sound(ws[0], hashed)
    && forall i :: 0 <= i < |es| ==> Steps(ws, es, i, s, hashed)
  }

  /** The step at `i` is enabled and leads to the next world. */
  ghost predicate Steps(ws: seq<World>, es: seq<Step>, i: int, s: Settings, hashed: bool) {
    && 0 <= i < |es| && |ws| == |es| + 1
    && Enabled(ws[i], es[i], hashed) && ws[i + 1] == Next(ws[i], es[i], s, hashed)
  }

  lemma {:induction false} RunsAreSound(ws: seq<World>, es: seq<Step>, s: Settings, hashed: bool, i: nat)
    requires IsRun(ws, es, s, hashed) && i < |ws|
    ensures Sound(ws[i], hashed) && ws[i].paths.Keys == ws[0].paths.Keys
    ensures i < |es| ==> Steps(ws, es, i, s, hashed)
  {
    if i > 0 {
      RunsAreSound(ws, es, s, hashed, i - 1);
      assert Steps(ws, es, i - 1, s, hashed);
      SoundIsInvariant(ws[i - 1], es[i - 1], s, hashed);
    }
  }

  // ---------------------------------------------------------------------------
  // No content is lost
  // ---------------------------------------------------------------------------

  /** The content can still be had: it is on a side or in the version store. */
  ghost predicate Recoverable(ps: PathState, c: FileSide) {
    || Agree(ps.local, Some(c))
    || Agree(ps.remote, Some(c))
    || exists v :: v in ps.versions && SameContent(v, c)
  }

  /** A transfer that took effect replaced only content that is on the other side or was stored before. */
  lemma LandedKeepsRecoverable(ps: PathState, hashed: bool, c: FileSide)
    requires PathSound(ps, hashed) && ps.phase.Transferring?
    requires c.hash.Some? == hashed && Recoverable(ps, c)
    ensures Recoverable(Landed(ps), c)
  {
  }

  lemma CrashedKeepsRecoverable(ps: PathState, landed: bool, hashed: bool, c: FileSide)
    requires PathSound(ps, hashed) && c.hash.Some? == hashed && Recoverable(ps, c)
    ensures Recoverable(Crashed(ps, landed), c)
  {
    if ps.phase.Transferring? { LandedKeepsRecoverable(ps, hashed, c); }
  }

  lemma ResumeKeepsRecoverable(ps: PathState, online: bool, port: Port, delays: seq<int>, hashed: bool, c: FileSide)
    requires PathSound(ps, hashed) && Answers(ps.phase, port)
    requires c.hash.Some? == hashed && Recoverable(ps, c)
    ensures Recoverable(ResumePath(ps, online, port, delays).0, c)
  {
    if ps.phase.Transferring? { LandedKeepsRecoverable(ps, hashed, c); }
  }

  /** Nothing the bridge does, whole or cut short, makes any content unrecoverable. */
  lemma BridgeNeverLosesContent(w: World, e: Step, s: Settings, hashed: bool, p: Path, c: FileSide)
    requires Sound(w, hashed) && Enabled(w, e, hashed) && p in w.paths
    requires c.hash.Some? == hashed && Recoverable(w.paths[p], c)
    requires !(e.Edit? && e.p == p)
    ensures Recoverable(Next(w, e, s, hashed).paths[p], c)
  {
    match e
    case Resume(q, port) =>
      if q == p {
        ResumeKeepsRecoverable(w.paths[p], w.cycle.value.online, port, s.retryDelaysMs, hashed, c);
      }
    case Crash(landed) => CrashedKeepsRecoverable(w.paths[p], p in landed, hashed, c);
    case _ =>
  }

  /** An outside edit that replaced or removed content like `c`. */
  predicate EditsAway(w: World, e: Step, p: Path, c: FileSide) {
    && e.Edit? && e.p == p && p in w.paths
    && Agree(if e.side.LocalSide? then w.paths[p].local else w.paths[p].remote, Some(c))
    && !Agree(e.content, Some(c))
  }

  lemma EditLosesOnlyWhatItReplaces(w: World, e: Step, s: Settings, hashed: bool, p: Path, c: FileSide)
    requires Enabled(w, e, hashed) && e.Edit? && e.p == p
    requires Recoverable(w.paths[p], c) && !EditsAway(w, e, p, c)
    ensures Recoverable(Next(w, e, s, hashed).paths[p], c)
  {
  }

  lemma StepKeepsRecoverable(w: World, e: Step, s: Settings, hashed: bool, p: Path, c: FileSide)
    requires Sound(w, hashed) && Enabled(w, e, hashed) && p in w.paths
    requires c.hash.Some? == hashed && Recoverable(w.paths[p], c) && !EditsAway(w, e, p, c)
    ensures
      var next := Next(w, e, s, hashed);
      p in next.paths && Recoverable(next.paths[p], c)
  {
    if e.Edit? && e.p == p {
      EditLosesOnlyWhatItReplaces(w, e, s, hashed, p, c);
    } else {
      BridgeNeverLosesContent(w, e, s, hashed, p, c);
    }
  }

  lemma RunStepKeepsRecoverable(ws: seq<World>, es: seq<Step>, s: Settings, hashed: bool, k: nat, p: Path, c: FileSide)
    requires IsRun(ws, es, s, hashed) && k < |es| && p in ws[k].paths
    requires c.hash.Some? == hashed && Recoverable(ws[k].paths[p], c) && !EditsAway(ws[k], es[k], p, c)
    ensures p in ws[k + 1].paths && Recoverable(ws[k + 1].paths[p], c)
  {
    RunsAreSound(ws, es, s, hashed, k);
    StepKeepsRecoverable(ws[k], es[k], s, hashed, p, c);
  }

  /** Over a whole run, content stops being recoverable only through an outside edit of that very content. */
  lemma {:induction false} OnlyOutsideEditsLoseContent(
      ws: seq<World>, es: seq<Step>, s: Settings, hashed: bool, i: nat, j: nat, p: Path, c: FileSide)
    requires IsRun(ws, es, s, hashed) && i <= j < |ws|
    requires c.hash.Some? == hashed
    requires p in ws[i].paths && Recoverable(ws[i].paths[p], c)
    requires forall k :: i <= k < j ==> !EditsAway(ws[k], es[k], p, c)
    ensures p in ws[j].paths && Recoverable(ws[j].paths[p], c)
  {
    if i < j {
      OnlyOutsideEditsLoseContent(ws, es, s, hashed, i, j - 1, p, c);
      RunStepKeepsRecoverable(ws, es, s, hashed, j - 1, p, c);
    }
  }

  /** The side's content is replaced or removed by a step of the bridge, or of its death. */
  predicate BridgeRemoves(w: World, e: Step, next: World, p: Path, side: Which, c: FileSide)
    requires p in w.paths && p in next.paths
  {
    var before, after := w.paths[p], next.paths[p];
    && !e.Edit?
    && (if side.LocalSide? then before.local else before.remote) == Some(c)
    && !Agree(if side.LocalSide? then after.local else after.remote, Some(c))
  }

  /** The published rule: removed content is in the version store or on the other side. */
  lemma RemovedContentSurvives(
      ws: seq<World>, es: seq<Step>, s: Settings, hashed: bool, i: nat, p: Path, side: Which, c: FileSide)
    requires IsRun(ws, es, s, hashed) && i < |es| && p in ws[i].paths && p in ws[i + 1].paths
    requires BridgeRemoves(ws[i], es[i], ws[i + 1], p, side, c)
    ensures
      var after := ws[i + 1].paths[p];
      || (exists v :: v in after.versions && SameContent(v, c))
      || Agree(if side.LocalSide? then after.remote else after.local, Some(c))
  {
    RunsAreSound(ws, es, s, hashed, i);
    assert Recoverable(ws[i].paths[p], c);
    BridgeNeverLosesContent(ws[i], es[i], s, hashed, p, c);
  }

  // ---------------------------------------------------------------------------
  // The base is committed last
  // ---------------------------------------------------------------------------

  lemma CommitAgrees(ps: PathState, online: bool, tripped: bool, delays: seq<int>, hashed: bool)
    requires PathSound(ps, hashed) && Answers(ps.phase, TransferAnswered(tripped))
    ensures
      var after := ResumePath(ps, online, TransferAnswered(tripped), delays).0;
      && Agree(after.local, BaseOf(after.record)) && Agree(after.remote, BaseOf(after.record))
      && (after.record.Some? <==> after.local.Some?)
  {
  }

  /** When a reconcile commits, both sides hold the new base, or are both gone with the record. */
  lemma CommitMeansAgreement(
      ws: seq<World>, es: seq<Step>, s: Settings, hashed: bool, i: nat, p: Path, tripped: bool)
    requires IsRun(ws, es, s, hashed) && i < |es| && es[i] == Resume(p, TransferAnswered(tripped))
    ensures p in ws[i + 1].paths
    ensures
      var after := ws[i + 1].paths[p];
      && Agree(after.local, BaseOf(after.record))
      && Agree(after.remote, BaseOf(after.record))
      && (after.record.Some? <==> after.local.Some?)
  {
    RunsAreSound(ws, es, s, hashed, i);
    CommitAgrees(ws[i].paths[p], ws[i].cycle.value.online, tripped, s.retryDelaysMs, hashed);
  }

  // ---------------------------------------------------------------------------
  // Agreement is stable
  // ---------------------------------------------------------------------------

  /** The sides agree and nothing in flight is about to change them. */
  predicate Settled(ps: PathState) {
    && Agree(ps.local, ps.remote)
    && (ps.phase.Capturing? || ps.phase.Transferring? ==> ps.phase.verdict.action.Converge?)
  }

  lemma SettledResume(ps: PathState, online: bool, port: Port, delays: seq<int>, hashed: bool)
    requires PathSound(ps, hashed) && Answers(ps.phase, port) && Settled(ps)
    ensures
      var next := ResumePath(ps, online, port, delays).0;
      Settled(next) && next.local == ps.local && next.remote == ps.remote && next.versions == ps.versions
  {
    if port.StatAnswered? {
      var base, config := BaseOf(ps.phase.record), EffectiveConfig(port.config, online);
      if RemoteView(ps.remote, online, port.readable) != ps.remote {
        UnreadableServerIsInert(ps.local, base, config);
      } else if !PathOverride(ps.local, ps.remote, config) {
        NothingToTransferIffAgreed(ps.local, ps.remote, base, config, hashed);
      }
    }
  }

  lemma SettledStep(w: World, e: Step, s: Settings, hashed: bool, p: Path)
    requires Sound(w, hashed) && Enabled(w, e, hashed) && p in w.paths
    requires Settled(w.paths[p]) && !(e.Edit? && e.p == p)
    ensures
      var next := Next(w, e, s, hashed);
      && p in next.paths && Settled(next.paths[p])
      && next.paths[p].local == w.paths[p].local
      && next.paths[p].remote == w.paths[p].remote
      && next.paths[p].versions == w.paths[p].versions
  {
    if e.Resume? && e.p == p {
      SettledResume(w.paths[p], w.cycle.value.online, e.port, s.retryDelaysMs, hashed);
    }
  }

  /**
   Once a path's sides agree, no later cycle transfers, deletes or even captures anything for it,
   under any configuration, failure, outage or crash, until somebody edits it.
   */
  lemma {:induction false} AgreementIsStable(
      ws: seq<World>, es: seq<Step>, s: Settings, hashed: bool, i: nat, j: nat, p: Path)
    requires IsRun(ws, es, s, hashed) && i <= j < |ws| && p in ws[i].paths
    requires Settled(ws[i].paths[p])
    requires forall k :: i <= k < j ==> !(es[k].Edit? && es[k].p == p)
    ensures p in ws[j].paths && Settled(ws[j].paths[p])
    ensures ws[j].paths[p].local == ws[i].paths[p].local
    ensures ws[j].paths[p].remote == ws[i].paths[p].remote
    ensures ws[j].paths[p].versions == ws[i].paths[p].versions
  {
    if i < j {
      AgreementIsStable(ws, es, s, hashed, i, j - 1, p);
      RunsAreSound(ws, es, s, hashed, j - 1);
      SettledStep(ws[j - 1], es[j - 1], s, hashed, p);
    }
  }

  /** The base is what the sides agree on; a path on neither side needs none. */
  predicate BaseMatches(ps: PathState, record: Option<FileRecord>) {
    ps.local.Some? ==> Agree(ps.local, BaseOf(record))
  }

  /** The sides agree on the base, as stored and as read, and no verdict is being carried out. */
  predicate Quiescent(ps: PathState) {
    && Agree(ps.local, ps.remote) && BaseMatches(ps, ps.record)
    && (Resting(ps.phase) || (ps.phase.Statting? && BaseMatches(ps, ps.phase.record)))
  }

  /** Whatever a quiescent path's stats show, the decision is not to act. */
  lemma QuiescentDecision(ps: PathState, record: Option<FileRecord>, online: bool, readable: bool, config: DiffConfig, hashed: bool)
    requires Uniform(ps.local, ps.remote, BaseOf(record), hashed)
    requires Agree(ps.local, ps.remote) && BaseMatches(ps, record)
    ensures Inert(Decide(ps.local, RemoteView(ps.remote, online, readable), BaseOf(record), EffectiveConfig(config, online)).action)
  {
    if RemoteView(ps.remote, online, readable) != ps.remote {
      UnreadableServerIsInert(ps.local, BaseOf(record), EffectiveConfig(config, online));
    }
  }

  lemma QuiescentResume(ps: PathState, online: bool, port: Port, delays: seq<int>, hashed: bool)
    requires PathSound(ps, hashed) && Answers(ps.phase, port) && Quiescent(ps)
    ensures
      var next := ResumePath(ps, online, port, delays).0;
      && Quiescent(next) && next.local == ps.local && next.remote == ps.remote && next.versions == ps.versions
      && BaseOf(next.record) == BaseOf(ps.phase.record)
  {
    if port.StatAnswered? {
      QuiescentDecision(ps, ps.phase.record, online, port.readable, port.config, hashed);
    }
  }

  /** A reconcile in flight read the base that is still stored. */
  predicate ReadStored(ps: PathState) {
    ps.phase.Statting? ==> BaseOf(ps.phase.record) == BaseOf(ps.record)
  }

  lemma QuiescentStep(w: World, e: Step, s: Settings, hashed: bool, p: Path)
    requires Sound(w, hashed) && Enabled(w, e, hashed) && p in w.paths
    requires Quiescent(w.paths[p]) && ReadStored(w.paths[p])
    requires !(e.Edit? && e.p == p) && !e.Resync?
    ensures
      var next := Next(w, e, s, hashed);
      && p in next.paths && Quiescent(next.paths[p]) && ReadStored(next.paths[p])
      && next.paths[p].local == w.paths[p].local && next.paths[p].remote == w.paths[p].remote
      && next.paths[p].versions == w.paths[p].versions
      && BaseOf(next.paths[p].record) == BaseOf(w.paths[p].record)
  {
    if e.Resume? && e.p == p {
      QuiescentResume(w.paths[p], w.cycle.value.online, e.port, s.retryDelaysMs, hashed);
    }
  }

  /**
   Once a path's sides agree on its base, no later cycle applies anything to it, not even a rewrite of
   the base: it is never capturing or transferring again, under any configuration, failure, outage or
   crash, until somebody edits it or a resync forgets its base.
   */
  lemma {:induction false} NothingAppliedAgain(
      ws: seq<World>, es: seq<Step>, s: Settings, hashed: bool, i: nat, j: nat, p: Path)
    requires IsRun(ws, es, s, hashed) && i <= j < |ws| && p in ws[i].paths
    requires Quiescent(ws[i].paths[p]) && ReadStored(ws[i].paths[p])
    requires forall k :: i <= k < j ==> !(es[k].Edit? && es[k].p == p) && !es[k].Resync?
    ensures p in ws[j].paths && Quiescent(ws[j].paths[p]) && ReadStored(ws[j].paths[p])
    ensures ws[j].paths[p].local == ws[i].paths[p].local
    ensures ws[j].paths[p].remote == ws[i].paths[p].remote
    ensures ws[j].paths[p].versions == ws[i].paths[p].versions
    ensures BaseOf(ws[j].paths[p].record) == BaseOf(ws[i].paths[p].record)
  {
    if i < j {
      NothingAppliedAgain(ws, es, s, hashed, i, j - 1, p);
      RunsAreSound(ws, es, s, hashed, j - 1);
      QuiescentStep(ws[j - 1], es[j - 1], s, hashed, p);
    }
  }

  /**
   The process dies after a transfer took effect and before its commit. However the run goes on,
   until the path is edited the bridge only converges on or accepts what is there: never a second
   transfer, never a deletion.
   */
  lemma CrashAfterTransferIsHarmless(
      ws: seq<World>, es: seq<Step>, s: Settings, hashed: bool, i: nat, j: nat, p: Path)
    requires IsRun(ws, es, s, hashed) && i < j < |ws| && p in ws[i].paths
    requires ws[i].paths[p].phase.Transferring? && es[i].Crash? && p in es[i].landed
    requires forall k :: i < k < j ==> !(es[k].Edit? && es[k].p == p)
    ensures p in ws[i + 1].paths && p in ws[j].paths && Settled(ws[j].paths[p])
    ensures ws[j].paths[p].local == ws[i + 1].paths[p].local
    ensures ws[j].paths[p].remote == ws[i + 1].paths[p].remote
  {
    RunsAreSound(ws, es, s, hashed, i);
    AgreementIsStable(ws, es, s, hashed, i + 1, j, p);
  }

  /** The next decision after such a crash, for any base the store may hold by then. */
  lemma DecisionAfterCrash(local: Side, remote: Side, base: Side, config: DiffConfig, next: DiffConfig, laterBase: Side)
    requires !Inert(Decide(local, remote, base, config).action)
    requires !Decide(local, remote, base, config).action.Converge?
    ensures
      var action := Decide(local, remote, base, config).action;
      var local', remote' := LocalAfter(action, local, remote), RemoteAfter(action, local, remote);
      !PathOverride(local', remote', next) ==>
        var again := Decide(local', remote', laterBase, next).action;
        again.Noop? || again.Converge?
  {
  }

  // ---------------------------------------------------------------------------
  // An outage leaves no trace
  // ---------------------------------------------------------------------------

  /** Cycles find the server offline and read nothing from it; nobody asks for a resync. */
  predicate OutageStep(e: Step) {
    && (e.BeginCycle? ==> !e.online)
    && (e.Resume? && e.port.StatAnswered? ==> !e.port.readable)
    && !e.Resync?
  }

  /** No reconcile has got past its stats, and what it read at its start is still the stored base. */
  predicate Waiting(ps: PathState) {
    || Resting(ps.phase)
    || (ps.phase.Statting? && BaseOf(ps.phase.record) == BaseOf(ps.record))
  }

  ghost predicate OutageWorld(w: World) {
    && (w.cycle.Some? ==> !w.cycle.value.online)
    && forall p :: p in w.paths ==> Waiting(w.paths[p])
  }

  lemma OutageStepKeepsPath(w: World, e: Step, s: Settings, hashed: bool, p: Path)
    requires OutageWorld(w) && Enabled(w, e, hashed) && OutageStep(e) && p in w.paths
    ensures
      var next := Next(w, e, s, hashed);
      && p in next.paths && Waiting(next.paths[p])
      && BaseOf(next.paths[p].record) == BaseOf(w.paths[p].record)
      && next.paths[p].versions == w.paths[p].versions
      && (!(e.Edit? && e.p == p) ==> next.paths[p].local == w.paths[p].local && next.paths[p].remote == w.paths[p].remote)
  {
    if e.Resume? && e.p == p && e.port.StatAnswered? {
      var ps := w.paths[p];
      UnreadableServerIsInert(ps.local, BaseOf(ps.phase.record), EffectiveConfig(e.port.config, false));
    }
  }

  lemma OutageStepKeepsWorld(w: World, e: Step, s: Settings, hashed: bool)
    requires OutageWorld(w) && Enabled(w, e, hashed) && OutageStep(e)
    ensures OutageWorld(Next(w, e, s, hashed))
    ensures Next(w, e, s, hashed).paths.Keys == w.paths.Keys
  {
    var next := Next(w, e, s, hashed);
    assert next.paths.Keys == w.paths.Keys;
    forall p | p in next.paths ensures Waiting(next.paths[p]) {
      OutageStepKeepsPath(w, e, s, hashed, p);
    }
  }

  /** What the two sides of a path would be had only people acted. */
  function EditsAlone(local: Side, remote: Side, es: seq<Step>, p: Path): (Side, Side) {
    if |es| == 0 then
      (local, remote)
    else
      var (l, r) := EditsAlone(local, remote, es[..|es| - 1], p);
      var e := es[|es| - 1];
      if e.Edit? && e.p == p then
        if e.side.LocalSide? then (e.content, r) else (l, e.content)
      else
        (l, r)
  }

  /**
   Through any number of offline cycles, failing stats and restarts, both sides hold exactly what
   people put there and the stored base is untouched; so every later decision is the one the same
   edits would have led to without the outage.
   */
  lemma {:induction false} OutageLeavesNoTrace(
      ws: seq<World>, es: seq<Step>, s: Settings, hashed: bool, j: nat, p: Path)
    requires IsRun(ws, es, s, hashed) && j < |ws| && p in ws[0].paths
    requires OutageWorld(ws[0])
    requires forall k :: 0 <= k < j ==> OutageStep(es[k])
    ensures OutageWorld(ws[j]) && p in ws[j].paths
    ensures
      var before, after := ws[0].paths[p], ws[j].paths[p];
      && (after.local, after.remote) == EditsAlone(before.local, before.remote, es[..j], p)
      && BaseOf(after.record) == BaseOf(before.record)
      && after.versions == before.versions
  {
    if j > 0 {
      OutageLeavesNoTrace(ws, es, s, hashed, j - 1, p);
      assert Steps(ws, es, j - 1, s, hashed);
      OutageStepKeepsPath(ws[j - 1], es[j - 1], s, hashed, p);
      OutageStepKeepsWorld(ws[j - 1], es[j - 1], s, hashed);
      assert es[..j][..j - 1] == es[..j - 1];
    }
  }

  // ---------------------------------------------------------------------------
  // What starts and forgets reconciles
  // ---------------------------------------------------------------------------

  /** A cycle the breaker admits queues exactly the listed paths and changes nothing else about any path. */
  lemma CycleQueuesListed(w: World, now: int, online: bool, listed: set<Path>, s: Settings, hashed: bool)
    requires Enabled(w, BeginCycle(now, online, listed), hashed)
    ensures
      var next := Next(w, BeginCycle(now, online, listed), s, hashed);
      && (next.cycle == Some(Cycle(now, online)) <==>
            !w.breaker.breaker.Open? || now - w.breaker.openedAt >= s.breakerCooldownMs)
      && (next.cycle.None? ==> next == w)
      && next.paths.Keys == w.paths.Keys
      && forall p :: p in w.paths ==>
           && next.paths[p] == w.paths[p].(phase := next.paths[p].phase)
           && next.paths[p].phase == if next.cycle.Some? && p in listed then Queued else Idle
  {
  }

  /** A restart lifts every quarantine and ends every reconcile, keeps every record, and starts with a closed breaker. */
  lemma RestartForgetsMemory(w: World, landed: set<Path>, s: Settings, hashed: bool)
    ensures
      var next := Next(w, Crash(landed), s, hashed);
      && next.paths.Keys == w.paths.Keys && next.cycle == None
      && next.breaker == BreakerState(Closed, 0, 0, false)
      && forall p :: p in w.paths ==>
           && next.paths[p].phase == Idle && !next.paths[p].quarantined && next.paths[p].record == w.paths[p].record
           && (p !in landed || Resting(w.paths[p].phase) || w.paths[p].phase.Statting? ==>
                 && next.paths[p].local == w.paths[p].local && next.paths[p].remote == w.paths[p].remote
                 && next.paths[p].versions == w.paths[p].versions)
  {
  }

  /** A full resync forgets every record and quarantine and closes the breaker; a reconcile in flight goes on. */
  lemma ResyncForgetsBases(w: World, s: Settings, hashed: bool)
    ensures
      var next := Next(w, Resync, s, hashed);
      && next.paths.Keys == w.paths.Keys && next.cycle == w.cycle
      && next.breaker.breaker == Closed && next.breaker.consecutiveFailures == 0
      && forall p :: p in w.paths ==> next.paths[p] == w.paths[p].(record := None, quarantined := false)
  {
  }

  // ---------------------------------------------------------------------------
  // Paths that are not to be touched
  // ---------------------------------------------------------------------------

  /** A start goes on to the stats exactly for a path that is let through, not quarantined and due. */
  lemma StartIsGuarded(w: World, s: Settings, hashed: bool, p: Path)
    requires Enabled(w, Start(p), hashed)
    ensures
      var before, after := w.paths[p], Next(w, Start(p), s, hashed).paths[p];
      && after == before.(phase := after.phase)
      && (after.phase.Idle? || after.phase == Statting(before.record))
      && (after.phase.Statting? <==>
            && (w.breaker.breaker.Closed? || (w.breaker.breaker.HalfOpen? && !w.breaker.probeUsed))
            && !before.quarantined
            && (before.record.Some? && before.record.value.nextRetryAt.Some? ==>
                  before.record.value.nextRetryAt.value <= w.cycle.value.now))
  {
  }

  /** A verdict is carried out only where no lock, no outage and no read-only mode forbids it. */
  lemma AvailabilityIsRespected(w: World, s: Settings, hashed: bool, p: Path, readable: bool, config: DiffConfig)
    requires Enabled(w, Resume(p, StatAnswered(readable, config)), hashed)
    ensures
      var phase := Next(w, Resume(p, StatAnswered(readable, config)), s, hashed).paths[p].phase;
      phase.Capturing? || phase.Transferring? ==>
        && (config.locked ==> phase.verdict.action !in {Pull, DeleteLocal})
        && (config.readOnly ==> phase.verdict.action !in {Push, DeleteRemote})
        && (config.serverOffline || !w.cycle.value.online ==> phase.verdict.action !in {Push, DeleteRemote, DeleteLocal})
  {
  }

  /** With none of these in the way the verdict is the table's own. */
  lemma AvailableIsDecided(w: World, s: Settings, hashed: bool, p: Path, readable: bool, config: DiffConfig)
    requires Enabled(w, Resume(p, StatAnswered(readable, config)), hashed) && w.cycle.value.online
    ensures
      var ps := w.paths[p];
      var phase := Next(w, Resume(p, StatAnswered(readable, config)), s, hashed).paths[p].phase;
      var v := Decide(ps.local, ps.remote, BaseOf(ps.phase.record), config);
      if v.action in {Noop, Exclude, Skip, Error, Defer} then phase == Idle
      else (phase.Capturing? || phase.Transferring?) && phase.verdict == v && (phase.Capturing? <==> v.capture.Some?)
  {
  }

  /** From here on only outside edits have changed the two sides, and no version was stored. */
  predicate OnlyEdited(before: PathState, after: PathState, es: seq<Step>, p: Path) {
    && (after.local, after.remote) == EditsAlone(before.local, before.remote, es, p)
    && after.versions == before.versions
  }

  /** The same for one step. */
  predicate OnlyEditedBy(before: PathState, after: PathState, e: Step, p: Path) {
    var edited := e.Edit? && e.p == p;
    && after.local == (if edited && e.side.LocalSide? then e.content else before.local)
    && after.remote == (if edited && e.side.RemoteSide? then e.content else before.remote)
    && after.versions == before.versions
  }

  lemma OneMoreEdited(before: PathState, mid: PathState, after: PathState, es: seq<Step>, i: nat, j: nat, p: Path)
    requires i < j <= |es| && OnlyEdited(before, mid, es[i..j - 1], p)
    requires OnlyEditedBy(mid, after, es[j - 1], p)
    ensures OnlyEdited(before, after, es[i..j], p)
  {
    var edits := es[i..j];
    assert edits[..|edits| - 1] == es[i..j - 1] && edits[|edits| - 1] == es[j - 1];
  }

  /** A resting path that is not started is only edited. */
  lemma RestingStep(w: World, e: Step, s: Settings, hashed: bool, p: Path)
    requires Enabled(w, e, hashed) && p in w.paths && Resting(w.paths[p].phase)
    requires e == Start(p) ==> !Next(w, e, s, hashed).paths[p].phase.Statting?
    ensures
      var next := Next(w, e, s, hashed);
      && p in next.paths && Resting(next.paths[p].phase) && OnlyEditedBy(w.paths[p], next.paths[p], e, p)
      && (!e.Resync? ==> next.paths[p].record == w.paths[p].record)
      && (!e.Resync? && !e.Crash? && e != Lift(p) ==> next.paths[p].quarantined == w.paths[p].quarantined)
  {
    if e == Start(p) { StartIsGuarded(w, s, hashed, p); }
  }

  /** A quarantined path is left alone by every cycle until it is released, a resync is asked for or the process restarts. */
  lemma {:induction false} QuarantinedIsLeftAlone(
      ws: seq<World>, es: seq<Step>, s: Settings, hashed: bool, i: nat, j: nat, p: Path)
    requires IsRun(ws, es, s, hashed) && i <= j < |ws| && p in ws[i].paths
    requires ws[i].paths[p].quarantined && Resting(ws[i].paths[p].phase)
    requires forall k :: i <= k < j ==> es[k] != Lift(p) && !es[k].Resync? && !es[k].Crash?
    ensures p in ws[j].paths && ws[j].paths[p].quarantined && Resting(ws[j].paths[p].phase)
    ensures OnlyEdited(ws[i].paths[p], ws[j].paths[p], es[i..j], p) && ws[j].paths[p].record == ws[i].paths[p].record
  {
    if i < j {
      QuarantinedIsLeftAlone(ws, es, s, hashed, i, j - 1, p);
      assert Steps(ws, es, j - 1, s, hashed);
      if es[j - 1] == Start(p) { StartIsGuarded(ws[j - 1], s, hashed, p); }
      RestingStep(ws[j - 1], es[j - 1], s, hashed, p);
      OneMoreEdited(ws[i].paths[p], ws[j - 1].paths[p], ws[j].paths[p], es, i, j, p);
    }
  }

  /** The cycle, if one is running, started before that time. */
  predicate CycleBefore(w: World, time: int) {
    w.cycle.Some? ==> w.cycle.value.now < time
  }

  /** A path with a retry time is left alone by every cycle that starts before it, across restarts. */
  lemma {:induction false} BackoffIsLeftAlone(
      ws: seq<World>, es: seq<Step>, s: Settings, hashed: bool, i: nat, j: nat, p: Path, due: int)
    requires IsRun(ws, es, s, hashed) && i <= j < |ws| && p in ws[i].paths && CycleBefore(ws[i], due)
    requires ws[i].paths[p].record.Some? && ws[i].paths[p].record.value.nextRetryAt == Some(due)
    requires Resting(ws[i].paths[p].phase)
    requires forall k :: i <= k < j ==> !es[k].Resync? && (es[k].BeginCycle? ==> es[k].now < due)
    ensures p in ws[j].paths && Resting(ws[j].paths[p].phase) && CycleBefore(ws[j], due)
    ensures OnlyEdited(ws[i].paths[p], ws[j].paths[p], es[i..j], p) && ws[j].paths[p].record == ws[i].paths[p].record
  {
    if i < j {
      BackoffIsLeftAlone(ws, es, s, hashed, i, j - 1, p, due);
      assert Steps(ws, es, j - 1, s, hashed);
      if es[j - 1] == Start(p) { StartIsGuarded(ws[j - 1], s, hashed, p); }
      RestingStep(ws[j - 1], es[j - 1], s, hashed, p);
      OneMoreEdited(ws[i].paths[p], ws[j - 1].paths[p], ws[j].paths[p], es, i, j, p);
    }
  }

  /**
   After any call of a reconcile failed, its path is not started again, and only edits change it,
   before the backoff for that many failures is over.
   */
  lemma FailureIsBackedOff(
      ws: seq<World>, es: seq<Step>, s: Settings, hashed: bool, i: nat, j: nat, p: Path, port: Port)
    requires IsRun(ws, es, s, hashed) && i < j < |ws| && es[i] == Resume(p, port) && FailedAt(port).Some?
    requires Steps(ws, es, i, s, hashed)
    requires
      var due := FailedAt(port).value + BackoffAfter(RetriesOf(ws[i].paths[p].phase.record), s.retryDelaysMs);
      CycleBefore(ws[i], due) && forall k :: i < k < j ==> !es[k].Resync? && (es[k].BeginCycle? ==> es[k].now < due)
    ensures p in ws[i].paths && p in ws[i + 1].paths && p in ws[j].paths
    ensures Resting(ws[j].paths[p].phase) && OnlyEdited(ws[i + 1].paths[p], ws[j].paths[p], es[i + 1..j], p)
    ensures ws[j].paths[p].record.Some?
      && ws[j].paths[p].record.value.retryCount == RetriesOf(ws[i].paths[p].phase.record) + 1
  {
    var retries := RetriesOf(ws[i].paths[p].phase.record);
    RetryDelayIsBackoff(retries, s.retryDelaysMs);
    BackoffIsLeftAlone(ws, es, s, hashed, i + 1, j, p, FailedAt(port).value + BackoffAfter(retries, s.retryDelaysMs));
  }

  /** The stats of this path, if this step answers them, show it excluded, colliding or too large. */
  predicate RuledOut(w: World, e: Step, p: Path) {
    e.Resume? && e.p == p && e.port.StatAnswered? && p in w.paths && w.cycle.Some? ==>
      var ps, config := w.paths[p], e.port.config;
      || config.excluded || config.caseCollision
      || (ps.local.Some? && ps.local.value.size > config.maxFileSizeBytes)
      || (ps.remote.Some? && (w.cycle.value.online || e.port.readable) && ps.remote.value.size > config.maxFileSizeBytes)
  }

  /** A path that every look finds excluded, colliding or too large is never captured or transferred. */
  lemma {:induction false} RuledOutIsLeftAlone(
      ws: seq<World>, es: seq<Step>, s: Settings, hashed: bool, i: nat, j: nat, p: Path)
    requires IsRun(ws, es, s, hashed) && i <= j < |ws| && p in ws[i].paths
    requires Resting(ws[i].paths[p].phase) || ws[i].paths[p].phase.Statting?
    requires forall k :: i <= k < j ==> RuledOut(ws[k], es[k], p)
    ensures p in ws[j].paths && (Resting(ws[j].paths[p].phase) || ws[j].paths[p].phase.Statting?)
    ensures OnlyEdited(ws[i].paths[p], ws[j].paths[p], es[i..j], p)
  {
    if i < j {
      RuledOutIsLeftAlone(ws, es, s, hashed, i, j - 1, p);
      assert Steps(ws, es, j - 1, s, hashed);
      RuledOutStep(ws[j - 1], es[j - 1], s, hashed, p);
      OneMoreEdited(ws[i].paths[p], ws[j - 1].paths[p], ws[j].paths[p], es, i, j, p);
    }
  }

  lemma RuledOutStep(w: World, e: Step, s: Settings, hashed: bool, p: Path)
    requires Enabled(w, e, hashed) && p in w.paths && RuledOut(w, e, p)
    requires Resting(w.paths[p].phase) || w.paths[p].phase.Statting?
    ensures
      var next := Next(w, e, s, hashed);
      && p in next.paths && (Resting(next.paths[p].phase) || next.paths[p].phase.Statting?)
      && OnlyEditedBy(w.paths[p], next.paths[p], e, p)
  {
    if e == Start(p) { StartIsGuarded(w, s, hashed, p); }
  }
}
