/**
 The sync engine's decision: a pure function from what the local cache holds, what the server
 holds and what both were last known to agree on (the base), to one action. The table of the
 source is followed arm by arm; what the table is for is stated by the lemmas underneath.
 */
module DiffEngine {
  import opened Wrappers

  /** One side's copy of a file. The hash is optional because it costs a full read. */
  datatype FileSide = FileSide(size: nat, mtime: int, hash: Option<string>)

  /** `None` means the file is absent on that side. */
  type Side = Option<FileSide>

  datatype ConflictMode = MachineWins | ServerWins | LastWriteWins

  datatype DiffConfig = DiffConfig(
    conflictMode: ConflictMode,
    mtimeToleranceMs: int,
    protectDeletes: bool,
    maxFileSizeBytes: int,
    excluded: bool,
    locked: bool,
    serverOffline: bool,
    readOnly: bool,
    caseCollision: bool)

  datatype Action =
    | Noop | Push | Pull | DeleteRemote | DeleteLocal | Converge
    | Defer | Exclude | Skip | Error

  datatype Which = LocalSide | RemoteSide

  /** What to do, and the side to store in the version store first, if any. */
  datatype Verdict = Verdict(action: Action, capture: Option<Which>)

  datatype SideChange = Absent | Created | Unchanged | Changed | Deleted

  // ---------------------------------------------------------------------------
  // Comparison
  // ---------------------------------------------------------------------------

  predicate SameContent(a: FileSide, b: FileSide) {
    if a.hash.Some? && b.hash.Some? then
      a.hash == b.hash
    else
      a.size == b.size && a.mtime == b.mtime
  }

  function ClassifySide(side: Side, base: Side): SideChange {
    if base.None? then
      if side.None? then Absent else Created
    else if side.None? then
      Deleted
    else if SameContent(side.value, base.value) then
      Unchanged
    else
      Changed
  }

  /** Whether `victim` holds content that is lost if `survivor` replaces it. */
  predicate NeedsCapture(victim: Side, survivor: Side) {
    victim.Some? && (survivor.None? || !SameContent(victim.value, survivor.value))
  }

  // ---------------------------------------------------------------------------
  // The decision
  // ---------------------------------------------------------------------------

  function LocalWins(local: Side, remote: Side, config: DiffConfig): bool {
    match config.conflictMode
    case MachineWins => true
    case ServerWins => false
    case LastWriteWins =>
      if local.None? || remote.None? then
        local.Some?
      else
        var difference := local.value.mtime - remote.value.mtime;
        Abs(difference) <= config.mtimeToleranceMs || difference > 0
  }

  function ResolveConflict(local: Side, remote: Side, config: DiffConfig): Verdict {
    if LocalWins(local, remote, config) then
      Verdict(
        if local.None? then DeleteRemote else Push,
        if remote.None? then None else Some(RemoteSide))
    else
      Verdict(
        if remote.None? then DeleteLocal else Pull,
        if local.None? then None else Some(LocalSide))
  }

  function DecideCore(local: Side, remote: Side, base: Side, config: DiffConfig): Verdict {
    match (ClassifySide(local, base), ClassifySide(remote, base))
    case (Absent, Absent) => Verdict(Noop, None)
    case (Created, Absent) => Verdict(Push, None)
    case (Absent, Created) => Verdict(Pull, None)
    case (Created, Created) =>
      if SameContent(local.value, remote.value) then Verdict(Converge, None)
      else ResolveConflict(local, remote, config)
    case (Unchanged, Unchanged) => Verdict(Noop, None)
    case (Changed, Unchanged) =>
      Verdict(Push, if NeedsCapture(remote, local) then Some(RemoteSide) else None)
    case (Unchanged, Changed) =>
      Verdict(Pull, if NeedsCapture(local, remote) then Some(LocalSide) else None)
    case (Deleted, Unchanged) =>
      if config.protectDeletes then Verdict(Pull, None)
      else Verdict(DeleteRemote, Some(RemoteSide))
    case (Unchanged, Deleted) =>
      if config.protectDeletes then Verdict(Push, None)
      else Verdict(DeleteLocal, Some(LocalSide))
    case (Deleted, Deleted) => Verdict(Noop, None)
    case (Changed, Changed) =>
      if SameContent(local.value, remote.value) then Verdict(Converge, None)
      else ResolveConflict(local, remote, config)
    case (Deleted, Changed) => ResolveConflict(local, remote, config)
    case (Changed, Deleted) => ResolveConflict(local, remote, config)
    // The last arm of the source's table, for a combination it calls unreachable.
    case _ => Verdict(Error, None)
  }

  /** Writes to or deletes from the server share. */
  predicate MutatesServer(action: Action) {
    action.Push? || action.DeleteRemote?
  }

  /** Writes to or deletes from the local cache. */
  predicate MutatesLocal(action: Action) {
    action.Pull? || action.DeleteLocal?
  }

  function ApplyAvailabilityOverrides(v: Verdict, config: DiffConfig): Verdict {
    var blocked :=
      if config.serverOffline then MutatesServer(v.action) || v.action.DeleteLocal?
      else MutatesServer(v.action);
    var current :=
      if (config.serverOffline || config.readOnly) && blocked then Verdict(Defer, None) else v;
    if config.locked && MutatesLocal(current.action) then Verdict(Defer, None) else current
  }

  function SizeOf(side: Side): nat {
    if side.None? then 0 else side.value.size
  }

  predicate DestroysData(local: Side, remote: Side, action: Action) {
    match action
    case Pull => NeedsCapture(local, remote)
    case Push => NeedsCapture(remote, local)
    case DeleteLocal => local.Some?
    case DeleteRemote => remote.Some?
    case _ => false
  }

  /**
   The verdict for one path. Its contract is the engine's invariant, for every input and every
   flag: a version is captured exactly when the action destroys content, and it is the victim's;
   an action always has something to copy, and a deletion only follows a side that is gone. An
   exclude pattern decides first, then a case collision, then the size limit, which a limit below
   zero puts in the way of every path.
   */
  function Decide(local: Side, remote: Side, base: Side, config: DiffConfig): (v: Verdict)
    ensures v.capture.Some? <==> DestroysData(local, remote, v.action)
    ensures v.capture.Some? && MutatesLocal(v.action) ==> v.capture.value.LocalSide?
    ensures v.capture.Some? && MutatesServer(v.action) ==> v.capture.value.RemoteSide?
    ensures v.action.Push? ==> local.Some?
    ensures v.action.Pull? ==> remote.Some?
    ensures v.action.DeleteLocal? ==> local.Some? && remote.None?
    ensures v.action.DeleteRemote? ==> remote.Some? && local.None?
    ensures v.action.Converge? ==> local.Some? && Agree(local, remote)
    ensures v.action.Exclude? <==> config.excluded
    ensures v.action.Error? <==> config.caseCollision && !config.excluded
    ensures v.action.Skip? <==>
      && !config.excluded && !config.caseCollision
      && (|| config.maxFileSizeBytes < 0
          || (local.Some? && local.value.size > config.maxFileSizeBytes)
          || (remote.Some? && remote.value.size > config.maxFileSizeBytes))
  {
    if config.excluded then
      Verdict(Exclude, None)
    else if config.caseCollision then
      Verdict(Error, None)
    else if Max(SizeOf(local), SizeOf(remote)) > config.maxFileSizeBytes then
      Verdict(Skip, None)
    else
      ApplyAvailabilityOverrides(DecideCore(local, remote, base, config), config)
  }

  // ---------------------------------------------------------------------------
  // What an action does to the two sides
  // ---------------------------------------------------------------------------

  function LocalAfter(action: Action, local: Side, remote: Side): Side {
    if action.Pull? then remote else if action.DeleteLocal? then None else local
  }

  function RemoteAfter(action: Action, local: Side, remote: Side): Side {
    if action.Push? then local else if action.DeleteRemote? then None else remote
  }

  /** Actions the orchestrator does not apply. */
  predicate Inert(action: Action) {
    action.Noop? || action.Exclude? || action.Skip? || action.Error? || action.Defer?
  }

  /** An exclude pattern, a case collision or the size limit decides before the table is read. */
  predicate PathOverride(local: Side, remote: Side, config: DiffConfig) {
    || config.excluded
    || config.caseCollision
    || Max(SizeOf(local), SizeOf(remote)) > config.maxFileSizeBytes
  }

  /** These three answers, and no others, come from a path override. */
  lemma OverridesDecideFirst(local: Side, remote: Side, base: Side, config: DiffConfig)
    ensures PathOverride(local, remote, config) <==> Decide(local, remote, base, config).action in {Exclude, Error, Skip}
  {
  }

  // ---------------------------------------------------------------------------
  // Agreement. `SameContent` is an equivalence when either every hash is known or none is.
  // ---------------------------------------------------------------------------

  predicate Agree(a: Side, b: Side) {
    a.Some? == b.Some? && (a.Some? ==> SameContent(a.value, b.value))
  }

  predicate HashesKnown(side: Side, hashed: bool) {
    side.Some? ==> side.value.hash.Some? == hashed
  }

  /** Either every side present carries a hash, or none does. */
  predicate Uniform(local: Side, remote: Side, base: Side, hashed: bool) {
    HashesKnown(local, hashed) && HashesKnown(remote, hashed) && HashesKnown(base, hashed)
  }

  lemma AgreeTransitive(a: Side, b: Side, c: Side, hashed: bool)
    requires Uniform(a, b, c, hashed)
    requires Agree(a, b) && Agree(b, c)
    ensures Agree(a, c)
  {
  }

  /** With only some hashes known, `SameContent` is not transitive and a file can look agreed twice. */
  lemma MixedHashesBreakAgreement()
    ensures exists local: Side, remote: Side, base: Side, config: DiffConfig ::
      && !PathOverride(local, remote, config)
      && Decide(local, remote, base, config).action.Noop?
      && !Agree(local, remote)
  {
    var local := Some(FileSide(1, 1, Some("x")));
    var remote := Some(FileSide(1, 1, Some("y")));
    var base := Some(FileSide(1, 1, None));
    var config := DiffConfig(LastWriteWins, 2000, false, 10, false, false, false, false, false);
    assert Decide(local, remote, base, config).action.Noop?;
    assert !PathOverride(local, remote, config) && !Agree(local, remote);
  }

  // ---------------------------------------------------------------------------
  // The table, stated by what it achieves
  // ---------------------------------------------------------------------------

  /**
   A three-way merge, written without reference to the table: agreement stands, a side that
   kept the base gives way to the side that did not (except that protected deletes are undone),
   and two different changes are settled by the conflict mode.
   */
  function Merged(local: Side, remote: Side, base: Side, config: DiffConfig): Side {
    if Agree(local, remote) then
      local
    else if Agree(local, base) then
      if remote.None? && config.protectDeletes then local else remote
    else if Agree(remote, base) then
      if local.None? && config.protectDeletes then remote else local
    else match config.conflictMode
      case MachineWins => local
      case ServerWins => remote
      case LastWriteWins =>
        if local.None? then remote
        else if remote.None? then local
        else
          var lead := remote.value.mtime - local.value.mtime;
          if lead >= 0 && lead > config.mtimeToleranceMs then remote else local
  }

  /** The flags that only say what may be touched now. */
  function Unrestricted(config: DiffConfig): DiffConfig {
    config.(locked := false, serverOffline := false, readOnly := false)
  }

  /** Carrying out the verdict leaves both sides with the merged content. */
  lemma DecisionIsThreeWayMerge(local: Side, remote: Side, base: Side, config: DiffConfig, hashed: bool)
    requires Uniform(local, remote, base, hashed)
    requires !PathOverride(local, remote, config)
    requires config == Unrestricted(config)
    ensures
      var action := Decide(local, remote, base, config).action;
      var merged := Merged(local, remote, base, config);
      && Agree(LocalAfter(action, local, remote), merged)
      && Agree(RemoteAfter(action, local, remote), merged)
  {
  }

  /**
   Work is skipped exactly when the sides agree, whatever the availability flags say, and the
   base is rewritten (`Converge`) exactly when the agreed content is not the base already.
   */
  lemma NothingToTransferIffAgreed(local: Side, remote: Side, base: Side, config: DiffConfig, hashed: bool)
    requires Uniform(local, remote, base, hashed)
    requires !PathOverride(local, remote, config)
    ensures
      var action := Decide(local, remote, base, config).action;
      && (action.Noop? || action.Converge? <==> Agree(local, remote))
      && (action.Converge? <==> Agree(local, remote) && local.Some? && !Agree(local, base))
  {
  }

  /** A flag forbids an action: the server cannot be written, or cannot be believed, or a machine has the file open. */
  predicate Forbidden(action: Action, config: DiffConfig) {
    || ((config.serverOffline || config.readOnly) && MutatesServer(action))
    || (config.serverOffline && action.DeleteLocal?)
    || (config.locked && MutatesLocal(action))
  }

  /** Availability never changes a decision into another one: it runs as it is, or it waits. */
  lemma AvailabilityOnlyDefers(local: Side, remote: Side, base: Side, config: DiffConfig)
    ensures
      var free := Decide(local, remote, base, Unrestricted(config));
      var v := Decide(local, remote, base, config);
      && !Forbidden(v.action, config)
      && v == (if Forbidden(free.action, config) then Verdict(Defer, None) else free)
  {
  }

  // ---------------------------------------------------------------------------
  // Symmetry
  // ---------------------------------------------------------------------------

  function MirrorAction(action: Action): Action {
    match action
    case Push => Pull
    case Pull => Push
    case DeleteLocal => DeleteRemote
    case DeleteRemote => DeleteLocal
    case other => other
  }

  function MirrorMode(mode: ConflictMode): ConflictMode {
    match mode
    case MachineWins => ServerWins
    case ServerWins => MachineWins
    case LastWriteWins => LastWriteWins
  }

  function MirrorConfig(config: DiffConfig): DiffConfig {
    config.(conflictMode := MirrorMode(config.conflictMode))
  }

  /** Two different files compete by time and their times do not decide. */
  predicate MtimeTie(local: Side, remote: Side, base: Side, config: DiffConfig) {
    && config.conflictMode.LastWriteWins?
    && local.Some? && remote.Some?
    && !Agree(local, base) && !Agree(remote, base) && !Agree(local, remote)
    && Abs(local.value.mtime - remote.value.mtime) <= Max(config.mtimeToleranceMs, 0)
  }

  /**
   Neither side is privileged: exchanging the sides and the two fixed conflict modes exchanges the
   action. The one exception is a tie between two times, and there the mirror law always fails.
   */
  lemma MirroredExceptForTies(local: Side, remote: Side, base: Side, config: DiffConfig)
    requires config == Unrestricted(config)
    requires !PathOverride(local, remote, config)
    ensures
      Decide(remote, local, base, MirrorConfig(config)).action
        == MirrorAction(Decide(local, remote, base, config).action)
      <==> !MtimeTie(local, remote, base, config)
  {
  }
}
