/**
 The lock rows, the byte-range holder processes and the server files' write bits, as one state changed
 by the steps the lock manager takes. The process may die between any two steps: the rows and the file
 modes outlive it, the holders do not.
 */
module LockTable {
  import opened Wrappers

  datatype Origin = Machine | Manual | Schedule | Sync

  datatype Projection = NoProjection | Sidecar | ByteRange

  datatype LockRow = LockRow(
    share: nat, path: string, origin: Origin, machineIp: Option<string>, projection: Projection,
    projected: bool, readOnlyApplied: bool, acquiredAt: int, expiresAt: Option<int>, releasedAt: Option<int>)
  {
    predicate Active() { releasedAt.None? }

    function Key(): (nat, string) { (share, path) }
  }

  /** Where a share is mounted, and how a path below a mount point is spelled out. */
  datatype Site = Site(mountOf: nat -> Option<string>, join: (string, string) -> string)

  /** The server file a row is about, when its share has a mount point. */
  function TargetOf(site: Site, row: LockRow): Option<string> {
    var mount := site.mountOf(row.share);
    if mount.None? then None else Some(site.join(mount.value, row.path))
  }

  // -- File modes -------------------------------------------------------------

  /** Write bits for user, group and other, octal 222, and those given back, octal 220. */
  const WRITE_BITS: bv16 := 0x92
  const RESTORED_BITS: bv16 := 0x90

  predicate ReadOnly(mode: bv16) { mode & WRITE_BITS == 0 }

  function Protected(mode: bv16): (r: bv16)
    ensures ReadOnly(r) && SameOtherBits(r, mode)
  {
    mode & !WRITE_BITS
  }

  function Restored(mode: bv16): (r: bv16)
    ensures !ReadOnly(r) && SameOtherBits(r, mode)
  {
    mode | RESTORED_BITS
  }

  predicate SameOtherBits(a: bv16, b: bv16) { a & !WRITE_BITS == b & !WRITE_BITS }

  /** The write bits of user, group and other, one by one. */
  predicate SomebodyWrites(mode: bv16) {
    mode & 0x80 != 0 || mode & 0x10 != 0 || mode & 0x02 != 0
  }

  lemma ReadOnlyMeansNobodyWrites(mode: bv16)
    ensures ReadOnly(mode) <==> !SomebodyWrites(mode)
  {
  }

  /** Removing permission clears those three bits and no other. */
  lemma ProtectedBitByBit(mode: bv16)
    ensures Protected(mode) & 0x80 == 0 && Protected(mode) & 0x10 == 0 && Protected(mode) & 0x02 == 0
    ensures Protected(mode) | 0x92 == mode | 0x92
  {
  }

  /** Giving it back sets the bits of user and group and no other. */
  lemma RestoredBitByBit(mode: bv16)
    ensures Restored(mode) & 0x80 != 0 && Restored(mode) & 0x10 != 0
    ensures Restored(mode) | 0x90 == mode | 0x90
  {
  }

  // -- Steps ------------------------------------------------------------------

  /** The holders are those of the running process, by row number. */
  datatype Store = Store(rows: seq<LockRow>, held: set<nat>, modes: map<string, bv16>)

  datatype Step =
    | Insert(row: LockRow)
    | Hold(id: nat)
    | TakeWrite(id: nat)
    | Project(id: nat, ok: bool)
    | Release(id: nat, at: int)
    | GiveBack(id: nat)
    | HolderExits(id: nat)
    | ProcessEnds

  /** A row as inserted: active, projected nowhere, owing nothing. */
  predicate Fresh(row: LockRow) {
    row.Active() && !row.projected && !row.readOnlyApplied
  }

  predicate Free(rows: seq<LockRow>, key: (nat, string)) {
    forall i {:trigger rows[i]} :: 0 <= i < |rows| && rows[i].Active() ==> rows[i].Key() != key
  }

  predicate Enabled(site: Site, s: Store, step: Step) {
    match step
    case Insert(row) => Fresh(row) && Free(s.rows, row.Key())
    case Hold(id) => id < |s.rows| && s.rows[id].Active() && s.rows[id].projection.ByteRange?
    case TakeWrite(id) =>
      && id < |s.rows| && s.rows[id].Active()
      && var target := TargetOf(site, s.rows[id]);
         target.Some? && target.value in s.modes && !ReadOnly(s.modes[target.value])
    case Project(id, _) => id < |s.rows| && s.rows[id].Active()
    case Release(id, _) => id < |s.rows| && s.rows[id].Active()
    case GiveBack(id) =>
      && id < |s.rows| && !s.rows[id].Active() && s.rows[id].readOnlyApplied
      && var target := TargetOf(site, s.rows[id]);
         target.Some? && target.value in s.modes
    case HolderExits(id) => id in s.held && id < |s.rows|
    case ProcessEnds => true
  }

  function Apply(site: Site, s: Store, step: Step): Store
    requires Enabled(site, s, step)
  {
    match step
    case Insert(row) => s.(rows := s.rows + [row])
    case Hold(id) => s.(held := s.held + {id})
    case TakeWrite(id) =>
      var target := TargetOf(site, s.rows[id]).value;
      s.(rows := s.rows[id := s.rows[id].(readOnlyApplied := true)],
         modes := s.modes[target := Protected(s.modes[target])])
    case Project(id, ok) => s.(rows := s.rows[id := s.rows[id].(projected := ok)])
    case Release(id, at) => s.(rows := s.rows[id := s.rows[id].(releasedAt := Some(at))], held := s.held - {id})
    case GiveBack(id) =>
      var target := TargetOf(site, s.rows[id]).value;
      s.(rows := s.rows[id := s.rows[id].(readOnlyApplied := false)],
         modes := s.modes[target := Restored(s.modes[target])])
    case HolderExits(id) => s.(rows := Unprojected(s.rows, id), held := s.held - {id})
    case ProcessEnds => s.(held := {})
  }

  /** A loss is recorded only on a row that is still active. */
  function Unprojected(rows: seq<LockRow>, id: nat): seq<LockRow>
    requires id < |rows|
  {
    if rows[id].Active() then rows[id := rows[id].(projected := false)] else rows
  }

  ghost predicate Legal(site: Site, start: Store, steps: seq<Step>)
    decreases |steps|, 0
  {
    if |steps| == 0 then true
    else
      && Legal(site, start, steps[..|steps| - 1])
      && Enabled(site, Run(site, start, steps[..|steps| - 1]), steps[|steps| - 1])
  }

  ghost function Run(site: Site, start: Store, steps: seq<Step>): Store
    requires Legal(site, start, steps)
    decreases |steps|, 1
  {
    if |steps| == 0 then start
    else Apply(site, Run(site, start, steps[..|steps| - 1]), steps[|steps| - 1])
  }

  lemma RunOneMore(site: Site, start: Store, steps: seq<Step>, step: Step)
    requires Legal(site, start, steps) && Enabled(site, Run(site, start, steps), step)
    ensures Legal(site, start, steps + [step])
    ensures Run(site, start, steps + [step]) == Apply(site, Run(site, start, steps), step)
  {
    assert (steps + [step])[..|steps|] == steps;
  }

  // -- What every run keeps ---------------------------------------------------

  ghost predicate OneActivePerPath(rows: seq<LockRow>) {
    forall i, j :: 0 <= i < j < |rows| && rows[i].Active() && rows[j].Active() ==> rows[i].Key() != rows[j].Key()
  }

  ghost predicate HoldersActive(s: Store) {
    forall id :: id in s.held ==> id < |s.rows| && s.rows[id].Active() && s.rows[id].projection.ByteRange?
  }

  predicate Owes(site: Site, row: LockRow, file: string) {
    row.readOnlyApplied && TargetOf(site, row) == Some(file)
  }

  /** A row recording a debt is about a file that was writable and is read-only now, and no other row is. */
  ghost predicate DebtsReal(site: Site, initial: map<string, bv16>, s: Store) {
    && (forall i :: 0 <= i < |s.rows| && s.rows[i].readOnlyApplied ==>
          var target := TargetOf(site, s.rows[i]);
          && target.Some? && target.value in s.modes && target.value in initial
          && !ReadOnly(initial[target.value]) && ReadOnly(s.modes[target.value]))
    && (forall i, j :: 0 <= i < j < |s.rows| && s.rows[i].readOnlyApplied && s.rows[j].readOnlyApplied ==>
          TargetOf(site, s.rows[i]) != TargetOf(site, s.rows[j]))
  }

  /** A file that was read-only beforehand keeps its mode; any other is read-only only while a row owes it. */
  ghost predicate FilesCovered(site: Site, initial: map<string, bv16>, s: Store) {
    && s.modes.Keys == initial.Keys
    && (forall f :: f in initial ==>
          if ReadOnly(initial[f]) then s.modes[f] == initial[f]
          else
            && SameOtherBits(s.modes[f], initial[f])
            && (ReadOnly(s.modes[f]) ==> exists i :: 0 <= i < |s.rows| && Owes(site, s.rows[i], f)))
  }

  ghost predicate Sound(site: Site, initial: map<string, bv16>, s: Store) {
    OneActivePerPath(s.rows) && HoldersActive(s) && DebtsReal(site, initial, s) && FilesCovered(site, initial, s)
  }

  lemma RowsOnly(site: Site, initial: map<string, bv16>, s: Store, t: Store, step: Step)
    requires Sound(site, initial, s) && Enabled(site, s, step) && t == Apply(site, s, step)
    requires !step.TakeWrite? && !step.GiveBack?
    ensures DebtsReal(site, initial, t) && FilesCovered(site, initial, t)
  {
    assert t.modes == s.modes && |t.rows| >= |s.rows|;
    assert forall i :: 0 <= i < |s.rows| ==>
      t.rows[i].readOnlyApplied == s.rows[i].readOnlyApplied && TargetOf(site, t.rows[i]) == TargetOf(site, s.rows[i]);
    forall f | f in initial && !ReadOnly(initial[f]) && ReadOnly(t.modes[f])
      ensures exists i :: 0 <= i < |t.rows| && Owes(site, t.rows[i], f)
    {
      var i :| 0 <= i < |s.rows| && Owes(site, s.rows[i], f);
      assert Owes(site, t.rows[i], f);
    }
  }

  lemma TakingIncursDebt(site: Site, initial: map<string, bv16>, s: Store, id: nat)
    requires Sound(site, initial, s) && Enabled(site, s, TakeWrite(id))
    ensures DebtsReal(site, initial, Apply(site, s, TakeWrite(id)))
    ensures FilesCovered(site, initial, Apply(site, s, TakeWrite(id)))
  {
    var t := Apply(site, s, TakeWrite(id));
    var target := TargetOf(site, s.rows[id]).value;
    assert forall i :: 0 <= i < |s.rows| ==> TargetOf(site, t.rows[i]) == TargetOf(site, s.rows[i]);
    forall f | f in initial && !ReadOnly(initial[f]) && ReadOnly(t.modes[f])
      ensures exists i :: 0 <= i < |t.rows| && Owes(site, t.rows[i], f)
    {
      if f == target {
        assert Owes(site, t.rows[id], f);
      } else {
        var i :| 0 <= i < |s.rows| && Owes(site, s.rows[i], f);
        assert Owes(site, t.rows[i], f);
      }
    }
  }

  lemma GivingBackSettlesDebt(site: Site, initial: map<string, bv16>, s: Store, id: nat)
    requires Sound(site, initial, s) && Enabled(site, s, GiveBack(id))
    ensures DebtsReal(site, initial, Apply(site, s, GiveBack(id)))
    ensures FilesCovered(site, initial, Apply(site, s, GiveBack(id)))
  {
    var t := Apply(site, s, GiveBack(id));
    var target := TargetOf(site, s.rows[id]).value;
    assert forall i :: 0 <= i < |s.rows| ==> TargetOf(site, t.rows[i]) == TargetOf(site, s.rows[i]);
    forall f | f in initial && !ReadOnly(initial[f]) && ReadOnly(t.modes[f])
      ensures exists i :: 0 <= i < |t.rows| && Owes(site, t.rows[i], f)
    {
      assert f != target;
      var i :| 0 <= i < |s.rows| && Owes(site, s.rows[i], f);
      assert i != id;
      assert Owes(site, t.rows[i], f);
    }
  }

  lemma LocksStayUnique(site: Site, s: Store, step: Step)
    requires OneActivePerPath(s.rows) && Enabled(site, s, step)
    ensures OneActivePerPath(Apply(site, s, step).rows)
  {
  }

  lemma HoldersStayActive(site: Site, s: Store, step: Step)
    requires HoldersActive(s) && Enabled(site, s, step)
    ensures HoldersActive(Apply(site, s, step))
  {
  }

  lemma StepKeepsSound(site: Site, initial: map<string, bv16>, s: Store, step: Step)
    requires Sound(site, initial, s) && Enabled(site, s, step)
    ensures Sound(site, initial, Apply(site, s, step))
  {
    LocksStayUnique(site, s, step);
    HoldersStayActive(site, s, step);
    match step
    case TakeWrite(id) => TakingIncursDebt(site, initial, s, id);
    case GiveBack(id) => GivingBackSettlesDebt(site, initial, s, id);
    case _ => RowsOnly(site, initial, s, Apply(site, s, step), step);
  }

  /** A first start: no rows and no holders. */
  function Empty(modes: map<string, bv16>): Store { Store([], {}, modes) }

  /**
   Over every run, whatever fails and wherever the process dies: at most one active lock per path;
   every holder belongs to an active row; a file is read-only exactly when it was so beforehand or a
   row records that the lock manager made it so; and no mode bit other than the write bits changes.
   */
  lemma {:induction false} RunsAreSound(site: Site, initial: map<string, bv16>, steps: seq<Step>)
    requires Legal(site, Empty(initial), steps)
    ensures Sound(site, initial, Run(site, Empty(initial), steps))
  {
    if |steps| > 0 {
      RunsAreSound(site, initial, steps[..|steps| - 1]);
      StepKeepsSound(site, initial, Run(site, Empty(initial), steps[..|steps| - 1]), steps[|steps| - 1]);
    }
  }

  /** That includes a process dying after any of its steps. */
  lemma DeathAnywhere(site: Site, initial: map<string, bv16>, steps: seq<Step>, n: nat)
    requires Legal(site, Empty(initial), steps) && n <= |steps|
    ensures Legal(site, Empty(initial), steps[..n] + [ProcessEnds])
    ensures
      var s := Run(site, Empty(initial), steps[..n] + [ProcessEnds]);
      Sound(site, initial, s) && s.held == {}
  {
    RowsOnlyGrow(site, Empty(initial), steps, n);
    RunOneMore(site, Empty(initial), steps[..n], ProcessEnds);
    RunsAreSound(site, initial, steps[..n] + [ProcessEnds]);
  }

  /** The same, file by file. */
  lemma ReadOnlyDebt(site: Site, initial: map<string, bv16>, steps: seq<Step>, f: string)
    requires Legal(site, Empty(initial), steps) && f in initial
    ensures
      var s := Run(site, Empty(initial), steps);
      && f in s.modes
      && (ReadOnly(initial[f]) ==> s.modes[f] == initial[f])
      && (ReadOnly(s.modes[f]) <==> ReadOnly(initial[f]) || exists i :: 0 <= i < |s.rows| && Owes(site, s.rows[i], f))
  {
    RunsAreSound(site, initial, steps);
  }

  /** A lock that took the write bits itself protects its file for as long as it is active. */
  lemma {:induction false} OwnDebtLasts(site: Site, start: Store, steps: seq<Step>, n: nat, id: nat)
    requires Legal(site, start, steps) && n <= |steps|
    requires Legal(site, start, steps[..n])
    requires id < |Run(site, start, steps[..n]).rows| && Run(site, start, steps[..n]).rows[id].readOnlyApplied
    requires id < |Run(site, start, steps).rows| && Run(site, start, steps).rows[id].Active()
    ensures Run(site, start, steps).rows[id].readOnlyApplied
  {
    if n < |steps| {
      var init := steps[..|steps| - 1];
      assert init[..n] == steps[..n];
      RowsOnlyGrow(site, start, init, n);
      OwnDebtLasts(site, start, init, n, id);
    } else {
      assert steps[..n] == steps;
    }
  }

  lemma {:induction false} RowsOnlyGrow(site: Site, start: Store, steps: seq<Step>, n: nat)
    requires Legal(site, start, steps) && n <= |steps|
    ensures Legal(site, start, steps[..n])
    ensures |Run(site, start, steps[..n]).rows| <= |Run(site, start, steps).rows|
  {
    if n < |steps| {
      assert steps[..|steps| - 1][..n] == steps[..n];
      RowsOnlyGrow(site, start, steps[..|steps| - 1], n);
    } else {
      assert steps[..n] == steps;
    }
  }

  lemma {:induction false} ContinuationSound(site: Site, initial: map<string, bv16>, s: Store, steps: seq<Step>)
    requires Sound(site, initial, s) && Legal(site, s, steps)
    ensures Sound(site, initial, Run(site, s, steps))
  {
    if |steps| > 0 {
      ContinuationSound(site, initial, s, steps[..|steps| - 1]);
      StepKeepsSound(site, initial, Run(site, s, steps[..|steps| - 1]), steps[|steps| - 1]);
    }
  }

  lemma {:induction false} TargetsStay(site: Site, s: Store, steps: seq<Step>, id: nat)
    requires Legal(site, s, steps) && id < |s.rows|
    ensures
      var t := Run(site, s, steps);
      id < |t.rows| && TargetOf(site, t.rows[id]) == TargetOf(site, s.rows[id]) && t.modes.Keys == s.modes.Keys
  {
    if |steps| > 0 {
      TargetsStay(site, s, steps[..|steps| - 1], id);
    }
  }

  /** Some way on from here leaves the lock active and its file open to writing. */
  ghost predicate CanBeOpened(site: Site, s: Store, id: nat, f: string) {
    exists steps {:trigger Legal(site, s, steps)} ::
      Legal(site, s, steps)
      && var t := Run(site, s, steps);
         id < |t.rows| && t.rows[id].Active() && f in t.modes && !ReadOnly(t.modes[f])
  }

  /** The lock took the write bits itself, or nobody had any. */
  predicate Secured(initial: map<string, bv16>, row: LockRow, f: string)
    requires f in initial
  {
    row.readOnlyApplied || ReadOnly(initial[f])
  }

  lemma SecuredStaysClosed(site: Site, initial: map<string, bv16>, s: Store, id: nat, f: string, steps: seq<Step>)
    requires Sound(site, initial, s) && id < |s.rows| && TargetOf(site, s.rows[id]) == Some(f) && f in s.modes
    requires Secured(initial, s.rows[id], f)
    requires Legal(site, s, steps)
    requires id < |Run(site, s, steps).rows| && Run(site, s, steps).rows[id].Active()
    ensures f in Run(site, s, steps).modes && ReadOnly(Run(site, s, steps).modes[f])
  {
    ContinuationSound(site, initial, s, steps);
    TargetsStay(site, s, steps, id);
    if !ReadOnly(initial[f]) {
      assert steps[..0] == [];
      OwnDebtLasts(site, s, steps, 0, id);
    }
  }

  /** Another row owes the file: ending that row and paying its debt opens it. */
  lemma UnsecuredOpens(site: Site, initial: map<string, bv16>, s: Store, id: nat, f: string)
    requires Sound(site, initial, s) && id < |s.rows| && s.rows[id].Active()
    requires TargetOf(site, s.rows[id]) == Some(f) && f in s.modes && ReadOnly(s.modes[f])
    requires !Secured(initial, s.rows[id], f)
    ensures CanBeOpened(site, s, id, f)
  {
    var i :| 0 <= i < |s.rows| && Owes(site, s.rows[i], f);
    var steps: seq<Step> := [];
    var t := s;
    if s.rows[i].Active() {
      steps := Then(site, s, steps, t, Release(i, 0));
      t := Apply(site, t, Release(i, 0));
    }
    steps := Then(site, s, steps, t, GiveBack(i));
  }

  /**
   Take an active lock whose file is read-only. However things go on, the file stays read-only for as
   long as the lock is active exactly when the lock's own row records the debt or the file was
   read-only before any lock. The row says so before any sweep is run.
   */
  lemma ProtectionIsOwnDebt(site: Site, initial: map<string, bv16>, s: Store, id: nat, f: string)
    requires Sound(site, initial, s) && id < |s.rows| && s.rows[id].Active()
    requires TargetOf(site, s.rows[id]) == Some(f) && f in s.modes && ReadOnly(s.modes[f])
    ensures !CanBeOpened(site, s, id, f) <==> Secured(initial, s.rows[id], f)
  {
    if Secured(initial, s.rows[id], f) {
      forall steps | Legal(site, s, steps) && id < |Run(site, s, steps).rows| && Run(site, s, steps).rows[id].Active()
        ensures f in Run(site, s, steps).modes && ReadOnly(Run(site, s, steps).modes[f])
      {
        SecuredStaysClosed(site, initial, s, id, f, steps);
      }
    } else {
      UnsecuredOpens(site, initial, s, id, f);
    }
  }

  lemma StepUnprotects(site: Site, s: Store, step: Step, f: string)
    requires Enabled(site, s, step) && f in s.modes && ReadOnly(s.modes[f])
    requires f in Apply(site, s, step).modes && !ReadOnly(Apply(site, s, step).modes[f])
    ensures step.GiveBack? && step.id < |s.rows| && !s.rows[step.id].Active() && Owes(site, s.rows[step.id], f)
  {
  }

  /**
   A file once read-only becomes writable only when a debt recorded against it is settled, and that is
   a released row's: never the row of a lock still active.
   */
  lemma {:induction false} UnprotectedByOlderDebt(site: Site, start: Store, steps: seq<Step>, n: nat, f: string)
    returns (k: nat)
    requires Legal(site, start, steps) && n <= |steps|
    requires Legal(site, start, steps[..n])
    requires f in Run(site, start, steps[..n]).modes && ReadOnly(Run(site, start, steps[..n]).modes[f])
    requires f in Run(site, start, steps).modes && !ReadOnly(Run(site, start, steps).modes[f])
    ensures n <= k < |steps| && steps[k].GiveBack? && Legal(site, start, steps[..k])
    ensures
      var s := Run(site, start, steps[..k]);
      steps[k].id < |s.rows| && !s.rows[steps[k].id].Active() && Owes(site, s.rows[steps[k].id], f)
  {
    assert steps[..|steps|] == steps;
    assert n < |steps|;
    var init := steps[..|steps| - 1];
    var before := Run(site, start, init);
    assert init[..n] == steps[..n];
    assert f in before.modes;
    if ReadOnly(before.modes[f]) {
      k := |steps| - 1;
      StepUnprotects(site, before, steps[k], f);
    } else {
      k := UnprotectedByOlderDebt(site, start, init, n, f);
      assert init[..k] == steps[..k];
    }
  }

  /**
   It does happen: a lock released while its share was away leaves a debt; the next lock on the path
   finds the file read-only already and records nothing; settling the old debt then opens the file
   under the active lock.
   */
  lemma SweepCanUnprotect(site: Site, row: LockRow, mode: bv16)
    requires Fresh(row) && row.projection.ByteRange? && TargetOf(site, row).Some? && !ReadOnly(mode)
    ensures
      var f := TargetOf(site, row).value;
      exists steps ::
        && Legal(site, Empty(map[f := mode]), steps)
        && var s := Run(site, Empty(map[f := mode]), steps);
           |s.rows| == 2 && s.rows[1].Active() && s.rows[1].projected && 1 in s.held
           && f in s.modes && !ReadOnly(s.modes[f])
  {
    var f := TargetOf(site, row).value;
    var start := Empty(map[f := mode]);
    var lost := row.(readOnlyApplied := true, projected := true, releasedAt := Some(0));
    var steps := Leftover(site, row, mode);
    steps := Then(site, start, steps, Store([lost], {}, map[f := Protected(mode)]), Insert(row));
    steps := Then(site, start, steps, Store([lost, row], {}, map[f := Protected(mode)]), Hold(1));
    steps := Then(site, start, steps, Store([lost, row], {1}, map[f := Protected(mode)]), Project(1, true));
    steps := Then(site, start, steps, Store([lost, row.(projected := true)], {1}, map[f := Protected(mode)]), GiveBack(0));
  }

  lemma Taken(site: Site, row: LockRow, f: string, mode: bv16, start: Store) returns (steps: seq<Step>)
    requires Fresh(row) && row.projection.ByteRange? && TargetOf(site, row) == Some(f) && !ReadOnly(mode)
    requires start == Empty(map[f := mode])
    ensures Legal(site, start, steps)
    ensures Run(site, start, steps) == Store([row.(readOnlyApplied := true)], {0}, map[f := Protected(mode)])
  {
    steps := Then(site, start, [], start, Insert(row));
    steps := Then(site, start, steps, Store([row], {}, start.modes), Hold(0));
    TakeAlone(site, row, f, mode);
    steps := Then(site, start, steps, Store([row], {0}, start.modes), TakeWrite(0));
  }

  lemma TakeAlone(site: Site, row: LockRow, f: string, mode: bv16)
    requires row.Active() && TargetOf(site, row) == Some(f) && !ReadOnly(mode)
    ensures
      var s := Store([row], {0}, map[f := mode]);
      && Enabled(site, s, TakeWrite(0))
      && Apply(site, s, TakeWrite(0)) == Store([row.(readOnlyApplied := true)], {0}, map[f := Protected(mode)])
  {
    assert map[f := mode][f := Protected(mode)] == map[f := Protected(mode)];
    assert [row][0 := row.(readOnlyApplied := true)] == [row.(readOnlyApplied := true)];
  }

  lemma Leftover(site: Site, row: LockRow, mode: bv16) returns (steps: seq<Step>)
    requires Fresh(row) && row.projection.ByteRange? && TargetOf(site, row).Some? && !ReadOnly(mode)
    ensures
      var f := TargetOf(site, row).value;
      && Legal(site, Empty(map[f := mode]), steps)
      && Run(site, Empty(map[f := mode]), steps)
         == Store([row.(readOnlyApplied := true, projected := true, releasedAt := Some(0))], {}, map[f := Protected(mode)])
  {
    var f := TargetOf(site, row).value;
    var start := Empty(map[f := mode]);
    var taken := row.(readOnlyApplied := true);
    steps := Taken(site, row, f, mode, start);
    steps := Then(site, start, steps, Store([taken], {0}, map[f := Protected(mode)]), Project(0, true));
    steps := Then(site, start, steps, Store([taken.(projected := true)], {0}, map[f := Protected(mode)]), Release(0, 0));
  }

  lemma Then(site: Site, start: Store, steps: seq<Step>, s: Store, step: Step) returns (more: seq<Step>)
    requires Legal(site, start, steps) && Run(site, start, steps) == s && Enabled(site, s, step)
    ensures Legal(site, start, more) && Run(site, start, more) == Apply(site, s, step)
  {
    more := steps + [step];
    RunOneMore(site, start, steps, step);
  }
}
