/** The lock manager: the operations over the lock table, each a run of the table's steps. */
module LockManager {
  import opened Wrappers
  import opened LockTable

  datatype Locking = Locking(enabled: bool, machineLockTtlS: int, projection: Projection)

  /** A request's own TTL: left to the configuration, or given, where none means held until released. */
  datatype Ttl = Configured | Given(seconds: Option<int>)

  datatype Request = Request(share: nat, path: string, origin: Origin, machineIp: Option<string>, ttl: Ttl)

  datatype Acquired = Disabled | AlreadyHeld(holder: nat) | Locked(id: nat)

  /** What the outside world does for one row: mount up, holder starts, mode readable and changeable, marker writable. */
  datatype World = World(mounted: bool, spawns: bool, chmods: bool, marks: bool)

  function Expiry(request: Request, locking: Locking, now: int): Option<int> {
    var ttl := match request.ttl
      case Given(seconds) => seconds
      case Configured => if request.origin.Machine? then Some(locking.machineLockTtlS) else None;
    if ttl.None? || ttl.value == 0 then None else Some(now + ttl.value)
  }

  /** Only a machine lock takes the configured TTL; zero and none both mean held until released. */
  lemma ExpiryRule(request: Request, locking: Locking, now: int)
    ensures request.ttl == Given(Some(0)) || request.ttl == Given(None) ==> Expiry(request, locking, now) == None
    ensures request.ttl == Configured && request.origin != Machine ==> Expiry(request, locking, now) == None
    ensures forall s :: s != 0 && request.ttl == Given(Some(s)) ==> Expiry(request, locking, now) == Some(now + s)
    ensures request.ttl == Configured && request.origin == Machine && locking.machineLockTtlS > 0 ==>
      Expiry(request, locking, now) == Some(now + locking.machineLockTtlS)
  {
  }

  /** The row holding a path, newest first; there is at most one. */
  function ActiveRow(rows: seq<LockRow>, key: (nat, string)): (r: Option<nat>)
    ensures r.Some? ==> r.value < |rows| && rows[r.value].Active() && rows[r.value].Key() == key
    ensures r.None? ==> Free(rows, key)
  {
    if |rows| == 0 then None
    else
      var last := rows[|rows| - 1];
      if last.Active() && last.Key() == key then Some(|rows| - 1)
      else
        var earlier := ActiveRow(rows[..|rows| - 1], key);
        assert rows == rows[..|rows| - 1] + [last];
        earlier
  }

  predicate Reachable(site: Site, row: LockRow, world: World) {
    site.mountOf(row.share).Some? && world.mounted
  }

  predicate Enforced(site: Site, row: LockRow, world: World) {
    row.projection.ByteRange? && Reachable(site, row, world) && world.spawns
  }

  /** The guard removes the write bits: the file is there, its mode can be changed, and it has any to remove. */
  predicate Guarded(site: Site, row: LockRow, world: World, modes: map<string, bv16>) {
    && world.chmods && TargetOf(site, row).Some? && TargetOf(site, row).value in modes
    && !ReadOnly(modes[TargetOf(site, row).value])
  }

  /** With the mount up, the holder started and chmod working, this byte-range row protects this file. */
  predicate Protects(site: Site, row: LockRow, world: World, f: string) {
    && row.projection.ByteRange? && site.mountOf(row.share).Some? && world.mounted && world.spawns && world.chmods
    && f == site.join(site.mountOf(row.share).value, row.path)
  }

  /** What protecting a file makes of its mode: nobody writes it, and no other bit has changed. */
  ghost predicate WriteBitsGone(before: bv16, after: bv16) {
    && after & 0x80 == 0 && after & 0x10 == 0 && after & 0x02 == 0
    && after | 0x92 == before | 0x92
  }

  lemma ProtectedIsGone(mode: bv16)
    ensures WriteBitsGone(mode, Protected(mode))
    ensures ReadOnly(mode) <==> !SomebodyWrites(mode)
    ensures ReadOnly(mode) ==> Protected(mode) == mode
  {
    ProtectedBitByBit(mode);
    ReadOnlyMeansNobodyWrites(mode);
  }

  predicate GivesBack(site: Site, row: LockRow, world: World, files: set<string>) {
    && row.readOnlyApplied && Reachable(site, row, world) && world.chmods
    && TargetOf(site, row).Some? && TargetOf(site, row).value in files
  }

  /** Paying this row's debt gives this file its write permission back. */
  predicate Settles(site: Site, row: LockRow, world: World, files: set<string>, f: string) {
    GivesBack(site, row, world, files) && Owes(site, row, f)
  }

  /** The modes once the debts of some rows are paid: exactly their files are writable again. */
  ghost predicate ModesAfter(before: map<string, bv16>, after: map<string, bv16>, site: Site, rows: seq<LockRow>,
                             paying: set<nat>, world: nat -> World) {
    && after.Keys == before.Keys
    && forall f :: f in before ==>
         after[f] == if PaidFor(site, rows, paying, world, before.Keys, f) then Restored(before[f]) else before[f]
  }

  ghost predicate PaidFor(site: Site, rows: seq<LockRow>, paying: set<nat>, world: nat -> World, files: set<string>, f: string) {
    exists i :: i in paying && i < |rows| && Settles(site, rows[i], world(i), files, f)
  }

  lemma RestoredTwice(mode: bv16)
    ensures Restored(Restored(mode)) == Restored(mode)
  {
  }

  lemma NobodyPaid(modes: map<string, bv16>, site: Site, rows: seq<LockRow>, world: nat -> World)
    ensures ModesAfter(modes, modes, site, rows, {}, world)
  {
  }

  lemma PaidOneMore(before: map<string, bv16>, mid: map<string, bv16>, after: map<string, bv16>, site: Site,
                    rows: seq<LockRow>, paying: set<nat>, world: nat -> World, id: nat)
    requires ModesAfter(before, mid, site, rows, paying, world) && id < |rows| && after.Keys == mid.Keys
    requires forall f :: f in mid ==>
      after[f] == if Settles(site, rows[id], world(id), mid.Keys, f) then Restored(mid[f]) else mid[f]
    ensures ModesAfter(before, after, site, rows, paying + {id}, world)
  {
    forall f | f in before
      ensures after[f] == if PaidFor(site, rows, paying + {id}, world, before.Keys, f) then Restored(before[f]) else before[f]
    {
      RestoredTwice(before[f]);
      if PaidFor(site, rows, paying, world, before.Keys, f) {
        var i :| i in paying && i < |rows| && Settles(site, rows[i], world(i), before.Keys, f);
        assert i in paying + {id};
      }
      if Settles(site, rows[id], world(id), before.Keys, f) {
        assert id in paying + {id};
      }
    }
  }

  function Ended(site: Site, row: LockRow, at: int, world: World, files: set<string>): LockRow {
    row.(releasedAt := Some(at), readOnlyApplied := row.readOnlyApplied && !GivesBack(site, row, world, files))
  }

  predicate Stale(row: LockRow, now: int) {
    row.Active() && row.expiresAt.Some? && row.expiresAt.value <= now
  }

  predicate StillOwing(row: LockRow) {
    !row.Active() && row.readOnlyApplied
  }

  predicate Restorable(row: LockRow) {
    row.Active() && row.projection.ByteRange?
  }

  /** What becomes of a row's debt: a released row pays it when its mount is up and its file's mode can be changed. */
  lemma SweepPaysReleased(site: Site, row: LockRow, world: World, files: set<string>)
    ensures
      var mount, after := site.mountOf(row.share), AfterSweep(site, row, world, files);
      && after == row.(readOnlyApplied := after.readOnlyApplied)
      && (after.readOnlyApplied <==>
            && row.readOnlyApplied
            && !(row.releasedAt.Some? && mount.Some? && world.mounted && world.chmods
                 && site.join(mount.value, row.path) in files))
  {
  }

  function AfterSweep(site: Site, row: LockRow, world: World, files: set<string>): LockRow {
    if StillOwing(row) && GivesBack(site, row, world, files) then row.(readOnlyApplied := false) else row
  }

  /** The stale rows among the first. */
  function StaleRows(rows: seq<LockRow>, now: int, n: nat): set<nat>
    requires n <= |rows|
  {
    set i | 0 <= i < n && Stale(rows[i], now)
  }

  lemma StaleOneMore(rows: seq<LockRow>, now: int, n: nat)
    requires n < |rows|
    ensures StaleRows(rows, now, n + 1) == StaleRows(rows, now, n) + if Stale(rows[n], now) then {n} else {}
  {
  }

  /** The rows among the first that were released already. */
  function ReleasedRows(rows: seq<LockRow>, n: nat): set<nat>
    requires n <= |rows|
  {
    set i | 0 <= i < n && !rows[i].Active()
  }

  lemma ReleasedOneMore(rows: seq<LockRow>, n: nat)
    requires n < |rows|
    ensures ReleasedRows(rows, n + 1) == ReleasedRows(rows, n) + if rows[n].Active() then {} else {n}
  {
  }

  lemma SweepPaysOneMore(before: map<string, bv16>, mid: map<string, bv16>, after: map<string, bv16>, site: Site,
                         rows: seq<LockRow>, world: nat -> World, n: nat)
    requires n < |rows| && ModesAfter(before, mid, site, rows, ReleasedRows(rows, n), world) && after.Keys == mid.Keys
    requires forall f :: f in mid ==>
      after[f] == if !rows[n].Active() && Settles(site, rows[n], world(n), mid.Keys, f) then Restored(mid[f]) else mid[f]
    ensures ModesAfter(before, after, site, rows, ReleasedRows(rows, n + 1), world)
  {
    ReleasedOneMore(rows, n);
    if rows[n].Active() {
      assert after == mid;
      assert ReleasedRows(rows, n) + {} == ReleasedRows(rows, n);
    } else {
      PaidOneMore(before, mid, after, site, rows, ReleasedRows(rows, n), world, n);
    }
  }

  /** The first rows swept, the others as they were, and the modes as their debts leave them. */
  ghost predicate SweptUpTo(site: Site, before: seq<LockRow>, modes0: map<string, bv16>, rows: seq<LockRow>,
                            modes: map<string, bv16>, world: nat -> World, n: nat) {
    && |rows| == |before| && n <= |rows|
    && (forall k :: n <= k < |rows| ==> rows[k] == before[k])
    && (forall k :: 0 <= k < n ==> rows[k] == AfterSweep(site, before[k], world(k), modes0.Keys))
    && ModesAfter(modes0, modes, site, before, ReleasedRows(before, n), world)
  }

  lemma SweepAdvances(site: Site, before: seq<LockRow>, modes0: map<string, bv16>, rows: seq<LockRow>, modes: map<string, bv16>,
                      rows': seq<LockRow>, modes': map<string, bv16>, world: nat -> World, n: nat)
    requires SweptUpTo(site, before, modes0, rows, modes, world, n) && n < |rows|
    requires rows' == rows[n := AfterSweep(site, rows[n], world(n), modes.Keys)] && modes'.Keys == modes.Keys
    requires forall f :: f in modes ==>
      modes'[f] == if !rows[n].Active() && Settles(site, rows[n], world(n), modes.Keys, f) then Restored(modes[f]) else modes[f]
    ensures SweptUpTo(site, before, modes0, rows', modes', world, n + 1)
  {
    SweepPaysOneMore(modes0, modes, modes', site, before, world, n);
  }

  /** Debts a sweep over these rows pays. */
  function Paid(site: Site, rows: seq<LockRow>, world: nat -> World, files: set<string>): nat {
    if |rows| == 0 then 0
    else
      var n := |rows| - 1;
      Paid(site, rows[..n], world, files) + if AfterSweep(site, rows[n], world(n), files) != rows[n] then 1 else 0
  }

  /** The first rows that owed something before and do not any more. */
  function Cleared(before: seq<LockRow>, rows: seq<LockRow>, n: nat): set<nat> {
    set i | 0 <= i < n && i < |before| && i < |rows| && before[i].readOnlyApplied && !rows[i].readOnlyApplied
  }

  /** What a sweep counts is how many rows owe nothing any more. */
  lemma {:induction false} PaidIsCleared(site: Site, before: seq<LockRow>, rows: seq<LockRow>, world: nat -> World,
                                         files: set<string>, n: nat)
    requires n <= |rows| == |before| && forall i :: 0 <= i < |rows| ==> rows[i] == AfterSweep(site, before[i], world(i), files)
    ensures Paid(site, before[..n], world, files) == |Cleared(before, rows, n)|
  {
    if n > 0 {
      PaidIsCleared(site, before, rows, world, files, n - 1);
      assert before[..n][..n - 1] == before[..n - 1];
      ClearedOneMore(before, rows, n - 1);
    }
  }

  lemma ClearedOneMore(before: seq<LockRow>, rows: seq<LockRow>, n: nat)
    requires n < |rows| == |before|
    ensures |Cleared(before, rows, n + 1)|
         == |Cleared(before, rows, n)| + if before[n].readOnlyApplied && !rows[n].readOnlyApplied then 1 else 0
  {
    if before[n].readOnlyApplied && !rows[n].readOnlyApplied {
      assert Cleared(before, rows, n + 1) == Cleared(before, rows, n) + {n};
    } else {
      assert Cleared(before, rows, n + 1) == Cleared(before, rows, n);
    }
  }

  function Restorables(rows: seq<LockRow>): nat {
    if |rows| == 0 then 0
    else Restorables(rows[..|rows| - 1]) + if Restorable(rows[|rows| - 1]) then 1 else 0
  }

  /** The active byte-range rows among the first. */
  function ByteRangeRows(rows: seq<LockRow>, n: nat): set<nat> {
    set i | 0 <= i < n && i < |rows| && rows[i].releasedAt.None? && rows[i].projection.ByteRange?
  }

  lemma {:induction false} RestorablesAreCount(rows: seq<LockRow>, n: nat)
    requires n <= |rows|
    ensures Restorables(rows[..n]) == |ByteRangeRows(rows, n)|
  {
    if n > 0 {
      RestorablesAreCount(rows, n - 1);
      assert rows[..n][..n - 1] == rows[..n - 1];
      ByteRangeOneMore(rows, n - 1);
    }
  }

  lemma ByteRangeOneMore(rows: seq<LockRow>, n: nat)
    requires n < |rows|
    ensures |ByteRangeRows(rows, n + 1)| == |ByteRangeRows(rows, n)| + if Restorable(rows[n]) then 1 else 0
  {
    if Restorable(rows[n]) {
      assert ByteRangeRows(rows, n + 1) == ByteRangeRows(rows, n) + {n};
    } else {
      assert ByteRangeRows(rows, n + 1) == ByteRangeRows(rows, n);
    }
  }

  /** What a restore makes of a row, `incurs` saying whether it took the write bits of the row's file. */
  ghost predicate RestoredTo(site: Site, row: LockRow, now: LockRow, world: World, held: bool, incurs: bool) {
    && (held <==> row.releasedAt.None? && row.projection.ByteRange?
                  && site.mountOf(row.share).Some? && world.mounted && world.spawns)
    && now == row.(projected := if row.releasedAt.None? && row.projection.ByteRange? then held else row.projected,
                   readOnlyApplied := row.readOnlyApplied || incurs)
  }

  /** A restore of this row protects this file. */
  predicate Reprotects(site: Site, row: LockRow, world: World, f: string) {
    row.releasedAt.None? && Protects(site, row, world, f)
  }

  /** So does one of the first rows. */
  ghost predicate ReprotectedBy(site: Site, rows: seq<LockRow>, world: nat -> World, n: nat, f: string) {
    exists i :: 0 <= i < n && i < |rows| && Reprotects(site, rows[i], world(i), f)
  }

  /** The row takes the write bits of its file: somebody could write it, and no row restored before took them. */
  ghost predicate Incurs(site: Site, rows: seq<LockRow>, world: nat -> World, modes: map<string, bv16>, k: nat)
    requires k < |rows|
  {
    exists f :: f in modes && Reprotects(site, rows[k], world(k), f) && SomebodyWrites(modes[f])
      && !ReprotectedBy(site, rows, world, k, f)
  }

  /** The modes once the first rows are restored. */
  ghost predicate ModesRestored(site: Site, rows: seq<LockRow>, world: nat -> World, before: map<string, bv16>,
                                modes: map<string, bv16>, n: nat) {
    && modes.Keys == before.Keys
    && forall f :: f in before ==>
         if ReprotectedBy(site, rows, world, n, f) then WriteBitsGone(before[f], modes[f]) else modes[f] == before[f]
  }

  /** One restored row's part in it. */
  ghost predicate ModesRestoredOne(site: Site, row: LockRow, world: World, before: map<string, bv16>, modes: map<string, bv16>) {
    && modes.Keys == before.Keys
    && forall f :: f in before ==>
         if Reprotects(site, row, world, f) then WriteBitsGone(before[f], modes[f]) else modes[f] == before[f]
  }

  ghost predicate IncursOne(site: Site, row: LockRow, world: World, modes: map<string, bv16>) {
    exists f :: f in modes && Reprotects(site, row, world, f) && SomebodyWrites(modes[f])
  }

  lemma GoneTwice(a: bv16, b: bv16, c: bv16)
    requires WriteBitsGone(b, c) && (a == b || WriteBitsGone(a, b))
    ensures WriteBitsGone(a, c)
  {
  }

  lemma ModesRestoredOneMore(site: Site, rows: seq<LockRow>, world: nat -> World, before: map<string, bv16>,
                             mid: map<string, bv16>, modes: map<string, bv16>, n: nat)
    requires n < |rows| && ModesRestored(site, rows, world, before, mid, n)
    requires ModesRestoredOne(site, rows[n], world(n), mid, modes)
    ensures ModesRestored(site, rows, world, before, modes, n + 1)
    ensures IncursOne(site, rows[n], world(n), mid) <==> Incurs(site, rows, world, before, n)
  {
    forall f | f in before
      ensures if ReprotectedBy(site, rows, world, n + 1, f) then WriteBitsGone(before[f], modes[f]) else modes[f] == before[f]
    {
      if Reprotects(site, rows[n], world(n), f) { GoneTwice(before[f], mid[f], modes[f]); }
    }
  }

  ghost predicate RestoredUpTo(site: Site, before: seq<LockRow>, rows: seq<LockRow>, held: set<nat>,
                               modes: map<string, bv16>, world: nat -> World, n: nat) {
    && |rows| == |before| && n <= |rows|
    && (forall k :: n <= k < |rows| ==> rows[k] == before[k])
    && (forall k :: k in held ==> k < n)
    && (forall k :: 0 <= k < n ==>
          RestoredTo(site, before[k], rows[k], world(k), k in held, Incurs(site, before, world, modes, k)))
  }

  ghost predicate RestoredOne(site: Site, rows: seq<LockRow>, held: set<nat>, rows': seq<LockRow>, held': set<nat>,
                              modes: map<string, bv16>, id: nat, world: World, ok: bool) {
    && id < |rows| && |rows'| == |rows| && rows' == rows[id := rows'[id]]
    && id !in held && held' == (if ok then held + {id} else held)
    && RestoredTo(site, rows[id], rows'[id], world, ok, IncursOne(site, rows[id], world, modes))
  }

  lemma RestoreAdvances(site: Site, before: seq<LockRow>, rows: seq<LockRow>, held: set<nat>,
                        rows': seq<LockRow>, held': set<nat>, modes: map<string, bv16>, mid: map<string, bv16>,
                        world: nat -> World, n: nat, ok: bool)
    requires RestoredUpTo(site, before, rows, held, modes, world, n) && n < |rows|
    requires RestoredOne(site, rows, held, rows', held', mid, n, world(n), ok)
    requires IncursOne(site, rows[n], world(n), mid) <==> Incurs(site, before, world, modes, n)
    ensures RestoredUpTo(site, before, rows', held', modes, world, n + 1)
    ensures |held'| == |held| + (if ok then 1 else 0)
    ensures Restorables(before[..n + 1]) == Restorables(before[..n]) + if Restorable(rows[n]) then 1 else 0
    ensures ok ==> Restorable(rows[n])
  {
    assert before[..n + 1][..n] == before[..n];
    forall k | 0 <= k < n + 1
      ensures RestoredTo(site, before[k], rows'[k], world(k), k in held', Incurs(site, before, world, modes, k))
    {
      if k < n {
        assert RestoredTo(site, before[k], rows[k], world(k), k in held, Incurs(site, before, world, modes, k));
      }
    }
  }

  /** A row that claims the server enforces it has a running holder. */
  ghost predicate ClaimsBacked(rows: seq<LockRow>, held: set<nat>) {
    forall id {:trigger rows[id]} ::
      0 <= id < |rows| && rows[id].Active() && rows[id].projection.ByteRange? && rows[id].projected ==> id in held
  }

  class LockManager {
    const site: Site
    ghost const initial: map<string, bv16>

    var rows: seq<LockRow>
    var held: set<nat>
    /** The server files' modes: not a field of the program, but what its system calls change. */
    var modes: map<string, bv16>
    ghost var steps: seq<Step>

    ghost predicate Valid()
      reads this
    {
      && Legal(site, Empty(initial), steps)
      && Run(site, Empty(initial), steps) == Store(rows, held, modes)
    }

    constructor (site: Site, modes: map<string, bv16>)
      ensures Valid() && rows == [] && held == {} && this.modes == modes && initial == modes && steps == []
    {
      this.site, this.initial, this.modes := site, modes, modes;
      rows, held, steps := [], {}, [];
    }

    /** Whatever happened so far, the table, the holders and the files agree. */
    lemma Agreement()
      requires Valid()
      ensures Sound(site, initial, Store(rows, held, modes))
    {
      RunsAreSound(site, initial, steps);
    }

    // -- Steps ----------------------------------------------------------------

    ghost method Took(step: Step, before: Store)
      requires Legal(site, Empty(initial), steps) && Run(site, Empty(initial), steps) == before
      requires Enabled(site, before, step) && Apply(site, before, step) == Store(rows, held, modes)
      modifies `steps
      ensures Valid() && steps == old(steps) + [step]
    {
      RunOneMore(site, Empty(initial), steps, step);
      steps := steps + [step];
    }

    method InsertRow(row: LockRow)
      requires Valid() && Fresh(row) && Free(rows, row.Key())
      modifies `rows, `steps
      ensures Valid() && rows == old(rows) + [row]
    {
      ghost var before := Store(rows, held, modes);
      rows := rows + [row];
      Took(Insert(row), before);
    }

    /** Starts a holder, unless one is running already. */
    method StartHolder(id: nat, spawns: bool) returns (ok: bool)
      requires Valid() && id < |rows| && Restorable(rows[id])
      modifies `held, `steps
      ensures Valid() && ok == (id in old(held) || spawns)
      ensures held == if ok then old(held) + {id} else old(held)
    {
      if id in held {
        return true;
      }
      if !spawns {
        return false;
      }
      ghost var before := Store(rows, held, modes);
      held := held + {id};
      Took(Hold(id), before);
      return true;
    }

    method SetProjected(id: nat, ok: bool)
      requires Valid() && id < |rows| && rows[id].Active()
      modifies `rows, `steps
      ensures Valid() && rows == old(rows)[id := old(rows)[id].(projected := ok)]
    {
      ghost var before := Store(rows, held, modes);
      rows := rows[id := rows[id].(projected := ok)];
      Took(Project(id, ok), before);
    }

    /** Removes the write bits and records it on the row; a file already read-only is left alone. */
    method TakeWritePermission(id: nat, world: World)
      requires Valid() && id < |rows| && rows[id].Active() && TargetOf(site, rows[id]).Some?
      modifies `rows, `modes, `steps
      ensures Valid()
      ensures
        var row := old(rows)[id];
        var file := TargetOf(site, row).value;
        if Guarded(site, row, world, old(modes)) then
          rows == old(rows)[id := row.(readOnlyApplied := true)] && modes == old(modes)[file := Protected(old(modes)[file])]
        else
          rows == old(rows) && modes == old(modes)
      ensures
        var file := TargetOf(site, old(rows)[id]).value;
        world.chmods && file in old(modes) ==>
          && modes[file] & 0x80 == 0 && modes[file] & 0x10 == 0 && modes[file] & 0x02 == 0
          && (SomebodyWrites(old(modes)[file]) ==> rows[id].readOnlyApplied)
    {
      var file := TargetOf(site, rows[id]).value;
      if file in modes { ProtectedIsGone(modes[file]); }
      if !world.chmods || file !in modes || ReadOnly(modes[file]) {
        return;
      }
      ghost var before := Store(rows, held, modes);
      modes := modes[file := Protected(modes[file])];
      rows := rows[id := rows[id].(readOnlyApplied := true)];
      Took(TakeWrite(id), before);
    }

    method GiveWritePermissionBack(id: nat, world: World)
      requires Valid() && id < |rows| && !rows[id].Active()
      modifies `rows, `modes, `steps
      ensures Valid()
      ensures
        var row := old(rows)[id];
        if GivesBack(site, row, world, old(modes).Keys) then
          var file := TargetOf(site, row).value;
          && rows == old(rows)[id := row.(readOnlyApplied := false)]
          && modes == old(modes)[file := Restored(old(modes)[file])]
        else
          rows == old(rows) && modes == old(modes)
      ensures
        var row, mount := old(rows)[id], site.mountOf(old(rows)[id].share);
        if row.readOnlyApplied && mount.Some? && world.mounted && world.chmods && site.join(mount.value, row.path) in old(modes) then
          var f := site.join(mount.value, row.path);
          && !rows[id].readOnlyApplied && f in modes
          && modes[f] & 0x80 != 0 && modes[f] & 0x10 != 0 && modes[f] | 0x90 == old(modes)[f] | 0x90
        else
          rows[id].readOnlyApplied == row.readOnlyApplied && modes == old(modes)
    {
      var target := TargetOf(site, rows[id]);
      if !rows[id].readOnlyApplied || target.None? || !world.mounted {
        return;
      }
      if !world.chmods || target.value !in modes {
        return;
      }
      ghost var before := Store(rows, held, modes);
      RestoredBitByBit(modes[target.value]);
      modes := modes[target.value := Restored(modes[target.value])];
      rows := rows[id := rows[id].(readOnlyApplied := false)];
      Took(GiveBack(id), before);
    }

    /** Ends a row and its holder; the process is gone from both if it dies between the two. */
    method MarkReleased(id: nat, now: int)
      requires Valid() && id < |rows| && rows[id].Active()
      modifies `rows, `held, `steps
      ensures Valid() && rows == old(rows)[id := old(rows)[id].(releasedAt := Some(now))] && held == old(held) - {id}
    {
      ghost var before := Store(rows, held, modes);
      rows := rows[id := rows[id].(releasedAt := Some(now))];
      held := held - {id};
      Took(Release(id, now), before);
    }

    // -- Operations -----------------------------------------------------------

    /** Projects a new row onto the server as far as the world lets it. */
    method ProjectRow(id: nat, world: World)
      requires Valid() && id < |rows| && Fresh(rows[id]) && id !in held
      modifies `rows, `held, `modes, `steps
      ensures Valid()
      ensures
        var row := old(rows)[id];
        var enforced := Enforced(site, row, world);
        var guarded := enforced && Guarded(site, row, world, old(modes));
        && rows == old(rows)[id := row.(
             projected := !row.projection.NoProjection? && Reachable(site, row, world) && world.marks
                          && (row.projection.ByteRange? ==> world.spawns),
             readOnlyApplied := guarded)]
        && held == (if enforced then old(held) + {id} else old(held))
        && (guarded ==> modes == old(modes)[TargetOf(site, row).value := Protected(old(modes)[TargetOf(site, row).value])])
        && (!guarded ==> modes == old(modes))
    {
      if rows[id].projection.NoProjection? {
        return;
      }
      var mount := site.mountOf(rows[id].share);
      if mount.None? || !world.mounted {
        SetProjected(id, false);
        return;
      }
      if rows[id].projection.ByteRange? {
        var ok := StartHolder(id, world.spawns);
        if !ok {
          SetProjected(id, false);
          return;
        }
        TakeWritePermission(id, world);
      }
      SetProjected(id, world.marks);
    }

    /** Takes a lock: refused when locking is off or the path is held, and real whether or not it is projected. */
    method Acquire(request: Request, locking: Locking, now: int, world: World) returns (r: Acquired)
      requires Valid()
      modifies `rows, `held, `modes, `steps
      ensures Valid()
      ensures
        var key := (request.share, request.path);
        r == (if !locking.enabled then Disabled
              else if ActiveRow(old(rows), key).Some? then AlreadyHeld(ActiveRow(old(rows), key).value)
              else Locked(|old(rows)|))
      ensures !r.Locked? ==> rows == old(rows) && held == old(held) && modes == old(modes)
      ensures r.Locked? ==>
        && |rows| == |old(rows)| + 1 && rows[..r.id] == old(rows)
        && rows[r.id].Active() && rows[r.id].Key() == (request.share, request.path)
        && rows[r.id].origin == request.origin && rows[r.id].machineIp == request.machineIp
        && rows[r.id].acquiredAt == now && rows[r.id].expiresAt == Expiry(request, locking, now)
        && rows[r.id].projection == locking.projection
        && held == (if locking.projection.ByteRange? && site.mountOf(request.share).Some? && world.mounted && world.spawns
                    then old(held) + {r.id} else old(held))
        && rows[r.id].projected == (!locking.projection.NoProjection? && site.mountOf(request.share).Some? && world.mounted
                                    && world.marks && (locking.projection.ByteRange? ==> world.spawns))
      ensures r.Locked? ==>
        var mount := site.mountOf(request.share);
        if locking.projection.ByteRange? && mount.Some? && world.mounted && world.spawns && world.chmods
           && site.join(mount.value, request.path) in old(modes) then
          var f := site.join(mount.value, request.path);
          && f in modes && modes == old(modes)[f := modes[f]]
          && modes[f] & 0x80 == 0 && modes[f] & 0x10 == 0 && modes[f] & 0x02 == 0
          && modes[f] | 0x92 == old(modes)[f] | 0x92
          && (rows[r.id].readOnlyApplied <==>
                old(modes)[f] & 0x80 != 0 || old(modes)[f] & 0x10 != 0 || old(modes)[f] & 0x02 != 0)
        else
          modes == old(modes) && !rows[r.id].readOnlyApplied
      ensures ClaimsBacked(old(rows), old(held)) ==> ClaimsBacked(rows, held)
    {
      if !locking.enabled {
        return Disabled;
      }
      var existing := ActiveRow(rows, (request.share, request.path));
      if existing.Some? {
        return AlreadyHeld(existing.value);
      }
      Agreement();
      var id := |rows|;
      var row := LockRow(request.share, request.path, request.origin, request.machineIp, locking.projection,
                         false, false, now, Expiry(request, locking, now), None);
      InsertRow(row);
      ProjectRow(id, world);
      var target := TargetOf(site, row);
      if target.Some? && target.value in modes { ProtectedIsGone(old(modes)[target.value]); }
      return Locked(id);
    }

    /** Ends an active lock: release, forced release and expiry all come here. */
    method Finish(id: nat, now: int, world: World)
      requires Valid() && id < |rows| && rows[id].Active()
      modifies `rows, `held, `modes, `steps
      ensures Valid()
      ensures rows == old(rows)[id := Ended(site, old(rows)[id], now, world, old(modes).Keys)]
      ensures held == old(held) - {id} && modes.Keys == old(modes).Keys
      ensures forall f :: f in modes ==>
        modes[f] == if Settles(site, old(rows)[id], world, old(modes).Keys, f) then Restored(old(modes)[f]) else old(modes)[f]
      ensures
        var row, mount := old(rows)[id], site.mountOf(old(rows)[id].share);
        if row.readOnlyApplied && mount.Some? && world.mounted && world.chmods && site.join(mount.value, row.path) in old(modes) then
          var f := site.join(mount.value, row.path);
          && rows[id] == row.(releasedAt := Some(now), readOnlyApplied := false) && f in modes
          && modes[f] & 0x80 != 0 && modes[f] & 0x10 != 0 && modes[f] | 0x90 == old(modes)[f] | 0x90
        else
          rows[id] == row.(releasedAt := Some(now)) && modes == old(modes)
      ensures ClaimsBacked(old(rows), old(held)) ==> ClaimsBacked(rows, held)
    {
      MarkReleased(id, now);
      GiveWritePermissionBack(id, world);
    }

    /** Releases a lock by number; a number without an active lock is an error. */
    method ReleaseLock(id: nat, now: int, world: World) returns (found: bool)
      requires Valid()
      modifies `rows, `held, `modes, `steps
      ensures Valid() && found == (id < |old(rows)| && old(rows)[id].Active())
      ensures if found then rows == old(rows)[id := Ended(site, old(rows)[id], now, world, old(modes).Keys)] && held == old(held) - {id}
              else rows == old(rows) && held == old(held) && modes == old(modes)
      ensures modes.Keys == old(modes).Keys
      ensures found ==> forall f :: f in modes ==>
        modes[f] == if Settles(site, old(rows)[id], world, old(modes).Keys, f) then Restored(old(modes)[f]) else old(modes)[f]
      ensures ClaimsBacked(old(rows), old(held)) ==> ClaimsBacked(rows, held)
    {
      found := id < |rows| && rows[id].Active();
      if found {
        Finish(id, now, world);
      }
    }

    /** Ends every lock past its expiry, and no other: its row, its holder, and its debt if that can be paid. */
    method ExpireStale(now: int, world: nat -> World)
      requires Valid()
      modifies `rows, `held, `modes, `steps
      ensures Valid() && |rows| == |old(rows)|
      ensures forall i :: 0 <= i < |rows| ==>
        rows[i] == if Stale(old(rows)[i], now) then Ended(site, old(rows)[i], now, world(i), old(modes).Keys) else old(rows)[i]
      ensures forall i :: 0 <= i < |rows| ==>
        (rows[i].Active() <==> old(rows)[i].Active() && (old(rows)[i].expiresAt.None? || old(rows)[i].expiresAt.value > now))
      ensures held == old(held) - StaleRows(old(rows), now, |old(rows)|)
      ensures ModesAfter(old(modes), modes, site, old(rows), StaleRows(old(rows), now, |old(rows)|), world)
      ensures ClaimsBacked(old(rows), old(held)) ==> ClaimsBacked(rows, held)
    {
      NobodyPaid(modes, site, rows, world);
      assert StaleRows(rows, now, 0) == {} && held - {} == held;
      for i := 0 to |rows|
        invariant Valid() && |rows| == |old(rows)|
        invariant forall k :: i <= k < |rows| ==> rows[k] == old(rows)[k]
        invariant forall k :: 0 <= k < i ==>
          rows[k] == if Stale(old(rows)[k], now) then Ended(site, old(rows)[k], now, world(k), old(modes).Keys) else old(rows)[k]
        invariant held == old(held) - StaleRows(old(rows), now, i)
        invariant ModesAfter(old(modes), modes, site, old(rows), StaleRows(old(rows), now, i), world)
        invariant ClaimsBacked(old(rows), old(held)) ==> ClaimsBacked(rows, held)
      {
        ghost var mid := modes;
        StaleOneMore(old(rows), now, i);
        if Stale(rows[i], now) {
          Finish(i, now, world(i));
          PaidOneMore(old(modes), mid, modes, site, old(rows), StaleRows(old(rows), now, i), world, i);
        }
      }
    }

    method SweepOne(id: nat, world: World) returns (paid: bool)
      requires Valid() && id < |rows|
      modifies `rows, `modes, `steps
      ensures Valid() && modes.Keys == old(modes).Keys
      ensures rows == old(rows)[id := AfterSweep(site, old(rows)[id], world, old(modes).Keys)]
      ensures paid == (rows[id] != old(rows)[id])
      ensures forall f :: f in modes ==>
        modes[f] == if !old(rows)[id].Active() && Settles(site, old(rows)[id], world, old(modes).Keys, f)
                    then Restored(old(modes)[f]) else old(modes)[f]
    {
      paid := false;
      if StillOwing(rows[id]) {
        GiveWritePermissionBack(id, world);
        paid := !rows[id].readOnlyApplied;
      }
    }

    /** Pays every debt of a released row that the world lets it pay, and touches no active row and no other file. */
    method SweepReadOnlyLeftovers(world: nat -> World) returns (cleared: nat)
      requires Valid()
      modifies `rows, `modes, `steps
      ensures Valid() && SweptUpTo(site, old(rows), old(modes), rows, modes, world, |old(rows)|)
      ensures cleared == Paid(site, old(rows), world, old(modes).Keys)
      ensures cleared == |Cleared(old(rows), rows, |rows|)|
    {
      cleared := 0;
      NobodyPaid(modes, site, rows, world);
      assert ReleasedRows(rows, 0) == {};
      for i := 0 to |rows|
        invariant Valid() && SweptUpTo(site, old(rows), old(modes), rows, modes, world, i)
        invariant cleared == Paid(site, old(rows)[..i], world, old(modes).Keys)
      {
        assert old(rows)[..i + 1][..i] == old(rows)[..i];
        ghost var rowsBefore, modesBefore := rows, modes;
        var paid := SweepOne(i, world(i));
        SweepAdvances(site, old(rows), old(modes), rowsBefore, modesBefore, rows, modes, world, i);
        cleared := cleared + if paid then 1 else 0;
      }
      assert old(rows)[..|rows|] == old(rows);
      PaidIsCleared(site, old(rows), rows, world, old(modes).Keys, |rows|);
    }

    /** A holder that exits by itself: the row stays active and stops claiming a projection. */
    method OnHolderExit(id: nat)
      requires Valid()
      modifies `rows, `held, `steps
      ensures Valid()
      ensures id !in old(held) ==> rows == old(rows) && held == old(held)
      ensures id in old(held) ==>
        && id < |old(rows)| && old(rows)[id].Active()
        && rows == old(rows)[id := old(rows)[id].(projected := false)] && held == old(held) - {id}
      ensures ClaimsBacked(old(rows), old(held)) ==> ClaimsBacked(rows, held)
    {
      if id !in held {
        return;
      }
      Agreement();
      ghost var before := Store(rows, held, modes);
      held := held - {id};
      rows := Unprojected(rows, id);
      Took(HolderExits(id), before);
    }

    /** Shutdown, and what any death of the process comes to: no holder is left. */
    method Shutdown()
      requires Valid()
      modifies `held, `steps
      ensures Valid() && held == {}
    {
      ghost var before := Store(rows, held, modes);
      held := {};
      Took(ProcessEnds, before);
    }

    /** One row of the restore. */
    method RestoreOne(id: nat, world: World) returns (ok: bool)
      requires Valid() && id < |rows| && id !in held
      modifies `rows, `held, `modes, `steps
      ensures Valid() && RestoredOne(site, old(rows), old(held), rows, held, old(modes), id, world, ok)
      ensures ModesRestoredOne(site, old(rows)[id], world, old(modes), modes)
    {
      if !Restorable(rows[id]) {
        return false;
      }
      var mount := site.mountOf(rows[id].share);
      if mount.None? || !world.mounted {
        SetProjected(id, false);
        return false;
      }
      ok := StartHolder(id, world.spawns);
      SetProjected(id, ok);
      if ok {
        TakeWritePermission(id, world);
      }
    }

    /**
     Restarts the holders of the rows that outlived the previous process, and protects their files again.
     Afterwards a byte-range row claims to be enforced exactly when its holder runs, and nobody can write
     the file of a row whose holder runs and whose file's mode could be changed.
     */
    method RestoreServerLocks(world: nat -> World) returns (restored: nat, failed: nat)
      requires Valid() && held == {}
      modifies `rows, `held, `modes, `steps
      ensures Valid() && RestoredUpTo(site, old(rows), rows, held, old(modes), world, |old(rows)|)
      ensures ModesRestored(site, old(rows), world, old(modes), modes, |old(rows)|)
      ensures restored == |held| && restored + failed == |ByteRangeRows(old(rows), |old(rows)|)|
    {
      restored, failed := 0, 0;
      for i := 0 to |rows|
        invariant Valid() && RestoredUpTo(site, old(rows), rows, held, old(modes), world, i)
        invariant ModesRestored(site, old(rows), world, old(modes), modes, i)
        invariant restored == |held| && restored + failed == Restorables(old(rows)[..i])
      {
        var tried := Restorable(rows[i]);
        ghost var rowsBefore, heldBefore, mid := rows, held, modes;
        var ok := RestoreOne(i, world(i));
        ModesRestoredOneMore(site, old(rows), world, old(modes), mid, modes, i);
        RestoreAdvances(site, old(rows), rowsBefore, heldBefore, rows, held, old(modes), mid, world, i, ok);
        restored := restored + if ok then 1 else 0;
        failed := failed + if tried && !ok then 1 else 0;
      }
      assert old(rows)[..|rows|] == old(rows);
      RestorablesAreCount(old(rows), |rows|);
    }
  }

  /** After a restore a byte-range row claims to be enforced exactly when its holder runs. */
  lemma RestoredClaimsAreExact(site: Site, before: seq<LockRow>, rows: seq<LockRow>, held: set<nat>,
                               modes: map<string, bv16>, world: nat -> World)
    requires RestoredUpTo(site, before, rows, held, modes, world, |before|)
    ensures forall i :: 0 <= i < |rows| && rows[i].Active() && rows[i].projection.ByteRange? ==>
      (rows[i].projected <==> i in held)
    ensures ClaimsBacked(rows, held)
  {
    forall i | 0 <= i < |rows| && rows[i].Active() && rows[i].projection.ByteRange?
      ensures rows[i].projected <==> i in held
    {
      assert RestoredTo(site, before[i], rows[i], world(i), i in held, Incurs(site, before, world, modes, i));
    }
  }

  /**
   After a restore nobody can write the file of an active byte-range row whose share is mounted, whose
   holder starts and whose file's mode can be changed; and where somebody could before, the first such
   row records the debt.
   */
  lemma RestoredFilesAreProtected(site: Site, before: seq<LockRow>, rows: seq<LockRow>, held: set<nat>,
                                  modes: map<string, bv16>, after: map<string, bv16>, world: nat -> World, i: nat, f: string)
    requires RestoredUpTo(site, before, rows, held, modes, world, |before|)
    requires ModesRestored(site, before, world, modes, after, |before|)
    requires i < |before| && before[i].releasedAt.None? && before[i].projection.ByteRange? && f in modes
    requires site.mountOf(before[i].share).Some? && f == site.join(site.mountOf(before[i].share).value, before[i].path)
    requires world(i).mounted && world(i).spawns && world(i).chmods
    ensures after[f] & 0x80 == 0 && after[f] & 0x10 == 0 && after[f] & 0x02 == 0 && after[f] | 0x92 == modes[f] | 0x92
    ensures modes[f] & 0x80 != 0 || modes[f] & 0x10 != 0 || modes[f] & 0x02 != 0 ==>
      exists k :: 0 <= k <= i && rows[k].readOnlyApplied && rows[k].releasedAt.None? && TargetOf(site, rows[k]) == Some(f)
  {
    assert Reprotects(site, before[i], world(i), f);
    if SomebodyWrites(modes[f]) {
      var k := FirstReprotecting(site, before, world, i, f);
      assert Incurs(site, before, world, modes, k);
      assert RestoredTo(site, before[k], rows[k], world(k), k in held, true);
    }
  }

  lemma {:induction false} FirstReprotecting(site: Site, rows: seq<LockRow>, world: nat -> World, i: nat, f: string) returns (k: nat)
    requires i < |rows| && Reprotects(site, rows[i], world(i), f)
    ensures k <= i && Reprotects(site, rows[k], world(k), f) && !ReprotectedBy(site, rows, world, k, f)
  {
    k := i;
    if ReprotectedBy(site, rows, world, i, f) {
      var j :| 0 <= j < i && j < |rows| && Reprotects(site, rows[j], world(j), f);
      k := FirstReprotecting(site, rows, world, j, f);
    }
  }

  /** A released row pays a file's debt when it recorded one, its mount is up and the file's mode can be changed. */
  predicate SweptFor(site: Site, row: LockRow, world: World, f: string) {
    && row.releasedAt.Some? && row.readOnlyApplied
    && site.mountOf(row.share).Some? && world.mounted && world.chmods
    && f == site.join(site.mountOf(row.share).value, row.path)
  }

  lemma SweptForSettles(site: Site, row: LockRow, world: World, files: set<string>, f: string)
    requires f in files
    ensures SweptFor(site, row, world, f) <==> !row.Active() && Settles(site, row, world, files, f)
  {
  }

  /** After a sweep user and group can write such a file and no other bit has changed, and every other file is as it was. */
  lemma SweptFilesAreWritable(site: Site, before: seq<LockRow>, rows: seq<LockRow>, modes: map<string, bv16>,
                              after: map<string, bv16>, world: nat -> World, f: string)
    requires SweptUpTo(site, before, modes, rows, after, world, |before|) && f in modes
    ensures
      if exists i :: 0 <= i < |before| && SweptFor(site, before[i], world(i), f) then
        after[f] & 0x80 != 0 && after[f] & 0x10 != 0 && after[f] | 0x90 == modes[f] | 0x90
      else
        after[f] == modes[f]
  {
    PaidForSwept(site, before, world, modes.Keys, f);
    if PaidFor(site, before, ReleasedRows(before, |before|), world, modes.Keys, f) {
      WriteBitsBack(modes[f], after[f]);
    }
  }

  lemma WriteBitsBack(before: bv16, after: bv16)
    requires after == Restored(before)
    ensures after & 0x80 != 0 && after & 0x10 != 0 && after | 0x90 == before | 0x90
  {
    RestoredBitByBit(before);
  }

  lemma PaidForSwept(site: Site, rows: seq<LockRow>, world: nat -> World, files: set<string>, f: string)
    requires f in files
    ensures PaidFor(site, rows, ReleasedRows(rows, |rows|), world, files, f)
      <==> exists i :: 0 <= i < |rows| && SweptFor(site, rows[i], world(i), f)
  {
    forall i | 0 <= i < |rows|
      ensures SweptFor(site, rows[i], world(i), f) <==> !rows[i].Active() && Settles(site, rows[i], world(i), files, f)
    {
      SweptForSettles(site, rows[i], world(i), files, f);
    }
    if i :| 0 <= i < |rows| && SweptFor(site, rows[i], world(i), f) {
      assert i in ReleasedRows(rows, |rows|) && Settles(site, rows[i], world(i), files, f);
    }
  }

  /** After a sweep with every share mounted and every mode changeable, only active rows record a debt. */
  lemma SweepLeavesOnlyActiveDebts(site: Site, initial: map<string, bv16>, s: Store, rows: seq<LockRow>,
                                   modes: map<string, bv16>, world: nat -> World)
    requires Sound(site, initial, s) && SweptUpTo(site, s.rows, s.modes, rows, modes, world, |s.rows|)
    requires forall i :: 0 <= i < |rows| ==> world(i).mounted && world(i).chmods
    ensures forall i :: 0 <= i < |rows| && rows[i].readOnlyApplied ==> rows[i].Active()
  {
    forall i | 0 <= i < |rows| && rows[i].readOnlyApplied
      ensures rows[i].Active()
    {
      assert rows[i] == AfterSweep(site, s.rows[i], world(i), s.modes.Keys);
      assert s.rows[i].readOnlyApplied;
      assert Reachable(site, s.rows[i], world(i));
    }
  }
}
