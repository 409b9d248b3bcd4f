/** Turning what Samba reports, event by event and in full, into rows of the lock table. */
module MachineLocks {
  import opened Wrappers
  import opened InsertionMap
  import opened LockTable
  import opened LockManager

  datatype Operation = Open | Close | Unlink | Rename | OtherOperation

  datatype Event = Event(
    ok: bool, operation: Operation, share: Option<string>, path: string, newPath: Option<string>,
    clientIp: Option<string>, mode: Option<string>)

  datatype Session = Session(pid: Option<int>, remoteMachine: Option<string>)

  datatype OpenFile = OpenFile(pid: Option<int>, rw: Option<string>, sharePath: Option<string>, filename: string)

  datatype Status = Status(sessions: seq<Session>, openFiles: seq<OpenFile>)

  /** An enabled share. */
  datatype Share = Share(id: nat, name: string, cachePath: string)

  /** How file names become share-relative paths, and the names that are never a program. */
  datatype Naming = Naming(toRelativePath: (OpenFile, string) -> Option<string>, ignored: string -> bool)

  datatype Outcome = Outcome(acquired: nat, released: nat, skipped: bool)

  /** Rows looked at in one pass over a share. */
  const MAX_RECONCILE_ROWS := 1000

  // -- What is open for writing -----------------------------------------------

  function Lower(c: char): char {
    if 'A' <= c <= 'Z' then c - 'A' + 'a' else c
  }

  function Lowered(text: string): string {
    if |text| == 0 then "" else [Lower(text[0])] + Lowered(text[1..])
  }

  /** Exactly `rdonly`, in any case. */
  predicate PlainlyReadOnly(rw: string) {
    Lowered(rw) == "rdonly"
  }

  predicate OpensForWriting(naming: Naming, share: Share, file: OpenFile) {
    && naming.toRelativePath(file, share.cachePath).Some?
    && !naming.ignored(naming.toRelativePath(file, share.cachePath).value)
    && (file.rw.None? || !PlainlyReadOnly(file.rw.value))
  }

  /** The machine behind each process; a later session for the same process wins. */
  function IpByPid(sessions: seq<Session>): map<int, string> {
    if |sessions| == 0 then map[]
    else
      var earlier, last := IpByPid(sessions[..|sessions| - 1]), sessions[|sessions| - 1];
      if last.pid.Some? && last.remoteMachine.Some? then earlier[last.pid.value := last.remoteMachine.value] else earlier
  }

  predicate Names(session: Session, pid: int) {
    session.pid == Some(pid) && session.remoteMachine.Some?
  }

  /** The last session that carries both the process and an address is the one that counts. */
  ghost predicate LastNaming(sessions: seq<Session>, pid: int, i: int) {
    0 <= i < |sessions| && Names(sessions[i], pid) && forall j :: i < j < |sessions| ==> !Names(sessions[j], pid)
  }

  lemma {:induction false} IpByPidIsLast(sessions: seq<Session>, pid: int)
    ensures pid in IpByPid(sessions) <==> exists i :: 0 <= i < |sessions| && Names(sessions[i], pid)
    ensures forall i :: LastNaming(sessions, pid, i) ==>
      pid in IpByPid(sessions) && IpByPid(sessions)[pid] == sessions[i].remoteMachine.value
  {
    if |sessions| > 0 {
      var init, last := sessions[..|sessions| - 1], sessions[|sessions| - 1];
      IpByPidIsLast(init, pid);
      if Names(last, pid) {
        assert Names(sessions[|sessions| - 1], pid);
      } else {
        assert forall i :: LastNaming(sessions, pid, i) ==> LastNaming(init, pid, i);
        assert forall i :: 0 <= i < |init| ==> init[i] == sessions[i];
      }
    }
  }

  function OpenMap(naming: Naming, share: Share, files: seq<OpenFile>, ips: map<int, string>): OrderedMap<Option<string>> {
    if |files| == 0 then OrderedMap([], map[])
    else
      var earlier, file := OpenMap(naming, share, files[..|files| - 1], ips), files[|files| - 1];
      if !OpensForWriting(naming, share, file) then earlier
      else
        var ip := if file.pid.Some? && file.pid.value in ips then Some(ips[file.pid.value]) else None;
        earlier.Set(naming.toRelativePath(file, share.cachePath).value, ip)
  }

  lemma {:induction false} LoweredEach(text: string)
    ensures |Lowered(text)| == |text| && forall k :: 0 <= k < |text| ==> Lowered(text)[k] == Lower(text[k])
  {
    if |text| > 0 { LoweredEach(text[1..]); }
  }

  /** Letter by letter: read-only is the six letters of `rdonly`, each in either case, and nothing else. */
  lemma PlainlyReadOnlySpelled(rw: string)
    ensures PlainlyReadOnly(rw) <==>
      && |rw| == 6
      && (rw[0] == 'r' || rw[0] == 'R') && (rw[1] == 'd' || rw[1] == 'D') && (rw[2] == 'o' || rw[2] == 'O')
      && (rw[3] == 'n' || rw[3] == 'N') && (rw[4] == 'l' || rw[4] == 'L') && (rw[5] == 'y' || rw[5] == 'Y')
  {
    LoweredEach(rw);
    var low := "rdonly";
    if |rw| == 6 {
      assert Lowered(rw) == low <==> forall k :: 0 <= k < 6 ==> Lowered(rw)[k] == low[k];
    }
  }

  /** The file has this path open, and not under an ignored name or for reading only. */
  predicate WritesTo(naming: Naming, share: Share, file: OpenFile, path: string) {
    && naming.toRelativePath(file, share.cachePath) == Some(path) && !naming.ignored(path)
    && !(file.rw.Some? && |file.rw.value| == 6
         && forall k :: 0 <= k < 6 ==> file.rw.value[k] == "rdonly"[k] || file.rw.value[k] == "RDONLY"[k])
  }

  lemma OpensWhatItWritesTo(naming: Naming, share: Share, file: OpenFile, path: string)
    ensures WritesTo(naming, share, file, path) <==>
      OpensForWriting(naming, share, file) && naming.toRelativePath(file, share.cachePath).value == path
  {
    if file.rw.Some? {
      var rw := file.rw.value;
      PlainlyReadOnlySpelled(rw);
      assert "rdonly"[0] == 'r' && "RDONLY"[0] == 'R';
      assert |rw| == 6 ==> (PlainlyReadOnly(rw) <==> forall k :: 0 <= k < 6 ==> rw[k] == "rdonly"[k] || rw[k] == "RDONLY"[k]);
    }
  }

  ghost predicate WriteOpen(naming: Naming, share: Share, files: seq<OpenFile>, path: string) {
    exists i :: 0 <= i < |files| && WritesTo(naming, share, files[i], path)
  }

  /** The last open file that writes to a path is the one whose process counts. */
  ghost predicate LastWriting(naming: Naming, share: Share, files: seq<OpenFile>, path: string, i: int) {
    && 0 <= i < |files| && WritesTo(naming, share, files[i], path)
    && forall j :: i < j < |files| ==> !WritesTo(naming, share, files[j], path)
  }

  function MachineOf(file: OpenFile, ips: map<int, string>): Option<string> {
    if file.pid.Some? && file.pid.value in ips then Some(ips[file.pid.value]) else None
  }

  lemma {:induction false} OpenMapIsWriteOpen(naming: Naming, share: Share, files: seq<OpenFile>, ips: map<int, string>)
    ensures OpenMap(naming, share, files, ips).Valid()
    ensures forall p :: p in OpenMap(naming, share, files, ips).entries <==> WriteOpen(naming, share, files, p)
    ensures forall p, i :: LastWriting(naming, share, files, p, i) ==>
      && p in OpenMap(naming, share, files, ips).entries
      && OpenMap(naming, share, files, ips).entries[p] == MachineOf(files[i], ips)
  {
    if |files| > 0 {
      var init, file := files[..|files| - 1], files[|files| - 1];
      OpenMapIsWriteOpen(naming, share, init, ips);
      var earlier := OpenMap(naming, share, init, ips);
      if OpensForWriting(naming, share, file) {
        SetValid(earlier, naming.toRelativePath(file, share.cachePath).value, MachineOf(file, ips));
      }
      assert files == init + [file];
      forall p
        ensures p in OpenMap(naming, share, files, ips).entries <==> WriteOpen(naming, share, files, p)
        ensures forall i :: LastWriting(naming, share, files, p, i) ==>
          && p in OpenMap(naming, share, files, ips).entries
          && OpenMap(naming, share, files, ips).entries[p] == MachineOf(files[i], ips)
      {
        OpensWhatItWritesTo(naming, share, file, p);
        WriteOpenOneMore(naming, share, init, file, p);
        LastWritingOneMore(naming, share, init, file, p);
      }
    }
  }

  lemma WriteOpenOneMore(naming: Naming, share: Share, init: seq<OpenFile>, file: OpenFile, p: string)
    ensures WriteOpen(naming, share, init + [file], p) <==> WriteOpen(naming, share, init, p) || WritesTo(naming, share, file, p)
  {
    var all := init + [file];
    if WriteOpen(naming, share, init, p) {
      var i :| 0 <= i < |init| && WritesTo(naming, share, init[i], p);
      assert all[i] == init[i];
    }
    assert all[|init|] == file;
    assert forall i :: 0 <= i < |init| ==> all[i] == init[i];
  }

  lemma LastWritingOneMore(naming: Naming, share: Share, init: seq<OpenFile>, file: OpenFile, p: string)
    ensures forall i :: LastWriting(naming, share, init + [file], p, i) ==>
      if WritesTo(naming, share, file, p) then i == |init| else LastWriting(naming, share, init, p, i)
  {
    var all := init + [file];
    assert all[|init|] == file;
    assert forall i :: 0 <= i < |init| ==> all[i] == init[i];
  }

  // -- Who holds what ---------------------------------------------------------

  predicate Holds(row: LockRow, share: nat, path: string) {
    row.Active() && row.share == share && row.path == path
  }

  predicate MachineLock(row: LockRow, share: nat) {
    row.Active() && row.share == share && row.origin.Machine?
  }

  ghost predicate HeldBy(rows: seq<LockRow>, share: nat, path: string, machine: bool) {
    exists i :: 0 <= i < |rows| && Holds(rows[i], share, path) && rows[i].origin.Machine? == machine
  }

  ghost predicate Held(rows: seq<LockRow>, share: nat, path: string) {
    exists i :: 0 <= i < |rows| && Holds(rows[i], share, path)
  }

  lemma ActiveRowIffHeld(rows: seq<LockRow>, share: nat, path: string)
    ensures ActiveRow(rows, (share, path)).Some? <==> Held(rows, share, path)
  {
    var r := ActiveRow(rows, (share, path));
    if r.Some? { assert Holds(rows[r.value], share, path); }
  }

  /** The machine locks of a share are all on open paths, and every open path is locked by someone. */
  ghost predicate Matches(rows: seq<LockRow>, share: nat, open: set<string>) {
    && (forall i :: 0 <= i < |rows| && MachineLock(rows[i], share) ==> rows[i].path in open)
    && (forall p :: p in open ==> Held(rows, share, p))
  }

  /** That is: the machine locks are exactly the open paths no other origin holds. */
  lemma MatchesMeans(rows: seq<LockRow>, share: nat, open: set<string>)
    requires OneActivePerPath(rows)
    ensures Matches(rows, share, open) <==>
      forall p :: HeldBy(rows, share, p, true) <==> p in open && !HeldBy(rows, share, p, false)
  {
    if Matches(rows, share, open) {
      forall p
        ensures HeldBy(rows, share, p, true) <==> p in open && !HeldBy(rows, share, p, false)
      {
        if HeldBy(rows, share, p, true) {
          var i :| 0 <= i < |rows| && Holds(rows[i], share, p) && rows[i].origin.Machine?;
          assert MachineLock(rows[i], share);
          assert rows[i].Key() == (share, p);
          assert forall j :: 0 <= j < |rows| && Holds(rows[j], share, p) ==> rows[j].Key() == (share, p) && j == i;
        }
      }
    } else if i :| 0 <= i < |rows| && MachineLock(rows[i], share) && rows[i].path !in open {
      assert Holds(rows[i], share, rows[i].path);
      assert HeldBy(rows, share, rows[i].path, true);
    } else {
      var p :| p in open && !Held(rows, share, p);
      assert !HeldBy(rows, share, p, true) && !HeldBy(rows, share, p, false);
    }
  }

  function MachineLocks(rows: seq<LockRow>, share: nat): set<nat> {
    set i | 0 <= i < |rows| && MachineLock(rows[i], share)
  }

  lemma OneMoreMachineLock(rows: seq<LockRow>, row: LockRow, share: nat)
    requires MachineLock(row, share)
    ensures |MachineLocks(rows + [row], share)| == |MachineLocks(rows, share)| + 1
  {
    var all := rows + [row];
    assert all[|rows|] == row && |rows| !in MachineLocks(rows, share);
    forall i
      ensures i in MachineLocks(all, share) <==> i in MachineLocks(rows, share) + {|rows|}
    {
      if 0 <= i < |rows| { assert all[i] == rows[i]; }
    }
    assert MachineLocks(all, share) == MachineLocks(rows, share) + {|rows|};
  }

  // -- Effects on the table ---------------------------------------------------

  /** Paths nobody holds. */
  ghost function Missing(rows: seq<LockRow>, share: nat, paths: seq<string>): set<string> {
    set p | p in paths && !Held(rows, share, p)
  }

  /** Paths taken one after another: every one is locked now, and one was taken only if nobody held it. */
  ghost predicate Added(before: seq<LockRow>, rows: seq<LockRow>, share: nat, paths: seq<string>, enabled: bool, acquired: nat) {
    && |before| <= |rows| && rows[..|before|] == before
    && (forall i :: |before| <= i < |rows| ==> MachineLock(rows[i], share) && rows[i].path in paths)
    && (enabled ==> forall p :: p in paths ==> Held(rows, share, p))
    && (acquired == 0 ==> rows == before)
    && acquired == (if enabled then |Missing(before, share, paths)| else 0)
    && |MachineLocks(rows, share)| == |MachineLocks(before, share)| + acquired
  }

  ghost predicate TookOrHeld(before: seq<LockRow>, rows: seq<LockRow>, share: nat, path: string, enabled: bool, took: bool) {
    if took then
      && enabled && !Held(before, share, path) && |rows| == |before| + 1 && rows[..|before|] == before
      && Holds(rows[|before|], share, path) && rows[|before|].origin.Machine?
    else
      rows == before && (enabled ==> Held(before, share, path))
  }

  /** A lock as it is taken for a machine: from now on, for as long as the configuration says. */
  predicate TakenFor(row: LockRow, ip: Option<string>, locking: Locking, now: int) {
    && row.origin == Machine && row.machineIp == ip && row.projection == locking.projection
    && row.acquiredAt == now && row.releasedAt == None
    && row.expiresAt == if locking.machineLockTtlS == 0 then None else Some(now + locking.machineLockTtlS)
  }

  /** Every lock taken is taken for the machine known for its path. */
  ghost predicate Attributed(before: seq<LockRow>, rows: seq<LockRow>, machines: map<string, Option<string>>,
                             locking: Locking, now: int) {
    && |before| <= |rows|
    && forall i :: |before| <= i < |rows| ==>
         rows[i].path in machines && TakenFor(rows[i], machines[rows[i].path], locking, now)
  }

  lemma AttributedOneMore(start: seq<LockRow>, before: seq<LockRow>, rows: seq<LockRow>, machines: map<string, Option<string>>,
                          share: nat, path: string, locking: Locking, now: int, took: bool)
    requires Attributed(start, before, machines, locking, now) && TookOrHeld(before, rows, share, path, locking.enabled, took)
    requires path in machines && (took ==> TakenFor(rows[|before|], machines[path], locking, now))
    ensures Attributed(start, rows, machines, locking, now)
  {
    assert took ==> forall i :: 0 <= i < |before| ==> rows[i] == before[i];
  }

  lemma InOrder(open: OrderedMap<Option<string>>, i: nat)
    requires open.Valid() && i < |open.order|
    ensures open.order[i] in open.entries && open.order[..i + 1] == open.order[..i] + [open.order[i]]
  {
    ElementsAreMembers(open.order);
  }

  /** One more open path is locked, and for its machine. */
  lemma LockedOneMore(start: seq<LockRow>, before: seq<LockRow>, rows: seq<LockRow>, share: nat,
                      open: OrderedMap<Option<string>>, i: nat, locking: Locking, now: int, acquired: nat, took: bool)
    requires open.Valid() && i < |open.order|
    requires Added(start, before, share, open.order[..i], locking.enabled, acquired)
    requires Attributed(start, before, open.entries, locking, now)
    requires TookOrHeld(before, rows, share, open.order[i], locking.enabled, took)
    requires took ==> open.order[i] in open.entries && TakenFor(rows[|before|], open.entries[open.order[i]], locking, now)
    ensures Added(start, rows, share, open.order[..i + 1], locking.enabled, acquired + if took then 1 else 0)
    ensures Attributed(start, rows, open.entries, locking, now)
  {
    InOrder(open, i);
    AddedOneMore(start, before, rows, share, open.order[..i], open.order[i], locking.enabled, acquired, took);
    AttributedOneMore(start, before, rows, open.entries, share, open.order[i], locking, now, took);
  }

  predicate SameLock(a: LockRow, b: LockRow) {
    b == a.(releasedAt := b.releasedAt, readOnlyApplied := b.readOnlyApplied)
  }

  /** Of the listed machine locks, exactly those on paths not open were released. */
  ghost predicate OnlyReleased(before: seq<LockRow>, rows: seq<LockRow>, listed: set<nat>, open: set<string>) {
    && |before| == |rows|
    && (forall i :: 0 <= i < |rows| ==>
          if i in listed && before[i].path !in open then SameLock(before[i], rows[i]) && !rows[i].Active()
          else rows[i] == before[i])
  }

  /** What a pass over one share leaves of the rows of others, and of the locks of other origins. */
  ghost predicate Spared(before: seq<LockRow>, rows: seq<LockRow>, share: nat) {
    && |before| <= |rows|
    && (forall i :: 0 <= i < |before| ==>
          if MachineLock(before[i], share) then SameLock(before[i], rows[i]) else rows[i] == before[i])
    && (forall i :: |before| <= i < |rows| ==> rows[i].share == share && rows[i].origin.Machine?)
  }

  /** Every machine lock of the share is on an open path. */
  ghost predicate NoneStale(rows: seq<LockRow>, share: nat, open: set<string>) {
    forall i :: 0 <= i < |rows| && MachineLock(rows[i], share) ==> rows[i].path in open
  }

  /** Every machine lock left out of the listing is on an open path. */
  ghost predicate StaleListed(rows: seq<LockRow>, share: nat, listed: set<nat>, open: set<string>) {
    forall i :: i in MachineLocks(rows, share) - listed ==> rows[i].path in open
  }

  /** What a pass lists: the newest machine locks up to the cap, all of them exactly when they fit. */
  ghost predicate Listing(rows: seq<LockRow>, share: nat, listed: set<nat>) {
    && listed <= MachineLocks(rows, share) && |listed| <= MAX_RECONCILE_ROWS
    && (listed == MachineLocks(rows, share) <==> |MachineLocks(rows, share)| <= MAX_RECONCILE_ROWS)
    && (forall i, j :: i in listed && j in MachineLocks(rows, share) - listed ==> rows[j].acquiredAt <= rows[i].acquiredAt)
  }

  /** One pass over a share: the table before, after locking, and after releasing, with its counts. */
  datatype Pass = Pass(before: seq<LockRow>, mid: seq<LockRow>, after: seq<LockRow>, listed: set<nat>,
                       acquired: nat, released: nat)

  /** Row by row: each lock a pass took was taken for its machine, and each it released ended now. */
  ghost predicate PassExact(site: Site, pass: Pass, machines: map<string, Option<string>>, locking: Locking, now: int,
                            world: nat -> World, files: set<string>) {
    && Attributed(pass.before, pass.mid, machines, locking, now)
    && EndedOnly(site, pass.mid, pass.after, Closed(pass.mid, pass.listed, machines.Keys), now, world, files)
  }

  /** These rows, and no others, ended as a release at that time ends them. */
  ghost predicate EndedOnly(site: Site, before: seq<LockRow>, rows: seq<LockRow>, closed: set<nat>, now: int,
                            world: nat -> World, files: set<string>) {
    && |rows| == |before|
    && forall i :: 0 <= i < |rows| ==> rows[i] == if i in closed then Ended(site, before[i], now, world(i), files) else before[i]
  }

  function Closed(rows: seq<LockRow>, listed: set<nat>, open: set<string>): set<nat> {
    set i | i in listed && i < |rows| && rows[i].path !in open
  }

  ghost predicate PassOk(share: nat, open: seq<string>, enabled: bool, pass: Pass) {
    && Added(pass.before, pass.mid, share, open, enabled, pass.acquired)
    && Listing(pass.mid, share, pass.listed)
    && OnlyReleased(pass.mid, pass.after, pass.listed, Elements(open))
    && pass.released == |Closed(pass.mid, pass.listed, Elements(open))|
  }

  /**
   Exactly when a pass leaves the share matched: when every machine lock the listing left out is on an
   open path. With locking off the same decides whether any stale lock remains.
   */
  lemma PassMatchesIff(share: nat, open: seq<string>, enabled: bool, pass: Pass)
    requires PassOk(share, open, enabled, pass)
    ensures NoneStale(pass.after, share, Elements(open)) <==> StaleListed(pass.mid, share, pass.listed, Elements(open))
    ensures enabled ==>
      (Matches(pass.after, share, Elements(open)) <==> StaleListed(pass.mid, share, pass.listed, Elements(open)))
  {
    var mid, rows := pass.mid, pass.after;
    ElementsAreMembers(open);
    if NoneStale(rows, share, Elements(open)) {
      forall i | i in MachineLocks(mid, share) - pass.listed
        ensures mid[i].path in Elements(open)
      {
        assert rows[i] == mid[i];
      }
    }
    if StaleListed(mid, share, pass.listed, Elements(open)) {
      forall i | 0 <= i < |rows| && MachineLock(rows[i], share)
        ensures rows[i].path in Elements(open)
      {
        assert rows[i] == mid[i] && i in MachineLocks(mid, share);
      }
    }
    if enabled {
      forall p | p in Elements(open)
        ensures Held(rows, share, p)
      {
        var i :| 0 <= i < |mid| && Holds(mid[i], share, p);
        assert Holds(rows[i], share, p);
      }
    }
  }

  /** Within the cap everything is listed, so a pass with locking on always matches. */
  lemma PassMatches(share: nat, open: seq<string>, pass: Pass)
    requires PassOk(share, open, true, pass) && WithinCap(pass.before, share, open)
    ensures Matches(pass.after, share, Elements(open))
  {
    PassMatchesIff(share, open, true, pass);
  }

  /** A share that matches already is left alone. */
  lemma MatchedPassIsIdle(share: nat, open: seq<string>, enabled: bool, pass: Pass)
    requires PassOk(share, open, enabled, pass) && Matches(pass.before, share, Elements(open))
    ensures pass.acquired == 0 && pass.released == 0 && pass.after == pass.before
  {
    ElementsAreMembers(open);
    assert Missing(pass.before, share, open) == {};
    assert Closed(pass.mid, pass.listed, Elements(open)) == {};
  }

  lemma PassSpares(share: nat, open: seq<string>, enabled: bool, pass: Pass)
    requires PassOk(share, open, enabled, pass)
    ensures Spared(pass.before, pass.after, share)
  {
    assert forall i :: 0 <= i < |pass.before| ==> pass.mid[i] == pass.before[i];
  }

  lemma {:induction false} ElementsAreMembers(order: seq<string>)
    ensures forall p :: p in Elements(order) <==> p in order
  {
    if |order| > 0 {
      ElementsAreMembers(order[1..]);
      assert order == [order[0]] + order[1..];
    }
  }

  /** A pass over one share changes nothing about whether another matches. */
  lemma SparedKeepsMatch(before: seq<LockRow>, rows: seq<LockRow>, share: nat, other: nat, open: set<string>)
    requires Spared(before, rows, share) && other != share
    ensures Matches(rows, other, open) <==> Matches(before, other, open)
    ensures NoneStale(rows, other, open) <==> NoneStale(before, other, open)
  {
    SparedKeepsView(before, rows, share, other);
    assert forall i :: 0 <= i < |before| && MachineLock(before[i], other) ==> rows[i] == before[i];
    assert forall i :: 0 <= i < |rows| && MachineLock(rows[i], other) ==> i < |before| && before[i] == rows[i];
  }

  lemma {:induction false} NewestExists(rows: seq<LockRow>, ids: set<nat>) returns (id: nat)
    requires ids != {} && forall k :: k in ids ==> k < |rows|
    ensures id in ids && forall k :: k in ids ==> rows[k].acquiredAt <= rows[id].acquiredAt
  {
    id :| id in ids;
    if ids != {id} {
      var best := NewestExists(rows, ids - {id});
      if rows[id].acquiredAt < rows[best].acquiredAt { id := best; }
    }
  }

  // -- Events -----------------------------------------------------------------

  function ShareByName(shares: seq<Share>, name: string): (r: Option<Share>)
    ensures r.Some? ==> r.value in shares && r.value.name == name
    ensures r.None? ==> forall i :: 0 <= i < |shares| ==> shares[i].name != name
  {
    if |shares| == 0 then None
    else if shares[0].name == name then Some(shares[0])
    else ShareByName(shares[1..], name)
  }

  /** The share an event is about, when it is one to act on. */
  function Concerns(naming: Naming, shares: seq<Share>, event: Event): (about: Option<Share>)
    ensures about.Some? ==>
      && event.ok && event.path != "" && !naming.ignored(event.path)
      && about.value in shares && event.share == Some(about.value.name)
    ensures about.None? && event.ok && event.path != "" && !naming.ignored(event.path) ==>
      forall i :: 0 <= i < |shares| ==> event.share != Some(shares[i].name)
  {
    if !event.ok || event.share.None? || event.path == "" || naming.ignored(event.path) then None
    else ShareByName(shares, event.share.value)
  }

  predicate TakesLock(event: Event) {
    event.operation.Open? && (event.mode.None? || 'w' in event.mode.value)
  }

  predicate EndsInterest(event: Event) {
    event.operation.Close? || event.operation.Unlink? || event.operation.Rename?
  }

  /** A machine lock, and no other machine's: an address unknown on either side does not contradict. */
  predicate ReleasedBy(row: LockRow, share: nat, path: string, ip: Option<string>) {
    && Holds(row, share, path) && row.origin.Machine?
    && (ip.None? || row.machineIp.None? || row.machineIp == ip)
  }

  predicate ReleasedByEvent(row: LockRow, share: nat, event: Event) {
    && EndsInterest(event)
    && (|| ReleasedBy(row, share, event.path, event.clientIp)
        || (event.operation.Rename? && event.newPath.Some? && event.newPath.value != ""
            && ReleasedBy(row, share, event.newPath.value, event.clientIp)))
  }

  /**
   A close, delete or rename gives up the active machine lock on a path it names, a rename also on the new
   name if that is not empty, and never another known machine's lock, nor an operator's.
   */
  lemma OnlyTheHolderLetsGo(row: LockRow, share: nat, event: Event)
    ensures ReleasedByEvent(row, share, event) <==>
      && event.operation in {Close, Unlink, Rename}
      && row.origin == Machine && row.releasedAt == None && row.share == share
      && (row.path == event.path || (event.operation == Rename && event.newPath == Some(row.path) && row.path != ""))
      && !(row.machineIp.Some? && event.clientIp.Some? && row.machineIp != event.clientIp)
  {
  }

  class MachineLockSource {
    const locks: LockManager
    const naming: Naming

    constructor (locks: LockManager, naming: Naming)
      ensures this.locks == locks && this.naming == naming
    {
      this.locks, this.naming := locks, naming;
    }

    /** Takes a machine lock; a path already held, or locking switched off, is not an error here. */
    method TryAcquire(share: nat, path: string, ip: Option<string>, locking: Locking, now: int, world: World)
      returns (took: bool)
      requires locks.Valid()
      modifies locks`rows, locks`held, locks`modes, locks`steps
      ensures locks.Valid() && locks.modes.Keys == old(locks.modes).Keys
      ensures took <==> locking.enabled && !Held(old(locks.rows), share, path)
      ensures !took ==> locks.rows == old(locks.rows) && locks.held == old(locks.held) && locks.modes == old(locks.modes)
      ensures took ==>
        && |locks.rows| == |old(locks.rows)| + 1 && locks.rows[..|old(locks.rows)|] == old(locks.rows)
        && var row := locks.rows[|old(locks.rows)|];
           Holds(row, share, path) && TakenFor(row, ip, locking, now)
    {
      locks.Agreement();
      ActiveRowIffHeld(locks.rows, share, path);
      var r := locks.Acquire(Request(share, path, Machine, ip, Configured), locking, now, world);
      locks.Agreement();
      return r.Locked?;
    }

    /** Releases the path's lock if this machine, or an unknown one, is the one holding it. */
    method ReleaseIfHeldByMachine(share: nat, path: string, ip: Option<string>, now: int, world: nat -> World)
      requires locks.Valid()
      modifies locks`rows, locks`held, locks`modes, locks`steps
      ensures locks.Valid() && |locks.rows| == |old(locks.rows)| && locks.modes.Keys == old(locks.modes).Keys
      ensures forall i :: 0 <= i < |locks.rows| ==>
        locks.rows[i] == if ReleasedBy(old(locks.rows)[i], share, path, ip)
                         then Ended(locks.site, old(locks.rows)[i], now, world(i), old(locks.modes).Keys)
                         else old(locks.rows)[i]
    {
      locks.Agreement();
      ActiveRowIffHeld(locks.rows, share, path);
      var id := ActiveRow(locks.rows, (share, path));
      if id.None? {
        return;
      }
      OnlyHolder(locks.rows, id.value, share, path);
      if !ReleasedBy(locks.rows[id.value], share, path, ip) {
        return;
      }
      var found := locks.ReleaseLock(id.value, now, world(id.value));
    }

    /** Applies one audit event: a write open takes a lock, a close, delete or rename gives one up. */
    method HandleEvent(event: Event, shares: seq<Share>, locking: Locking, now: int, world: nat -> World)
      requires locks.Valid()
      modifies locks`rows, locks`held, locks`modes, locks`steps
      ensures locks.Valid()
      ensures
        var about := Concerns(naming, shares, event);
        && |old(locks.rows)| <= |locks.rows|
        && (|locks.rows| > |old(locks.rows)| <==>
              && about.Some? && event.operation == Open && (event.mode == None || 'w' in event.mode.value)
              && locking.enabled && !Held(old(locks.rows), about.value.id, event.path))
        && (|locks.rows| > |old(locks.rows)| ==>
              var row := locks.rows[|old(locks.rows)|];
              && |locks.rows| == |old(locks.rows)| + 1
              && Holds(row, about.value.id, event.path) && TakenFor(row, event.clientIp, locking, now))
        && forall i :: 0 <= i < |old(locks.rows)| ==>
             locks.rows[i] ==
               if about.Some? && ReleasedByEvent(old(locks.rows)[i], about.value.id, event)
               then Ended(locks.site, old(locks.rows)[i], now, world(i), old(locks.modes).Keys)
               else old(locks.rows)[i]
    {
      var about := Concerns(naming, shares, event);
      if about.None? {
        return;
      }
      var share := about.value.id;
      if TakesLock(event) {
        var took := TryAcquire(share, event.path, event.clientIp, locking, now, world(|locks.rows|));
        return;
      }
      if EndsInterest(event) {
        ReleaseIfHeldByMachine(share, event.path, event.clientIp, now, world);
        if event.operation.Rename? && event.newPath.Some? && event.newPath.value != "" {
          ReleaseIfHeldByMachine(share, event.newPath.value, event.clientIp, now, world);
        }
      }
    }

    // -- Reconciling ----------------------------------------------------------

    method IpsOf(sessions: seq<Session>) returns (ips: map<int, string>)
      ensures ips == IpByPid(sessions)
      ensures forall pid, i :: LastNaming(sessions, pid, i) ==> pid in ips && ips[pid] == sessions[i].remoteMachine.value
    {
      ips := map[];
      for i := 0 to |sessions|
        invariant ips == IpByPid(sessions[..i])
      {
        assert sessions[..i + 1][..i] == sessions[..i];
        if sessions[i].pid.Some? && sessions[i].remoteMachine.Some? {
          ips := ips[sessions[i].pid.value := sessions[i].remoteMachine.value];
        }
      }
      assert sessions[..|sessions|] == sessions;
      forall pid, i | LastNaming(sessions, pid, i)
        ensures pid in ips && ips[pid] == sessions[i].remoteMachine.value
      {
        IpByPidIsLast(sessions, pid);
      }
    }

    method OpenOn(share: Share, files: seq<OpenFile>, ips: map<int, string>) returns (open: OrderedMap<Option<string>>)
      ensures open == OpenMap(naming, share, files, ips) && open.Valid()
      ensures forall p :: p in open.entries <==> exists i :: 0 <= i < |files| && WritesTo(naming, share, files[i], p)
      ensures forall p, i :: LastWriting(naming, share, files, p, i) ==>
        p in open.entries && open.entries[p] == MachineOf(files[i], ips)
    {
      open := OrderedMap([], map[]);
      for i := 0 to |files|
        invariant open == OpenMap(naming, share, files[..i], ips)
      {
        assert files[..i + 1][..i] == files[..i];
        if OpensForWriting(naming, share, files[i]) {
          var pid := files[i].pid;
          var ip := if pid.Some? && pid.value in ips then Some(ips[pid.value]) else None;
          open := open.Set(naming.toRelativePath(files[i], share.cachePath).value, ip);
        }
      }
      assert files[..|files|] == files;
      OpenMapIsWriteOpen(naming, share, files, ips);
      assert forall p :: p in open.entries <==> WriteOpen(naming, share, files, p);
    }

    /** The newest machine locks of a share, up to the cap. */
    method ActiveMachineLocks(share: nat) returns (ids: set<nat>)
      ensures Listing(locks.rows, share, ids)
    {
      ids := {};
      var rest := MachineLocks(locks.rows, share);
      while rest != {} && |ids| < MAX_RECONCILE_ROWS
        invariant ids + rest == MachineLocks(locks.rows, share) && ids !! rest
        invariant |ids| + |rest| == |MachineLocks(locks.rows, share)| && |ids| <= MAX_RECONCILE_ROWS
        invariant forall i, j :: i in ids && j in rest ==> locks.rows[j].acquiredAt <= locks.rows[i].acquiredAt
        decreases rest
      {
        ghost var newest := NewestExists(locks.rows, rest);
        var id :| id in rest && forall k :: k in rest ==> locks.rows[k].acquiredAt <= locks.rows[id].acquiredAt;
        ids, rest := ids + {id}, rest - {id};
      }
    }

    method LockIfFree(share: nat, path: string, ip: Option<string>, locking: Locking, now: int, world: nat -> World)
      returns (took: bool)
      requires locks.Valid()
      modifies locks`rows, locks`held, locks`modes, locks`steps
      ensures locks.Valid()
      ensures TookOrHeld(old(locks.rows), locks.rows, share, path, locking.enabled, took)
      ensures took ==> TakenFor(locks.rows[|old(locks.rows)|], ip, locking, now)
      ensures locks.modes.Keys == old(locks.modes).Keys
      ensures !took ==> locks.held == old(locks.held) && locks.modes == old(locks.modes)
    {
      took := false;
      ActiveRowIffHeld(locks.rows, share, path);
      if ActiveRow(locks.rows, (share, path)).None? {
        took := TryAcquire(share, path, ip, locking, now, world(|locks.rows|));
      }
    }

    /** Locks every open path that nobody holds yet. */
    method LockOpenPaths(share: nat, open: OrderedMap<Option<string>>, locking: Locking, now: int, world: nat -> World)
      returns (acquired: nat)
      requires locks.Valid() && open.Valid()
      modifies locks`rows, locks`held, locks`modes, locks`steps
      ensures locks.Valid()
      ensures Added(old(locks.rows), locks.rows, share, open.order, locking.enabled, acquired)
      ensures Attributed(old(locks.rows), locks.rows, open.entries, locking, now)
      ensures locks.modes.Keys == old(locks.modes).Keys
      ensures acquired == 0 ==> locks.rows == old(locks.rows) && locks.held == old(locks.held) && locks.modes == old(locks.modes)
    {
      acquired := 0;
      for i := 0 to |open.order|
        invariant locks.Valid()
        invariant Added(old(locks.rows), locks.rows, share, open.order[..i], locking.enabled, acquired)
        invariant Attributed(old(locks.rows), locks.rows, open.entries, locking, now)
        invariant locks.modes.Keys == old(locks.modes).Keys
        invariant acquired == 0 ==> locks.held == old(locks.held) && locks.modes == old(locks.modes)
      {
        var path := open.order[i];
        ghost var before := locks.rows;
        InOrder(open, i);
        var took := LockIfFree(share, path, open.entries[path], locking, now, world);
        LockedOneMore(old(locks.rows), before, locks.rows, share, open, i, locking, now, acquired, took);
        acquired := acquired + if took then 1 else 0;
      }
      assert open.order[..|open.order|] == open.order;
    }

    method EndListed(id: nat, now: int, world: World)
      requires locks.Valid() && id < |locks.rows| && locks.rows[id].Active()
      modifies locks`rows, locks`held, locks`modes, locks`steps
      ensures locks.Valid() && locks.modes.Keys == old(locks.modes).Keys
      ensures locks.rows == old(locks.rows)[id := Ended(locks.site, old(locks.rows)[id], now, world, old(locks.modes).Keys)]
    {
      var found := locks.ReleaseLock(id, now, world);
    }

    /** Releases the listed machine locks whose path is no longer open. */
    method ReleaseClosed(listed: set<nat>, open: OrderedMap<Option<string>>, now: int, world: nat -> World)
      returns (released: nat)
      requires locks.Valid() && forall i :: i in listed ==> i < |locks.rows| && locks.rows[i].Active()
      modifies locks`rows, locks`held, locks`modes, locks`steps
      ensures locks.Valid() && OnlyReleased(old(locks.rows), locks.rows, listed, open.entries.Keys)
      ensures released == |Closed(old(locks.rows), listed, open.entries.Keys)|
      ensures EndedOnly(locks.site, old(locks.rows), locks.rows, Closed(old(locks.rows), listed, open.entries.Keys), now, world,
                        old(locks.modes).Keys)
      ensures locks.modes.Keys == old(locks.modes).Keys
      ensures released == 0 ==> locks.rows == old(locks.rows) && locks.held == old(locks.held) && locks.modes == old(locks.modes)
    {
      ghost var closed;
      released, closed := ReleaseEach(listed, open, now, world);
      EndedIsReleased(locks.site, old(locks.rows), locks.rows, listed, open.entries.Keys, now, world, old(locks.modes).Keys);
    }

    method ReleaseEach(listed: set<nat>, open: OrderedMap<Option<string>>, now: int, world: nat -> World)
      returns (released: nat, ghost closed: set<nat>)
      requires locks.Valid() && forall i :: i in listed ==> i < |locks.rows| && locks.rows[i].Active()
      modifies locks`rows, locks`held, locks`modes, locks`steps
      ensures locks.Valid() && locks.modes.Keys == old(locks.modes).Keys
      ensures closed == Closed(old(locks.rows), listed, open.entries.Keys) && released == |closed|
      ensures EndedOnly(locks.site, old(locks.rows), locks.rows, closed, now, world, old(locks.modes).Keys)
      ensures released == 0 ==> locks.rows == old(locks.rows) && locks.held == old(locks.held) && locks.modes == old(locks.modes)
    {
      released, closed := 0, {};
      var todo := listed;
      while todo != {}
        invariant locks.Valid() && todo <= listed && locks.modes.Keys == old(locks.modes).Keys
        invariant closed == Closed(old(locks.rows), listed - todo, open.entries.Keys) && released == |closed|
        invariant EndedOnly(locks.site, old(locks.rows), locks.rows, closed, now, world, old(locks.modes).Keys)
        invariant released == 0 ==> locks.rows == old(locks.rows) && locks.held == old(locks.held) && locks.modes == old(locks.modes)
        decreases todo
      {
        var id :| id in todo;
        ClosedOneMore(old(locks.rows), listed, todo, id, open.entries.Keys);
        todo := todo - {id};
        if locks.rows[id].path !in open.entries {
          ghost var mid := locks.rows;
          EndListed(id, now, world(id));
          EndedOneMore(locks.site, old(locks.rows), mid, locks.rows, closed, id, now, world, old(locks.modes).Keys);
          closed := closed + {id};
          released := released + 1;
        }
      }
      assert listed - {} == listed;
    }

    method ReconcileShare(share: nat, open: OrderedMap<Option<string>>, locking: Locking, now: int, world: nat -> World)
      returns (acquired: nat, released: nat, ghost pass: Pass)
      requires locks.Valid() && open.Valid()
      modifies locks`rows, locks`held, locks`modes, locks`steps
      ensures locks.Valid() && PassOk(share, open.order, locking.enabled, pass)
      ensures PassExact(locks.site, pass, open.entries, locking, now, world, locks.modes.Keys)
      ensures locks.modes.Keys == old(locks.modes).Keys
      ensures pass.before == old(locks.rows) && pass.after == locks.rows
      ensures pass.acquired == acquired && pass.released == released
      ensures locking.enabled ==> (Matches(locks.rows, share, open.entries.Keys)
                                   <==> StaleListed(pass.mid, share, pass.listed, open.entries.Keys))
      ensures locking.enabled && WithinCap(old(locks.rows), share, open.order) ==>
        Matches(locks.rows, share, open.entries.Keys)
      ensures Matches(old(locks.rows), share, open.entries.Keys) ==>
        && acquired == 0 && released == 0
        && locks.rows == old(locks.rows) && locks.held == old(locks.held) && locks.modes == old(locks.modes)
    {
      acquired := LockOpenPaths(share, open, locking, now, world);
      ghost var mid := locks.rows;
      var listed := ActiveMachineLocks(share);
      released := ReleaseClosed(listed, open, now, world);
      pass := Pass(old(locks.rows), mid, locks.rows, listed, acquired, released);
      PassMatchesIff(share, open.order, locking.enabled, pass);
      if Matches(pass.before, share, Elements(open.order)) {
        MatchedPassIsIdle(share, open.order, locking.enabled, pass);
      }
    }

    method ReconcileOne(share: Share, status: Status, ips: map<int, string>, locking: Locking, now: int, world: nat -> World)
      returns (acquired: nat, released: nat, ghost pass: Pass)
      requires locks.Valid() && ips == IpByPid(status.sessions)
      modifies locks`rows, locks`held, locks`modes, locks`steps
      ensures locks.Valid() && PassOk(share.id, OpenPaths(naming, share, status), locking.enabled, pass)
      ensures PassExact(locks.site, pass, MachinesOn(naming, share, status), locking, now, world, locks.modes.Keys)
      ensures locks.modes.Keys == old(locks.modes).Keys
      ensures pass.before == old(locks.rows) && pass.after == locks.rows
      ensures pass.acquired == acquired && pass.released == released
      ensures Matches(old(locks.rows), share.id, Elements(OpenPaths(naming, share, status))) ==>
        && acquired == 0 && released == 0
        && locks.rows == old(locks.rows) && locks.held == old(locks.held) && locks.modes == old(locks.modes)
    {
      var open := OpenOn(share, status.openFiles, ips);
      acquired, released, pass := ReconcileShare(share.id, open, locking, now, world);
    }

    /**
     Makes the lock table match a status that was read; one that could not be read changes nothing. What
     each share's pass did, the counts included, is exact for every setting and every table. With locking
     on and within the cap, the machine locks of each enabled share end up exactly on the open paths no
     other origin holds; and a table that matches already is left alone, so that a second pass over the
     same status does nothing.
     */
    method Reconcile(status: Option<Status>, shares: seq<Share>, locking: Locking, now: int, world: nat -> World)
      returns (outcome: Outcome, ghost passes: seq<Pass>)
      requires locks.Valid() && DistinctShares(shares)
      modifies locks`rows, locks`held, locks`modes, locks`steps
      ensures locks.Valid()
      ensures status.None? ==>
        && outcome == Outcome(0, 0, true)
        && locks.rows == old(locks.rows) && locks.held == old(locks.held) && locks.modes == old(locks.modes)
      ensures status.Some? ==>
        && PassesOk(naming, status.value, shares, locking.enabled, old(locks.rows), locks.rows, passes)
        && |passes| == |shares| && outcome == Outcome(TotalAcquired(passes), TotalReleased(passes), false)
        && ExactPasses(locks.site, naming, shares, status.value, passes, locking, now, world, locks.modes.Keys)
      ensures status.Some? && locking.enabled ==> forall k :: 0 <= k < |shares| ==>
        var open := OpenPaths(naming, shares[k], status.value);
        WithinCap(old(locks.rows), shares[k].id, open) ==> Matches(locks.rows, shares[k].id, Elements(open))
      ensures status.Some? && AllMatch(naming, status.value, shares, old(locks.rows)) ==>
        && outcome == Outcome(0, 0, false)
        && locks.rows == old(locks.rows) && locks.held == old(locks.held) && locks.modes == old(locks.modes)
    {
      passes := [];
      if status.None? {
        return Outcome(0, 0, true), passes;
      }
      var acquired, released;
      acquired, released, passes := ReconcileEach(status.value, shares, locking, now, world);
      if locking.enabled {
        forall k | 0 <= k < |shares| && WithinCap(old(locks.rows), shares[k].id, OpenPaths(naming, shares[k], status.value))
          ensures Matches(locks.rows, shares[k].id, Elements(OpenPaths(naming, shares[k], status.value)))
        {
          MatchedWithinCap(naming, status.value, shares, old(locks.rows), locks.rows, passes, k);
        }
      }
      return Outcome(acquired, released, false), passes;
    }

    method ReconcileEach(status: Status, shares: seq<Share>, locking: Locking, now: int, world: nat -> World)
      returns (acquired: nat, released: nat, ghost passes: seq<Pass>)
      requires locks.Valid()
      modifies locks`rows, locks`held, locks`modes, locks`steps
      ensures locks.Valid() && locks.modes.Keys == old(locks.modes).Keys
      ensures PassesOk(naming, status, shares, locking.enabled, old(locks.rows), locks.rows, passes)
      ensures |passes| == |shares| && acquired == TotalAcquired(passes) && released == TotalReleased(passes)
      ensures ExactPasses(locks.site, naming, shares, status, passes, locking, now, world, locks.modes.Keys)
      ensures AllMatch(naming, status, shares, old(locks.rows)) ==>
        && acquired == 0 && released == 0
        && locks.rows == old(locks.rows) && locks.held == old(locks.held) && locks.modes == old(locks.modes)
    {
      var ips := IpsOf(status.sessions);
      passes, acquired, released := [], 0, 0;
      ghost var alike := AllMatch(naming, status, shares, locks.rows);
      for i := 0 to |shares|
        invariant locks.Valid() && locks.modes.Keys == old(locks.modes).Keys
        invariant |passes| == i && PassesOk(naming, status, shares, locking.enabled, old(locks.rows), locks.rows, passes)
        invariant acquired == TotalAcquired(passes) && released == TotalReleased(passes)
        invariant ExactPasses(locks.site, naming, shares, status, passes, locking, now, world, old(locks.modes).Keys)
        invariant alike ==> acquired == 0 && released == 0 && AllMatch(naming, status, shares, locks.rows)
        invariant alike ==> locks.rows == old(locks.rows) && locks.held == old(locks.held) && locks.modes == old(locks.modes)
      {
        ghost var before := locks.rows;
        if alike { AllMatchAt(naming, status, shares, before, i); }
        var a, r, pass := ReconcileOne(shares[i], status, ips, locking, now, world);
        acquired, released := acquired + a, released + r;
        PassesOneMore(naming, status, shares, locking.enabled, old(locks.rows), before, passes, pass);
        ExactOneMore(locks.site, naming, shares, status, passes, pass, locking, now, world, locks.modes.Keys);
        passes := passes + [pass];
      }
    }
  }

  lemma EndedIsReleased(site: Site, before: seq<LockRow>, rows: seq<LockRow>, listed: set<nat>, open: set<string>, now: int,
                        world: nat -> World, files: set<string>)
    requires EndedOnly(site, before, rows, Closed(before, listed, open), now, world, files)
    ensures OnlyReleased(before, rows, listed, open)
  {
  }

  lemma ClosedOneMore(rows: seq<LockRow>, listed: set<nat>, todo: set<nat>, id: nat, open: set<string>)
    requires todo <= listed && id in todo && id < |rows|
    ensures Closed(rows, listed - (todo - {id}), open)
         == Closed(rows, listed - todo, open) + if rows[id].path !in open then {id} else {}
    ensures id !in Closed(rows, listed - todo, open)
  {
    assert listed - (todo - {id}) == listed - todo + {id};
    if rows[id].path !in open {
      assert Closed(rows, listed - todo + {id}, open) == Closed(rows, listed - todo, open) + {id};
    } else {
      assert Closed(rows, listed - todo + {id}, open) == Closed(rows, listed - todo, open) + {};
    }
  }

  lemma EndedOneMore(site: Site, before: seq<LockRow>, mid: seq<LockRow>, rows: seq<LockRow>, closed: set<nat>, id: nat,
                     now: int, world: nat -> World, files: set<string>)
    requires EndedOnly(site, before, mid, closed, now, world, files) && id < |mid| && id !in closed
    requires rows == mid[id := Ended(site, mid[id], now, world(id), files)]
    ensures EndedOnly(site, before, rows, closed + {id}, now, world, files)
  {
  }

  function TotalAcquired(passes: seq<Pass>): nat {
    if |passes| == 0 then 0 else TotalAcquired(passes[..|passes| - 1]) + passes[|passes| - 1].acquired
  }

  function TotalReleased(passes: seq<Pass>): nat {
    if |passes| == 0 then 0 else TotalReleased(passes[..|passes| - 1]) + passes[|passes| - 1].released
  }

  predicate DistinctShares(shares: seq<Share>) {
    forall i, j :: 0 <= i < j < |shares| ==> shares[i].id != shares[j].id
  }

  function OpenPaths(naming: Naming, share: Share, status: Status): seq<string> {
    OpenMap(naming, share, status.openFiles, IpByPid(status.sessions)).order
  }

  function MachinesOn(naming: Naming, share: Share, status: Status): map<string, Option<string>> {
    OpenMap(naming, share, status.openFiles, IpByPid(status.sessions)).entries
  }

  ghost predicate ExactPasses(site: Site, naming: Naming, shares: seq<Share>, status: Status, passes: seq<Pass>,
                              locking: Locking, now: int, world: nat -> World, files: set<string>) {
    && |passes| <= |shares|
    && forall k :: 0 <= k < |passes| ==>
         PassExact(site, passes[k], MachinesOn(naming, shares[k], status), locking, now, world, files)
  }

  lemma ExactOneMore(site: Site, naming: Naming, shares: seq<Share>, status: Status, passes: seq<Pass>, pass: Pass,
                     locking: Locking, now: int, world: nat -> World, files: set<string>)
    requires ExactPasses(site, naming, shares, status, passes, locking, now, world, files) && |passes| < |shares|
    requires PassExact(site, pass, MachinesOn(naming, shares[|passes|], status), locking, now, world, files)
    ensures ExactPasses(site, naming, shares, status, passes + [pass], locking, now, world, files)
  {
  }

  lemma AllMatchAt(naming: Naming, status: Status, shares: seq<Share>, rows: seq<LockRow>, k: nat)
    requires AllMatch(naming, status, shares, rows) && k < |shares|
    ensures Matches(rows, shares[k].id, Elements(OpenPaths(naming, shares[k], status)))
  {
  }

  /** A share matches a status when its machine locks are exactly the paths some process writes to and no other origin holds. */
  lemma MatchesTheStatus(naming: Naming, share: Share, status: Status, rows: seq<LockRow>)
    requires OneActivePerPath(rows)
    ensures Matches(rows, share.id, Elements(OpenPaths(naming, share, status))) <==>
      forall p :: HeldBy(rows, share.id, p, true) <==>
        (exists i :: 0 <= i < |status.openFiles| && WritesTo(naming, share, status.openFiles[i], p))
        && !HeldBy(rows, share.id, p, false)
  {
    OpenMapIsWriteOpen(naming, share, status.openFiles, IpByPid(status.sessions));
    MatchesMeans(rows, share.id, Elements(OpenPaths(naming, share, status)));
    assert forall p :: p in Elements(OpenPaths(naming, share, status)) <==> WriteOpen(naming, share, status.openFiles, p);
  }

  /** Each lock a pass took carries the machine of the last process that writes to its path, if that is known. */
  lemma TakenForItsMachine(site: Site, naming: Naming, share: Share, status: Status, pass: Pass, locking: Locking, now: int,
                           world: nat -> World, files: set<string>, k: nat, i: nat, s: nat)
    requires PassExact(site, pass, MachinesOn(naming, share, status), locking, now, world, files)
    requires |pass.before| <= k < |pass.mid|
    requires LastWriting(naming, share, status.openFiles, pass.mid[k].path, i)
    requires status.openFiles[i].pid.Some? && LastNaming(status.sessions, status.openFiles[i].pid.value, s)
    ensures pass.mid[k].machineIp == status.sessions[s].remoteMachine
  {
    OpenMapIsWriteOpen(naming, share, status.openFiles, IpByPid(status.sessions));
    IpByPidIsLast(status.sessions, status.openFiles[i].pid.value);
  }

  ghost predicate AllMatch(naming: Naming, status: Status, shares: seq<Share>, rows: seq<LockRow>) {
    forall k :: 0 <= k < |shares| ==> Matches(rows, shares[k].id, Elements(OpenPaths(naming, shares[k], status)))
  }

  /** The locks of the share and the open paths still to lock fit in one pass. */
  ghost predicate WithinCap(rows: seq<LockRow>, share: nat, open: seq<string>) {
    |MachineLocks(rows, share)| + |Missing(rows, share, open)| <= MAX_RECONCILE_ROWS
  }

  ghost predicate SameView(before: seq<LockRow>, rows: seq<LockRow>, share: nat) {
    && MachineLocks(rows, share) == MachineLocks(before, share)
    && (forall p :: Held(rows, share, p) <==> Held(before, share, p))
  }

  /** One pass for each of the first shares, each starting from the table the one before it left. */
  ghost predicate PassesOk(naming: Naming, status: Status, shares: seq<Share>, enabled: bool, start: seq<LockRow>,
                           rows: seq<LockRow>, passes: seq<Pass>)
    decreases |passes|
  {
    if |passes| == 0 then rows == start
    else
      var n := |passes| - 1;
      && n < |shares|
      && PassesOk(naming, status, shares, enabled, start, passes[n].before, passes[..n])
      && PassOk(shares[n].id, OpenPaths(naming, shares[n], status), enabled, passes[n])
      && rows == passes[n].after
  }

  lemma PassesOneMore(naming: Naming, status: Status, shares: seq<Share>, enabled: bool, start: seq<LockRow>,
                      rows: seq<LockRow>, passes: seq<Pass>, pass: Pass)
    requires PassesOk(naming, status, shares, enabled, start, rows, passes) && |passes| < |shares|
    requires PassOk(shares[|passes|].id, OpenPaths(naming, shares[|passes|], status), enabled, pass) && pass.before == rows
    ensures PassesOk(naming, status, shares, enabled, start, pass.after, passes + [pass])
    ensures TotalAcquired(passes + [pass]) == TotalAcquired(passes) + pass.acquired
    ensures TotalReleased(passes + [pass]) == TotalReleased(passes) + pass.released
  {
    assert (passes + [pass])[..|passes|] == passes;
  }

  lemma SparedKeepsView(before: seq<LockRow>, rows: seq<LockRow>, share: nat, other: nat)
    requires Spared(before, rows, share) && other != share
    ensures SameView(before, rows, other)
  {
    forall p
      ensures Held(rows, other, p) <==> Held(before, other, p)
    {
      if Held(before, other, p) {
        var i :| 0 <= i < |before| && Holds(before[i], other, p);
        assert Holds(rows[i], other, p);
      }
    }
  }

  lemma SameViewIsSameCap(before: seq<LockRow>, rows: seq<LockRow>, share: nat, open: seq<string>)
    requires SameView(before, rows, share)
    ensures WithinCap(before, share, open) <==> WithinCap(rows, share, open)
  {
    assert Missing(before, share, open) == Missing(rows, share, open);
  }

  /** A pass over another share leaves this one's locks and its match alone. */
  lemma PassLeavesOther(share: nat, open: seq<string>, enabled: bool, pass: Pass, other: nat, otherOpen: set<string>)
    requires PassOk(share, open, enabled, pass) && other != share
    ensures SameView(pass.before, pass.after, other)
    ensures Matches(pass.after, other, otherOpen) <==> Matches(pass.before, other, otherOpen)
    ensures NoneStale(pass.after, other, otherOpen) <==> NoneStale(pass.before, other, otherOpen)
  {
    PassSpares(share, open, enabled, pass);
    SparedKeepsView(pass.before, pass.after, share, other);
    SparedKeepsMatch(pass.before, pass.after, share, other, otherOpen);
  }

  /**
   After a whole reconcile, for each enabled share and whatever its size: no stale machine lock remains,
   and with locking on the share is matched, exactly when its listing left out no stale lock.
   */
  lemma {:induction false} ReconciledExactly(naming: Naming, status: Status, shares: seq<Share>, enabled: bool,
                                             start: seq<LockRow>, rows: seq<LockRow>, passes: seq<Pass>, k: nat)
    requires DistinctShares(shares) && k < |passes| <= |shares|
    requires PassesOk(naming, status, shares, enabled, start, rows, passes)
    ensures
      var share, open := shares[k].id, Elements(OpenPaths(naming, shares[k], status));
      var all := StaleListed(passes[k].mid, share, passes[k].listed, open);
      && (NoneStale(rows, share, open) <==> all)
      && (enabled ==> (Matches(rows, share, open) <==> all))
    decreases |passes|
  {
    var n := |passes| - 1;
    if k == n {
      PassMatchesIff(shares[n].id, OpenPaths(naming, shares[n], status), enabled, passes[n]);
    } else {
      ReconciledExactly(naming, status, shares, enabled, start, passes[n].before, passes[..n], k);
      PassLeavesOther(shares[n].id, OpenPaths(naming, shares[n], status), enabled, passes[n], shares[k].id,
                      Elements(OpenPaths(naming, shares[k], status)));
    }
  }

  /** A share whose turn has not come is as it was. */
  lemma {:induction false} NotYetTouched(naming: Naming, status: Status, shares: seq<Share>, enabled: bool,
                                         start: seq<LockRow>, rows: seq<LockRow>, passes: seq<Pass>, k: nat)
    requires DistinctShares(shares) && |passes| <= k < |shares|
    requires PassesOk(naming, status, shares, enabled, start, rows, passes)
    ensures SameView(start, rows, shares[k].id)
    decreases |passes|
  {
    if |passes| > 0 {
      var n := |passes| - 1;
      NotYetTouched(naming, status, shares, enabled, start, passes[n].before, passes[..n], k);
      PassLeavesOther(shares[n].id, OpenPaths(naming, shares[n], status), enabled, passes[n], shares[k].id, {});
    }
  }

  lemma {:induction false} MatchedWithinCap(naming: Naming, status: Status, shares: seq<Share>, start: seq<LockRow>,
                                            rows: seq<LockRow>, passes: seq<Pass>, k: nat)
    requires DistinctShares(shares) && k < |passes| <= |shares|
    requires PassesOk(naming, status, shares, true, start, rows, passes)
    requires WithinCap(start, shares[k].id, OpenPaths(naming, shares[k], status))
    ensures Matches(rows, shares[k].id, Elements(OpenPaths(naming, shares[k], status)))
    decreases |passes|
  {
    var n := |passes| - 1;
    if k == n {
      NotYetTouched(naming, status, shares, true, start, passes[n].before, passes[..n], n);
      SameViewIsSameCap(start, passes[n].before, shares[n].id, OpenPaths(naming, shares[n], status));
      PassMatches(shares[n].id, OpenPaths(naming, shares[n], status), passes[n]);
    } else {
      MatchedWithinCap(naming, status, shares, start, passes[n].before, passes[..n], k);
      PassLeavesOther(shares[n].id, OpenPaths(naming, shares[n], status), true, passes[n], shares[k].id,
                      Elements(OpenPaths(naming, shares[k], status)));
    }
  }

  // -- Above the cap ----------------------------------------------------------

  /** Paths of different lengths. */
  function NameOf(n: nat): string {
    seq(n, _ => 'x')
  }

  /** A share with this many machine locks, each newer than the one before. */
  function Crowd(share: nat, n: nat): seq<LockRow> {
    seq(n, i requires 0 <= i => LockRow(share, NameOf(i), Machine, None, NoProjection, false, false, i, None, None))
  }

  /** All of their paths but the oldest are open. */
  function CrowdOpen(n: nat): seq<string>
    requires n > 0
  {
    seq(n - 1, i requires 0 <= i => NameOf(i + 1))
  }

  function Range(n: nat): set<nat> {
    if n == 0 then {} else Range(n - 1) + {n - 1}
  }

  lemma {:induction false} RangeIs(n: nat)
    ensures |Range(n)| == n && forall i :: i in Range(n) <==> 0 <= i < n
  {
    if n > 0 {
      RangeIs(n - 1);
    }
  }

  lemma CrowdIsLocked(share: nat, n: nat)
    ensures |MachineLocks(Crowd(share, n), share)| == n
    ensures forall i :: i in MachineLocks(Crowd(share, n), share) <==> 0 <= i < n
  {
    RangeIs(n);
    assert MachineLocks(Crowd(share, n), share) == Range(n);
  }

  lemma CrowdPaths(share: nat, n: nat)
    requires n > 0
    ensures forall i :: 0 < i < n ==> Crowd(share, n)[i].path in Elements(CrowdOpen(n))
    ensures Crowd(share, n)[0].path !in Elements(CrowdOpen(n))
    ensures forall p :: p in CrowdOpen(n) ==> Held(Crowd(share, n), share, p)
  {
    ElementsAreMembers(CrowdOpen(n));
    forall i | 0 < i < n
      ensures Crowd(share, n)[i].path in Elements(CrowdOpen(n))
    {
      assert CrowdOpen(n)[i - 1] == NameOf(i);
    }
    forall p | p in CrowdOpen(n)
      ensures Held(Crowd(share, n), share, p)
    {
      var k :| 0 <= k < |CrowdOpen(n)| && CrowdOpen(n)[k] == p;
      assert Holds(Crowd(share, n)[k + 1], share, p);
    }
  }

  /**
   Above the cap a pass can leave a stale lock behind, and no repetition helps: here the newest locks fill
   the listing, the oldest is never reached, and the table is left as it was.
   */
  lemma OldestIsNeverReached(share: nat, n: nat, pass: Pass)
    requires n == MAX_RECONCILE_ROWS + 1
    requires PassOk(share, CrowdOpen(n), true, pass) && pass.before == Crowd(share, n)
    ensures pass.after == pass.before && !Matches(pass.after, share, Elements(CrowdOpen(n)))
    ensures !WithinCap(pass.before, share, CrowdOpen(n))
  {
    CrowdIsLocked(share, n);
    CrowdPaths(share, n);
    assert Missing(pass.before, share, CrowdOpen(n)) == {};
    assert pass.mid == pass.before;
    OldestNotListed(share, n, pass.listed);
    OnlyOpenListed(share, n, pass);
    assert MachineLock(pass.after[0], share);
  }

  /** Such a pass there is. */
  lemma CrowdedPass(share: nat, n: nat) returns (pass: Pass)
    requires n == MAX_RECONCILE_ROWS + 1
    ensures PassOk(share, CrowdOpen(n), true, pass) && pass.before == Crowd(share, n)
    ensures !Matches(pass.after, share, Elements(CrowdOpen(n)))
  {
    var rows := Crowd(share, n);
    CrowdIsLocked(share, n);
    CrowdPaths(share, n);
    pass := Pass(rows, rows, rows, MachineLocks(rows, share) - {0}, 0, 0);
    assert Missing(rows, share, CrowdOpen(n)) == {};
    assert Closed(rows, pass.listed, Elements(CrowdOpen(n))) == {};
    OldestIsNeverReached(share, n, pass);
  }

  lemma OnlyOpenListed(share: nat, n: nat, pass: Pass)
    requires n > 0 && pass.mid == Crowd(share, n)
    requires forall i :: 0 < i < n ==> Crowd(share, n)[i].path in Elements(CrowdOpen(n))
    requires OnlyReleased(pass.mid, pass.after, pass.listed, Elements(CrowdOpen(n))) && 0 !in pass.listed
    ensures pass.after == pass.mid
  {
    forall i | 0 <= i < |pass.mid|
      ensures pass.after[i] == pass.mid[i]
    {
      assert i > 0 ==> pass.mid[i].path in Elements(CrowdOpen(n));
    }
  }

  lemma OldestNotListed(share: nat, n: nat, listed: set<nat>)
    requires n == MAX_RECONCILE_ROWS + 1 && Listing(Crowd(share, n), share, listed)
    ensures 0 !in listed
  {
    CrowdIsLocked(share, n);
    var all := MachineLocks(Crowd(share, n), share);
    assert all == listed + (all - listed);
    var j :| j in all - listed;
    if j > 0 {
      OlderListedLater(Crowd(share, n), share, listed, 0, j);
    }
  }

  lemma OlderListedLater(rows: seq<LockRow>, share: nat, listed: set<nat>, i: nat, j: nat)
    requires Listing(rows, share, listed) && j in MachineLocks(rows, share) - listed
    requires i < |rows| && rows[i].acquiredAt < rows[j].acquiredAt
    ensures i !in listed
  {
  }

  lemma OnlyHolder(rows: seq<LockRow>, id: nat, share: nat, path: string)
    requires OneActivePerPath(rows) && id < |rows| && Holds(rows[id], share, path)
    ensures forall j :: 0 <= j < |rows| && Holds(rows[j], share, path) ==> j == id
  {
    assert forall j :: 0 <= j < |rows| && Holds(rows[j], share, path) ==> rows[j].Key() == rows[id].Key();
  }

  lemma StillHeld(before: seq<LockRow>, rows: seq<LockRow>, share: nat, path: string)
    requires |before| <= |rows| && rows[..|before|] == before && Held(before, share, path)
    ensures Held(rows, share, path)
  {
    var i :| 0 <= i < |before| && Holds(before[i], share, path);
    assert rows[i] == before[i];
  }

  lemma AddedOneMore(start: seq<LockRow>, before: seq<LockRow>, rows: seq<LockRow>, share: nat, paths: seq<string>,
                     path: string, enabled: bool, acquired: nat, took: bool)
    requires Added(start, before, share, paths, enabled, acquired)
    requires TookOrHeld(before, rows, share, path, enabled, took)
    ensures Added(start, rows, share, paths + [path], enabled, acquired + if took then 1 else 0)
  {
    var all := paths + [path];
    assert forall p :: p in all <==> p in paths || p == path;
    if took {
      assert rows == before + [rows[|before|]];
      OneMoreMachineLock(before, rows[|before|], share);
      assert Held(rows, share, path);
      assert !Held(start, share, path) by {
        if Held(start, share, path) { StillHeld(start, before, share, path); }
      }
      assert Missing(start, share, all) == Missing(start, share, paths) + {path};
      forall p | p in paths
        ensures Held(rows, share, p)
      {
        StillHeld(before, rows, share, p);
      }
    } else if enabled {
      var i :| 0 <= i < |before| && Holds(before[i], share, path);
      assert i < |start| ==> Holds(start[i], share, path);
      assert Missing(start, share, all) == Missing(start, share, paths);
    }
  }
}
