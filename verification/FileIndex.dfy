/** The in-memory index of one side of a share, with its case buckets and scan generations. */
module FileIndex {
  import opened Wrappers

  datatype ScanEntry = ScanEntry(relPath: string, isDir: bool, size: int, mtimeMs: int)

  datatype IndexedEntry = IndexedEntry(isDir: bool, size: int, mtimeMs: int, generation: nat)

  /** What is known of a path, apart from when it was last seen. */
  datatype Shown = Shown(isDir: bool, size: int, mtimeMs: int)

  datatype Side = Side(size: int, mtime: int)

  datatype ChangeType = Added | Modified | Removed

  datatype ScanChange = ScanChange(kind: ChangeType, relPath: string, isDir: bool, side: Option<Side>, previous: Option<Side>)

  function ShownOf(entry: IndexedEntry): Shown {
    Shown(entry.isDir, entry.size, entry.mtimeMs)
  }

  function Listed(entry: ScanEntry): Shown {
    Shown(entry.isDir, entry.size, entry.mtimeMs)
  }

  function View(entries: map<string, IndexedEntry>): map<string, Shown> {
    map p | p in entries :: ShownOf(entries[p])
  }

  // -- Changes ----------------------------------------------------------------

  function ChangeOf(entries: map<string, IndexedEntry>, entry: ScanEntry): Option<ScanChange> {
    var side := Some(Side(entry.size, entry.mtimeMs));
    if entry.relPath !in entries then Some(ScanChange(Added, entry.relPath, entry.isDir, side, None))
    else
      var known := entries[entry.relPath];
      if ShownOf(known) == Listed(entry) then None
      else Some(ScanChange(Modified, entry.relPath, entry.isDir, side, Some(Side(known.size, known.mtimeMs))))
  }

  /** A listener's picture of the share after a change. */
  function Applied(shown: map<string, Shown>, change: ScanChange): map<string, Shown> {
    if change.kind.Removed? || change.side.None? then shown - {change.relPath}
    else shown[change.relPath := Shown(change.isDir, change.side.value.size, change.side.value.mtime)]
  }

  function Replay(shown: map<string, Shown>, changes: seq<ScanChange>): map<string, Shown> {
    if |changes| == 0 then shown else Applied(Replay(shown, changes[..|changes| - 1]), changes[|changes| - 1])
  }

  lemma ReplayOneMore(shown: map<string, Shown>, changes: seq<ScanChange>, change: ScanChange)
    ensures Replay(shown, changes + [change]) == Applied(Replay(shown, changes), change)
  {
    assert (changes + [change])[..|changes|] == changes;
  }

  lemma {:induction false} ReplayAppend(shown: map<string, Shown>, a: seq<ScanChange>, b: seq<ScanChange>)
    ensures Replay(shown, a + b) == Replay(Replay(shown, a), b)
  {
    if |b| == 0 {
      assert a + b == a;
    } else {
      ReplayAppend(shown, a, b[..|b| - 1]);
      assert (a + b)[..|a + b| - 1] == a + b[..|b| - 1];
    }
  }

  function Stamped(entry: ScanEntry, generation: nat): IndexedEntry {
    IndexedEntry(entry.isDir, entry.size, entry.mtimeMs, generation)
  }

  /** An observation changes a listener's picture exactly as it changes the index, and says what was there before. */
  lemma ObservationReplays(entries: map<string, IndexedEntry>, entry: ScanEntry, generation: nat)
    ensures
      var after, change := View(entries[entry.relPath := Stamped(entry, generation)]), ChangeOf(entries, entry);
      && after == (if change.Some? then Applied(View(entries), change.value) else View(entries))
      && (change.None? <==> after == View(entries))
      && (change.Some? ==>
            && change.value.relPath == entry.relPath
            && (change.value.kind.Added? <==> entry.relPath !in entries)
            && (change.value.previous.Some? <==> entry.relPath in entries)
            && (entry.relPath in entries ==>
                  change.value.previous.value.size == entries[entry.relPath].size
                  && change.value.previous.value.mtime == entries[entry.relPath].mtimeMs))
  {
    var after := View(entries[entry.relPath := Stamped(entry, generation)]);
    assert entry.relPath in after && after[entry.relPath] == Listed(entry);
    if entry.relPath in entries {
      assert View(entries)[entry.relPath] == ShownOf(entries[entry.relPath]);
    } else {
      assert entry.relPath !in View(entries);
    }
  }

  // -- Case buckets -----------------------------------------------------------

  /** The paths grouped by their lower-case spelling. */
  ghost function Grouped(paths: set<string>, lower: string -> string): map<string, set<string>> {
    map k | k in Spellings(paths, lower) :: Bucket(paths, lower, k)
  }

  ghost function Spellings(paths: set<string>, lower: string -> string): set<string> {
    set p | p in paths :: lower(p)
  }

  ghost function Bucket(paths: set<string>, lower: string -> string, key: string): set<string> {
    set p | p in paths && lower(p) == key
  }

  lemma GroupedWith(paths: set<string>, path: string, lower: string -> string)
    ensures
      var groups, key := Grouped(paths, lower), lower(path);
      Grouped(paths + {path}, lower) == groups[key := (if key in groups then groups[key] else {}) + {path}]
  {
    var groups, key, more := Grouped(paths, lower), lower(path), Grouped(paths + {path}, lower);
    var next := groups[key := (if key in groups then groups[key] else {}) + {path}];
    assert path in paths + {path};
    forall k
      ensures k in more <==> k in next
    {
      if k in groups {
        var p :| p in paths && lower(p) == k;
        assert p in paths + {path};
      }
    }
    forall k | k in more
      ensures more[k] == next[k]
    {
      if k == key && key !in groups {
        assert forall p :: p in paths ==> lower(p) != key;
      }
    }
  }

  lemma GroupedWithout(paths: set<string>, path: string, lower: string -> string)
    requires path in paths
    ensures
      var groups, key := Grouped(paths, lower), lower(path);
      && key in groups
      && Grouped(paths - {path}, lower)
         == if groups[key] == {path} then groups - {key} else groups[key := groups[key] - {path}]
  {
    var groups, key, fewer := Grouped(paths, lower), lower(path), Grouped(paths - {path}, lower);
    var next := if groups[key] == {path} then groups - {key} else groups[key := groups[key] - {path}];
    forall k
      ensures k in fewer <==> k in next
    {
      if k in next {
        if k == key {
          var q :| q in groups[key] && q != path;
          assert q in paths - {path} && lower(q) == k;
        } else {
          var p :| p in paths && lower(p) == k;
          assert p in paths - {path};
        }
      }
      if k in fewer {
        var p :| p in paths - {path} && lower(p) == k;
        assert p in paths && p in groups[k];
      }
    }
    assert forall k :: k in fewer ==> fewer[k] == next[k];
  }

  ghost predicate DiffersByCase(paths: set<string>, lower: string -> string, a: string, b: string) {
    a in paths && b in paths && a != b && lower(a) == lower(b)
  }

  lemma TwoElements(s: set<string>)
    ensures |s| > 1 <==> exists a, b :: a in s && b in s && a != b
  {
    if |s| > 1 {
      var a :| a in s;
      assert |s - {a}| > 0;
      var b :| b in s - {a};
    }
    if a, b :| a in s && b in s && a != b {
      assert b in s - {a};
      assert |s - {a}| == |s| - 1;
    }
  }

  lemma EmptyGroup(paths: set<string>, lower: string -> string, key: string)
    ensures key in Grouped(paths, lower) <==> Bucket(paths, lower, key) != {}
  {
    if key in Grouped(paths, lower) {
      var p :| p in paths && lower(p) == key;
      assert p in Bucket(paths, lower, key);
    }
    if p :| p in Bucket(paths, lower, key) {
      assert lower(p) in Spellings(paths, lower);
    }
  }

  /** A group has two members exactly when two paths share its spelling. */
  lemma CrowdedGroup(paths: set<string>, lower: string -> string, key: string)
    ensures |Bucket(paths, lower, key)| > 1 <==> exists a, b :: DiffersByCase(paths, lower, a, b) && lower(a) == key
  {
    var group := Bucket(paths, lower, key);
    TwoElements(group);
    if a, b :| a in group && b in group && a != b {
      assert DiffersByCase(paths, lower, a, b);
    }
    if a, b :| DiffersByCase(paths, lower, a, b) && lower(a) == key {
      assert a in group && b in group;
    }
  }

  /** What `hasCaseCollision` is documented to ask: another indexed path differs from this one only by case. */
  ghost predicate OtherSpelling(paths: set<string>, lower: string -> string, path: string) {
    exists q :: q in paths && q != path && lower(q) == lower(path)
  }

  /**
   What it computes is what it is documented to ask exactly for an indexed path, or one whose bucket
   does not have exactly one member.
   */
  lemma CollisionIsOtherSpellingIff(paths: set<string>, lower: string -> string, path: string)
    ensures
      var bucket := Bucket(paths, lower, lower(path));
      (|bucket| > 1 <==> OtherSpelling(paths, lower, path)) <==> path in paths || |bucket| != 1
  {
    var bucket := Bucket(paths, lower, lower(path));
    TwoElements(bucket);
    if path in paths {
      assert path in bucket;
      if OtherSpelling(paths, lower, path) {
        var q :| q in paths && q != path && lower(q) == lower(path);
        assert q in bucket;
      }
    } else {
      if q :| q in bucket {
        assert OtherSpelling(paths, lower, path);
      }
      if OtherSpelling(paths, lower, path) {
        var q :| q in paths && q != path && lower(q) == lower(path);
        assert q in bucket && |bucket - {q}| == |bucket| - 1;
      }
    }
  }

  /** With only "A" indexed, nothing is reported for "a", although another indexed path differs only by case. */
  lemma UnindexedSpellingIsMissed(lower: string -> string)
    requires lower("A") == "a" && lower("a") == "a"
    ensures OtherSpelling({"A"}, lower, "a") && |Bucket({"A"}, lower, lower("a"))| == 1
  {
    assert Bucket({"A"}, lower, "a") == {"A"};
    assert "A"[0] != "a"[0];
  }

  class FileIndex {
    const lower: string -> string
    var entries: map<string, IndexedEntry>
    var ciBuckets: map<string, set<string>>
    var currentGeneration: nat

    ghost predicate Valid()
      reads this
    {
      && ciBuckets == Grouped(entries.Keys, lower)
      && (forall p :: p in entries ==> entries[p].generation <= currentGeneration)
    }

    constructor (lower: string -> string)
      ensures Valid() && entries == map[] && currentGeneration == 0 && this.lower == lower
    {
      this.lower := lower;
      entries, ciBuckets, currentGeneration := map[], map[], 0;
    }

    method BeginScan() returns (generation: nat)
      requires Valid()
      modifies `currentGeneration
      ensures Valid() && generation == currentGeneration == old(currentGeneration) + 1
      ensures forall p :: p in entries ==> entries[p].generation != generation
    {
      currentGeneration := currentGeneration + 1;
      generation := currentGeneration;
    }

    /** Records one observed entry and reports the change it represents. */
    method Observe(entry: ScanEntry, generation: nat) returns (change: Option<ScanChange>)
      requires Valid() && generation <= currentGeneration
      modifies `entries, `ciBuckets
      ensures Valid() && entries == old(entries)[entry.relPath := Stamped(entry, generation)]
      ensures change == ChangeOf(old(entries), entry)
    {
      change := ChangeOf(entries, entry);
      GroupedWith(entries.Keys, entry.relPath, lower);
      var isNew := entry.relPath !in entries;
      assert !isNew ==> entries.Keys + {entry.relPath} == entries.Keys;
      entries := entries[entry.relPath := Stamped(entry, generation)];
      assert entries.Keys == old(entries).Keys + {entry.relPath};
      assert !isNew ==> entries.Keys == old(entries).Keys;
      if isNew {
        var key := lower(entry.relPath);
        if key in ciBuckets {
          ciBuckets := ciBuckets[key := ciBuckets[key] + {entry.relPath}];
        } else {
          assert {} + {entry.relPath} == {entry.relPath};
          ciBuckets := ciBuckets[key := {entry.relPath}];
        }
      }
    }

    method ForgetCase(path: string)
      requires path in entries && ciBuckets == Grouped(entries.Keys, lower)
      modifies `ciBuckets
      ensures ciBuckets == Grouped(entries.Keys - {path}, lower)
    {
      GroupedWithout(entries.Keys, path, lower);
      var key := lower(path);
      var bucket := ciBuckets[key] - {path};
      if bucket == {} {
        ciBuckets := ciBuckets - {key};
      } else {
        ciBuckets := ciBuckets[key := bucket];
      }
    }

    /** Removes one path from the index. */
    method Forget(path: string) returns (change: ScanChange)
      requires Valid() && path in entries
      modifies `entries, `ciBuckets
      ensures Valid() && entries == old(entries) - {path} && change == RemovalOf(old(entries), path)
    {
      change := RemovalOf(entries, path);
      ForgetCase(path);
      entries := entries - {path};
      assert entries.Keys == old(entries).Keys - {path};
    }

    method ReapOne(path: string, removed: seq<ScanChange>, ghost start: map<string, IndexedEntry>, ghost done: set<string>)
      returns (more: seq<ScanChange>)
      requires Valid() && path in entries && path !in done && Reaped(start, entries, done, removed)
      modifies `entries, `ciBuckets
      ensures Valid() && Reaped(start, entries, done + {path}, more) && entries == old(entries) - {path}
    {
      var change := Forget(path);
      ReapedOneMore(start, old(entries), entries, done, removed, path);
      more := removed + [change];
    }

    /** Removes every path the generation did not stamp, reporting each one once. */
    method Reap(generation: nat) returns (removed: seq<ScanChange>)
      requires Valid()
      modifies `entries, `ciBuckets
      ensures Valid() && entries == Survivors(old(entries), generation)
      ensures Removals(old(entries), old(entries).Keys - entries.Keys, removed)
      ensures Replay(View(old(entries)), removed) == View(entries)
    {
      removed := [];
      var todo := set p | p in entries && entries[p].generation != generation;
      ghost var doomed := todo;
      assert entries - {} == entries;
      while todo != {}
        invariant Valid() && todo <= doomed && todo <= entries.Keys
        invariant Reaped(old(entries), entries, doomed - todo, removed)
        decreases todo
      {
        var path :| path in todo;
        ghost var done := doomed - todo;
        OneMoreDone(doomed, todo, path);
        todo := todo - {path};
        removed := ReapOne(path, removed, old(entries), done);
      }
      assert doomed - {} == doomed;
      ReapedAll(old(entries), entries, doomed, removed, generation);
    }

    /**
     Whether two indexed spellings of this path differ only by case: whether another one exists, unless
     the path is not indexed and exactly one spelling of it is.
     */
    method HasCaseCollision(relPath: string) returns (collides: bool)
      requires Valid()
      ensures collides <==> exists a, b :: DiffersByCase(entries.Keys, lower, a, b) && lower(a) == lower(relPath)
      ensures (collides <==> OtherSpelling(entries.Keys, lower, relPath))
        <==> relPath in entries || |Bucket(entries.Keys, lower, lower(relPath))| != 1
    {
      var key := lower(relPath);
      CollisionIsOtherSpellingIff(entries.Keys, lower, relPath);
      CrowdedGroup(entries.Keys, lower, key);
      EmptyGroup(entries.Keys, lower, key);
      collides := key in ciBuckets && |ciBuckets[key]| > 1;
    }

    /** Every group of indexed paths that differ only by case. */
    method CaseCollisions() returns (collisions: set<set<string>>)
      requires Valid()
      ensures forall a, b :: DiffersByCase(entries.Keys, lower, a, b) <==>
        a != b && exists group :: group in collisions && a in group && b in group
      ensures forall group :: group in collisions ==> |group| > 1
      ensures forall group, a :: group in collisions && a in group ==> group == Bucket(entries.Keys, lower, lower(a))
    {
      collisions := set k | k in ciBuckets && |ciBuckets[k]| > 1 :: ciBuckets[k];
      forall a, b
        ensures DiffersByCase(entries.Keys, lower, a, b) <==>
          a != b && exists group :: group in collisions && a in group && b in group
      {
        if DiffersByCase(entries.Keys, lower, a, b) {
          var k := lower(a);
          assert a in ciBuckets[k] && b in ciBuckets[k];
          TwoElements(ciBuckets[k]);
          assert ciBuckets[k] in collisions;
        }
      }
    }

    method Clear()
      modifies `entries, `ciBuckets
      ensures Valid() && entries == map[]
    {
      entries, ciBuckets := map[], map[];
    }
  }

  function Survivors(entries: map<string, IndexedEntry>, generation: nat): map<string, IndexedEntry> {
    map p | p in entries && entries[p].generation == generation :: entries[p]
  }

  function RemovalOf(entries: map<string, IndexedEntry>, path: string): ScanChange
    requires path in entries
  {
    ScanChange(Removed, path, entries[path].isDir, None, Some(Side(entries[path].size, entries[path].mtimeMs)))
  }

  /** Exactly one removal per path, saying what the index held. */
  ghost predicate Removals(entries: map<string, IndexedEntry>, paths: set<string>, removed: seq<ScanChange>) {
    && paths <= entries.Keys
    && (forall i :: 0 <= i < |removed| ==>
          && removed[i].relPath in paths && removed[i].kind == Removed && removed[i].side == None
          && var known := entries[removed[i].relPath];
             removed[i].isDir == known.isDir && removed[i].previous == Some(Side(known.size, known.mtimeMs)))
    && (forall i, j :: 0 <= i < j < |removed| ==> removed[i].relPath != removed[j].relPath)
    && |removed| == |paths|
  }

  ghost predicate Reaped(start: map<string, IndexedEntry>, entries: map<string, IndexedEntry>, done: set<string>,
                         removed: seq<ScanChange>) {
    && entries == start - done && Removals(start, done, removed)
    && Replay(View(start), removed) == View(entries)
  }

  lemma ReapedOneMore(start: map<string, IndexedEntry>, before: map<string, IndexedEntry>, entries: map<string, IndexedEntry>,
                      done: set<string>, removed: seq<ScanChange>, path: string)
    requires Reaped(start, before, done, removed) && path in before && path !in done && entries == before - {path}
    ensures Reaped(start, entries, done + {path}, removed + [RemovalOf(before, path)])
  {
    var change := RemovalOf(before, path);
    LeftAlone(start, before, done, path);
    ReplayOneMore(View(start), removed, change);
    ViewWithout(before, path);
    RemovalsOneMore(start, done, removed, path);
    MinusOneMore(start, done, path);
  }

  lemma LeftAlone(start: map<string, IndexedEntry>, before: map<string, IndexedEntry>, done: set<string>, path: string)
    requires before == start - done && path in before
    ensures path in start && RemovalOf(before, path) == RemovalOf(start, path)
  {
    assert before[path] == start[path];
  }

  lemma ViewWithout(entries: map<string, IndexedEntry>, path: string)
    ensures View(entries - {path}) == View(entries) - {path}
  {
  }

  lemma MinusOneMore(start: map<string, IndexedEntry>, done: set<string>, path: string)
    ensures start - done - {path} == start - (done + {path})
  {
  }

  lemma ReapedAll(start: map<string, IndexedEntry>, entries: map<string, IndexedEntry>, done: set<string>,
                  removed: seq<ScanChange>, generation: nat)
    requires Reaped(start, entries, done, removed)
    requires done == set p | p in start && start[p].generation != generation
    ensures entries == Survivors(start, generation) && start.Keys - entries.Keys == done
  {
    MinusIsSurvivors(start, done, generation);
  }

  lemma MinusIsSurvivors(start: map<string, IndexedEntry>, done: set<string>, generation: nat)
    requires done == set p | p in start && start[p].generation != generation
    ensures start - done == Survivors(start, generation) && start.Keys - (start - done).Keys == done
  {
  }

  lemma OneMoreDone(all: set<string>, todo: set<string>, path: string)
    requires path in todo && todo <= all
    ensures all - (todo - {path}) == (all - todo) + {path}
  {
  }

  lemma RemovalsOneMore(entries: map<string, IndexedEntry>, paths: set<string>, removed: seq<ScanChange>, path: string)
    requires Removals(entries, paths, removed) && path in entries && path !in paths
    ensures Removals(entries, paths + {path}, removed + [RemovalOf(entries, path)])
  {
  }
}
