/**
 Any interleaving of `hashFile` calls, cut at their awaits, with writes to the files. Every write gives
 its path an identity the path never had before.
 */
module HashRuns {
  import opened Wrappers
  import opened InsertionMap
  import opened HashCache

  type Bytes = seq<int>

  datatype File = File(identity: FileIdentity, bytes: Bytes)

  /**
   Where a call stands: which identity it has seen, what it has read, and whether the file still had that
   identity when the read ended.
   */
  datatype Call =
    | Statted(path: string, algorithm: Algorithm, identity: FileIdentity)
    | Waiting(path: string, algorithm: Algorithm)
    | Reading(path: string, algorithm: Algorithm, identity: FileIdentity)
    | Read(path: string, algorithm: Algorithm, identity: FileIdentity, bytes: Bytes, clean: bool)
    | Answered(path: string, algorithm: Algorithm, identity: FileIdentity, digest: string)

  /** What the read that last filled a cache entry returned, and whether no write raced it. */
  datatype Fill = Fill(bytes: Bytes, clean: bool)

  /**
   `past` remembers what a path held under each identity it ever had, and `fills` the read behind each
   entry. The program has neither.
   */
  datatype World = World(
    files: map<string, File>, past: map<(string, FileIdentity), Bytes>,
    caches: Caches, calls: map<nat, Call>, fills: map<(Algorithm, string), Fill>)

  datatype Step =
    | Stat(call: nat, path: string, algorithm: Algorithm)
    | LookUp(call: nat)
    | Restat(call: nat)
    | FinishRead(call: nat, bytes: Bytes)
    | Remember(call: nat)
    | Fail(call: nat)
    | Write(path: string, identity: FileIdentity, bytes: Bytes)
    | Unlink(path: string)
    | Invalidate(path: string)
    | Clear

  datatype Setup = Setup(max: nat, digest: (Algorithm, Bytes) -> string)

  predicate Current(w: World, path: string, identity: FileIdentity) {
    path in w.files && w.files[path].identity == identity
  }

  /** A read of a file that was not written meanwhile yields its bytes; any other read may yield anything. */
  predicate Enabled(w: World, step: Step) {
    match step
    case Stat(call, path, _) => call !in w.calls && path in w.files
    case LookUp(call) => call in w.calls && w.calls[call].Statted?
    case Restat(call) => call in w.calls && w.calls[call].Waiting? && w.calls[call].path in w.files
    case FinishRead(call, bytes) =>
      && call in w.calls && w.calls[call].Reading?
      && (Current(w, w.calls[call].path, w.calls[call].identity) ==> bytes == w.files[w.calls[call].path].bytes)
    case Remember(call) => call in w.calls && w.calls[call].Read?
    case Fail(call) => call in w.calls
    case Write(path, identity, _) => (path, identity) !in w.past
    case Unlink(_) => true
    case Invalidate(_) => true
    case Clear => true
  }

  predicate Hits(w: World, call: nat)
    requires Enabled(w, LookUp(call))
  {
    var c := w.calls[call];
    var cache := w.caches.Of(c.algorithm);
    c.path in cache.entries && cache.entries[c.path].identity == c.identity
  }

  function Next(setup: Setup, w: World, step: Step): World
    requires Enabled(w, step)
  {
    match step
    case Stat(call, path, algorithm) =>
      w.(calls := w.calls[call := Statted(path, algorithm, w.files[path].identity)])
    case LookUp(call) =>
      var c := w.calls[call];
      w.(caches := w.caches.With(c.algorithm, Used(w.caches.Of(c.algorithm), c.path)),
         calls := w.calls[call :=
           if Hits(w, call) then Answered(c.path, c.algorithm, c.identity, w.caches.Of(c.algorithm).entries[c.path].digest)
           else Waiting(c.path, c.algorithm)])
    case Restat(call) =>
      var c := w.calls[call];
      w.(calls := w.calls[call := Reading(c.path, c.algorithm, w.files[c.path].identity)])
    case FinishRead(call, bytes) =>
      var c := w.calls[call];
      w.(calls := w.calls[call := Read(c.path, c.algorithm, c.identity, bytes, Current(w, c.path, c.identity))])
    case Remember(call) =>
      var c := w.calls[call];
      var digest := setup.digest(c.algorithm, c.bytes);
      w.(caches := w.caches.With(c.algorithm, Stored(w.caches.Of(c.algorithm), c.path, CacheEntry(c.identity, digest), setup.max)),
         calls := w.calls[call := Answered(c.path, c.algorithm, c.identity, digest)],
         fills := w.fills[(c.algorithm, c.path) := Fill(c.bytes, c.clean)])
    case Fail(call) => w.(calls := w.calls - {call})
    case Write(path, identity, bytes) =>
      w.(files := w.files[path := File(identity, bytes)], past := w.past[(path, identity) := bytes])
    case Unlink(path) => w.(files := w.files - {path})
    case Invalidate(path) => w.(caches := Caches(w.caches.xxhash64.Delete(path), w.caches.sha256.Delete(path)))
    case Clear => w.(caches := Caches(EMPTY, EMPTY))
  }

  ghost predicate Legal(setup: Setup, start: World, steps: seq<Step>)
    decreases |steps|, 0
  {
    |steps| == 0 ||
    (Legal(setup, start, steps[..|steps| - 1]) && Enabled(Run(setup, start, steps[..|steps| - 1]), steps[|steps| - 1]))
  }

  ghost function Run(setup: Setup, start: World, steps: seq<Step>): World
    requires Legal(setup, start, steps)
    decreases |steps|, 1
  {
    if |steps| == 0 then start
    else Next(setup, Run(setup, start, steps[..|steps| - 1]), steps[|steps| - 1])
  }

  // -- What every interleaving keeps ------------------------------------------

  /** Bytes read under an identity: right when no write raced the read, which none did if the identity is current. */
  predicate ReadOk(w: World, path: string, identity: FileIdentity, bytes: Bytes, clean: bool) {
    && (path, identity) in w.past
    && (clean ==> bytes == w.past[(path, identity)])
    && (Current(w, path, identity) ==> clean)
  }

  predicate EntryOk(setup: Setup, w: World, algorithm: Algorithm, path: string, entry: CacheEntry) {
    && (algorithm, path) in w.fills
    && var fill := w.fills[(algorithm, path)];
       entry.digest == setup.digest(algorithm, fill.bytes) && ReadOk(w, path, entry.identity, fill.bytes, fill.clean)
  }

  ghost predicate CacheOk(setup: Setup, w: World, algorithm: Algorithm) {
    var cache := w.caches.Of(algorithm);
    && cache.Valid() && |cache.order| <= setup.max
    && (forall p :: p in cache.entries ==> EntryOk(setup, w, algorithm, p, cache.entries[p]))
  }

  predicate CallOk(w: World, c: Call) {
    && (c.Statted? || c.Reading? ==> (c.path, c.identity) in w.past)
    && (c.Read? ==> ReadOk(w, c.path, c.identity, c.bytes, c.clean))
  }

  ghost predicate FilesOk(w: World) {
    forall p :: p in w.files ==> (p, w.files[p].identity) in w.past && w.past[(p, w.files[p].identity)] == w.files[p].bytes
  }

  ghost predicate Sound(setup: Setup, w: World) {
    && FilesOk(w) && CacheOk(setup, w, XxHash64) && CacheOk(setup, w, Sha256)
    && (forall c :: c in w.calls ==> CallOk(w, w.calls[c]))
  }

  /** The past only grows, and no identity seen before becomes current again. */
  ghost predicate Onward(w: World, v: World) {
    && (forall k :: k in w.past ==> k in v.past && v.past[k] == w.past[k])
    && (forall p, id :: (p, id) in w.past && Current(v, p, id) ==> Current(w, p, id))
  }

  lemma StepGoesOnward(setup: Setup, w: World, step: Step)
    requires Enabled(w, step)
    ensures Onward(w, Next(setup, w, step))
  {
  }

  /** The entry was there before, filled by the same read. */
  predicate Kept(w: World, v: World, a: Algorithm, p: string) {
    && p in w.caches.Of(a).entries && p in v.caches.Of(a).entries
    && v.caches.Of(a).entries[p] == w.caches.Of(a).entries[p]
    && (a, p) in w.fills && (a, p) in v.fills && v.fills[(a, p)] == w.fills[(a, p)]
  }

  lemma KeptEntryOk(setup: Setup, w: World, v: World, a: Algorithm, p: string)
    requires CacheOk(setup, w, a) && Onward(w, v) && Kept(w, v, a, p)
    ensures EntryOk(setup, v, a, p, v.caches.Of(a).entries[p])
  {
    assert EntryOk(setup, w, a, p, w.caches.Of(a).entries[p]);
  }

  lemma KeptCacheOk(setup: Setup, w: World, v: World, a: Algorithm)
    requires CacheOk(setup, w, a) && Onward(w, v)
    requires v.caches.Of(a).Valid() && |v.caches.Of(a).order| <= setup.max
    requires forall p :: p in v.caches.Of(a).entries ==> Kept(w, v, a, p)
    ensures CacheOk(setup, v, a)
  {
    forall p | p in v.caches.Of(a).entries
      ensures EntryOk(setup, v, a, p, v.caches.Of(a).entries[p])
    {
      KeptEntryOk(setup, w, v, a, p);
    }
  }

  lemma EntriesFilled(setup: Setup, w: World, a: Algorithm)
    requires CacheOk(setup, w, a)
    ensures forall p :: p in w.caches.Of(a).entries ==> (a, p) in w.fills
  {
    assert forall p :: p in w.caches.Of(a).entries ==> EntryOk(setup, w, a, p, w.caches.Of(a).entries[p]);
  }

  lemma LookUpKeepsCaches(setup: Setup, w: World, call: nat, a: Algorithm)
    requires Sound(setup, w) && Enabled(w, LookUp(call))
    ensures CacheOk(setup, Next(setup, w, LookUp(call)), a)
  {
    EntriesFilled(setup, w, a);
    StepGoesOnward(setup, w, LookUp(call));
    UsedKeeps(w.caches.Of(w.calls[call].algorithm), w.calls[call].path);
    KeptCacheOk(setup, w, Next(setup, w, LookUp(call)), a);
  }

  lemma InvalidateKeepsCaches(setup: Setup, w: World, path: string, a: Algorithm)
    requires Sound(setup, w)
    ensures CacheOk(setup, Next(setup, w, Invalidate(path)), a)
  {
    EntriesFilled(setup, w, a);
    StepGoesOnward(setup, w, Invalidate(path));
    DeleteValid(w.caches.Of(a), path);
    KeptCacheOk(setup, w, Next(setup, w, Invalidate(path)), a);
  }

  lemma OtherStepsKeepCaches(setup: Setup, w: World, step: Step, a: Algorithm)
    requires Sound(setup, w) && Enabled(w, step)
    requires !step.LookUp? && !step.Remember? && !step.Invalidate? && !step.Clear?
    ensures CacheOk(setup, Next(setup, w, step), a)
  {
    EntriesFilled(setup, w, a);
    StepGoesOnward(setup, w, step);
    var v := Next(setup, w, step);
    assert v.caches == w.caches && v.fills == w.fills;
    KeptCacheOk(setup, w, v, a);
  }

  lemma StepKeepsCaches(setup: Setup, w: World, step: Step, a: Algorithm)
    requires Sound(setup, w) && Enabled(w, step)
    ensures CacheOk(setup, Next(setup, w, step), a)
  {
    match step
    case LookUp(call) => LookUpKeepsCaches(setup, w, call, a);
    case Remember(call) => RememberKeepsCaches(setup, w, call, a);
    case Invalidate(path) => InvalidateKeepsCaches(setup, w, path, a);
    case Clear =>
    case _ => OtherStepsKeepCaches(setup, w, step, a);
  }

  lemma RememberKeepsCaches(setup: Setup, w: World, call: nat, a: Algorithm)
    requires Sound(setup, w) && Enabled(w, Remember(call))
    ensures CacheOk(setup, Next(setup, w, Remember(call)), a)
  {
    if a == w.calls[call].algorithm {
      StoreIsOk(setup, w, call);
    } else {
      OtherCacheKept(setup, w, call, a);
    }
  }

  lemma OtherCacheKept(setup: Setup, w: World, call: nat, a: Algorithm)
    requires CacheOk(setup, w, a) && Enabled(w, Remember(call)) && a != w.calls[call].algorithm
    ensures CacheOk(setup, Next(setup, w, Remember(call)), a)
  {
    var v := Next(setup, w, Remember(call));
    EntriesFilled(setup, w, a);
    StepGoesOnward(setup, w, Remember(call));
    assert v.caches.Of(a) == w.caches.Of(a);
    KeptCacheOk(setup, w, v, a);
  }

  lemma FreshEntryOk(setup: Setup, w: World, call: nat)
    requires Sound(setup, w) && Enabled(w, Remember(call))
    ensures
      var c := w.calls[call];
      EntryOk(setup, Next(setup, w, Remember(call)), c.algorithm, c.path,
              CacheEntry(c.identity, setup.digest(c.algorithm, c.bytes)))
  {
    assert CallOk(w, w.calls[call]);
  }

  /** The entry just filled is right about what was read; the others were kept. */
  lemma StoreIsOk(setup: Setup, w: World, call: nat)
    requires Sound(setup, w) && Enabled(w, Remember(call))
    ensures CacheOk(setup, Next(setup, w, Remember(call)), w.calls[call].algorithm)
  {
    var c := w.calls[call];
    var entry := CacheEntry(c.identity, setup.digest(c.algorithm, c.bytes));
    StoreKeepsNewest(w.caches.Of(c.algorithm), c.path, entry, setup.max);
    StepGoesOnward(setup, w, Remember(call));
    var v := Next(setup, w, Remember(call));
    forall p | p in v.caches.Of(c.algorithm).entries
      ensures EntryOk(setup, v, c.algorithm, p, v.caches.Of(c.algorithm).entries[p])
    {
      StoredEntryOk(setup, w, call, p);
    }
  }

  lemma StoredEntryOk(setup: Setup, w: World, call: nat, p: string)
    requires Sound(setup, w) && Enabled(w, Remember(call))
    requires p in Next(setup, w, Remember(call)).caches.Of(w.calls[call].algorithm).entries
    ensures
      var v, a := Next(setup, w, Remember(call)), w.calls[call].algorithm;
      EntryOk(setup, v, a, p, v.caches.Of(a).entries[p])
  {
    var v, c := Next(setup, w, Remember(call)), w.calls[call];
    var entry := CacheEntry(c.identity, setup.digest(c.algorithm, c.bytes));
    if p == c.path {
      StoredIs(w.caches.Of(c.algorithm), c.path, entry, setup.max);
      FreshEntryOk(setup, w, call);
    } else {
      EntriesFilled(setup, w, c.algorithm);
      StepGoesOnward(setup, w, Remember(call));
      StoreKeepsNewest(w.caches.Of(c.algorithm), c.path, entry, setup.max);
      KeptEntryOk(setup, w, v, c.algorithm, p);
    }
  }

  lemma StoredIs(cache: Cache, key: string, entry: CacheEntry, max: nat)
    requires cache.Valid() && key in Stored(cache, key, entry, max).entries
    ensures Stored(cache, key, entry, max).entries[key] == entry
  {
    TouchedMovesToBack(cache, key, entry);
    TrimKeepsNewest(cache.Delete(key).Set(key, entry), max);
  }

  lemma StepKeepsCalls(setup: Setup, w: World, step: Step)
    requires Sound(setup, w) && Enabled(w, step)
    ensures
      var v := Next(setup, w, step);
      FilesOk(v) && forall c :: c in v.calls ==> CallOk(v, v.calls[c])
  {
    var v := Next(setup, w, step);
    forall c | c in v.calls
      ensures CallOk(v, v.calls[c])
    {
      if c in w.calls { assert CallOk(w, w.calls[c]); }
    }
  }

  ghost predicate Initial(w: World) {
    && FilesOk(w) && w.calls == map[]
    && w.caches == Caches(EMPTY, EMPTY) && w.fills == map[]
  }

  /** In every interleaving the caches stay within their bound and are right about every file they match. */
  lemma {:induction false} RunsAreSound(setup: Setup, start: World, steps: seq<Step>)
    requires Initial(start) && Legal(setup, start, steps)
    ensures Sound(setup, Run(setup, start, steps))
  {
    if |steps| > 0 {
      var init := steps[..|steps| - 1];
      RunsAreSound(setup, start, init);
      var w := Run(setup, start, init);
      StepKeepsCalls(setup, w, steps[|steps| - 1]);
      StepKeepsCaches(setup, w, steps[|steps| - 1], XxHash64);
      StepKeepsCaches(setup, w, steps[|steps| - 1], Sha256);
    }
  }

  /**
   A hit answers with the digest of the bytes the file held at the call's `stat`, whatever raced the
   read that filled the cache, as long as the file is not written between that `stat` and the lookup.
   */
  lemma HitIsRight(setup: Setup, start: World, steps: seq<Step>, call: nat)
    requires Initial(start) && Legal(setup, start, steps)
    requires Enabled(Run(setup, start, steps), LookUp(call)) && Hits(Run(setup, start, steps), call)
    requires
      var w := Run(setup, start, steps);
      Current(w, w.calls[call].path, w.calls[call].identity)
    ensures
      var w := Run(setup, start, steps);
      var c := w.calls[call];
      && (c.path, c.identity) in w.past
      && Next(setup, w, LookUp(call)).calls[call]
         == Answered(c.path, c.algorithm, c.identity, setup.digest(c.algorithm, w.past[(c.path, c.identity)]))
  {
    RunsAreSound(setup, start, steps);
    var w := Run(setup, start, steps);
    var c := w.calls[call];
    assert CacheOk(setup, w, c.algorithm);
    assert EntryOk(setup, w, c.algorithm, c.path, w.caches.Of(c.algorithm).entries[c.path]);
    assert CallOk(w, c);
  }

  lemma Then(setup: Setup, start: World, steps: seq<Step>, w: World, step: Step) returns (more: seq<Step>)
    requires Legal(setup, start, steps) && Run(setup, start, steps) == w && Enabled(w, step)
    ensures more == steps + [step] && Legal(setup, start, more) && Run(setup, start, more) == Next(setup, w, step)
  {
    more := steps + [step];
    assert more[..|steps|] == steps;
  }

  /** A path that held two contents one after the other. */
  datatype Race = Race(path: string, algorithm: Algorithm, first: File, second: File)

  ghost predicate RaceOk(setup: Setup, race: Race) {
    && setup.max > 0 && race.first.identity != race.second.identity
    && setup.digest(race.algorithm, race.first.bytes) != setup.digest(race.algorithm, race.second.bytes)
  }

  function Before(race: Race): World {
    World(map[race.path := race.first], map[(race.path, race.first.identity) := race.first.bytes], Caches(EMPTY, EMPTY), map[], map[])
  }

  function Past(race: Race): map<(string, FileIdentity), Bytes> {
    map[(race.path, race.first.identity) := race.first.bytes, (race.path, race.second.identity) := race.second.bytes]
  }

  /** One call has missed, and another has taken its `stat`. */
  lemma TwoCalls(setup: Setup, race: Race) returns (steps: seq<Step>)
    requires RaceOk(setup, race)
    ensures Legal(setup, Before(race), steps)
    ensures Run(setup, Before(race), steps) == Before(race).(
      calls := map[0 := Waiting(race.path, race.algorithm), 1 := Statted(race.path, race.algorithm, race.first.identity)])
  {
    var p, a, id := race.path, race.algorithm, race.first.identity;
    var w0 := Before(race);
    steps := Then(setup, w0, [], w0, Stat(0, p, a));
    var w1 := w0.(calls := map[0 := Statted(p, a, id)]);
    steps := Then(setup, w0, steps, w1, LookUp(0));
    var w2 := w0.(calls := map[0 := Waiting(p, a)]);
    assert Next(setup, w1, LookUp(0)) == w2;
    steps := Then(setup, w0, steps, w2, Stat(1, p, a));
  }

  /** The first then reads under the first identity while the file is written. */
  lemma RaceUnderWay(setup: Setup, race: Race) returns (steps: seq<Step>)
    requires RaceOk(setup, race)
    ensures Legal(setup, Before(race), steps)
    ensures Run(setup, Before(race), steps)
         == World(map[race.path := race.second], Past(race), Caches(EMPTY, EMPTY),
                  map[0 := Reading(race.path, race.algorithm, race.first.identity),
                      1 := Statted(race.path, race.algorithm, race.first.identity)], map[])
  {
    var p, a, id := race.path, race.algorithm, race.first.identity;
    var w0 := Before(race);
    steps := TwoCalls(setup, race);
    var w3 := w0.(calls := map[0 := Waiting(p, a), 1 := Statted(p, a, id)]);
    steps := Then(setup, w0, steps, w3, Restat(0));
    var w4 := w0.(calls := map[0 := Reading(p, a, id), 1 := Statted(p, a, id)]);
    assert Next(setup, w3, Restat(0)) == w4;
    TheWrite(setup, race, w4.calls);
    steps := Then(setup, w0, steps, w4, Write(p, race.second.identity, race.second.bytes));
  }

  lemma TheWrite(setup: Setup, race: Race, calls: map<nat, Call>)
    requires RaceOk(setup, race)
    ensures
      var w, write := Before(race).(calls := calls), Write(race.path, race.second.identity, race.second.bytes);
      && Enabled(w, write)
      && Next(setup, w, write) == World(map[race.path := race.second], Past(race), Caches(EMPTY, EMPTY), calls, map[])
  {
    var w := Before(race);
    assert Past(race) == w.past[(race.path, race.second.identity) := race.second.bytes];
    assert w.files[race.path := race.second] == map[race.path := race.second];
  }

  /**
   Without that condition a hit can be wrong: the read that filled the cache raced the write, and a call
   that took its `stat` before the write looks the entry up after it.
   */
  lemma RacedHitCanBeWrong(setup: Setup, race: Race) returns (steps: seq<Step>)
    requires RaceOk(setup, race)
    ensures Initial(Before(race)) && Legal(setup, Before(race), steps)
    ensures
      var w := Run(setup, Before(race), steps);
      && Enabled(w, LookUp(1)) && Hits(w, 1) && w.calls[1].identity == race.first.identity
      && !Current(w, race.path, race.first.identity)
      && w.calls[1].path == race.path && w.calls[1].algorithm == race.algorithm
      && (race.path, race.first.identity) in w.past && w.past[(race.path, race.first.identity)] == race.first.bytes
      && Next(setup, w, LookUp(1)).calls[1].digest != setup.digest(race.algorithm, race.first.bytes)
  {
    var p, a, id := race.path, race.algorithm, race.first.identity;
    var w0 := Before(race);
    steps := RaceUnderWay(setup, race);
    var calls := map[0 := Reading(p, a, id), 1 := Statted(p, a, id)];
    var w5 := World(map[p := race.second], Past(race), Caches(EMPTY, EMPTY), calls, map[]);
    steps := Then(setup, w0, steps, w5, FinishRead(0, race.second.bytes));
    var w6 := w5.(calls := calls[0 := Read(p, a, id, race.second.bytes, false)]);
    steps := Then(setup, w0, steps, w6, Remember(0));
    StoreKeepsNewest(EMPTY, p, CacheEntry(id, setup.digest(a, race.second.bytes)), setup.max);
  }

  // -- Exactly when a hit is right --------------------------------------------

  /** After these steps the call's lookup hits. */
  ghost predicate HitAfter(setup: Setup, start: World, steps: seq<Step>, call: nat) {
    && Initial(start) && Legal(setup, start, steps)
    && Enabled(Run(setup, start, steps), LookUp(call)) && Hits(Run(setup, start, steps), call)
  }

  /** The file was not written between the call's `stat` and its lookup. */
  predicate GapClosed(w: World, call: nat)
    requires Enabled(w, LookUp(call))
  {
    Current(w, w.calls[call].path, w.calls[call].identity)
  }

  /** No write raced the read that filled the entry the call hits. */
  predicate FillClean(w: World, call: nat)
    requires Enabled(w, LookUp(call))
  {
    var key := (w.calls[call].algorithm, w.calls[call].path);
    key in w.fills && w.fills[key].clean
  }

  /** What that read returned has the digest of what the file held at the call's `stat`. */
  predicate FillMatches(setup: Setup, w: World, call: nat)
    requires Enabled(w, LookUp(call))
  {
    var c := w.calls[call];
    && (c.algorithm, c.path) in w.fills && (c.path, c.identity) in w.past
    && setup.digest(c.algorithm, w.fills[(c.algorithm, c.path)].bytes) == setup.digest(c.algorithm, w.past[(c.path, c.identity)])
  }

  /** The lookup answers with the digest of what the file held at the call's `stat`. */
  predicate AnswersRight(setup: Setup, w: World, call: nat)
    requires Enabled(w, LookUp(call)) && Hits(w, call)
  {
    var c := w.calls[call];
    && (c.path, c.identity) in w.past
    && Next(setup, w, LookUp(call)).calls[call].digest == setup.digest(c.algorithm, w.past[(c.path, c.identity)])
  }

  /** A closed gap means a clean fill, a clean fill means a matching one, and that is exactly a right answer. */
  lemma HitIsRightIff(setup: Setup, start: World, steps: seq<Step>, call: nat)
    requires HitAfter(setup, start, steps, call)
    ensures
      var w := Run(setup, start, steps);
      && (GapClosed(w, call) ==> FillClean(w, call)) && (FillClean(w, call) ==> FillMatches(setup, w, call))
      && (AnswersRight(setup, w, call) <==> FillMatches(setup, w, call))
      && (AnswersRight(setup, w, call) <==> GapClosed(w, call) || FillMatches(setup, w, call))
  {
    RunsAreSound(setup, start, steps);
    var w := Run(setup, start, steps);
    var c := w.calls[call];
    assert CallOk(w, c);
    assert CacheOk(setup, w, c.algorithm);
    assert EntryOk(setup, w, c.algorithm, c.path, w.caches.Of(c.algorithm).entries[c.path]);
  }

  predicate Touches(step: Step, path: string) {
    (step.Write? && step.path == path) || (step.Unlink? && step.path == path)
  }

  /** A read during which nobody writes or removes its file is clean: its identity is still current at the end. */
  lemma {:induction false} UnwrittenStaysCurrent(
      setup: Setup, start: World, steps: seq<Step>, n: nat, path: string, identity: FileIdentity)
    requires Legal(setup, start, steps) && n <= |steps| && Legal(setup, start, steps[..n])
    requires Current(Run(setup, start, steps[..n]), path, identity)
    requires forall k :: n <= k < |steps| ==> !Touches(steps[k], path)
    ensures Current(Run(setup, start, steps), path, identity)
  {
    if n == |steps| {
      assert steps[..n] == steps;
    } else {
      var init := steps[..|steps| - 1];
      assert init[..n] == steps[..n];
      UnwrittenStaysCurrent(setup, start, init, n, path, identity);
      assert !Touches(steps[|steps| - 1], path);
    }
  }

  // -- The same schedule with other bytes -------------------------------------

  /** The same step, but for what a read returns. */
  predicate SameShape(a: Step, b: Step) {
    a == b || (a.FinishRead? && b.FinishRead? && a.call == b.call)
  }

  /** Legal steps that differ only in what raced reads return. */
  ghost predicate SameSchedule(setup: Setup, start: World, steps: seq<Step>, other: seq<Step>) {
    && Legal(setup, start, other) && |other| == |steps|
    && forall i :: 0 <= i < |steps| ==> SameShape(steps[i], other[i])
  }

  function Blurred(c: Call): Call {
    match c
    case Read(path, algorithm, identity, _, clean) => Read(path, algorithm, identity, [], clean)
    case Answered(path, algorithm, identity, _) => Answered(path, algorithm, identity, "")
    case _ => c
  }

  ghost predicate AlikeCaches(a: Cache, b: Cache) {
    && a.Valid() && b.Valid() && a.order == b.order
    && forall p :: p in a.entries ==> p in b.entries && a.entries[p].identity == b.entries[p].identity
  }

  ghost predicate AlikeCalls(a: map<nat, Call>, b: map<nat, Call>) {
    a.Keys == b.Keys && forall c :: c in a ==> Blurred(a[c]) == Blurred(b[c])
  }

  ghost predicate AlikeFills(a: map<(Algorithm, string), Fill>, b: map<(Algorithm, string), Fill>) {
    a.Keys == b.Keys && forall k :: k in a ==> a[k].clean == b[k].clean
  }

  ghost predicate AlikeBoth(a: Caches, b: Caches) {
    AlikeCaches(a.xxhash64, b.xxhash64) && AlikeCaches(a.sha256, b.sha256)
  }

  /** Two worlds that differ only in bytes read and digests. */
  ghost predicate Alike(w: World, v: World) {
    && w.files == v.files && w.past == v.past
    && AlikeCalls(w.calls, v.calls) && AlikeBoth(w.caches, v.caches) && AlikeFills(w.fills, v.fills)
  }

  lemma AlikeWith(a: Caches, b: Caches, algorithm: Algorithm, x: Cache, y: Cache)
    requires AlikeBoth(a, b) && AlikeCaches(x, y)
    ensures AlikeBoth(a.With(algorithm, x), b.With(algorithm, y))
  {
  }

  lemma AlikeCallSet(a: map<nat, Call>, b: map<nat, Call>, call: nat, x: Call, y: Call)
    requires AlikeCalls(a, b) && Blurred(x) == Blurred(y)
    ensures AlikeCalls(a[call := x], b[call := y])
  {
  }

  lemma AlikeFillSet(a: map<(Algorithm, string), Fill>, b: map<(Algorithm, string), Fill>, k: (Algorithm, string), x: Fill, y: Fill)
    requires AlikeFills(a, b) && x.clean == y.clean
    ensures AlikeFills(a[k := x], b[k := y])
  {
  }

  lemma AlikeUsed(a: Cache, b: Cache, key: string)
    requires AlikeCaches(a, b)
    ensures AlikeCaches(Used(a, key), Used(b, key))
  {
    UsedKeeps(a, key);
    UsedKeeps(b, key);
  }

  lemma AlikeStored(a: Cache, b: Cache, key: string, one: CacheEntry, two: CacheEntry, max: nat)
    requires AlikeCaches(a, b) && one.identity == two.identity
    ensures AlikeCaches(Stored(a, key, one, max), Stored(b, key, two, max))
  {
    StoreKeepsNewest(a, key, one, max);
    StoreKeepsNewest(b, key, two, max);
    var s, t := Stored(a, key, one, max), Stored(b, key, two, max);
    assert s.entries.Keys == Elements(s.order) == t.entries.Keys;
    forall p | p in s.entries
      ensures p in t.entries && s.entries[p].identity == t.entries[p].identity
    {
      if p == key {
        StoredIs(a, key, one, max);
        StoredIs(b, key, two, max);
      }
    }
  }

  lemma AlikeDeleted(a: Cache, b: Cache, key: string)
    requires AlikeCaches(a, b)
    ensures AlikeCaches(a.Delete(key), b.Delete(key))
  {
    DeleteValid(a, key);
    DeleteValid(b, key);
    assert a.entries.Keys == Elements(a.order) == b.entries.Keys;
  }

  lemma AlikeHits(w: World, v: World, call: nat)
    requires Alike(w, v) && Enabled(w, LookUp(call))
    ensures Enabled(v, LookUp(call)) && v.calls[call] == w.calls[call] && (Hits(w, call) <==> Hits(v, call))
  {
    var a, b := w.caches.Of(w.calls[call].algorithm), v.caches.Of(w.calls[call].algorithm);
    assert Blurred(w.calls[call]) == Blurred(v.calls[call]);
    assert a.entries.Keys == Elements(a.order) == b.entries.Keys;
  }

  lemma AlikeLookUpCaches(setup: Setup, w: World, v: World, call: nat)
    requires Alike(w, v) && Enabled(w, LookUp(call)) && Enabled(v, LookUp(call)) && v.calls[call] == w.calls[call]
    ensures AlikeBoth(Next(setup, w, LookUp(call)).caches, Next(setup, v, LookUp(call)).caches)
  {
    var c := w.calls[call];
    var a, b := w.caches.Of(c.algorithm), v.caches.Of(c.algorithm);
    AlikeUsed(a, b, c.path);
    AlikeWith(w.caches, v.caches, c.algorithm, Used(a, c.path), Used(b, c.path));
  }

  lemma AlikeLookUp(setup: Setup, w: World, v: World, call: nat)
    requires Alike(w, v) && Enabled(w, LookUp(call)) && Enabled(v, LookUp(call))
    ensures Alike(Next(setup, w, LookUp(call)), Next(setup, v, LookUp(call)))
  {
    AlikeHits(w, v, call);
    AlikeLookUpCaches(setup, w, v, call);
    AlikeCallSet(w.calls, v.calls, call, Next(setup, w, LookUp(call)).calls[call], Next(setup, v, LookUp(call)).calls[call]);
  }

  lemma AlikeRememberCaches(setup: Setup, w: World, v: World, call: nat)
    requires Alike(w, v) && Enabled(w, Remember(call)) && Enabled(v, Remember(call))
    requires Blurred(w.calls[call]) == Blurred(v.calls[call])
    ensures AlikeBoth(Next(setup, w, Remember(call)).caches, Next(setup, v, Remember(call)).caches)
  {
    var c, d := w.calls[call], v.calls[call];
    var a, b := w.caches.Of(c.algorithm), v.caches.Of(c.algorithm);
    var one := CacheEntry(c.identity, setup.digest(c.algorithm, c.bytes));
    var two := CacheEntry(d.identity, setup.digest(d.algorithm, d.bytes));
    AlikeStored(a, b, c.path, one, two, setup.max);
    AlikeWith(w.caches, v.caches, c.algorithm, Stored(a, c.path, one, setup.max), Stored(b, c.path, two, setup.max));
  }

  lemma AlikeRememberRest(setup: Setup, w: World, v: World, call: nat)
    requires Enabled(w, Remember(call)) && Enabled(v, Remember(call))
    requires Blurred(w.calls[call]) == Blurred(v.calls[call])
    requires AlikeCalls(w.calls, v.calls) && AlikeFills(w.fills, v.fills)
    ensures
      var x, y := Next(setup, w, Remember(call)), Next(setup, v, Remember(call));
      AlikeCalls(x.calls, y.calls) && AlikeFills(x.fills, y.fills)
  {
    var c, d := w.calls[call], v.calls[call];
    AlikeCallSet(w.calls, v.calls, call, Next(setup, w, Remember(call)).calls[call], Next(setup, v, Remember(call)).calls[call]);
    AlikeFillSet(w.fills, v.fills, (c.algorithm, c.path), Fill(c.bytes, c.clean), Fill(d.bytes, d.clean));
  }

  lemma AlikeRemember(setup: Setup, w: World, v: World, call: nat)
    requires Alike(w, v) && Enabled(w, Remember(call)) && Enabled(v, Remember(call))
    ensures Alike(Next(setup, w, Remember(call)), Next(setup, v, Remember(call)))
  {
    assert Blurred(w.calls[call]) == Blurred(v.calls[call]);
    AlikeRememberCaches(setup, w, v, call);
    AlikeRememberRest(setup, w, v, call);
  }

  lemma AlikeRead(setup: Setup, w: World, v: World, step: Step, other: Step)
    requires Alike(w, v) && Enabled(w, step) && Enabled(v, other) && SameShape(step, other)
    requires step.Restat? || step.FinishRead?
    ensures Alike(Next(setup, w, step), Next(setup, v, other))
  {
    assert Blurred(w.calls[step.call]) == Blurred(v.calls[step.call]);
    AlikeCallSet(w.calls, v.calls, step.call, Next(setup, w, step).calls[step.call], Next(setup, v, other).calls[step.call]);
  }

  lemma AlikeStep(setup: Setup, w: World, v: World, step: Step, other: Step)
    requires Alike(w, v) && Enabled(w, step) && Enabled(v, other) && SameShape(step, other)
    ensures Alike(Next(setup, w, step), Next(setup, v, other))
  {
    match step
    case Stat(call, path, algorithm) =>
      var c := Statted(path, algorithm, w.files[path].identity);
      AlikeCallSet(w.calls, v.calls, call, c, c);
    case LookUp(call) => AlikeLookUp(setup, w, v, call);
    case Restat(_) => AlikeRead(setup, w, v, step, other);
    case FinishRead(_, _) => AlikeRead(setup, w, v, step, other);
    case Remember(call) => AlikeRemember(setup, w, v, call);
    case Invalidate(path) =>
      AlikeDeleted(w.caches.xxhash64, v.caches.xxhash64, path);
      AlikeDeleted(w.caches.sha256, v.caches.sha256, path);
    case _ =>
  }

  lemma {:induction false} AlikeRuns(setup: Setup, start: World, steps: seq<Step>, other: seq<Step>)
    requires Initial(start) && Legal(setup, start, steps) && SameSchedule(setup, start, steps, other)
    ensures Alike(Run(setup, start, steps), Run(setup, start, other))
  {
    if |steps| > 0 {
      var n := |steps| - 1;
      assert SameSchedule(setup, start, steps[..n], other[..n]);
      AlikeRuns(setup, start, steps[..n], other[..n]);
      AlikeStep(setup, Run(setup, start, steps[..n]), Run(setup, start, other[..n]), steps[n], other[n]);
    }
  }

  /** The step with a raced read returning `bad`. */
  function Garbled(w: World, step: Step, bad: Bytes): Step
    requires Enabled(w, step)
  {
    if step.FinishRead? && !Current(w, w.calls[step.call].path, w.calls[step.call].identity)
    then FinishRead(step.call, bad) else step
  }

  ghost predicate RacedReadsAre(calls: map<nat, Call>, bad: Bytes) {
    forall c :: c in calls && calls[c].Read? && !calls[c].clean ==> calls[c].bytes == bad
  }

  ghost predicate RacedFillsAre(fills: map<(Algorithm, string), Fill>, bad: Bytes) {
    forall k :: k in fills && !fills[k].clean ==> fills[k].bytes == bad
  }

  /** Every read and fill that a write raced holds `bad`. */
  ghost predicate RacedAre(w: World, bad: Bytes) {
    RacedReadsAre(w.calls, bad) && RacedFillsAre(w.fills, bad)
  }

  lemma GarbledEnabled(setup: Setup, w: World, v: World, step: Step, bad: Bytes)
    requires Alike(w, v) && Enabled(w, step)
    ensures Enabled(v, Garbled(w, step, bad)) && SameShape(step, Garbled(w, step, bad))
  {
    assert forall c :: c in w.calls ==> Blurred(w.calls[c]) == Blurred(v.calls[c]);
  }

  lemma GarbledKeepsRaced(setup: Setup, w: World, v: World, step: Step, bad: Bytes)
    requires Alike(w, v) && Enabled(w, step) && RacedAre(v, bad) && Enabled(v, Garbled(w, step, bad))
    ensures RacedAre(Next(setup, v, Garbled(w, step, bad)), bad)
  {
    if step.FinishRead? { assert Blurred(w.calls[step.call]) == Blurred(v.calls[step.call]); }
    GarbledReads(setup, v, Garbled(w, step, bad), bad);
  }

  lemma GarbledReads(setup: Setup, v: World, step: Step, bad: Bytes)
    requires Enabled(v, step) && RacedAre(v, bad)
    requires step.FinishRead? && !Current(v, v.calls[step.call].path, v.calls[step.call].identity) ==> step.bytes == bad
    ensures RacedAre(Next(setup, v, step), bad)
  {
  }

  lemma ScheduleOneMore(setup: Setup, start: World, steps: seq<Step>, before: seq<Step>, step: Step)
    requires |steps| > 0 && SameSchedule(setup, start, steps[..|steps| - 1], before)
    requires SameShape(steps[|steps| - 1], step) && Legal(setup, start, before + [step])
    ensures SameSchedule(setup, start, steps, before + [step])
  {
  }

  /** Any run can go the same way with every raced read returning `bad`. */
  lemma {:induction false} GarbledRun(setup: Setup, start: World, steps: seq<Step>, bad: Bytes) returns (other: seq<Step>)
    requires Initial(start) && Legal(setup, start, steps)
    ensures SameSchedule(setup, start, steps, other) && RacedAre(Run(setup, start, other), bad)
  {
    other := [];
    if |steps| > 0 {
      var n := |steps| - 1;
      var before := GarbledRun(setup, start, steps[..n], bad);
      AlikeRuns(setup, start, steps[..n], before);
      var w, v := Run(setup, start, steps[..n]), Run(setup, start, before);
      GarbledEnabled(setup, w, v, steps[n], bad);
      GarbledKeepsRaced(setup, w, v, steps[n], bad);
      other := Then(setup, start, before, v, Garbled(w, steps[n], bad));
      ScheduleOneMore(setup, start, steps, before, Garbled(w, steps[n], bad));
    }
  }

  lemma AlikeHitAfter(setup: Setup, start: World, steps: seq<Step>, other: seq<Step>, call: nat)
    requires HitAfter(setup, start, steps, call) && SameSchedule(setup, start, steps, other)
    ensures HitAfter(setup, start, other, call)
    ensures
      var w, v := Run(setup, start, steps), Run(setup, start, other);
      w.calls[call] == v.calls[call] && w.past == v.past && (FillClean(w, call) <==> FillClean(v, call))
  {
    AlikeRuns(setup, start, steps, other);
    AlikeHits(Run(setup, start, steps), Run(setup, start, other), call);
  }

  /** However the raced reads of this schedule turn out, the hit is right. */
  ghost predicate AlwaysRight(setup: Setup, start: World, steps: seq<Step>, call: nat)
    requires HitAfter(setup, start, steps, call)
  {
    forall other :: SameSchedule(setup, start, steps, other) && HitAfter(setup, start, other, call)
      ==> AnswersRight(setup, Run(setup, start, other), call)
  }

  /**
   Nothing is known of a read that a write raced. So a hit of a schedule is right, whatever such reads
   return, exactly when the read that filled its entry was not raced: when the file's identity at the
   end of that read was still the one found before it. `bad` is some content the digest tells apart.
   */
  lemma HitAlwaysRightIffFillClean(setup: Setup, start: World, steps: seq<Step>, call: nat, bad: Bytes)
    requires HitAfter(setup, start, steps, call)
    requires
      var w := Run(setup, start, steps);
      var c := w.calls[call];
      (c.path, c.identity) in w.past ==> setup.digest(c.algorithm, bad) != setup.digest(c.algorithm, w.past[(c.path, c.identity)])
    ensures AlwaysRight(setup, start, steps, call) <==> FillClean(Run(setup, start, steps), call)
  {
    if FillClean(Run(setup, start, steps), call) {
      forall other | SameSchedule(setup, start, steps, other) && HitAfter(setup, start, other, call)
        ensures AnswersRight(setup, Run(setup, start, other), call)
      {
        AlikeHitAfter(setup, start, steps, other, call);
        HitIsRightIff(setup, start, other, call);
      }
    } else {
      var other := GarbledRun(setup, start, steps, bad);
      AlikeHitAfter(setup, start, steps, other, call);
      HitIsRightIff(setup, start, other, call);
      assert !FillMatches(setup, Run(setup, start, other), call);
    }
  }
}
