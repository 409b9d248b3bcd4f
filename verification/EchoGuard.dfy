/**
 The echo guard: expectations that recognise the bridge's own writes, and a rate limit that
 quarantines a path which keeps syncing. Both are proved to be functions of what was declared and
 synced in the past.
 */
module EchoGuard {
  import opened Wrappers
  import opened SlidingWindow
  import opened InsertionMap

  /** A write the engine announces, or an event the watcher observes. */
  datatype Write = Write(path: string, size: int, mtimeMs: int)

  datatype Expectation = Expectation(size: int, mtimeMs: int, expiresAt: int)

  // ---------------------------------------------------------------------------
  // Expectations
  // ---------------------------------------------------------------------------

  /** One past call of `Expect`. */
  datatype Declared = Declared(write: Write, at: int)

  predicate Matches(expected: Expectation, event: Write, toleranceMs: int) {
    expected.size == event.size && Abs(expected.mtimeMs - event.mtimeMs) <= toleranceMs
  }

  /** Some declared write on that path is still live at `now` and looks like the event. */
  ghost predicate IsEcho(declared: seq<Declared>, event: Write, now: int, ttlMs: int, toleranceMs: int) {
    exists i :: 0 <= i < |declared|
      && declared[i].write.path == event.path
      && declared[i].at + ttlMs > now
      && declared[i].write.size == event.size
      && Abs(declared[i].write.mtimeMs - event.mtimeMs) <= toleranceMs
  }

  function Live(list: seq<Expectation>, now: int): (live: seq<Expectation>)
    ensures forall e :: e in live <==> e in list && e.expiresAt > now
    ensures |live| <= |list| && (|live| == |list| ==> live == list)
  {
    if |list| == 0 then []
    else (if list[0].expiresAt > now then [list[0]] else []) + Live(list[1..], now)
  }

  function ListedFor(expectations: map<string, seq<Expectation>>, path: string): seq<Expectation> {
    if path in expectations then expectations[path] else []
  }

  function ExpectationOf(d: Declared, ttlMs: int): Expectation {
    Expectation(d.write.size, d.write.mtimeMs, d.at + ttlMs)
  }

  ghost predicate DeclaredAs(declared: seq<Declared>, path: string, e: Expectation, ttlMs: int) {
    exists i :: 0 <= i < |declared| && declared[i].write.path == path && ExpectationOf(declared[i], ttlMs) == e
  }

  /** Every expectation still live at `clock` is listed exactly if it was declared. */
  ghost predicate ListsLive(
      expectations: map<string, seq<Expectation>>, declared: seq<Declared>, clock: int, ttlMs: int)
  {
    forall path, e: Expectation {:trigger DeclaredAs(declared, path, e, ttlMs)} :: e.expiresAt > clock ==>
      (e in ListedFor(expectations, path) <==> DeclaredAs(declared, path, e, ttlMs))
  }

  lemma DeclaredOneMore(declared: seq<Declared>, d: Declared, path: string, e: Expectation, ttlMs: int)
    ensures DeclaredAs(declared + [d], path, e, ttlMs)
      <==> DeclaredAs(declared, path, e, ttlMs) || (d.write.path == path && ExpectationOf(d, ttlMs) == e)
  {
    var more := declared + [d];
    if DeclaredAs(declared, path, e, ttlMs) {
      var i :| 0 <= i < |declared| && declared[i].write.path == path && ExpectationOf(declared[i], ttlMs) == e;
      assert more[i] == declared[i];
    }
    assert more[|declared|] == d;
  }

  lemma ExpectationsAge(
      expectations: map<string, seq<Expectation>>, declared: seq<Declared>, clock: int, now: int, ttlMs: int)
    requires ListsLive(expectations, declared, clock, ttlMs) && clock <= now
    ensures ListsLive(expectations, declared, now, ttlMs)
  {
  }

  ghost predicate AllLive(expectations: map<string, seq<Expectation>>, path: string, now: int) {
    forall e :: e in ListedFor(expectations, path) ==> e.expiresAt > now
  }

  /** One path's list without its dead expectations. */
  function PrunedAt(expectations: map<string, seq<Expectation>>, path: string, now: int): map<string, seq<Expectation>> {
    var live := Live(ListedFor(expectations, path), now);
    if |live| == 0 then expectations - {path}
    else if |live| != |ListedFor(expectations, path)| then expectations[path := live]
    else expectations
  }

  /** Dropping what is dead from one path's list keeps the table of live expectations right. */
  lemma PruneOnePath(
      expectations: map<string, seq<Expectation>>, declared: seq<Declared>, path: string, now: int, ttlMs: int)
    requires ListsLive(expectations, declared, now, ttlMs)
    ensures ListsLive(PrunedAt(expectations, path, now), declared, now, ttlMs)
    ensures AllLive(PrunedAt(expectations, path, now), path, now)
    ensures forall q {:trigger AllLive(PrunedAt(expectations, path, now), q, now)} ::
      AllLive(expectations, q, now) ==> AllLive(PrunedAt(expectations, path, now), q, now)
    ensures expectations.Keys - {path} <= PrunedAt(expectations, path, now).Keys
  {
    var pruned := PrunedAt(expectations, path, now);
    assert ListedFor(pruned, path) == Live(ListedFor(expectations, path), now);
    assert forall q :: q != path ==> ListedFor(pruned, q) == ListedFor(expectations, q);
  }

  /** Matching against the live list is matching against the whole past. */
  lemma LiveMatchIsEcho(
      expectations: map<string, seq<Expectation>>, declared: seq<Declared>, event: Write,
      now: int, ttlMs: int, toleranceMs: int)
    requires ListsLive(expectations, declared, now, ttlMs)
    ensures (exists e: Expectation :: e in ListedFor(expectations, event.path) && e.expiresAt > now && Matches(e, event, toleranceMs))
      <==> IsEcho(declared, event, now, ttlMs, toleranceMs)
  {
    if IsEcho(declared, event, now, ttlMs, toleranceMs) {
      var i :| 0 <= i < |declared|
        && declared[i].write.path == event.path && declared[i].at + ttlMs > now
        && declared[i].write.size == event.size
        && Abs(declared[i].write.mtimeMs - event.mtimeMs) <= toleranceMs;
      var e := ExpectationOf(declared[i], ttlMs);
      assert DeclaredAs(declared, event.path, e, ttlMs);
      assert e in ListedFor(expectations, event.path) && Matches(e, event, toleranceMs);
    }
    if e: Expectation :| e in ListedFor(expectations, event.path) && e.expiresAt > now && Matches(e, event, toleranceMs) {
      assert DeclaredAs(declared, event.path, e, ttlMs);
    }
  }

  // ---------------------------------------------------------------------------
  // The rate limit
  // ---------------------------------------------------------------------------

  /** The timestamps the guard keeps after these syncs of one path: the last one's trailing window. */
  function Recent(syncs: seq<int>, windowMs: int): seq<int> {
    if |syncs| == 0 then
      []
    else
      var last := syncs[|syncs| - 1];
      InWindow(Recent(syncs[..|syncs| - 1], windowMs), last, windowMs) + [last]
  }

  /** Some sync found more than `limit` syncs in its trailing window. */
  predicate Tripped(syncs: seq<int>, limit: int, windowMs: int) {
    |syncs| > 0 &&
    (|Recent(syncs, windowMs)| > limit || Tripped(syncs[..|syncs| - 1], limit, windowMs))
  }

  lemma {:induction false} RecentIsWindow(syncs: seq<int>, windowMs: int)
    requires |syncs| > 0 && Ordered(syncs)
    ensures
      var last := syncs[|syncs| - 1];
      Recent(syncs, windowMs) == InWindow(syncs[..|syncs| - 1], last, windowMs) + [last]
  {
    var init, last := syncs[..|syncs| - 1], syncs[|syncs| - 1];
    if |init| > 0 {
      RecentIsWindow(init, windowMs);
      var older, previous := init[..|init| - 1], init[|init| - 1];
      assert init == older + [previous];
      WindowOfAppended(InWindow(older, previous, windowMs), previous, last, windowMs);
      WindowOfAppended(older, previous, last, windowMs);
      PruningIsInvisible(older, previous, last, windowMs);
    }
  }

  /** Syncs `i` to `j` fall into one window. */
  ghost predicate Burst(syncs: seq<int>, i: int, j: int, windowMs: int) {
    0 <= i <= j < |syncs| && (i == j || syncs[j] - syncs[i] < windowMs)
  }

  /** Quarantine, read off the history: some burst had more than `limit` syncs. */
  lemma {:induction false} TrippedIffBurst(syncs: seq<int>, limit: int, windowMs: int)
    requires Ordered(syncs)
    ensures Tripped(syncs, limit, windowMs)
      <==> exists i, j :: Burst(syncs, i, j, windowMs) && j - i + 1 > limit
  {
    if |syncs| > 0 {
      var init, last := syncs[..|syncs| - 1], syncs[|syncs| - 1];
      TrippedIffBurst(init, limit, windowMs);
      RecentIsWindow(syncs, windowMs);
      WindowIsSuffix(init, last, windowMs);
      var k := Expired(init, last, windowMs);
      var n := |syncs| - 1;
      assert |Recent(syncs, windowMs)| == n - k + 1;
      assert Burst(syncs, k, n, windowMs) by { assert k < n ==> init[k] == syncs[k]; }
      if i, j :| Burst(init, i, j, windowMs) && j - i + 1 > limit {
        assert Burst(syncs, i, j, windowMs);
      }
      if i, j :| Burst(syncs, i, j, windowMs) && j - i + 1 > limit {
        if j < n {
          assert Burst(init, i, j, windowMs);
        } else if i < n {
          assert init[i] == syncs[i];
          assert k <= i;
        }
      }
    }
  }

  /** Each of these syncs was started while the path was not quarantined. */
  ghost predicate Gated(syncs: seq<int>, limit: int, windowMs: int) {
    forall k :: 0 <= k < |syncs| ==> !Tripped(syncs[..k], limit, windowMs)
  }

  /** A path that is asked before every sync never syncs more than `limit` plus one times in a window. */
  lemma GatedBound(syncs: seq<int>, i: int, j: int, limit: int, windowMs: int)
    requires Ordered(syncs) && Gated(syncs, limit, windowMs)
    requires Burst(syncs, i, j, windowMs)
    ensures j - i + 1 <= Max(limit, 0) + 1
  {
    if i < j {
      var before := syncs[..j];
      TrippedIffBurst(before, limit, windowMs);
      assert before[i] == syncs[i] && before[j - 1] == syncs[j - 1];
      assert Burst(before, i, j - 1, windowMs);
    }
  }

  function HistoryOf(history: map<string, seq<int>>, path: string): seq<int> {
    if path in history then history[path] else []
  }

  /** One path's bookkeeping against its syncs since it was last forgotten. */
  ghost predicate PathOk(quarantined: bool, times: seq<int>, syncs: seq<int>, clock: int, limit: int, windowMs: int) {
    && Ordered(syncs) && NoneAfter(syncs, clock)
    && (quarantined <==> Tripped(syncs, limit, windowMs))
    && (!quarantined ==> times == Recent(syncs, windowMs))
  }

  ghost predicate PathOkIn(
      quarantined: set<string>, syncTimes: map<string, seq<int>>, history: map<string, seq<int>>,
      path: string, clock: int, limit: int, windowMs: int)
  {
    PathOk(path in quarantined, HistoryOf(syncTimes, path), HistoryOf(history, path), clock, limit, windowMs)
  }

  ghost predicate TableOk(
      quarantined: set<string>, syncTimes: map<string, seq<int>>, history: map<string, seq<int>>,
      clock: int, limit: int, windowMs: int)
  {
    forall path {:trigger PathOkIn(quarantined, syncTimes, history, path, clock, limit, windowMs)} ::
      PathOkIn(quarantined, syncTimes, history, path, clock, limit, windowMs)
  }

  lemma TimePasses(
      quarantined: set<string>, syncTimes: map<string, seq<int>>, history: map<string, seq<int>>,
      clock: int, now: int, limit: int, windowMs: int)
    requires TableOk(quarantined, syncTimes, history, clock, limit, windowMs) && clock <= now
    ensures TableOk(quarantined, syncTimes, history, now, limit, windowMs)
  {
    forall path ensures PathOkIn(quarantined, syncTimes, history, path, now, limit, windowMs) {
      assert PathOkIn(quarantined, syncTimes, history, path, clock, limit, windowMs);
    }
  }

  /** The two tables agree on every other path. */
  ghost predicate SameElsewhere(m: map<string, seq<int>>, m': map<string, seq<int>>, path: string) {
    forall q :: q != path ==> HistoryOf(m', q) == HistoryOf(m, q)
  }

  /** A table stays right when one path's entries are replaced by right ones. */
  lemma PathReplaced(
      quarantined: set<string>, syncTimes: map<string, seq<int>>, history: map<string, seq<int>>,
      quarantined': set<string>, syncTimes': map<string, seq<int>>, history': map<string, seq<int>>,
      path: string, clock: int, limit: int, windowMs: int)
    requires TableOk(quarantined, syncTimes, history, clock, limit, windowMs)
    requires forall q :: q != path ==> (q in quarantined' <==> q in quarantined)
    requires SameElsewhere(syncTimes, syncTimes', path) && SameElsewhere(history, history', path)
    requires PathOkIn(quarantined', syncTimes', history', path, clock, limit, windowMs)
    ensures TableOk(quarantined', syncTimes', history', clock, limit, windowMs)
  {
    forall q ensures PathOkIn(quarantined', syncTimes', history', q, clock, limit, windowMs) {
      if q != path {
        assert PathOkIn(quarantined, syncTimes, history, q, clock, limit, windowMs);
      }
    }
  }

  /** One more sync of a path that is not quarantined. */
  lemma OneMoreSync(times: seq<int>, syncs: seq<int>, clock: int, now: int, limit: int, windowMs: int)
    requires PathOk(false, times, syncs, clock, limit, windowMs) && clock <= now
    ensures
      var kept := InWindow(times, now, windowMs) + [now];
      && kept == Recent(syncs + [now], windowMs)
      && (Tripped(syncs + [now], limit, windowMs) <==> |kept| > limit)
      && PathOk(|kept| > limit, kept, syncs + [now], now, limit, windowMs)
  {
    assert (syncs + [now])[..|syncs|] == syncs;
  }

  lemma SyncWhileQuarantined(times: seq<int>, syncs: seq<int>, clock: int, now: int, limit: int, windowMs: int)
    requires PathOk(true, times, syncs, clock, limit, windowMs) && clock <= now
    ensures PathOk(true, times, syncs + [now], now, limit, windowMs)
  {
    assert (syncs + [now])[..|syncs|] == syncs;
  }

  /** The bookkeeping of one recorded sync, before anything is evicted. */
  lemma SyncRecorded(
      quarantined: set<string>, syncTimes: map<string, seq<int>>, history: map<string, seq<int>>,
      path: string, clock: int, now: int, limit: int, windowMs: int)
    requires TableOk(quarantined, syncTimes, history, clock, limit, windowMs) && clock <= now
    requires path !in quarantined
    ensures
      var times := InWindow(HistoryOf(syncTimes, path), now, windowMs) + [now];
      var syncs := HistoryOf(history, path) + [now];
      var held := if |times| > limit then quarantined + {path} else quarantined;
      && (Tripped(syncs, limit, windowMs) <==> |times| > limit)
      && TableOk(held, syncTimes[path := times], history[path := syncs], now, limit, windowMs)
  {
    var times := InWindow(HistoryOf(syncTimes, path), now, windowMs) + [now];
    var syncs := HistoryOf(history, path) + [now];
    var held := if |times| > limit then quarantined + {path} else quarantined;
    assert PathOkIn(quarantined, syncTimes, history, path, clock, limit, windowMs);
    OneMoreSync(HistoryOf(syncTimes, path), HistoryOf(history, path), clock, now, limit, windowMs);
    TimePasses(quarantined, syncTimes, history, clock, now, limit, windowMs);
    PathReplaced(quarantined, syncTimes, history,
                 held, syncTimes[path := times], history[path := syncs], path, now, limit, windowMs);
  }

  lemma SyncRefused(
      quarantined: set<string>, syncTimes: map<string, seq<int>>, history: map<string, seq<int>>,
      path: string, clock: int, now: int, limit: int, windowMs: int)
    requires TableOk(quarantined, syncTimes, history, clock, limit, windowMs) && clock <= now
    requires path in quarantined
    ensures Tripped(HistoryOf(history, path) + [now], limit, windowMs)
    ensures TableOk(quarantined, syncTimes, history[path := HistoryOf(history, path) + [now]], now, limit, windowMs)
  {
    assert PathOkIn(quarantined, syncTimes, history, path, clock, limit, windowMs);
    SyncWhileQuarantined(HistoryOf(syncTimes, path), HistoryOf(history, path), clock, now, limit, windowMs);
    TimePasses(quarantined, syncTimes, history, clock, now, limit, windowMs);
    PathReplaced(quarantined, syncTimes, history,
                 quarantined, syncTimes, history[path := HistoryOf(history, path) + [now]], path, now, limit, windowMs);
  }

  /** The history left once the front of the table is evicted: a quarantined path keeps its own. */
  ghost function HistoryAfterEviction(held: set<string>, history: map<string, seq<int>>, oldest: string): map<string, seq<int>> {
    if oldest in held then history else history - {oldest}
  }

  lemma PathEvicted(
      held: set<string>, syncTimes: map<string, seq<int>>, history: map<string, seq<int>>,
      oldest: string, clock: int, limit: int, windowMs: int)
    requires TableOk(held, syncTimes, history, clock, limit, windowMs)
    ensures TableOk(held, syncTimes - {oldest}, HistoryAfterEviction(held, history, oldest), clock, limit, windowMs)
  {
    assert PathOkIn(held, syncTimes, history, oldest, clock, limit, windowMs);
    PathReplaced(held, syncTimes, history,
                 held, syncTimes - {oldest}, HistoryAfterEviction(held, history, oldest),
                 oldest, clock, limit, windowMs);
  }

  lemma PathReleased(
      quarantined: set<string>, syncTimes: map<string, seq<int>>, history: map<string, seq<int>>,
      path: string, clock: int, limit: int, windowMs: int)
    requires TableOk(quarantined, syncTimes, history, clock, limit, windowMs)
    ensures TableOk(quarantined - {path}, syncTimes - {path}, history - {path}, clock, limit, windowMs)
  {
    PathReplaced(quarantined, syncTimes, history,
                 quarantined - {path}, syncTimes - {path}, history - {path}, path, clock, limit, windowMs);
  }

  /** One path's history as it was, or forgotten because the table of tracked paths overflowed. */
  ghost predicate KeptOrEvicted(before: map<string, seq<int>>, after: map<string, seq<int>>, q: string, tracked: set<string>) {
    HistoryOf(after, q) == HistoryOf(before, q) || (HistoryOf(after, q) == [] && q in tracked)
  }

  ghost predicate OnlyEvictions(before: map<string, seq<int>>, after: map<string, seq<int>>, path: string, tracked: set<string>) {
    forall q {:trigger KeptOrEvicted(before, after, q, tracked)} :: q != path ==> KeptOrEvicted(before, after, q, tracked)
  }

  lemma OneMoreEviction(
      before: map<string, seq<int>>, after: map<string, seq<int>>, path: string, tracked: set<string>,
      held: set<string>, oldest: string)
    requires OnlyEvictions(before, after, path, tracked) && oldest in tracked + {path}
    ensures OnlyEvictions(before, HistoryAfterEviction(held, after, oldest), path, tracked)
  {
    var next := HistoryAfterEviction(held, after, oldest);
    forall q | q != path ensures KeptOrEvicted(before, next, q, tracked) {
      assert KeptOrEvicted(before, after, q, tracked);
    }
  }

  lemma NothingEvicted(before: map<string, seq<int>>, path: string, syncs: seq<int>, tracked: set<string>)
    ensures OnlyEvictions(before, before[path := syncs], path, tracked)
  {
  }

  lemma SyncThenEvictions(
      before: map<string, seq<int>>, after: map<string, seq<int>>, path: string, syncs: seq<int>, tracked: set<string>)
    requires OnlyEvictions(before[path := syncs], after, path, tracked + {path})
    ensures OnlyEvictions(before, after, path, tracked)
  {
    forall q | q != path ensures KeptOrEvicted(before, after, q, tracked) {
      assert KeptOrEvicted(before[path := syncs], after, q, tracked + {path});
    }
  }

  // -- Paths asked before every sync --

  ghost predicate GatedPath(history: map<string, seq<int>>, path: string, limit: int, windowMs: int) {
    Gated(HistoryOf(history, path), limit, windowMs)
  }

  ghost predicate AllGated(history: map<string, seq<int>>, ungated: set<string>, limit: int, windowMs: int) {
    forall path {:trigger GatedPath(history, path, limit, windowMs)} ::
      path !in ungated ==> GatedPath(history, path, limit, windowMs)
  }

  lemma {:induction false} TrippedForGood(syncs: seq<int>, k: nat, limit: int, windowMs: int)
    requires k <= |syncs| && Tripped(syncs[..k], limit, windowMs)
    ensures Tripped(syncs, limit, windowMs)
  {
    if k < |syncs| {
      assert syncs[..|syncs| - 1][..k] == syncs[..k];
      TrippedForGood(syncs[..|syncs| - 1], k, limit, windowMs);
    } else {
      assert syncs[..k] == syncs;
    }
  }

  /** A sync of a path whose history has not tripped is gated, and so are all the earlier ones. */
  lemma UntrippedIsGated(syncs: seq<int>, now: int, limit: int, windowMs: int)
    requires !Tripped(syncs, limit, windowMs)
    ensures Gated(syncs + [now], limit, windowMs)
  {
    forall k | 0 <= k < |syncs + [now]|
      ensures !Tripped((syncs + [now])[..k], limit, windowMs)
    {
      assert (syncs + [now])[..k] == syncs[..k];
      if Tripped(syncs[..k], limit, windowMs) { TrippedForGood(syncs, k, limit, windowMs); }
    }
  }

  /** One sync lets only its own path become ungated, and only if that path was quarantined. */
  lemma GatedAfterSync(
      quarantined: set<string>, syncTimes: map<string, seq<int>>, history: map<string, seq<int>>, history': map<string, seq<int>>,
      ungated: set<string>, path: string, clock: int, now: int, limit: int, windowMs: int)
    requires TableOk(quarantined, syncTimes, history, clock, limit, windowMs) && AllGated(history, ungated, limit, windowMs)
    requires HistoryOf(history', path) in {HistoryOf(history, path) + [now], []}
    requires OnlyEvictions(history, history', path, syncTimes.Keys)
    ensures AllGated(history', UngatedBy(ungated, quarantined, path), limit, windowMs)
  {
    assert PathOkIn(quarantined, syncTimes, history, path, clock, limit, windowMs);
    if path !in quarantined { UntrippedIsGated(HistoryOf(history, path), now, limit, windowMs); }
    forall q | q !in UngatedBy(ungated, quarantined, path)
      ensures GatedPath(history', q, limit, windowMs)
    {
      assert GatedPath(history, q, limit, windowMs);
      assert q != path ==> KeptOrEvicted(history, history', q, syncTimes.Keys);
    }
  }

  function UngatedBy(ungated: set<string>, quarantined: set<string>, path: string): set<string> {
    if path in quarantined then ungated + {path} else ungated
  }

  lemma GatedAfterRelease(history: map<string, seq<int>>, ungated: set<string>, path: string, limit: int, windowMs: int)
    requires AllGated(history, ungated, limit, windowMs)
    ensures AllGated(history - {path}, ungated - {path}, limit, windowMs)
  {
    forall q | q !in ungated - {path}
      ensures GatedPath(history - {path}, q, limit, windowMs)
    {
      assert GatedPath(history, q, limit, windowMs) || q == path;
      assert HistoryOf(history - {path}, q) == if q == path then [] else HistoryOf(history, q);
    }
  }

  class EchoGuard {
    const ttlMs: int
    const mtimeToleranceMs: int
    const maxSyncsPerWindow: int
    const windowMs: int
    const maxTrackedPaths: nat

    var expectations: map<string, seq<Expectation>>
    var syncTimes: OrderedMap<seq<int>>
    var quarantined: set<string>
    var dropped: nat
    var passed: nat

    /** Every declared write, and each path's syncs since it was last forgotten. */
    ghost var declared: seq<Declared>
    ghost var history: map<string, seq<int>>
    ghost var clock: int
    /** Paths some sync of which, since they were last forgotten, was recorded while they were quarantined. */
    ghost var ungated: set<string>

    ghost predicate Valid()
      reads this
    {
      && syncTimes.Valid()
      && ListsLive(expectations, declared, clock, ttlMs)
      && TableOk(quarantined, syncTimes.entries, history, clock, maxSyncsPerWindow, windowMs)
      && AllGated(history, ungated, maxSyncsPerWindow, windowMs)
    }

    /**
     A path asked before every sync, and synced only while not quarantined, never syncs more than the
     limit plus one times in any window of its history.
     */
    lemma GatedPathIsBounded(path: string, i: int, j: int)
      requires Valid() && path !in ungated && Burst(HistoryOf(history, path), i, j, windowMs)
      ensures j - i + 1 <= Max(maxSyncsPerWindow, 0) + 1
    {
      assert GatedPath(history, path, maxSyncsPerWindow, windowMs);
      assert PathOkIn(quarantined, syncTimes.entries, history, path, clock, maxSyncsPerWindow, windowMs);
      GatedBound(HistoryOf(history, path), i, j, maxSyncsPerWindow, windowMs);
    }

    constructor (ttlMs: int, toleranceMs: int, maxSyncs: int, windowMs: int, maxTracked: nat, now: int)
      ensures Valid() && declared == [] && history == map[] && clock == now && ungated == {}
      ensures this.ttlMs == ttlMs && mtimeToleranceMs == toleranceMs && maxSyncsPerWindow == maxSyncs
      ensures this.windowMs == windowMs && maxTrackedPaths == maxTracked
    {
      this.ttlMs, this.mtimeToleranceMs, this.maxSyncsPerWindow := ttlMs, toleranceMs, maxSyncs;
      this.windowMs, this.maxTrackedPaths := windowMs, maxTracked;
      expectations, syncTimes, quarantined := map[], OrderedMap([], map[]), {};
      dropped, passed := 0, 0;
      declared, history, clock, ungated := [], map[], now, {};
    }

    /** Announces a write, before it is made. */
    method Expect(write: Write, now: int)
      requires Valid() && now >= clock
      modifies this
      ensures Valid() && clock == now
      ensures declared == old(declared) + [Declared(write, now)]
      ensures history == old(history) && quarantined == old(quarantined) && ungated == old(ungated)
    {
      TimePasses(quarantined, syncTimes.entries, history, clock, now, maxSyncsPerWindow, windowMs);
      var list := ListedFor(expectations, write.path) + [Expectation(write.size, write.mtimeMs, now + ttlMs)];
      ghost var before, was := declared, expectations;
      expectations := expectations[write.path := list];
      declared := declared + [Declared(write, now)];
      clock := now;
      forall path, e: Expectation | e.expiresAt > now
        ensures e in ListedFor(expectations, path) <==> DeclaredAs(declared, path, e, ttlMs)
      {
        DeclaredOneMore(before, Declared(write, now), path, e, ttlMs);
        assert e in ListedFor(was, path) <==> DeclaredAs(before, path, e, ttlMs);
      }
    }

    /** Drops what has outlived its time. */
    method PruneExpired(now: int)
      requires Valid() && now >= clock
      modifies this`expectations, this`clock
      ensures Valid() && clock == now
      ensures forall path {:trigger AllLive(expectations, path, now)} :: AllLive(expectations, path, now)
    {
      TimePasses(quarantined, syncTimes.entries, history, clock, now, maxSyncsPerWindow, windowMs);
      ExpectationsAge(expectations, declared, clock, now, ttlMs);
      clock := now;
      PruneLists(now);
    }

    method PruneLists(now: int)
      requires ListsLive(expectations, declared, now, ttlMs)
      modifies this`expectations
      ensures ListsLive(expectations, declared, now, ttlMs)
      ensures forall path {:trigger AllLive(expectations, path, now)} :: AllLive(expectations, path, now)
    {
      var paths := expectations.Keys;
      while paths != {}
        invariant paths <= expectations.Keys && ListsLive(expectations, declared, now, ttlMs)
        invariant forall q {:trigger AllLive(expectations, q, now)} :: q !in paths ==> AllLive(expectations, q, now)
        decreases |paths|
      {
        var path :| path in paths;
        ghost var was := expectations;
        PruneOnePath(expectations, declared, path, now, ttlMs);
        var live := Live(expectations[path], now);
        if |live| == 0 {
          expectations := expectations - {path};
        } else if |live| != |expectations[path]| {
          expectations := expectations[path := live];
        }
        assert expectations == PrunedAt(was, path, now);
        paths := paths - {path};
      }
    }

    /** True exactly for the echo of some write declared less than the time-to-live ago. A match uses nothing up. */
    method ShouldDrop(event: Write, now: int) returns (drop: bool)
      requires Valid() && now >= clock
      modifies this
      ensures Valid() && clock == now
      ensures drop <==> IsEcho(declared, event, now, ttlMs, mtimeToleranceMs)
      ensures declared == old(declared) && history == old(history) && quarantined == old(quarantined)
      ensures ungated == old(ungated)
      ensures dropped == old(dropped) + (if drop then 1 else 0)
      ensures passed == old(passed) + (if drop then 0 else 1)
    {
      PruneExpired(now);
      assert AllLive(expectations, event.path, now);
      LiveMatchIsEcho(expectations, declared, event, now, ttlMs, mtimeToleranceMs);
      var candidates := ListedFor(expectations, event.path);
      for i := 0 to |candidates|
        invariant forall k :: 0 <= k < i ==> !Matches(candidates[k], event, mtimeToleranceMs)
      {
        if Matches(candidates[i], event, mtimeToleranceMs) {
          dropped := dropped + 1;
          assert candidates[i] in ListedFor(expectations, event.path);
          return true;
        }
      }
      passed := passed + 1;
      return false;
    }

    /**
     Records a sync and reports whether the path is quarantined now. Paths pushed out of a full
     table are forgotten, unless they are quarantined.
     */
    method RecordSync(path: string, now: int) returns (tripped: bool)
      requires Valid() && now >= clock
      modifies this`syncTimes, this`quarantined, this`history, this`clock, this`ungated
      ensures Valid() && clock == now
      ensures ungated == UngatedBy(old(ungated), old(quarantined), path)
      ensures
        var syncs := HistoryOf(old(history), path) + [now];
        && (tripped <==> Tripped(syncs, maxSyncsPerWindow, windowMs))
        && quarantined == (if tripped then old(quarantined) + {path} else old(quarantined))
        && (HistoryOf(history, path) == syncs || (HistoryOf(history, path) == [] && maxTrackedPaths == 0))
      ensures OnlyEvictions(old(history), history, path, old(syncTimes).entries.Keys)
    {
      ExpectationsAge(expectations, declared, clock, now, ttlMs);
      if path in quarantined {
        NoteRefused(path, now);
        NoteGate(path, now, old(quarantined), old(syncTimes).entries, old(history), old(clock));
        return true;
      }
      var count := TrackSync(path, now);
      NoteGate(path, now, old(quarantined), old(syncTimes).entries, old(history), old(clock));
      tripped := count > maxSyncsPerWindow;
      if tripped {
        quarantined := quarantined + {path};
      }
    }

    /** Keeps account of the paths that were synced although they were quarantined. */
    ghost method NoteGate(path: string, now: int, held: set<string>, times: map<string, seq<int>>,
                          before: map<string, seq<int>>, since: int)
      requires TableOk(held, times, before, since, maxSyncsPerWindow, windowMs)
      requires AllGated(before, ungated, maxSyncsPerWindow, windowMs)
      requires HistoryOf(history, path) in {HistoryOf(before, path) + [now], []}
      requires OnlyEvictions(before, history, path, times.Keys)
      modifies this`ungated
      ensures ungated == UngatedBy(old(ungated), held, path) && AllGated(history, ungated, maxSyncsPerWindow, windowMs)
    {
      GatedAfterSync(held, times, before, history, ungated, path, since, now, maxSyncsPerWindow, windowMs);
      ungated := UngatedBy(ungated, held, path);
    }

    /** A sync of a quarantined path changes nothing but its history. */
    ghost method NoteRefused(path: string, now: int)
      requires path in quarantined && now >= clock
      requires TableOk(quarantined, syncTimes.entries, history, clock, maxSyncsPerWindow, windowMs)
      modifies this`history, this`clock
      ensures clock == now && TableOk(quarantined, syncTimes.entries, history, now, maxSyncsPerWindow, windowMs)
      ensures
        var syncs := HistoryOf(old(history), path) + [now];
        Tripped(syncs, maxSyncsPerWindow, windowMs) && HistoryOf(history, path) == syncs
      ensures OnlyEvictions(old(history), history, path, syncTimes.entries.Keys)
    {
      SyncRefused(quarantined, syncTimes.entries, history, path, clock, now, maxSyncsPerWindow, windowMs);
      NothingEvicted(history, path, HistoryOf(history, path) + [now], syncTimes.entries.Keys);
      history, clock := history[path := HistoryOf(history, path) + [now]], now;
    }

    /** Adds the sync to its path's trailing window and returns how many that window holds. */
    method TrackSync(path: string, now: int) returns (count: nat)
      requires path !in quarantined && syncTimes.Valid() && now >= clock
      requires TableOk(quarantined, syncTimes.entries, history, clock, maxSyncsPerWindow, windowMs)
      modifies this`syncTimes, this`history, this`clock
      ensures clock == now && syncTimes.Valid()
      ensures TableOk(if count > maxSyncsPerWindow then quarantined + {path} else quarantined,
                      syncTimes.entries, history, now, maxSyncsPerWindow, windowMs)
      ensures
        var syncs := HistoryOf(old(history), path) + [now];
        && (count > maxSyncsPerWindow <==> Tripped(syncs, maxSyncsPerWindow, windowMs))
        && (HistoryOf(history, path) == syncs || (HistoryOf(history, path) == [] && maxTrackedPaths == 0))
      ensures OnlyEvictions(old(history), history, path, old(syncTimes).entries.Keys)
    {
      ghost var syncs := HistoryOf(history, path) + [now];
      SyncRecorded(quarantined, syncTimes.entries, history, path, clock, now, maxSyncsPerWindow, windowMs);
      var times := InWindow(HistoryOf(syncTimes.entries, path), now, windowMs) + [now];
      TouchedMovesToBack(syncTimes, path, times);
      assert syncTimes.entries[path := times].Keys == syncTimes.entries.Keys + {path};
      syncTimes := syncTimes.Delete(path).Set(path, times);
      history, clock := history[path := syncs], now;
      EvictOldestTracked(path, syncs, if |times| > maxSyncsPerWindow then quarantined + {path} else quarantined);
      SyncThenEvictions(old(history), history, path, syncs, old(syncTimes).entries.Keys);
      return |times|;
    }

    /** Forgets the least recently synced paths of a table that has grown too large. */
    method EvictOldestTracked(ghost path: string, ghost syncs: seq<int>, ghost held: set<string>)
      requires syncTimes.Valid() && |syncTimes.order| > 0 && syncTimes.order[|syncTimes.order| - 1] == path
      requires HistoryOf(history, path) == syncs
      requires TableOk(held, syncTimes.entries, history, clock, maxSyncsPerWindow, windowMs)
      modifies this`syncTimes, this`history
      ensures syncTimes.Valid() && |syncTimes.order| <= maxTrackedPaths
      ensures TableOk(held, syncTimes.entries, history, clock, maxSyncsPerWindow, windowMs)
      ensures HistoryOf(history, path) == syncs || (HistoryOf(history, path) == [] && maxTrackedPaths == 0)
      ensures OnlyEvictions(old(history), history, path, old(syncTimes).entries.Keys)
    {
      ghost var tracked := syncTimes.entries.Keys;
      while |syncTimes.order| > maxTrackedPaths
        invariant syncTimes.Valid() && syncTimes.entries.Keys <= old(syncTimes).entries.Keys
        invariant TableOk(held, syncTimes.entries, history, clock, maxSyncsPerWindow, windowMs)
        invariant |syncTimes.order| > 0 ==> syncTimes.order[|syncTimes.order| - 1] == path
        invariant |syncTimes.order| == 0 ==> maxTrackedPaths == 0
        invariant HistoryOf(history, path) == syncs || (HistoryOf(history, path) == [] && |syncTimes.order| == 0)
        invariant OnlyEvictions(old(history), history, path, old(syncTimes).entries.Keys)
        decreases |syncTimes.order|
      {
        var oldest := syncTimes.order[0];
        OldestRemoved(syncTimes);
        if |syncTimes.order| > 1 {
          LastIsElement(syncTimes.order[1..]);
        }
        OneMoreEviction(old(history), history, path, tracked, held, oldest);
        PathEvicted(held, syncTimes.entries, history, oldest, clock, maxSyncsPerWindow, windowMs);
        syncTimes := syncTimes.Delete(oldest);
        history := HistoryAfterEviction(held, history, oldest);
      }
    }

    /** Lifts a quarantine by hand, forgetting the history that caused it. */
    method Release(path: string) returns (was: bool)
      requires Valid()
      modifies this`syncTimes, this`quarantined, this`history, this`ungated
      ensures Valid()
      ensures was <==> path in old(quarantined)
      ensures quarantined == old(quarantined) - {path} && history == old(history) - {path}
      ensures ungated == old(ungated) - {path}
    {
      PathReleased(quarantined, syncTimes.entries, history, path, clock, maxSyncsPerWindow, windowMs);
      assert syncTimes.Delete(path).entries == syncTimes.entries - {path};
      was := path in quarantined;
      DeleteValid(syncTimes, path);
      GatedAfterRelease(history, ungated, path, maxSyncsPerWindow, windowMs);
      ungated := ungated - {path};
      syncTimes := syncTimes.Delete(path);
      quarantined := quarantined - {path};
      history := history - {path};
    }

    method Clear()
      requires Valid()
      modifies this
      ensures Valid() && clock == old(clock)
      ensures quarantined == {} && history == map[] && declared == [] && ungated == {}
      ensures expectations == map[] && syncTimes == OrderedMap([], map[]) && dropped == 0 && passed == 0
    {
      ungated := {};
      expectations, syncTimes, quarantined := map[], OrderedMap([], map[]), {};
      dropped, passed := 0, 0;
      declared, history := [], map[];
    }
  }
}
