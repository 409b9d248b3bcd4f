/** The scanner: one walk at a time, cut at its awaits, feeding the index and telling listeners what changed. */
module ServerScanner {
  import opened Wrappers
  import opened FileIndex

  // -- The adaptive interval --------------------------------------------------

  /** What a finished scan or a reset tells the interval. */
  datatype Tick = Busy | Quiet | IntervalReset

  datatype Pace = Pace(intervalMs: int, quietScans: nat)

  function PaceStep(pace: Pace, tick: Tick, min: int, max: int): Pace {
    if tick.Quiet? then Pace(Min(max, pace.intervalMs * 2), pace.quietScans + 1) else Pace(min, 0)
  }

  function PaceAfter(ticks: seq<Tick>, min: int, max: int): Pace {
    if |ticks| == 0 then Pace(min, 0)
    else PaceStep(PaceAfter(ticks[..|ticks| - 1], min, max), ticks[|ticks| - 1], min, max)
  }

  function Doubled(ms: int, times: nat): int {
    if times == 0 then ms else 2 * Doubled(ms, times - 1)
  }

  /** How many scans in a row have found nothing: the quiet ones at the end of the history. */
  predicate QuietAtEnd(ticks: seq<Tick>, quiet: nat) {
    && quiet <= |ticks|
    && (forall k :: |ticks| - quiet <= k < |ticks| ==> ticks[k].Quiet?)
    && (quiet < |ticks| ==> !ticks[|ticks| - quiet - 1].Quiet?)
  }

  lemma {:induction false} QuietScansAreCounted(ticks: seq<Tick>, min: int, max: int)
    ensures QuietAtEnd(ticks, PaceAfter(ticks, min, max).quietScans)
  {
    if |ticks| > 0 {
      QuietScansAreCounted(ticks[..|ticks| - 1], min, max);
    }
  }

  lemma {:induction false} DoubledStaysBelow(ms: int, times: nat)
    requires ms < 0
    ensures Doubled(ms, times) <= ms
  {
    if times > 0 { DoubledStaysBelow(ms, times - 1); }
  }

  lemma {:induction false} PaceBacksOff(ticks: seq<Tick>, min: int, max: int)
    requires min <= max
    ensures
      var pace := PaceAfter(ticks, min, max);
      pace.intervalMs == Min(max, Doubled(min, pace.quietScans))
  {
    if |ticks| > 0 {
      PaceBacksOff(ticks[..|ticks| - 1], min, max);
      if min < 0 { DoubledStaysBelow(min, PaceAfter(ticks[..|ticks| - 1], min, max).quietScans); }
    }
  }

  /** The interval is the floor doubled once for each quiet scan at the end of the history, up to the ceiling. */
  ghost predicate BackedOff(ticks: seq<Tick>, min: int, max: int) {
    forall quiet: nat :: QuietAtEnd(ticks, quiet) ==> PaceAfter(ticks, min, max).intervalMs == Min(max, Doubled(min, quiet))
  }

  /** So it is in every history, exactly when the floor is not above the ceiling. */
  lemma IntervalLaw(min: int, max: int)
    ensures (forall ticks :: BackedOff(ticks, min, max)) <==> min <= max
  {
    if min <= max {
      forall ticks
        ensures BackedOff(ticks, min, max)
      {
        PaceBacksOff(ticks, min, max);
        QuietScansAreCounted(ticks, min, max);
        forall quiet: nat | QuietAtEnd(ticks, quiet)
          ensures quiet == PaceAfter(ticks, min, max).quietScans
        {
          QuietAtEndIsOne(ticks, quiet, PaceAfter(ticks, min, max).quietScans);
        }
      }
    } else {
      assert QuietAtEnd([], 0);
      assert !BackedOff([], min, max);
    }
  }

  lemma QuietAtEndIsOne(ticks: seq<Tick>, a: nat, b: nat)
    requires QuietAtEnd(ticks, a) && QuietAtEnd(ticks, b)
    ensures a == b
  {
  }

  // -- A walk -----------------------------------------------------------------

  /** The paths stamped by this walk are exactly the listed ones, with what was listed last. */
  ghost predicate ListingOk(entries: map<string, IndexedEntry>, listing: map<string, Shown>, generation: nat) {
    && (forall p :: p in listing <==> p in entries && entries[p].generation == generation)
    && (forall p :: p in listing ==> ShownOf(entries[p]) == listing[p])
  }

  function ListedAll(entries: seq<ScanEntry>): map<string, Shown> {
    if |entries| == 0 then map[]
    else
      var last := entries[|entries| - 1];
      ListedAll(entries[..|entries| - 1])[last.relPath := Listed(last)]
  }

  ghost predicate NoRemovals(changes: seq<ScanChange>) {
    forall i :: 0 <= i < |changes| ==> !changes[i].kind.Removed?
  }

  /** A walk under way: what it stamped, and what it has to tell. */
  ghost predicate WalkOk(entries: map<string, IndexedEntry>, listed: seq<ScanEntry>, generation: nat,
                         before: map<string, Shown>, changes: seq<ScanChange>) {
    && ListingOk(entries, ListedAll(listed), generation) && NoRemovals(changes)
    && Replay(before, changes) == View(entries)
  }

  lemma ListingSeesOneMore(entries: map<string, IndexedEntry>, listing: map<string, Shown>, generation: nat, entry: ScanEntry)
    requires ListingOk(entries, listing, generation)
    ensures ListingOk(entries[entry.relPath := Stamped(entry, generation)], listing[entry.relPath := Listed(entry)], generation)
  {
  }

  lemma ReplaySeesOneMore(entries: map<string, IndexedEntry>, generation: nat, before: map<string, Shown>,
                          changes: seq<ScanChange>, entry: ScanEntry)
    requires Replay(before, changes) == View(entries)
    ensures
      var change := ChangeOf(entries, entry);
      Replay(before, changes + if change.Some? then [change.value] else [])
        == View(entries[entry.relPath := Stamped(entry, generation)])
  {
    ObservationReplays(entries, entry, generation);
    var change := ChangeOf(entries, entry);
    if change.Some? {
      ReplayOneMore(before, changes, change.value);
    } else {
      assert changes + [] == changes;
    }
  }

  lemma ListedOneMore(listed: seq<ScanEntry>, entry: ScanEntry)
    ensures ListedAll(listed + [entry]) == ListedAll(listed)[entry.relPath := Listed(entry)]
  {
    assert (listed + [entry])[..|listed|] == listed;
  }

  lemma WalkSeesOneMore(entries: map<string, IndexedEntry>, listed: seq<ScanEntry>, generation: nat,
                        before: map<string, Shown>, changes: seq<ScanChange>, entry: ScanEntry)
    requires WalkOk(entries, listed, generation, before, changes)
    ensures
      var change := ChangeOf(entries, entry);
      WalkOk(entries[entry.relPath := Stamped(entry, generation)], listed + [entry], generation, before,
             changes + if change.Some? then [change.value] else [])
  {
    ListedOneMore(listed, entry);
    ListingSeesOneMore(entries, ListedAll(listed), generation, entry);
    ReplaySeesOneMore(entries, generation, before, changes, entry);
  }

  lemma SurvivorsAreListed(entries: map<string, IndexedEntry>, listing: map<string, Shown>, generation: nat)
    requires ListingOk(entries, listing, generation)
    ensures View(Survivors(entries, generation)) == listing
    ensures entries.Keys - Survivors(entries, generation).Keys == entries.Keys - listing.Keys
  {
  }

  /** What a completed walk reports: nothing but what it saw, and one removal per indexed path it did not list. */
  ghost predicate Reported(entries: map<string, IndexedEntry>, listing: map<string, Shown>, seen: seq<ScanChange>,
                           told: seq<ScanChange>) {
    && NoRemovals(seen) && |seen| <= |told| && told[..|seen|] == seen
    && Removals(entries, entries.Keys - listing.Keys, told[|seen|..])
  }

  /** A report told only in part still rebuilds the index once the rest is told. */
  lemma CutReport(start: map<string, Shown>, emitted: seq<ScanChange>, report: seq<ScanChange>, heard: nat)
    requires heard <= |report|
    ensures Replay(Replay(start, emitted + report[..heard]), report[heard..]) == Replay(Replay(start, emitted), report)
  {
    ReplayAppend(start, emitted, report[..heard]);
    ReplayAppend(Replay(start, emitted), report[..heard], report[heard..]);
    assert report[..heard] + report[heard..] == report;
  }

  class ServerScanner {
    const index: FileIndex
    const minIntervalMs: int
    const maxIntervalMs: int
    var intervalMs: int
    var quietScans: nat
    var running: bool
    /** The walk under way. */
    var generation: nat
    var changes: seq<ScanChange>
    ghost var listed: seq<ScanEntry>
    /** The index when the walk began, all changes emitted so far, and the interval's own history. */
    ghost var walkStart: map<string, Shown>
    ghost var emitted: seq<ScanChange>
    ghost const atStart: map<string, Shown>
    ghost var failedWalks: nat
    ghost var ticks: seq<Tick>

    ghost predicate Paced()
      reads `intervalMs, `quietScans, `ticks
    {
      Pace(intervalMs, quietScans) == PaceAfter(ticks, minIntervalMs, maxIntervalMs)
    }

    ghost predicate Valid()
      reads this, index
    {
      Paced() && Told()
    }

    ghost predicate Told()
      reads `running, `generation, `changes, `listed, `walkStart, `emitted, `failedWalks, index
    {
      && index.Valid()
      && (running ==> generation == index.currentGeneration && WalkOk(index.entries, listed, generation, walkStart, changes))
      && (!running ==> walkStart == View(index.entries))
      && (failedWalks == 0 ==> Replay(atStart, emitted) == walkStart)
    }

    constructor (index: FileIndex, minIntervalMs: int, maxIntervalMs: int)
      requires index.Valid()
      ensures Valid() && !running && emitted == [] && failedWalks == 0 && this.index == index && ticks == []
      ensures atStart == View(index.entries)
    {
      this.index, this.minIntervalMs, this.maxIntervalMs := index, minIntervalMs, maxIntervalMs;
      intervalMs, quietScans, running, generation := minIntervalMs, 0, false, 0;
      changes, listed, emitted, ticks, failedWalks := [], [], [], [], 0;
      walkStart, atStart := View(index.entries), View(index.entries);
    }

    method Adapt(changeCount: nat)
      requires Paced()
      modifies `intervalMs, `quietScans, `ticks
      ensures Paced()
      ensures ticks == old(ticks) + [if changeCount > 0 then Busy else Quiet]
    {
      if changeCount > 0 {
        quietScans := 0;
        intervalMs := minIntervalMs;
      } else {
        quietScans := quietScans + 1;
        intervalMs := Min(maxIntervalMs, intervalMs * 2);
      }
      ticks := ticks + [if changeCount > 0 then Busy else Quiet];
      assert ticks[..|ticks| - 1] == old(ticks);
    }

    method AdaptTwice(changeCount: nat)
      requires Paced()
      modifies `intervalMs, `quietScans, `ticks
      ensures Paced()
      ensures ticks == old(ticks) + [if changeCount > 0 then Busy else Quiet, Quiet]
    {
      Adapt(changeCount);
      Adapt(0);
    }

    method ResetInterval()
      requires Paced()
      modifies `intervalMs, `quietScans, `ticks
      ensures Paced() && ticks == old(ticks) + [IntervalReset]
    {
      quietScans := 0;
      intervalMs := minIntervalMs;
      ticks := ticks + [IntervalReset];
      assert ticks[..|ticks| - 1] == old(ticks);
    }

    /** Starts a scan; a second one while the first runs is the caller's error. */
    method Begin() returns (started: bool)
      requires Valid()
      modifies this, index`currentGeneration
      ensures Valid() && started == !old(running) && running
      ensures index.entries == old(index.entries) && emitted == old(emitted) && failedWalks == old(failedWalks)
      ensures started ==> listed == [] && changes == []
    {
      if running {
        return false;
      }
      generation := index.BeginScan();
      running, changes, listed := true, [], [];
      return true;
    }

    /** A chunk of the walk arrives. */
    method Chunk(entries: seq<ScanEntry>)
      requires Valid() && running
      modifies `changes, `listed, index`entries, index`ciBuckets
      ensures Valid() && running && listed == old(listed) + entries
      ensures old(changes) <= changes
    {
      for i := 0 to |entries|
        invariant Valid() && running && listed == old(listed) + entries[..i] && old(changes) <= changes
      {
        See(entries[i]);
      }
    }

    method See(entry: ScanEntry)
      requires Valid() && running
      modifies `changes, `listed, index`entries, index`ciBuckets
      ensures Valid() && listed == old(listed) + [entry] && old(changes) <= changes
    {
      WalkSeesOneMore(index.entries, listed, generation, walkStart, changes, entry);
      var change := index.Observe(entry, generation);
      changes := changes + if change.Some? then [change.value] else [];
      listed := listed + [entry];
    }

    /**
     The walk returned. Only a walk that was not cut short removes: then the index equals the listing,
     and every indexed path that was not listed is reported removed, once. Everything the walk found is
     told to the listeners.
     */
    method Finish(truncated: bool)
      requires Valid() && running
      modifies this, index`entries, index`ciBuckets
      ensures Valid() && !running
      ensures |old(emitted)| <= |emitted| && emitted[..|old(emitted)|] == old(emitted)
      ensures
        var told := emitted[|old(emitted)|..];
        if truncated then
          index.entries == old(index.entries) && told == old(changes) && NoRemovals(told)
        else
          && View(index.entries) == ListedAll(old(listed))
          && Reported(old(index.entries), ListedAll(old(listed)), old(changes), told)
      ensures failedWalks == old(failedWalks) && |ticks| == |old(ticks)| + 1
      ensures ticks[|old(ticks)|].Quiet? <==> |emitted| == |old(emitted)|
    {
      if !truncated {
        ReapUnlisted();
      }
      TellEverything();
    }

    /**
     The walk returned, but a listener threw once `heard` of the changes had been told. The index is as
     after `Finish`, the remaining changes are never told, and the interval backs off a second time.
     */
    method FinishInterrupted(truncated: bool, heard: nat) returns (report: seq<ScanChange>)
      requires Valid() && running
      modifies this, index`entries, index`ciBuckets
      ensures Valid() && !running && failedWalks == old(failedWalks) + 1
      ensures
        if truncated then
          index.entries == old(index.entries) && report == old(changes) && NoRemovals(report)
        else
          && View(index.entries) == ListedAll(old(listed))
          && Reported(old(index.entries), ListedAll(old(listed)), old(changes), report)
      ensures emitted == old(emitted) + report[..Min(heard, |report|)]
      ensures ticks == old(ticks) + [if |report| > 0 then Busy else Quiet, Quiet]
      ensures old(failedWalks) == 0 ==>
        Replay(Replay(atStart, emitted), report[Min(heard, |report|)..]) == View(index.entries)
    {
      if !truncated {
        ReapUnlisted();
      }
      report := changes;
      TellSome(Min(heard, |changes|));
    }

    /** Adapts the interval, tells some of the changes, and adapts it again as after a failed walk. */
    method TellSome(heard: nat)
      requires Paced() && index.Valid() && Replay(walkStart, changes) == View(index.entries) && heard <= |changes|
      requires failedWalks == 0 ==> Replay(atStart, emitted) == walkStart
      modifies `intervalMs, `quietScans, `ticks, `emitted, `walkStart, `running, `failedWalks
      ensures Valid() && !running && emitted == old(emitted) + changes[..heard] && failedWalks == old(failedWalks) + 1
      ensures ticks == old(ticks) + [if |changes| > 0 then Busy else Quiet, Quiet]
      ensures old(failedWalks) == 0 ==> Replay(Replay(atStart, emitted), changes[heard..]) == View(index.entries)
    {
      AdaptTwice(|changes|);
      CutReport(atStart, emitted, changes, heard);
      emitted := emitted + changes[..heard];
      failedWalks := failedWalks + 1;
      walkStart := View(index.entries);
      running := false;
    }

    /** Reads absence from a complete walk as deletion. */
    method ReapUnlisted()
      requires Told() && running
      modifies `changes, index`entries, index`ciBuckets
      ensures index.Valid() && index.currentGeneration == old(index.currentGeneration)
      ensures View(index.entries) == ListedAll(listed)
      ensures Reported(old(index.entries), ListedAll(listed), old(changes), changes)
      ensures Replay(walkStart, changes) == View(index.entries)
    {
      SurvivorsAreListed(index.entries, ListedAll(listed), generation);
      var removed := index.Reap(generation);
      ReplayAppend(walkStart, changes, removed);
      assert (changes + removed)[|changes|..] == removed;
      changes := changes + removed;
    }

    /** Adapts the interval and hands every change to the listeners. */
    method TellEverything()
      requires Paced() && index.Valid() && Replay(walkStart, changes) == View(index.entries)
      requires failedWalks == 0 ==> Replay(atStart, emitted) == walkStart
      modifies `intervalMs, `quietScans, `ticks, `emitted, `walkStart, `running
      ensures Valid() && !running && emitted == old(emitted) + changes
      ensures ticks == old(ticks) + [if |changes| > 0 then Busy else Quiet]
    {
      Adapt(|changes|);
      ReplayAppend(atStart, emitted, changes);
      emitted := emitted + changes;
      walkStart := View(index.entries);
      running := false;
    }

    /**
     The walk failed: nothing is removed and nothing is told, but what was seen stays in the index,
     stamped with the abandoned generation.
     */
    method Fail()
      requires Valid() && running
      modifies this
      ensures Valid() && !running && emitted == old(emitted) && failedWalks == old(failedWalks) + 1
      ensures index.entries == old(index.entries) && ticks == old(ticks) + [Quiet]
      ensures ListingOk(index.entries, ListedAll(old(listed)), index.currentGeneration)
      ensures old(failedWalks) == 0 ==> Replay(Replay(atStart, emitted), old(changes)) == View(index.entries)
    {
      Adapt(0);
      failedWalks := failedWalks + 1;
      walkStart := View(index.entries);
      running := false;
    }

    /** As long as no scan failed, replaying everything ever emitted rebuilds the index. */
    lemma EmittedChangesRebuildIndex()
      requires Valid() && failedWalks == 0
      ensures Replay(atStart, if running then emitted + changes else emitted) == View(index.entries)
    {
      if running { ReplayAppend(atStart, emitted, changes); }
    }
  }
}
