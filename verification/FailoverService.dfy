/** A controller per enabled share, and the column that makes its verdict real. */
module FailoverService {
  import opened Wrappers
  import opened Failover

  datatype ShareStatus = Online | Offline | Errored | OtherStatus

  datatype ShareRow = ShareRow(status: ShareStatus, enabled: bool, failoverReadOnly: bool)

  /** A call of `onFlip`. */
  datatype Flip = Flip(shareId: nat, readOnly: bool)

  function HealthOf(row: ShareRow, diskUsedPct: real): Health {
    Health(row.status != Offline, diskUsedPct, row.status != Errored)
  }

  /** Each flip announces a column that changed, and each column that changed is announced exactly once. */
  ghost predicate Announced(before: map<nat, ShareRow>, after: map<nat, ShareRow>, flips: seq<Flip>) {
    && before.Keys == after.Keys
    && (forall id :: id in before ==> after[id] == before[id].(failoverReadOnly := after[id].failoverReadOnly))
    && (forall i :: 0 <= i < |flips| ==>
          flips[i].shareId in before && flips[i].readOnly == after[flips[i].shareId].failoverReadOnly
          && flips[i].readOnly != before[flips[i].shareId].failoverReadOnly)
    && (forall id :: id in before && after[id] != before[id] ==> exists i :: 0 <= i < |flips| && flips[i].shareId == id)
    && (forall i, j :: 0 <= i < j < |flips| ==> flips[i].shareId != flips[j].shareId)
  }

  lemma NothingAnnounced(rows: map<nat, ShareRow>)
    ensures Announced(rows, rows, [])
  {
  }

  lemma AnnounceOneMore(before: map<nat, ShareRow>, rows: map<nat, ShareRow>, flips: seq<Flip>, id: nat, readOnly: bool)
    requires Announced(before, rows, flips) && id in rows && rows[id] == before[id]
    ensures Announced(before, rows[id := rows[id].(failoverReadOnly := readOnly)],
                      flips + if rows[id].failoverReadOnly == readOnly then [] else [Flip(id, readOnly)])
  {
    var after := rows[id := rows[id].(failoverReadOnly := readOnly)];
    if rows[id].failoverReadOnly == readOnly {
      assert after == rows && flips + [] == flips;
    } else {
      var more := flips + [Flip(id, readOnly)];
      assert more[|flips|] == Flip(id, readOnly);
      forall k | k in before && after[k] != before[k]
        ensures exists i :: 0 <= i < |more| && more[i].shareId == k
      {
        if k != id {
          var i :| 0 <= i < |flips| && flips[i].shareId == k;
          assert more[i] == flips[i];
        }
      }
    }
  }

  function EnabledIds(rows: map<nat, ShareRow>): set<nat> {
    set id | id in rows && rows[id].enabled
  }

  /** A share's controller: since when there is one, what it has heard, and what it concludes. */
  datatype Verdict = Verdict(created: int, heard: seq<Event>, reasons: set<Reason>)

  function CreatedBefore(verdicts: map<nat, Verdict>, id: nat, now: int): int {
    if id in verdicts then verdicts[id].created else now
  }

  function HeardBefore(verdicts: map<nat, Verdict>, id: nat): seq<Event> {
    if id in verdicts then verdicts[id].heard else []
  }

  function HeldBefore(verdicts: map<nat, Verdict>, id: nat): set<Reason> {
    if id in verdicts then verdicts[id].reasons else {}
  }

  /** One share's observation, and the column it leaves. */
  ghost predicate ObservedOne(start: map<nat, Verdict>, verdict: Verdict, row: ShareRow, now': ShareRow, id: nat,
                              diskUsedPct: real, now: int, limits: Limits) {
    && verdict.created == CreatedBefore(start, id, now)
    && verdict.heard == HeardBefore(start, id) + [Event.Observe(now, HealthOf(row, diskUsedPct))]
    && now' == row.(failoverReadOnly := verdict.reasons != {})
    && StatusDecides(HeldBefore(start, id), verdict.reasons, row, diskUsedPct, limits)
  }

  /** One observation of this share, with this status, can take its reasons from `before` to `after`. */
  predicate StatusDecides(before: set<Reason>, after: set<Reason>, row: ShareRow, diskUsedPct: real, limits: Limits) {
    Follows(before, after, HealthOf(row, diskUsedPct), limits)
  }

  /** An engine error or a full disk stops writes at once; only an offline share can become unreachable, or stay so. */
  lemma StatusMeans(before: set<Reason>, after: set<Reason>, row: ShareRow, diskUsedPct: real, limits: Limits)
    ensures StatusDecides(before, after, row, diskUsedPct, limits) <==>
      && (SyncError in after <==> row.status == Errored)
      && (diskUsedPct >= limits.diskFullPct ==> DiskFull in after)
      && (row.status != Offline && ServerUnreachable in after ==> ServerUnreachable in before)
      && (row.status == Offline && ServerUnreachable in before ==> ServerUnreachable in after)
  {
  }

  ghost predicate ObservedAll(start: map<nat, Verdict>, verdicts: map<nat, Verdict>, before: map<nat, ShareRow>,
                              rows: map<nat, ShareRow>, diskUsedPct: real, now: int, limits: Limits) {
    && verdicts.Keys == EnabledIds(before) && rows.Keys == before.Keys
    && forall id :: id in rows ==>
         if before[id].enabled then ObservedOne(start, verdicts[id], before[id], rows[id], id, diskUsedPct, now, limits)
         else rows[id] == before[id]
  }

  /** One share's controller has been told its health; the others have not moved. */
  ghost predicate ToldOne(verdicts: map<nat, Verdict>, verdicts': map<nat, Verdict>, row: ShareRow, id: nat,
                          diskUsedPct: real, now: int, limits: Limits) {
    && id in verdicts' && verdicts' == verdicts[id := verdicts'[id]]
    && verdicts'[id].created == CreatedBefore(verdicts, id, now)
    && verdicts'[id].heard == HeardBefore(verdicts, id) + [Event.Observe(now, HealthOf(row, diskUsedPct))]
    && StatusDecides(HeldBefore(verdicts, id), verdicts'[id].reasons, row, diskUsedPct, limits)
  }

  /** One share has been told its health, its column follows, and the column is announced if it moved. */
  ghost predicate ShareObserved(verdicts: map<nat, Verdict>, verdicts': map<nat, Verdict>,
                                rows: map<nat, ShareRow>, rows': map<nat, ShareRow>, flips: seq<Flip>, flips': seq<Flip>,
                                id: nat, diskUsedPct: real, now: int, limits: Limits) {
    && id in rows && ToldOne(verdicts, verdicts', rows[id], id, diskUsedPct, now, limits)
    && var readOnly := verdicts'[id].reasons != {};
       && rows' == rows[id := rows[id].(failoverReadOnly := readOnly)]
       && flips' == flips + if rows[id].failoverReadOnly == readOnly then [] else [Flip(id, readOnly)]
  }

  /** The same with only some shares done so far. */
  ghost predicate Pass(start: map<nat, Verdict>, verdicts: map<nat, Verdict>, before: map<nat, ShareRow>,
                       rows: map<nat, ShareRow>, done: set<nat>, diskUsedPct: real, now: int, limits: Limits) {
    && verdicts.Keys == start.Keys + done && rows.Keys == before.Keys && done <= EnabledIds(before)
    && (forall id :: id in rows ==>
          if id in done then ObservedOne(start, verdicts[id], before[id], rows[id], id, diskUsedPct, now, limits)
          else rows[id] == before[id])
    && (forall id :: id in start && id !in done ==> verdicts[id] == start[id])
  }

  lemma PassOneMore(start: map<nat, Verdict>, verdicts: map<nat, Verdict>, verdicts': map<nat, Verdict>,
                    before: map<nat, ShareRow>, rows: map<nat, ShareRow>, rows': map<nat, ShareRow>, done: set<nat>,
                    id: nat, diskUsedPct: real, now: int, limits: Limits)
    requires Pass(start, verdicts, before, rows, done, diskUsedPct, now, limits)
    requires id in EnabledIds(before) && id !in done && id in rows
    requires ToldOne(verdicts, verdicts', rows[id], id, diskUsedPct, now, limits)
    requires rows' == rows[id := rows[id].(failoverReadOnly := verdicts'[id].reasons != {})]
    ensures Pass(start, verdicts', before, rows', done + {id}, diskUsedPct, now, limits)
  {
    assert ObservedOne(start, verdicts'[id], before[id], rows'[id], id, diskUsedPct, now, limits);
  }

  /** A pass of observations under way: which shares are done, and what has been announced. */
  datatype Progress = Progress(start: map<nat, Verdict>, before: map<nat, ShareRow>, flipsBefore: seq<Flip>,
                               diskUsedPct: real, now: int, limits: Limits)
  {
    ghost predicate At(verdicts: map<nat, Verdict>, rows: map<nat, ShareRow>, flips: seq<Flip>, done: set<nat>) {
      && Pass(start, verdicts, before, rows, done, diskUsedPct, now, limits)
      && |flipsBefore| <= |flips| && flips[..|flipsBefore|] == flipsBefore
      && Announced(before, rows, flips[|flipsBefore|..])
    }

    lemma AnnouncedOn(rows: map<nat, ShareRow>, flips: seq<Flip>, flips': seq<Flip>, id: nat, readOnly: bool)
      requires |flipsBefore| <= |flips| && flips[..|flipsBefore|] == flipsBefore
      requires Announced(before, rows, flips[|flipsBefore|..]) && id in rows && rows[id] == before[id]
      requires flips' == flips + if rows[id].failoverReadOnly == readOnly then [] else [Flip(id, readOnly)]
      ensures |flipsBefore| <= |flips'| && flips'[..|flipsBefore|] == flipsBefore
      ensures Announced(before, rows[id := rows[id].(failoverReadOnly := readOnly)], flips'[|flipsBefore|..])
    {
      AnnounceOneMore(before, rows, flips[|flipsBefore|..], id, readOnly);
      assert flips'[|flipsBefore|..]
        == flips[|flipsBefore|..] + if rows[id].failoverReadOnly == readOnly then [] else [Flip(id, readOnly)];
    }

    lemma Advances(verdicts: map<nat, Verdict>, verdicts': map<nat, Verdict>, rows: map<nat, ShareRow>, rows': map<nat, ShareRow>,
                   flips: seq<Flip>, flips': seq<Flip>, ids: set<nat>, todo: set<nat>, id: nat)
      requires At(verdicts, rows, flips, ids - todo) && ids <= EnabledIds(before) && todo <= ids && id in todo
      requires ShareObserved(verdicts, verdicts', rows, rows', flips, flips', id, diskUsedPct, now, limits)
      ensures At(verdicts', rows', flips', ids - (todo - {id}))
    {
      var readOnly := verdicts'[id].reasons != {};
      AnnouncedOn(rows, flips, flips', id, readOnly);
      PassOneMore(start, verdicts, verdicts', before, rows, rows', ids - todo, id, diskUsedPct, now, limits);
      assert ids - todo + {id} == ids - (todo - {id});
    }
  }

  class FailoverService {
    const limits: Limits
    /** The shares table. */
    var rows: map<nat, ShareRow>
    var controllers: map<nat, FailoverController>
    ghost var Repr: set<FailoverController>
    /** The calls of `onFlip` so far. */
    ghost var flips: seq<Flip>

    ghost predicate Valid()
      reads `controllers, `Repr, Repr
    {
      && (forall id :: id in controllers ==>
            controllers[id] in Repr && controllers[id].share == id && controllers[id].limits == limits)
      && (forall id {:trigger controllers[id].Valid()} :: id in controllers ==> controllers[id].Valid())
    }

    constructor (limits: Limits, rows: map<nat, ShareRow>)
      ensures Valid() && this.limits == limits && this.rows == rows && controllers == map[] && flips == []
    {
      this.limits, this.rows, controllers, flips, Repr := limits, rows, map[], [], {};
    }

    /** Writes the column and announces it, but only when it moved. */
    method ApplyTo(id: nat, readOnly: bool)
      requires id in rows
      modifies `rows, `flips
      ensures rows == old(rows)[id := old(rows)[id].(failoverReadOnly := readOnly)]
      ensures flips == old(flips) + if old(rows)[id].failoverReadOnly == readOnly then [] else [Flip(id, readOnly)]
    {
      if rows[id].failoverReadOnly == readOnly {
        return;
      }
      rows := rows[id := rows[id].(failoverReadOnly := readOnly)];
      flips := flips + [Flip(id, readOnly)];
    }

    /** What the controllers have heard and concluded. */
    ghost function Verdicts(): map<nat, Verdict>
      requires Valid()
      reads `controllers, `Repr, Repr
    {
      map id | id in controllers :: Verdict(controllers[id].created, controllers[id].events, controllers[id].reasons)
    }

    method ControllerFor(id: nat, now: int) returns (controller: FailoverController)
      requires Valid()
      modifies `controllers, `Repr
      ensures Valid() && id in controllers && controller == controllers[id]
      ensures Verdicts() == if id in old(controllers) then old(Verdicts()) else old(Verdicts())[id := Verdict(now, [], {})]
      ensures fresh(Repr - old(Repr))
    {
      if id in controllers {
        return controllers[id];
      }
      controller := new FailoverController(limits, now, id);
      controllers, Repr := controllers[id := controller], Repr + {controller};
    }

    /** Feeds one observation to a controller there is. */
    method Tell(id: nat, health: Health, now: int)
      requires Valid() && id in controllers
      modifies Repr
      ensures Valid()
      ensures Verdicts() == old(Verdicts())[id := Verdict(
        controllers[id].created, old(controllers[id].events) + [Event.Observe(now, health)], controllers[id].reasons)]
      ensures Follows(old(controllers[id].reasons), controllers[id].reasons, health, limits)
    {
      var state, changed := controllers[id].Observe(health, now);
    }

    /** Feeds a share's health to its controller. */
    method Judge(id: nat, row: ShareRow, diskUsedPct: real, now: int) returns (readOnly: bool)
      requires Valid()
      modifies `controllers, `Repr, Repr
      ensures Valid() && ToldOne(old(Verdicts()), Verdicts(), row, id, diskUsedPct, now, limits)
      ensures readOnly == (Verdicts()[id].reasons != {})
      ensures fresh(Repr - old(Repr))
    {
      var controller := ControllerFor(id, now);
      assert controller.events == HeardBefore(Verdicts(), id);
      Tell(id, HealthOf(row, diskUsedPct), now);
      readOnly := controllers[id].reasons != {};
    }

    /** Judges one share, then writes and announces its column. */
    method ObserveShare(id: nat, diskUsedPct: real, now: int)
      requires Valid() && id in rows
      modifies `rows, `flips, `controllers, `Repr, Repr
      ensures Valid() && fresh(Repr - old(Repr))
      ensures ShareObserved(old(Verdicts()), Verdicts(), old(rows), rows, old(flips), flips, id, diskUsedPct, now, limits)
    {
      var readOnly := Judge(id, rows[id], diskUsedPct, now);
      ApplyTo(id, readOnly);
    }

    /** Takes a pass one share further. */
    method ObserveNext(id: nat, diskUsedPct: real, now: int, ghost progress: Progress, ghost ids: set<nat>, ghost todo: set<nat>)
      requires Valid() && progress.At(Verdicts(), rows, flips, ids - todo) && ids <= EnabledIds(progress.before)
      requires ids <= rows.Keys && todo <= ids && id in todo
      requires progress.diskUsedPct == diskUsedPct && progress.now == now && progress.limits == limits
      modifies `rows, `flips, `controllers, `Repr, Repr
      ensures Valid() && rows.Keys == old(rows).Keys
      ensures forall c :: c in Repr ==> c in old(Repr) || fresh(c)
      ensures progress.At(Verdicts(), rows, flips, ids - (todo - {id}))
    {
      ObserveShare(id, diskUsedPct, now);
      progress.Advances(old(Verdicts()), Verdicts(), old(rows), rows, old(flips), flips, ids, todo, id);
    }

    method ObserveEach(ids: set<nat>, diskUsedPct: real, now: int, ghost progress: Progress)
      requires Valid() && progress.At(Verdicts(), rows, flips, {}) && ids <= EnabledIds(progress.before)
      requires ids <= rows.Keys
      requires progress.diskUsedPct == diskUsedPct && progress.now == now && progress.limits == limits
      modifies `rows, `flips, `controllers, `Repr, Repr
      ensures Valid() && progress.At(Verdicts(), rows, flips, ids)
    {
      var todo := ids;
      while todo != {}
        invariant Valid() && todo <= ids && ids <= rows.Keys
        invariant forall c :: c in Repr ==> c in old(Repr) || fresh(c)
        invariant progress.At(Verdicts(), rows, flips, ids - todo)
        decreases todo
      {
        var id :| id in todo;
        ObserveNext(id, diskUsedPct, now, progress, ids, todo);
        todo := todo - {id};
      }
      assert ids - {} == ids;
    }

    /** Forgets the controllers of shares that are no longer enabled. */
    method KeepOnly(seen: set<nat>)
      requires Valid()
      modifies `controllers
      ensures Valid() && Verdicts() == map id | id in old(Verdicts()) && id in seen :: old(Verdicts())[id]
    {
      controllers := map id | id in controllers && id in seen :: controllers[id];
    }

    /**
     Feeds one observation to every enabled share. Afterwards exactly the enabled shares have a
     controller, each one has heard one observation more, each one's column equals its verdict, no
     other column moved, and each column that moved was announced once.
     */
    method Observe(diskUsedPct: real, now: int)
      requires Valid()
      modifies `rows, `flips, `controllers, `Repr, Repr
      ensures Valid()
      ensures ObservedAll(old(Verdicts()), Verdicts(), old(rows), rows, diskUsedPct, now, limits)
      ensures |old(flips)| <= |flips| && flips[..|old(flips)|] == old(flips)
      ensures Announced(old(rows), rows, flips[|old(flips)|..])
    {
      ghost var progress := Progress(Verdicts(), rows, flips, diskUsedPct, now, limits);
      NothingAnnounced(rows);
      assert flips[|flips|..] == [];
      var seen := EnabledIds(rows);
      ObserveEach(seen, diskUsedPct, now, progress);
      KeepOnly(seen);
    }

    /**
     Forces one share read-only; a share without a row only gets a controller. The reasons the
     controller had stay, and every other controller is left alone.
     */
    method HoldShare(id: nat, now: int)
      requires Valid()
      modifies `rows, `flips, `controllers, `Repr, Repr
      ensures Valid()
      ensures Verdicts() == old(Verdicts())[id := Verdict(CreatedBefore(old(Verdicts()), id, now),
        HeardBefore(old(Verdicts()), id) + [Event.Hold(now)], HeldBefore(old(Verdicts()), id) + {Manual})]
      ensures rows == if id in old(rows) then old(rows)[id := old(rows)[id].(failoverReadOnly := true)] else old(rows)
      ensures flips == old(flips) + if id !in old(rows) || old(rows)[id].failoverReadOnly then [] else [Flip(id, true)]
    {
      HoldVerdict(id, now);
      if id in rows {
        ApplyTo(id, controllers[id].reasons != {});
      }
    }

    /** Adds the manual reason to a share's controller, made first if there is none. */
    method HoldVerdict(id: nat, now: int)
      requires Valid()
      modifies `controllers, `Repr, Repr
      ensures Valid() && id in controllers && controllers[id].reasons != {}
      ensures Verdicts() == old(Verdicts())[id := Verdict(CreatedBefore(old(Verdicts()), id, now),
        HeardBefore(old(Verdicts()), id) + [Event.Hold(now)], HeldBefore(old(Verdicts()), id) + {Manual})]
      ensures fresh(Repr - old(Repr))
    {
      var controller := ControllerFor(id, now);
      assert controller.events == HeardBefore(Verdicts(), id) && controller.reasons == HeldBefore(Verdicts(), id);
      TellHold(id, now);
    }

    method TellHold(id: nat, now: int)
      requires Valid() && id in controllers
      modifies Repr
      ensures Valid()
      ensures Verdicts() == old(Verdicts())[id := Verdict(controllers[id].created,
        old(controllers[id].events) + [Event.Hold(now)], old(controllers[id].reasons) + {Manual})]
    {
      var state, changed := controllers[id].HoldWrites(now);
    }

    /** Lifts a hold; the automatic reasons still decide the column. Every other controller is left alone. */
    method ResumeShare(id: nat, now: int)
      requires Valid()
      modifies `rows, `flips, Repr
      ensures Valid()
      ensures id !in controllers ==> Verdicts() == old(Verdicts()) && rows == old(rows) && flips == old(flips)
      ensures id in controllers ==>
        var left := HeldBefore(old(Verdicts()), id) - {Manual};
        && Verdicts() == old(Verdicts())[id := Verdict(old(Verdicts())[id].created, HeardBefore(old(Verdicts()), id) + [Event.Resume(now)], left)]
        && rows == (if id in old(rows) then old(rows)[id := old(rows)[id].(failoverReadOnly := left != {})] else old(rows))
        && flips == old(flips) + if id !in old(rows) || old(rows)[id].failoverReadOnly == (left != {}) then []
                                 else [Flip(id, left != {})]
    {
      if id !in controllers {
        return;
      }
      TellResume(id, now);
      if id in rows {
        ApplyTo(id, controllers[id].reasons != {});
      }
    }

    method TellResume(id: nat, now: int)
      requires Valid() && id in controllers
      modifies Repr
      ensures Valid()
      ensures Verdicts() == old(Verdicts())[id := Verdict(controllers[id].created,
        old(controllers[id].events) + [Event.Resume(now)], old(controllers[id].reasons) - {Manual})]
    {
      var state, changed := controllers[id].ResumeWrites(now);
    }
  }
}
