/** The slot pool object.  Its scans and operations are loops and field updates, each proved
    against the whole-operation model of PoolState.  Server replies, the clock and the state of
    the migration feature are parameters. */
module Pool {
  import opened Counting
  import opened SlotTypes
  import opened Streams
  import opened PoolState
  import opened PoolSteps
  import DrainGate

  class SlotPool {
    const poolSize: nat
    const maxStreamsPerSlot: int
    const gracefulDrain: bool
    const maxSlotAge: int
    const floorFraction: real

    var cells: seq<Cell>
    var streamMap: map<StreamId, Entry>
    var chans: set<StreamId>
    var frameChans: set<StreamId>
    var closes: multiset<StreamId>
    var inflight: int

    ghost function View(): State
      reads this
    {
      State(cells, streamMap, chans, frameChans, closes, inflight)
    }

    constructor (poolSize: nat, maxStreamsPerSlot: int, gracefulDrain: bool, maxSlotAge: int, floorFraction: real)
      ensures Initial(View()) && Inv(View()) && |cells| == 2 * poolSize && inflight == 0
    {
      this.poolSize := poolSize;
      this.maxStreamsPerSlot := maxStreamsPerSlot;
      this.gracefulDrain := gracefulDrain;
      this.maxSlotAge := maxSlotAge;
      this.floorFraction := floorFraction;
      cells := seq(2 * poolSize, _ => Empty);
      streamMap := map[];
      chans := {};
      frameChans := {};
      closes := multiset{};
      inflight := 0;
    }

    // ---------------------------------------------------------------- scans

    /** One picking pass of AssignStream. */
    method PickInPass(allowFresh: bool, now: int) returns (idx: int)
      ensures FirstLeast(cells, Pickable(maxStreamsPerSlot, now, allowFresh), Score(), -1, idx)
    {
      ghost var ok := Pickable(maxStreamsPerSlot, now, allowFresh);
      idx := -1;
      var score := MAX_INT32;
      for i := 0 to |cells|
        invariant FirstLeast(cells[..i], ok, Score(), -1, idx)
        invariant idx < 0 ==> score == MAX_INT32
        invariant 0 <= idx ==> InCell(cells, idx) && score == Score()(cells[idx].slot) < MAX_INT32
      {
        ghost var before := idx;
        if cells[i].Occupied? {
          var slot := cells[i].slot;
          if slot.state == Ready
             && !(maxStreamsPerSlot > 0 && slot.streams >= maxStreamsPerSlot)
             && (allowFresh || !(slot.lastDeath > 0 && now - slot.lastDeath < FRESHNESS_WINDOW))
             && slot.pending * 4 + slot.streams < score
          {
            idx, score := i, slot.pending * 4 + slot.streams;
          }
        }
        ScanStep(cells, ok, Score(), -1, i, before, idx);
      }
      assert cells[..|cells|] == cells;
    }

    /** The least-loaded ready slot outside cell `skip`: AssignStream's soft overflow, and the
        victim choice of an emergency eviction. */
    method LeastLoadedReady(skip: int) returns (idx: int)
      ensures FirstLeast(cells, Overflowable(), Load(), skip, idx)
    {
      idx := -1;
      var least := MAX_INT32;
      for i := 0 to |cells|
        invariant FirstLeast(cells[..i], Overflowable(), Load(), skip, idx)
        invariant idx < 0 ==> least == MAX_INT32
        invariant 0 <= idx ==> InCell(cells, idx) && least == cells[idx].slot.streams < MAX_INT32
      {
        ghost var before := idx;
        if i != skip && cells[i].Occupied? && cells[i].slot.state == Ready && cells[i].slot.streams < least {
          idx, least := i, cells[i].slot.streams;
        }
        ScanStep(cells, Overflowable(), Load(), skip, i, before, idx);
      }
      assert cells[..|cells|] == cells;
    }

    /** AssignStream's last resort: any occupied cell. */
    method FirstNonNil() returns (idx: int)
      ensures FirstOccupied(cells, idx)
    {
      for i := 0 to |cells|
        invariant forall j | 0 <= j < i :: !InCell(cells, j)
      {
        if cells[i].Occupied? {
          assert InCell(cells, i);
          return i;
        }
      }
      return -1;
    }

    /** The youngest ready slot outside cell `skip`: the migration target. */
    method SelectYoungTargetSlot(skip: int) returns (best: int)
      ensures YoungTarget(cells, skip, best)
    {
      best := -1;
      var bestStart := 0;
      for i := 0 to |cells|
        invariant FirstLeast(cells[..i], Stamped(), Youth(), skip, best)
        invariant 0 <= best ==> InCell(cells, best) && bestStart == cells[best].slot.startedAt
      {
        ghost var before := best;
        if i != skip && cells[i].Occupied? && cells[i].slot.state == Ready && cells[i].slot.startedAt != 0 {
          var started := cells[i].slot.startedAt;
          if best == -1 || started > bestStart {
            best, bestStart := i, started;
          }
        }
        ScanStep(cells, Stamped(), Youth(), skip, i, before, best);
      }
      assert cells[..|cells|] == cells;
    }

    // ---------------------------------------------------------------- streams

    method AssignStream(id: StreamId, now: int) returns (t: int)
      modifies this
      ensures AssignTarget(old(cells), maxStreamsPerSlot, now, t)
      ensures View() == AssignTo(old(View()), id, t, now)
    {
      t := PickInPass(false, now);
      if t < 0 {
        t := PickInPass(true, now);
      }
      if t < 0 {
        t := LeastLoadedReady(-1);
        if t < 0 {
          t := FirstNonNil();
        }
        if t < 0 {
          return;
        }
      }
      if id in streamMap {
        return;
      }
      cells := Raise(cells, t, 1);
      streamMap := streamMap[id := NewEntry(t, now)];
    }

    method DecStreamsFloor(idx: int)
      modifies this`cells
      ensures cells == Lower(old(cells), idx)
    {
      if 0 <= idx < |cells| && cells[idx].Occupied? && cells[idx].slot.streams > 0 {
        var slot := cells[idx].slot;
        cells := cells[idx := Occupied(slot.(streams := slot.streams - 1))];
      }
    }

    method ReleaseStream(id: StreamId)
      modifies this
      ensures View() == PoolState.ReleaseStream(old(View()), id)
    {
      if id in streamMap {
        var e := streamMap[id];
        streamMap := streamMap - {id};
        DecStreamsFloor(e.slotIdx);
      }
    }

    /** Closes and forgets the stream's flat channel, if it is open. */
    method CloseChannel(id: StreamId)
      modifies this`chans, this`closes
      ensures chans == old(chans) - {id} && closes == old(closes) + Once(id, old(chans))
    {
      if id in chans {
        chans := chans - {id};
        closes := closes + multiset{id};
      }
    }

    /** The same for its seq-tagged channel. */
    method CloseFrameChannel(id: StreamId)
      modifies this`frameChans, this`closes
      ensures frameChans == old(frameChans) - {id} && closes == old(closes) + Once(id, old(frameChans))
    {
      if id in frameChans {
        frameChans := frameChans - {id};
        closes := closes + multiset{id};
      }
    }

    method HandleStreamClose(id: StreamId)
      modifies this
      ensures View() == CloseStream(old(View()), id)
    {
      ReleaseStream(id);
      CloseChannel(id);
      CloseFrameChannel(id);
    }

    method RebindStreamToSlot(id: StreamId, t: int, now: int)
      modifies this
      ensures View() == RebindStream(old(View()), id, t, now)
    {
      if id !in streamMap {
        return;
      }
      var src := streamMap[id].slotIdx;
      if src == t {
        return;
      }
      cells := Raise(cells, t, 1);
      streamMap := streamMap[id := NewEntry(t, now)];
      DecStreamsFloor(src);
    }

    /** A preemptive MIGRATE with the given server reply. */
    method MigrateStream(id: StreamId, capable: bool, reply: Reply, now: int) returns (t: int)
      modifies this
      ensures id in old(streamMap) ==> YoungTarget(old(cells), old(streamMap)[id].slotIdx, t)
      ensures View() == PoolState.MigrateStream(old(View()), id, capable, t, reply, now)
    {
      t := -1;
      if id !in streamMap {
        return;
      }
      var e := streamMap[id];
      ghost var before := streamMap;
      t := SelectYoungTargetSlot(e.slotIdx);
      if !capable || e.migrating {
        return;
      }
      streamMap := streamMap[id := e.(migrating := true)];
      if t >= 0 && reply == ReplyOK {
        assert streamMap[id := NewEntry(t, now)] == before[id := NewEntry(t, now)];
        RebindStreamToSlot(id, t, now);
        return;
      }
      streamMap := streamMap[id := e];
      assert streamMap == before;
    }

    // ---------------------------------------------------------------- slot death

    /** The verdict on one stream of a dying slot: true when it survives (resumed, or owned by
        another mover), false when the caller must close it. */
    method ResumeStreamOnDeath(id: StreamId, deadIdx: int, reply: Reply, now: int, ghost t: int) returns (kept: bool)
      requires id in streamMap && streamMap[id].slotIdx == deadIdx
      requires YoungTarget(cells, deadIdx, t)
      modifies this
      ensures kept <==> old(streamMap)[id].migrating || (t >= 0 && reply == ReplyOK)
      ensures View() == if !old(streamMap)[id].migrating && t >= 0 && reply == ReplyOK
                        then RebindStream(old(View()), id, t, now) else old(View())
    {
      var e := streamMap[id];
      if e.migrating {
        return true;
      }
      var target := SelectYoungTargetSlot(deadIdx);
      if target < 0 {
        return false;
      }
      ghost var before := streamMap;
      streamMap := streamMap[id := e.(migrating := true)];
      if reply != ReplyOK {
        streamMap := streamMap[id := e];
        assert streamMap == before;
        return false;
      }
      assert streamMap[id := NewEntry(t, now)] == before[id := NewEntry(t, now)];
      RebindStreamToSlot(id, target, now);
      return true;
    }

    /** Settles one stream of the dying cell idx: resumed, left to its mover, or closed. */
    method SettleStream(id: StreamId, idx: int, on: bool, reply: Reply, now: int,
                        ghost s0: State, ghost t: int, ghost moved: set<StreamId>, ghost broken: set<StreamId>)
      requires YoungTarget(s0.cells, idx, t)
      requires Dying(s0, idx, t, now, moved, broken, View()) && Undecided(s0, idx, moved, broken, id)
      modifies this
      ensures var kept := on && s0.streamMap[id].migrating;
              var resumed := on && !kept && t >= 0 && reply == ReplyOK;
              Dying(s0, idx, t, now, if resumed then moved + {id} else moved,
                    if kept || resumed then broken else broken + {id}, View())
    {
      assert streamMap[id] == s0.streamMap[id];
      DyingMove(s0, idx, t, now, moved, broken, View(), id);
      DyingBreak(s0, idx, t, now, moved, broken, View(), id);
      if on {
        assert SameFaces(s0.cells, cells, idx);
        YoungTargetFrame(s0.cells, cells, idx, t);
        var survives := ResumeStreamOnDeath(id, idx, reply, now, t);
        if survives {
          return;
        }
      }
      HandleStreamClose(id);
    }

    method SettleNext(id: StreamId, idx: int, on: bool, replies: map<StreamId, Reply>, now: int,
                      ghost s0: State, ghost t: int, ghost todo: set<StreamId>)
      requires YoungTarget(s0.cells, idx, t)
      requires todo <= Matching(s0.streamMap, BoundTo(idx)) && id in todo
      requires Settling(s0, idx, on, t, replies, now, todo, View())
      modifies this
      ensures Settling(s0, idx, on, t, replies, now, todo - {id}, View())
    {
      OneFate(s0, idx, on, t, replies, todo, id);
      ghost var m, b := Moved(s0, idx, on, t, replies), Broken(s0, idx, on, t, replies);
      SettleStream(id, idx, on, if id in replies then replies[id] else NoSend, now, s0, t, m - todo, b - todo);
    }

    /** The teardown loop over the stream map. */
    method SettleAll(idx: int, on: bool, replies: map<StreamId, Reply>, now: int, ghost s0: State, ghost t: int)
      requires YoungTarget(s0.cells, idx, t) && InCell(s0.cells, idx)
      requires View() == s0.(cells := SetState(s0.cells, idx, Dead))
      modifies this
      ensures Settling(s0, idx, on, t, replies, now, {}, View())
    {
      var todo := set id | id in streamMap && streamMap[id].slotIdx == idx;
      assert todo == Matching(s0.streamMap, BoundTo(idx));
      SettlingStart(s0, idx, on, t, replies, now);
      while todo != {}
        invariant todo <= Matching(s0.streamMap, BoundTo(idx))
        invariant Settling(s0, idx, on, t, replies, now, todo, View())
        decreases todo
      {
        var id :| id in todo;
        SettleNext(id, idx, on, replies, now, s0, t, todo);
        todo := todo - {id};
      }
    }

    /** Tears a slot down: marks it dead, resumes or closes each stream it carries, in any order
        and with any server replies, then leaves a corpse or frees the cell. */
    method HandleSlotDeath(idx: int, cause: Cause, on: bool, replies: map<StreamId, Reply>, now: int)
      returns (ghost t: int)
      modifies this
      ensures YoungTarget(old(cells), idx, t)
      ensures View() == Die(old(View()), idx, cause, on, t, replies, now)
    {
      t := ChooseYoung(cells, idx);
      if !(0 <= idx < |cells|) || cells[idx].Empty? || cells[idx].slot.state == Dead {
        return;
      }
      ghost var s0 := View();
      cells := SetState(cells, idx, Dead);
      SettleAll(idx, on, replies, now, s0, t);
      SettlingDone(s0, idx, on, t, replies, now, View());
      DyingDone(s0, idx, cause, on, t, replies, now, View());
      var corpse := cells[idx].slot.(streams := 0, pending := 0, lastDeath := now);
      cells := cells[idx := if cause == DrainTeardown then Empty else Occupied(corpse)];
    }

    // ---------------------------------------------------------------- drain start

    /** The configured fraction of ready slots a drain start needs, three quarters by default. */
    function EffectiveFraction(): real {
      if floorFraction <= 0.0 then 0.75 else floorFraction
    }

    /** The fewest ready slots under which a drain may start: that fraction of the pool size, at least
        1, at most poolSize - 1. */
    function ReadyCapacityFloor(): int {
      var floor := (poolSize as real * EffectiveFraction()).Floor;
      var low := if floor < 1 then 1 else floor;
      if low >= poolSize then poolSize - 1 else low
    }

    method ReadyCapacity() returns (n: nat)
      ensures n == |ReadyCells(cells)|
    {
      n := 0;
      ghost var seen: set<int> := {};
      for i := 0 to |cells|
        invariant seen == set j | 0 <= j < i && Is(cells, j, Ready)
        invariant n == |seen|
      {
        if cells[i].Occupied? && cells[i].slot.state == Ready {
          n := n + 1;
          seen := seen + {i};
        }
      }
      assert seen == ReadyCells(cells);
    }

    /** Reserves the first empty cell with a connecting placeholder. */
    method ClaimFreeSlot() returns (idx: int)
      modifies this`cells
      ensures idx < 0 ==> cells == old(cells) && forall i | 0 <= i < |cells| :: cells[i].Occupied?
      ensures idx >= 0 ==> idx < |old(cells)| && old(cells)[idx].Empty?
                           && cells == old(cells)[idx := Occupied(FRESH_SLOT)]
      ensures forall i | 0 <= i < idx :: old(cells)[i].Occupied?
    {
      for i := 0 to |cells|
        invariant cells == old(cells)
        invariant forall j | 0 <= j < i :: cells[j].Occupied?
      {
        if cells[i].Empty? {
          cells := cells[i := Occupied(FRESH_SLOT)];
          return i;
        }
      }
      return -1;
    }

    /** A cell for a displaced reconnect to heal on: the first empty one, unless poolSize cells are
        ready or connecting already.  If healing is needed and blocked, more than half of the cells
        are held by draining or dead slots. */
    method ClaimFreeCellForHealing() returns (idx: int, notNeeded: bool)
      ensures notNeeded <==> |HealthyUpTo(cells, |cells|)| >= poolSize
      ensures idx >= 0 <==> !notNeeded && exists i :: 0 <= i < |cells| && cells[i].Empty?
      ensures idx >= 0 ==> idx < |cells| && cells[idx].Empty? && forall i | 0 <= i < idx :: cells[i].Occupied?
      ensures idx < 0 && !notNeeded && |cells| == 2 * poolSize ==> |WornUpTo(cells, |cells|)| > poolSize
    {
      var healthy := 0;
      var free := -1;
      assert HealthyUpTo(cells, 0) == {} == WornUpTo(cells, 0);
      for i := 0 to |cells|
        invariant healthy == |HealthyUpTo(cells, i)|
        invariant free < 0 ==> healthy + |WornUpTo(cells, i)| == i && forall j | 0 <= j < i :: cells[j].Occupied?
        invariant free >= 0 ==> free < i && cells[free].Empty? && forall j | 0 <= j < free :: cells[j].Occupied?
      {
        OneMoreCell(cells, i);
        if cells[i].Empty? {
          if free < 0 {
            free := i;
          }
        } else if cells[i].slot.state == Ready || cells[i].slot.state == Connecting {
          healthy := healthy + 1;
        }
      }
      if healthy >= poolSize {
        return -1, true;
      }
      return free, false;
    }

    /** First tier: tear down an idle ready slot to free its cell. */
    method TryForceEvictIdleSlot(skip: int, on: bool, replies: map<StreamId, Reply>, now: int) returns (victim: int)
      modifies this
      ensures victim < 0 ==> View() == old(View())
                             && forall i | Is(cells, i, Ready) && i != skip :: cells[i].slot.streams != 0
      ensures victim >= 0 ==> victim != skip && Evicted(old(View()), victim, View())
                              && old(cells)[victim].slot.streams == 0
    {
      for i := 0 to |cells|
        invariant View() == old(View())
        invariant forall j | 0 <= j < i && Is(cells, j, Ready) && j != skip :: cells[j].slot.streams != 0
      {
        if i != skip && cells[i].Occupied? && cells[i].slot.state == Ready && cells[i].slot.streams == 0 {
          EvictDrained(i, on, replies, now);
          return i;
        }
      }
      return -1;
    }

    /** Tears down a victim already marked draining. */
    method TearDownVictim(victim: int, on: bool, replies: map<StreamId, Reply>, now: int, ghost s: State)
      requires Emptying(s, victim, View())
      modifies this
      ensures Evicted(s, victim, View())
    {
      ghost var s1 := View();
      ghost var t := HandleSlotDeath(victim, DrainTeardown, on, replies, now);
      EvictByDeath(s, s1, victim, on, t, replies, now);
    }

    /** Marks a ready slot draining and tears it down. */
    method EvictDrained(victim: int, on: bool, replies: map<StreamId, Reply>, now: int)
      requires Is(cells, victim, Ready)
      modifies this
      ensures Evicted(old(View()), victim, View())
    {
      ghost var s := View();
      cells := SetState(cells, victim, Draining);
      TearDownVictim(victim, on, replies, now, s);
    }

    /** Tries to migrate one more stream off the victim, and says whether it left. */
    method TryMigrate(id: StreamId, victim: int, capable: bool, replies: map<StreamId, Reply>, now: int,
                      ghost s0: State, ghost todo: set<StreamId>, ghost tried: set<StreamId>, ghost n: nat,
                      ghost migrated: nat)
      returns (left: bool)
      requires Trying(s0, View(), victim, capable, replies, todo, tried, n, migrated) && id in todo
      modifies this
      ensures Trying(s0, View(), victim, capable, replies, todo - {id}, tried + {id}, n + 1, migrated + Hit(left))
    {
      ghost var s := View();
      var t := MigrateStream(id, capable, if id in replies then replies[id] else NoSend, now);
      TryingStep(s0, s, victim, todo, tried, n, migrated, id, capable, t, replies, now);
      return id in streamMap && streamMap[id].slotIdx != victim;
    }

    /** Tries to migrate up to `budget` streams off the victim, and says how many left it: of those
        tried exactly the ones whose own MIGRATE was accepted. */
    method MigrateVictimStreams(victim: int, capable: bool, replies: map<StreamId, Reply>, now: int, budget: nat)
      returns (migrated: nat, ghost tried: set<StreamId>)
      modifies this
      ensures OnlyMoves(old(View()), View()) && MovedOff(old(View()), victim, View())
      ensures Inv(old(View())) ==> Inv(View())
      ensures migrated == |Left(old(streamMap), streamMap, victim)|
      ensures tried <= Matching(old(streamMap), BoundTo(victim))
      ensures |tried| == budget || (|tried| < budget && tried == Matching(old(streamMap), BoundTo(victim)))
      ensures LeftExactly(old(View()), View(), victim, capable, replies, tried)
    {
      ghost var s0 := View();
      var todo := set id | id in streamMap && streamMap[id].slotIdx == victim;
      assert todo == Matching(streamMap, BoundTo(victim));
      TryingStarts(s0, victim, capable, replies);
      migrated, tried := 0, {};
      var n := 0;
      while todo != {} && n < budget
        invariant Trying(s0, View(), victim, capable, replies, todo, tried, n, migrated) && n <= budget
        decreases todo
      {
        var id :| id in todo;
        var left := TryMigrate(id, victim, capable, replies, now, s0, todo, tried, n, migrated);
        if left {
          migrated := migrated + 1;
        }
        n, tried, todo := n + 1, tried + {id}, todo - {id};
      }
      TryingDone(s0, View(), victim, capable, replies, todo, tried, n, migrated, budget);
    }

    /** Second tier, for an over-aged drain target: evict the least-loaded ready slot, after trying
        to migrate its streams away. */
    method TryEmergencyEvict(skip: int, capable: bool, on: bool, replies: map<StreamId, Reply>,
                             resumes: map<StreamId, Reply>, now: int, budget: nat)
      returns (victim: int)
      modifies this
      ensures victim < 0 ==> View() == old(View()) && !Some(cells, Overflowable(), skip)
      ensures victim >= 0 ==> FirstLeast(old(cells), Overflowable(), Load(), skip, victim)
                              && Evicted(old(View()), victim, View())
    {
      victim := LeastLoadedReady(skip);
      if victim < 0 {
        return;
      }
      assert Fits(cells, Overflowable(), skip, victim);
      EvictMigrated(victim, capable, on, replies, resumes, now, budget);
    }

    /** Marks a ready slot draining, moves streams off it if it can, and tears it down. */
    method EvictMigrated(victim: int, capable: bool, on: bool, replies: map<StreamId, Reply>,
                         resumes: map<StreamId, Reply>, now: int, budget: nat)
      requires Is(cells, victim, Ready)
      modifies this
      ensures Evicted(old(View()), victim, View())
    {
      ghost var s := View();
      cells := SetState(cells, victim, Draining);
      if capable {
        ghost var s0 := View();
        var migrated, _ := MigrateVictimStreams(victim, capable, replies, now, budget);
        EmptyingMoves(s, victim, s0, View());
      }
      TearDownVictim(victim, on, resumes, now, s);
    }

    predicate OverAged(idx: int, now: int)
      requires InCell(cells, idx)
      reads this
    {
      maxSlotAge > 0 && cells[idx].slot.startedAt != 0 && now - cells[idx].slot.startedAt >= 2 * maxSlotAge
    }

    /** Every gate of a drain start, and a cell to put the replacement in. */
    ghost predicate CanStartDrain(oldIdx: int, now: int)
      reads this
    {
      && gracefulDrain && Is(cells, oldIdx, Ready)
      && inflight + 1 <= DrainGate.MaxConcurrentDrains(poolSize)
      && |ReadyCells(cells)| >= ReadyCapacityFloor()
      && HasRoom(cells, oldIdx, OverAged(oldIdx, now))
    }

    /** The gates in the pool's own fields: the feature is on, the target is ready, fewer than half the
        pool's drains are under way, the ready slots are the configured fraction of the pool (or all
        but one), and there is an empty cell, an idle slot or, for a target of twice the age limit,
        any other ready slot. */
    lemma StartsExactly(oldIdx: int, now: int)
      ensures var ready := |ReadyCells(cells)|;
              var fraction := if floorFraction <= 0.0 then 0.75 else floorFraction;
              CanStartDrain(oldIdx, now) <==>
              && gracefulDrain && Is(cells, oldIdx, Ready)
              && (inflight <= 0 || 2 * inflight < poolSize)
              && (ready >= poolSize - 1 || (ready >= 1 && (ready + 1) as real > poolSize as real * fraction))
              && (|| (exists i :: 0 <= i < |cells| && cells[i].Empty?)
                  || (exists i :: Is(cells, i, Ready) && i != oldIdx && cells[i].slot.streams == 0)
                  || (&& maxSlotAge > 0 && cells[oldIdx].slot.startedAt != 0
                      && now >= cells[oldIdx].slot.startedAt + 2 * maxSlotAge
                      && exists i :: i != oldIdx && Countable(cells, i)))
    {
      assert forall j :: Fits(cells, Overflowable(), oldIdx, j) <==> j != oldIdx && Countable(cells, j);
      FloorReached(|ReadyCells(cells)|);
    }

    lemma FloorReached(ready: nat)
      ensures var fraction := if floorFraction <= 0.0 then 0.75 else floorFraction;
              ready >= ReadyCapacityFloor() <==>
              ready >= poolSize - 1 || (ready >= 1 && (ready + 1) as real > poolSize as real * fraction)
    {
    }

    /** How long a refused start waits: 5 s at the cap or the floor, 150 s when less than half the pool
        is ready, 30 s when no cell could be found; a target that is not ready keeps its stamp. */
    lemma DefersExactly(oldIdx: int, now: int)
      requires gracefulDrain && InCell(cells, oldIdx) && !CanStartDrain(oldIdx, now)
      ensures var ready := |ReadyCells(cells)|;
              var fraction := if floorFraction <= 0.0 then 0.75 else floorFraction;
              var capped := inflight > 0 && 2 * inflight >= poolSize;
              var low := ready < poolSize - 1 && (ready == 0 || (ready + 1) as real <= poolSize as real * fraction);
              DeferUntil(oldIdx, now)
              == if capped || (low && 2 * ready >= poolSize - 1) then now + 5_000_000_000
                 else if low then now + 150_000_000_000
                 else if cells[oldIdx].slot.state == Ready then now + 30_000_000_000
                 else cells[oldIdx].slot.nextDrain
    {
      FloorReached(|ReadyCells(cells)|);
    }

    /** The moment before which a refused start is not retried, by the gate that refused it. */
    ghost function DeferUntil(oldIdx: int, now: int): int
      requires InCell(cells, oldIdx)
      reads this
    {
      var ready := |ReadyCells(cells)|;
      if inflight + 1 > DrainGate.MaxConcurrentDrains(poolSize) then now + STORM_BRAKE_BACKOFF
      else if ready < ReadyCapacityFloor() then
        now + if ready < poolSize / 2 then CATASTROPHIC_BACKOFF else STORM_BRAKE_BACKOFF
      else if !Is(cells, oldIdx, Ready) then cells[oldIdx].slot.nextDrain
      else now + REVERT_BACKOFF
    }

    method StampBackoff(idx: int, until: int)
      requires InCell(cells, idx)
      modifies this`cells
      ensures cells == old(cells)[idx := Occupied(old(cells)[idx].slot.(nextDrain := until))]
    {
      cells := cells[idx := Occupied(cells[idx].slot.(nextDrain := until))];
    }

    /** Finds a cell for the replacement of oldIdx, evicting if every cell is occupied. */
    method ClaimReplacement(oldIdx: int, overAged: bool, capable: bool, on: bool, replies: map<StreamId, Reply>,
                            resumes: map<StreamId, Reply>, now: int, budget: nat)
      returns (newIdx: int)
      requires Is(cells, oldIdx, Draining)
      modifies this
      ensures newIdx < 0 ==> View() == old(View())
      ensures newIdx >= 0 ==> newIdx != oldIdx && Replaced(old(View()), newIdx, View())
      ensures newIdx >= 0 <==> HasRoom(old(cells), oldIdx, overAged)
    {
      ghost var s := View();
      newIdx := ClaimFreeSlot();
      if newIdx >= 0 {
        ReplacedByClaim(s, s, newIdx);
        return;
      }
      var victim := TryForceEvictIdleSlot(oldIdx, on, resumes, now);
      if victim < 0 && overAged {
        victim := TryEmergencyEvict(oldIdx, capable, on, replies, resumes, now, budget);
        assert victim >= 0 ==> Fits(s.cells, Overflowable(), oldIdx, victim);
      }
      if victim >= 0 {
        ghost var s1 := View();
        newIdx := ClaimFreeSlot();
        assert newIdx == victim by {
          assert forall i | 0 <= i < |s1.cells| && i != victim :: s1.cells[i].Occupied?;
        }
        ReplacedByClaim(s, s1, newIdx);
        assert Is(s.cells, victim, Ready) && victim != oldIdx;
      }
    }

    /** No cell for the replacement: the target is ready again, stamped, and its unit returned. */
    method RevertDrain(oldIdx: int, now: int, ghost s: State)
      requires Is(s.cells, oldIdx, Ready)
      requires View() == s.(cells := SetState(s.cells, oldIdx, Draining), inflight := s.inflight + 1)
      modifies this
      ensures DrainDeferred(s, oldIdx, View()) && cells[oldIdx].slot.nextDrain == now + REVERT_BACKOFF
      ensures Inv(s) ==> Inv(View())
    {
      cells := SetState(cells, oldIdx, Ready);
      StampBackoff(oldIdx, now + REVERT_BACKOFF);
      inflight := inflight - 1;
      if Inv(s) {
        DeferredKeeps(s, oldIdx, View());
      }
    }

    /** The part of a drain start behind the gates. */
    method DrainMarked(oldIdx: int, capable: bool, on: bool, replies: map<StreamId, Reply>,
                       resumes: map<StreamId, Reply>, now: int, budget: nat, ghost s: State)
      returns (newIdx: int)
      requires Is(cells, oldIdx, Ready) && View() == s.(inflight := s.inflight + 1)
      modifies this
      ensures newIdx >= 0 <==> HasRoom(s.cells, oldIdx, old(OverAged(oldIdx, now)))
      ensures newIdx >= 0 ==> DrainStarted(s, oldIdx, newIdx, View())
      ensures newIdx < 0 ==> DrainDeferred(s, oldIdx, View()) && cells[oldIdx].slot.nextDrain == now + REVERT_BACKOFF
      ensures Inv(s) ==> Inv(View())
    {
      var overAged := OverAged(oldIdx, now);
      cells := SetState(cells, oldIdx, Draining);
      if Inv(s) {
        DrainingKeeps(s, oldIdx);
      }
      MarkedRoom(s.cells, oldIdx, overAged);
      newIdx := ClaimReplacement(oldIdx, overAged, capable, on, replies, resumes, now, budget);
      if newIdx >= 0 {
        StartedByReplacement(s, oldIdx, newIdx, View());
        return;
      }
      RevertDrain(oldIdx, now, s);
    }

    /** Starts draining oldIdx, or leaves the pool as it was.  Returns the replacement's cell, or -1. */
    method StartDrain(oldIdx: int, capable: bool, on: bool, replies: map<StreamId, Reply>,
                      resumes: map<StreamId, Reply>, now: int, budget: nat)
      returns (newIdx: int)
      modifies this
      ensures newIdx >= 0 <==> old(CanStartDrain(oldIdx, now))
      ensures newIdx >= 0 ==> DrainStarted(old(View()), oldIdx, newIdx, View())
      ensures newIdx >= 0 ==> cells[newIdx] == Occupied(Slot(Connecting, 0, 0, 0, 0, 0))
      ensures newIdx < 0 ==> DrainDeferred(old(View()), oldIdx, View())
      ensures newIdx < 0 && gracefulDrain && InCell(old(cells), oldIdx) ==>
                cells[oldIdx].slot.nextDrain == old(DeferUntil(oldIdx, now))
      ensures Inv(old(View())) ==> Inv(View())
      ensures Inv(old(View())) && newIdx >= 0 ==> forall id | id in streamMap :: streamMap[id].slotIdx != newIdx
    {
      newIdx := -1;
      ghost var s := View();
      if !gracefulDrain || !(0 <= oldIdx < |cells|) || cells[oldIdx].Empty? {
        return;
      }
      inflight := inflight + 1;
      if inflight > DrainGate.MaxConcurrentDrains(poolSize) {
        StampBackoff(oldIdx, now + STORM_BRAKE_BACKOFF);
        inflight := inflight - 1;
        return;
      }
      var ready := ReadyCapacity();
      if ready < ReadyCapacityFloor() {
        StampBackoff(oldIdx, now + if ready < poolSize / 2 then CATASTROPHIC_BACKOFF else STORM_BRAKE_BACKOFF);
        inflight := inflight - 1;
        return;
      }
      if cells[oldIdx].slot.state != Ready {
        inflight := inflight - 1;
        return;
      }
      newIdx := DrainMarked(oldIdx, capable, on, replies, resumes, now, budget, s);
      if Inv(s) && newIdx >= 0 {
        PlaceholderUnbound(View(), newIdx);
      }
    }
  }
}
