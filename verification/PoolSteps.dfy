/** Step lemmas behind the pool operations: argmin scans over the cells, and a slot death worked
    off stream by stream. */
module PoolSteps {
  import opened Counting
  import opened SlotTypes
  import opened Streams
  import opened PoolState

  // ---------------------------------------------------------------- scanning cells

  /** One step of a left-to-right argmin scan. */
  lemma ScanStep(cells: seq<Cell>, ok: Slot -> bool, cost: Slot -> int, skip: int, i: nat, t: int, t': int)
    requires i < |cells| && FirstLeast(cells[..i], ok, cost, skip, t)
    requires var hit := Fits(cells, ok, skip, i) && (t < 0 || cost(cells[i].slot) < cost(cells[t].slot));
             t' == if hit then i else t
    ensures FirstLeast(cells[..i + 1], ok, cost, skip, t')
  {
    var p, q := cells[..i], cells[..i + 1];
    assert forall j :: Fits(p, ok, skip, j) <==> j < i && Fits(q, ok, skip, j);
    assert Fits(q, ok, skip, i) <==> Fits(cells, ok, skip, i);
    if Some(p, ok, skip) {
      assert Fits(p, ok, skip, t);
      assert Fits(q, ok, skip, t);
    }
  }

  /** Every scan has a result. */
  lemma {:induction false} ChooseUpTo(cells: seq<Cell>, ok: Slot -> bool, cost: Slot -> int, skip: int, n: nat)
    returns (t: int)
    requires n <= |cells|
    ensures FirstLeast(cells[..n], ok, cost, skip, t)
  {
    if n == 0 {
      t := -1;
    } else {
      var u := ChooseUpTo(cells, ok, cost, skip, n - 1);
      var better := Fits(cells, ok, skip, n - 1) && (u < 0 || cost(cells[n - 1].slot) < cost(cells[u].slot));
      t := if better then n - 1 else u;
      ScanStep(cells, ok, cost, skip, n - 1, u, t);
    }
  }

  lemma ChooseYoung(cells: seq<Cell>, skip: int) returns (t: int)
    ensures YoungTarget(cells, skip, t)
  {
    t := ChooseUpTo(cells, Stamped(), Youth(), skip, |cells|);
    assert cells[..|cells|] == cells;
  }

  /** Two pools that look alike to the target choice: equal up to counters and the skipped cell. */
  ghost predicate SameFaces(a: seq<Cell>, b: seq<Cell>, skip: int) {
    && |a| == |b|
    && forall i | 0 <= i < |a| && i != skip ::
         && a[i].Occupied? == b[i].Occupied?
         && (a[i].Occupied? ==> a[i].slot.state == b[i].slot.state && a[i].slot.startedAt == b[i].slot.startedAt)
  }

  lemma YoungTargetFrame(a: seq<Cell>, b: seq<Cell>, skip: int, t: int)
    requires SameFaces(a, b, skip) && YoungTarget(a, skip, t)
    ensures YoungTarget(b, skip, t)
  {
    assert forall j :: Fits(a, Stamped(), skip, j) <==> Fits(b, Stamped(), skip, j);
  }

  // ---------------------------------------------------------------- slot death, stream by stream

  /** The pool while cell idx is dying: `moved` already sit on t, `broken` are already closed. */
  ghost predicate Dying(s0: State, idx: int, t: int, now: int, moved: set<StreamId>, broken: set<StreamId>, s: State) {
    && s.streamMap == FateMap(s0, moved, broken, t, now)
    && ChannelsClosed(s0, broken, s)
    && s.inflight == s0.inflight
    && DyingCells(s0.cells, idx, t, |moved|, s.cells)
  }

  ghost predicate ChannelsClosed(s0: State, broken: set<StreamId>, s: State) {
    && s.chans == s0.chans - broken
    && s.frameChans == s0.frameChans - broken
    && s.closes == s0.closes + multiset(broken * s0.chans) + multiset(broken * s0.frameChans)
  }

  ghost predicate DyingCells(cells0: seq<Cell>, idx: int, t: int, moved: nat, cells: seq<Cell>) {
    && |cells| == |cells0|
    && InCell(cells0, idx) && InCell(cells, idx)
    && cells[idx].slot == cells0[idx].slot.(state := Dead, streams := cells[idx].slot.streams)
    && forall i | 0 <= i < |cells| && i != idx :: cells[i] == Raise(cells0, t, moved)[i]
  }

  /** A stream of the dying cell whose fate is still open. */
  ghost predicate Undecided(s0: State, idx: int, moved: set<StreamId>, broken: set<StreamId>, id: StreamId) {
    id in s0.streamMap && s0.streamMap[id].slotIdx == idx && id !in moved && id !in broken
  }

  lemma DyingMove(s0: State, idx: int, t: int, now: int, moved: set<StreamId>, broken: set<StreamId>, s: State,
                  id: StreamId)
    requires Dying(s0, idx, t, now, moved, broken, s) && t != idx && Undecided(s0, idx, moved, broken, id)
    ensures Dying(s0, idx, t, now, moved + {id}, broken, RebindStream(s, id, t, now))
  {
  }

  lemma DyingBreak(s0: State, idx: int, t: int, now: int, moved: set<StreamId>, broken: set<StreamId>, s: State,
                   id: StreamId)
    requires Dying(s0, idx, t, now, moved, broken, s) && Undecided(s0, idx, moved, broken, id)
    ensures Dying(s0, idx, t, now, moved, broken + {id}, CloseStream(s, id))
  {
  }

  /** Dying, with exactly the streams outside the worklist `todo` settled. */
  ghost predicate Settling(s0: State, idx: int, on: bool, t: int, replies: map<StreamId, Reply>, now: int,
                           todo: set<StreamId>, s: State)
  {
    Dying(s0, idx, t, now, Moved(s0, idx, on, t, replies) - todo, Broken(s0, idx, on, t, replies) - todo, s)
  }

  lemma DyingEmpty(s0: State, idx: int, t: int, now: int)
    requires InCell(s0.cells, idx)
    ensures Dying(s0, idx, t, now, {}, {}, s0.(cells := SetState(s0.cells, idx, Dead)))
  {
  }

  lemma SettlingStart(s0: State, idx: int, on: bool, t: int, replies: map<StreamId, Reply>, now: int)
    requires InCell(s0.cells, idx)
    ensures Settling(s0, idx, on, t, replies, now, Matching(s0.streamMap, BoundTo(idx)),
                     s0.(cells := SetState(s0.cells, idx, Dead)))
  {
    var todo := Matching(s0.streamMap, BoundTo(idx));
    DyingEmpty(s0, idx, t, now);
    assert Moved(s0, idx, on, t, replies) - todo == {};
    assert Broken(s0, idx, on, t, replies) - todo == {};
  }

  lemma SettlingDone(s0: State, idx: int, on: bool, t: int, replies: map<StreamId, Reply>, now: int, s: State)
    requires Settling(s0, idx, on, t, replies, now, {}, s)
    ensures Dying(s0, idx, t, now, Moved(s0, idx, on, t, replies), Broken(s0, idx, on, t, replies), s)
  {
    assert Moved(s0, idx, on, t, replies) - {} == Moved(s0, idx, on, t, replies);
    assert Broken(s0, idx, on, t, replies) - {} == Broken(s0, idx, on, t, replies);
  }

  /** Taking one stream off the worklist puts it into exactly one of the three fates. */
  lemma OneFate(s0: State, idx: int, on: bool, t: int, replies: map<StreamId, Reply>, todo: set<StreamId>, id: StreamId)
    requires todo <= Matching(s0.streamMap, BoundTo(idx)) && id in todo
    ensures var m := Moved(s0, idx, on, t, replies);
            var b := Broken(s0, idx, on, t, replies);
            var kept := on && s0.streamMap[id].migrating;
            var resumed := on && !kept && t >= 0 && id in replies && replies[id] == ReplyOK;
            && Undecided(s0, idx, m - todo, b - todo, id)
            && m - (todo - {id}) == (if resumed then (m - todo) + {id} else m - todo)
            && b - (todo - {id}) == if kept || resumed then b - todo else (b - todo) + {id}
  {
  }

  lemma DyingDone(s0: State, idx: int, cause: Cause, on: bool, t: int, replies: map<StreamId, Reply>, now: int,
                  s: State)
    requires InCell(s0.cells, idx) && s0.cells[idx].slot.state != Dead && t != idx
    requires Dying(s0, idx, t, now, Moved(s0, idx, on, t, replies), Broken(s0, idx, on, t, replies), s)
    ensures s.(cells := s.cells[idx := Corpse(s0.cells[idx].slot, cause, now)])
            == Die(s0, idx, cause, on, t, replies, now)
  {
    var moved, broken := Moved(s0, idx, on, t, replies), Broken(s0, idx, on, t, replies);
    var corpse := Corpse(s0.cells[idx].slot, cause, now);
    var d := Die(s0, idx, cause, on, t, replies, now);
    assert d.cells == Raise(s0.cells[idx := corpse], t, |moved|);
    assert d.streamMap == FateMap(s0, moved, broken, t, now);
    assert d.chans == s0.chans - broken && d.frameChans == s0.frameChans - broken;
    assert d.closes == s0.closes + multiset(broken * s0.chans) + multiset(broken * s0.frameChans);
  }

  // ---------------------------------------------------------------- drain start

  /** Equal up to the stream counter. */
  predicate SameButStreams(a: Cell, b: Cell) {
    a.Occupied? == b.Occupied? && (a.Occupied? ==> a.slot.(streams := 0) == b.slot.(streams := 0))
  }

  ghost predicate CellsSameButStreams(a: seq<Cell>, b: seq<Cell>) {
    |a| == |b| && forall i | 0 <= i < |a| :: SameButStreams(a[i], b[i])
  }

  ghost function ReadyCells(cells: seq<Cell>): set<int> {
    set i | 0 <= i < |cells| && Is(cells, i, Ready)
  }

  /** Cells below n that carry or are about to carry capacity. */
  ghost function HealthyUpTo(cells: seq<Cell>, n: nat): set<int> {
    set i | 0 <= i < n && (Is(cells, i, Ready) || Is(cells, i, Connecting))
  }

  /** Cells below n held by a slot that is going or gone. */
  ghost function WornUpTo(cells: seq<Cell>, n: nat): set<int> {
    set i | 0 <= i < n && (Is(cells, i, Draining) || Is(cells, i, Dead))
  }

  lemma OneMoreCell(cells: seq<Cell>, n: nat)
    requires n < |cells|
    ensures var healthy := Is(cells, n, Ready) || Is(cells, n, Connecting);
            && |HealthyUpTo(cells, n + 1)| == |HealthyUpTo(cells, n)| + Hit(healthy)
            && |WornUpTo(cells, n + 1)| == |WornUpTo(cells, n)| + Hit(cells[n].Occupied? && !healthy)
  {
    if Is(cells, n, Ready) || Is(cells, n, Connecting) {
      assert HealthyUpTo(cells, n + 1) == HealthyUpTo(cells, n) + {n};
    } else {
      assert HealthyUpTo(cells, n + 1) == HealthyUpTo(cells, n);
    }
    if Is(cells, n, Draining) || Is(cells, n, Dead) {
      assert WornUpTo(cells, n + 1) == WornUpTo(cells, n) + {n};
    } else {
      assert WornUpTo(cells, n + 1) == WornUpTo(cells, n);
    }
  }

  /** Moves of streams only: no cell changes beyond its counter, no stream appears or vanishes. */
  ghost predicate OnlyMoves(s: State, s': State) {
    && CellsSameButStreams(s.cells, s'.cells)
    && s'.streamMap.Keys == s.streamMap.Keys
    && s'.chans == s.chans && s'.frameChans == s.frameChans && s'.closes == s.closes && s'.inflight == s.inflight
  }

  /** Streams of `victim` that are now bound elsewhere. */
  ghost function Left(m0: map<StreamId, Entry>, m: map<StreamId, Entry>, victim: int): set<StreamId> {
    set id | id in m0 && id in m && m0[id].slotIdx == victim && m[id].slotIdx != victim
  }

  lemma LeftStep(m0: map<StreamId, Entry>, m: map<StreamId, Entry>, m': map<StreamId, Entry>, victim: int, id: StreamId)
    requires id in m0 && id in m && m0[id].slotIdx == victim == m[id].slotIdx
    requires m'.Keys == m.Keys && forall x | x in m && x != id :: m'[x] == m[x]
    ensures |Left(m0, m', victim)| == |Left(m0, m, victim)| + Hit(m'[id].slotIdx != victim)
  {
    assert Left(m0, m', victim) == if m'[id].slotIdx != victim then Left(m0, m, victim) + {id} else Left(m0, m, victim);
  }

  /** Nothing about stream id changed: binding, channels, closes. */
  ghost predicate StreamUntouched(s: State, s': State, id: StreamId) {
    && (id in s'.streamMap <==> id in s.streamMap)
    && (id in s.streamMap ==> s'.streamMap[id] == s.streamMap[id])
    && ChannelsUntouched(s, s', id)
  }

  ghost predicate ChannelsUntouched(s: State, s': State, id: StreamId) {
    && (id in s'.chans <==> id in s.chans)
    && (id in s'.frameChans <==> id in s.frameChans)
    && s'.closes[id] == s.closes[id]
  }

  /** Stream id sits on a ready cell other than victim. */
  ghost predicate Rehomed(s: State, victim: int, id: StreamId) {
    id in s.streamMap && s.streamMap[id].slotIdx != victim && Is(s.cells, s.streamMap[id].slotIdx, Ready)
  }

  predicate CarriedBy(s: State, victim: int, id: StreamId) {
    id in s.streamMap && s.streamMap[id].slotIdx == victim
  }

  /** Some streams of `victim` have been moved to other ready cells, and that is all. */
  ghost predicate MovedOff(s: State, victim: int, s': State) {
    forall id: StreamId ::
      && ChannelsUntouched(s, s', id)
      && (StreamUntouched(s, s', id) || (CarriedBy(s, victim, id) && Rehomed(s', victim, id)))
  }

  /** A stream of a cell that was given up is on another ready cell with its channels untouched, or
      unmapped with each channel it had closed once; a stream of another cell is untouched.  A stream
      that a mover held before is left to that mover. */
  ghost predicate StreamSettled(s: State, victim: int, s': State, id: StreamId) {
    if !CarriedBy(s, victim, id) then StreamUntouched(s, s', id)
    else if s.streamMap[id].migrating then true
    else
      || (Rehomed(s', victim, id) && ChannelsUntouched(s, s', id))
      || (id !in s'.streamMap && OpenChannels(s', id) == 0 && s'.closes[id] == s.closes[id] + OpenChannels(s, id))
  }

  ghost predicate StreamsSettled(s: State, victim: int, s': State) {
    forall id: StreamId :: StreamSettled(s, victim, s', id)
  }

  ghost predicate StreamsUntouched(s: State, s': State) {
    s'.streamMap == s.streamMap && s'.chans == s.chans && s'.frameChans == s.frameChans && s'.closes == s.closes
  }

  lemma MigrateOnlyMoves(s: State, id: StreamId, capable: bool, t: int, reply: Reply, now: int)
    requires id in s.streamMap ==> YoungTarget(s.cells, s.streamMap[id].slotIdx, t)
    ensures OnlyMoves(s, PoolState.MigrateStream(s, id, capable, t, reply, now))
    ensures Inv(s) ==> Inv(PoolState.MigrateStream(s, id, capable, t, reply, now))
  {
    var s' := PoolState.MigrateStream(s, id, capable, t, reply, now);
    if Inv(s) {
      assert Next(s, Migrate(id, capable, t, reply, now), s');
      ConsistentStep(s, Migrate(id, capable, t, reply, now), s');
      SettledStep(s, Migrate(id, capable, t, reply, now), s');
    }
  }

  /** What it takes for a stream of `victim` to leave it: the feature is on, nobody else is moving it,
      the server said OK to its own MIGRATE, and another ready cell has a starting moment. */
  ghost predicate Leaves(s: State, victim: int, capable: bool, replies: map<StreamId, Reply>, id: StreamId) {
    && CarriedBy(s, victim, id) && capable && !s.streamMap[id].migrating
    && id in replies && replies[id].ReplyOK?
    && exists j :: Candidate(s.cells, victim, j)
  }

  /** Of the streams of `victim` those in `tried` that could leave have left, and nobody else. */
  ghost predicate LeftExactly(s0: State, s: State, victim: int, capable: bool, replies: map<StreamId, Reply>,
                              tried: set<StreamId>)
  {
    forall id :: id in Left(s0.streamMap, s.streamMap, victim) <==>
      id in tried && Leaves(s0, victim, capable, replies, id)
  }

  /** Part of the streams of `victim` have been tried: `todo` are still to do, `migrated` have left. */
  ghost predicate Moving(s0: State, s: State, victim: int, todo: set<StreamId>, migrated: nat) {
    && OnlyMoves(s0, s)
    && MovedOff(s0, victim, s)
    && (Inv(s0) ==> Inv(s))
    && (forall id | id in todo :: id in s.streamMap && id in s0.streamMap
                                  && s.streamMap[id] == s0.streamMap[id] && s.streamMap[id].slotIdx == victim)
    && migrated == |Left(s0.streamMap, s.streamMap, victim)|
  }

  /** The same, with the streams `tried` so far. */
  ghost predicate Trying(s0: State, s: State, victim: int, capable: bool, replies: map<StreamId, Reply>,
                         todo: set<StreamId>, tried: set<StreamId>, n: nat, migrated: nat)
  {
    && Moving(s0, s, victim, todo, migrated) && n == |tried|
    && LeftExactly(s0, s, victim, capable, replies, tried)
    && tried !! todo && tried + todo == Matching(s0.streamMap, BoundTo(victim))
  }

  lemma TryingStarts(s: State, victim: int, capable: bool, replies: map<StreamId, Reply>)
    ensures Trying(s, s, victim, capable, replies, Matching(s.streamMap, BoundTo(victim)), {}, 0, 0)
  {
    assert Left(s.streamMap, s.streamMap, victim) == {};
  }

  lemma TryingStep(s0: State, s: State, victim: int, todo: set<StreamId>, tried: set<StreamId>, n: nat,
                   migrated: nat, id: StreamId, capable: bool, t: int, replies: map<StreamId, Reply>, now: int)
    requires Trying(s0, s, victim, capable, replies, todo, tried, n, migrated)
    requires id in todo && YoungTarget(s.cells, victim, t)
    ensures var s' := PoolState.MigrateStream(s, id, capable, t, if id in replies then replies[id] else NoSend, now);
            id in s'.streamMap
            && Trying(s0, s', victim, capable, replies, todo - {id}, tried + {id}, n + 1,
                      migrated + Hit(s'.streamMap[id].slotIdx != victim))
  {
    var reply := if id in replies then replies[id] else NoSend;
    LeftStepExactly(s0, s, victim, todo, migrated, tried, id, capable, t, replies, now);
    MovingStep(s0, s, victim, todo, migrated, id, capable, t, reply, now);
    assert (tried + {id}) + (todo - {id}) == tried + todo;
  }

  /** How many could be tried within the budget. */
  lemma TryingDone(s0: State, s: State, victim: int, capable: bool, replies: map<StreamId, Reply>,
                   todo: set<StreamId>, tried: set<StreamId>, n: nat, migrated: nat, budget: nat)
    requires Trying(s0, s, victim, capable, replies, todo, tried, n, migrated)
    requires n <= budget && (todo == {} || n == budget)
    ensures tried <= Matching(s0.streamMap, BoundTo(victim))
    ensures |tried| == budget || (|tried| < budget && tried == Matching(s0.streamMap, BoundTo(victim)))
  {
    if todo == {} {
      assert tried + todo == tried;
    }
  }

  lemma MarkedMovesNothing(s: State, victim: int, cells: seq<Cell>)
    ensures MovedOff(s, victim, s.(cells := cells))
  {
  }

  /** What a cell array held before does not matter to the moves made since. */
  lemma MovedOffFrom(s: State, s0: State, victim: int, s1: State)
    requires MovedOff(s0, victim, s1) && StreamsUntouched(s, s0)
    ensures MovedOff(s, victim, s1)
  {
    forall id: StreamId
      ensures ChannelsUntouched(s, s1, id)
      ensures StreamUntouched(s, s1, id) || (CarriedBy(s, victim, id) && Rehomed(s1, victim, id))
    {
      assert ChannelsUntouched(s0, s1, id);
    }
  }

  lemma MovedOffStep(s0: State, s: State, victim: int, id: StreamId, capable: bool, t: int, reply: Reply, now: int)
    requires MovedOff(s0, victim, s) && CarriedBy(s0, victim, id) && CarriedBy(s, victim, id)
    requires YoungTarget(s.cells, victim, t)
    ensures MovedOff(s0, victim, PoolState.MigrateStream(s, id, capable, t, reply, now))
  {
    var s' := PoolState.MigrateStream(s, id, capable, t, reply, now);
    forall x: StreamId
      ensures ChannelsUntouched(s0, s', x)
      ensures StreamUntouched(s0, s', x) || (CarriedBy(s0, victim, x) && Rehomed(s', victim, x))
    {
      assert ChannelsUntouched(s0, s, x);
    }
  }

  lemma MovingStep(s0: State, s: State, victim: int, todo: set<StreamId>, migrated: nat,
                   id: StreamId, capable: bool, t: int, reply: Reply, now: int)
    requires Moving(s0, s, victim, todo, migrated) && id in todo && YoungTarget(s.cells, victim, t)
    ensures var s' := PoolState.MigrateStream(s, id, capable, t, reply, now);
            id in s'.streamMap
            && Moving(s0, s', victim, todo - {id}, migrated + Hit(s'.streamMap[id].slotIdx != victim))
  {
    var s' := PoolState.MigrateStream(s, id, capable, t, reply, now);
    MigrateOnlyMoves(s, id, capable, t, reply, now);
    MovedOffStep(s0, s, victim, id, capable, t, reply, now);
    LeftStep(s0.streamMap, s.streamMap, s'.streamMap, victim, id);
  }

  /** One more stream of the victim has been tried: it left if and only if it could. */
  lemma LeftStepExactly(s0: State, s: State, victim: int, todo: set<StreamId>, migrated: nat, tried: set<StreamId>,
                        id: StreamId, capable: bool, t: int, replies: map<StreamId, Reply>, now: int)
    requires Moving(s0, s, victim, todo, migrated) && id in todo && YoungTarget(s.cells, victim, t)
    requires LeftExactly(s0, s, victim, capable, replies, tried)
    ensures var reply := if id in replies then replies[id] else NoSend;
            var s' := PoolState.MigrateStream(s, id, capable, t, reply, now);
            LeftExactly(s0, s', victim, capable, replies, tried + {id})
  {
    var reply := if id in replies then replies[id] else NoSend;
    var s' := PoolState.MigrateStream(s, id, capable, t, reply, now);
    MigrationFate(s, id, capable, t, reply, now);
    SameCandidates(s0, s, victim);
    forall x
      ensures x in Left(s0.streamMap, s'.streamMap, victim) <==>
              x in tried + {id} && Leaves(s0, victim, capable, replies, x)
    {
      if x != id {
        assert x in s.streamMap ==> x in s'.streamMap && s'.streamMap[x] == s.streamMap[x];
        assert x in Left(s0.streamMap, s.streamMap, victim) <==> x in tried && Leaves(s0, victim, capable, replies, x);
      }
    }
  }

  lemma SameCandidates(s0: State, s: State, skip: int)
    requires OnlyMoves(s0, s)
    ensures forall j :: Candidate(s.cells, skip, j) <==> Candidate(s0.cells, skip, j)
  {
    forall j
      ensures Candidate(s.cells, skip, j) <==> Candidate(s0.cells, skip, j)
    {
      if 0 <= j < |s.cells| {
        assert SameButStreams(s0.cells[j], s.cells[j]);
      }
    }
  }

  /** A cell was freed and its streams settled, everything else in the pool kept its shape. */
  ghost predicate Evicted(s: State, victim: int, s': State) {
    && |s'.cells| == |s.cells|
    && Is(s.cells, victim, Ready)
    && s'.cells[victim] == Empty
    && (forall i | 0 <= i < |s.cells| && i != victim :: SameButStreams(s.cells[i], s'.cells[i]))
    && StreamsSettled(s, victim, s')
    && s'.inflight == s.inflight
    && (Inv(s) ==> Inv(s'))
  }

  lemma DeathKeepsInv(s: State, idx: int, cause: Cause, on: bool, t: int, replies: map<StreamId, Reply>, now: int)
    requires Inv(s) && YoungTarget(s.cells, idx, t)
    ensures Inv(Die(s, idx, cause, on, t, replies, now))
  {
    var a, s' := SlotDeath(idx, cause, on, t, replies, now), Die(s, idx, cause, on, t, replies, now);
    assert Next(s, a, s');
    ConsistentStep(s, a, s');
    SettledStep(s, a, s');
  }

  /** A teardown death empties its own cell and changes no other cell beyond its counter. */
  lemma TeardownShape(s: State, idx: int, on: bool, t: int, replies: map<StreamId, Reply>, now: int, i: int)
    requires Is(s.cells, idx, Draining) && t != idx && 0 <= i < |s.cells|
    ensures var s' := Die(s, idx, DrainTeardown, on, t, replies, now);
            && |s'.cells| == |s.cells| && s'.inflight == s.inflight
            && (if i == idx then s'.cells[i] == Empty else SameButStreams(s.cells[i], s'.cells[i]))
  {
  }

  /** What becomes of one stream when its cell, already emptied in part, is torn down. */
  lemma EvictedStream(s: State, s1: State, victim: int, on: bool, t: int, replies: map<StreamId, Reply>, now: int,
                      id: StreamId)
    requires Is(s1.cells, victim, Draining) && YoungTarget(s1.cells, victim, t) && MovedOff(s, victim, s1)
    ensures StreamSettled(s, victim, Die(s1, victim, DrainTeardown, on, t, replies, now), id)
  {
    var s' := Die(s1, victim, DrainTeardown, on, t, replies, now);
    assert ChannelsUntouched(s, s1, id);
    if !(CarriedBy(s, victim, id) && s.streamMap[id].migrating) {
      DeathFate(s1, victim, DrainTeardown, on, t, replies, now, id);
      if CarriedBy(s, victim, id) && Rehomed(s1, victim, id) {
        TeardownShape(s1, victim, on, t, replies, now, s1.streamMap[id].slotIdx);
      }
    }
  }

  /** Everything an eviction does before the teardown: the victim is marked, and streams moved off it. */
  ghost predicate Emptying(s: State, victim: int, s1: State) {
    && Is(s.cells, victim, Ready)
    && CellsSameButStreams(SetState(s.cells, victim, Draining), s1.cells) && s1.inflight == s.inflight
    && MovedOff(s, victim, s1)
    && (Inv(s) ==> Inv(s1))
  }

  lemma EmptyingMoves(s: State, victim: int, s0: State, s1: State)
    requires Is(s.cells, victim, Ready) && s0 == s.(cells := SetState(s.cells, victim, Draining))
    requires OnlyMoves(s0, s1) && MovedOff(s0, victim, s1) && (Inv(s0) ==> Inv(s1))
    ensures Emptying(s, victim, s1)
  {
    MovedOffFrom(s, s0, victim, s1);
    if Inv(s) {
      DrainingKeeps(s, victim);
    }
  }

  lemma EvictByDeath(s: State, s1: State, victim: int, on: bool, t: int, replies: map<StreamId, Reply>, now: int)
    requires Emptying(s, victim, s1) && YoungTarget(s1.cells, victim, t)
    ensures Evicted(s, victim, Die(s1, victim, DrainTeardown, on, t, replies, now))
  {
    var s' := Die(s1, victim, DrainTeardown, on, t, replies, now);
    var marked := SetState(s.cells, victim, Draining);
    assert SameButStreams(marked[victim], s1.cells[victim]);
    TeardownShape(s1, victim, on, t, replies, now, victim);
    forall i | 0 <= i < |s.cells| && i != victim
      ensures SameButStreams(s.cells[i], s'.cells[i])
    {
      assert SameButStreams(marked[i], s1.cells[i]);
      TeardownShape(s1, victim, on, t, replies, now, i);
    }
    forall id: StreamId
      ensures StreamSettled(s, victim, s', id)
    {
      EvictedStream(s, s1, victim, on, t, replies, now, id);
    }
    if Inv(s) {
      DeathKeepsInv(s1, victim, DrainTeardown, on, t, replies, now);
    }
  }

  lemma DrainingKeeps(s: State, i: int)
    requires Inv(s) && Is(s.cells, i, Ready)
    ensures Inv(s.(cells := SetState(s.cells, i, Draining)))
  {
  }

  /** All of a drain start: the drained cell went from ready to draining, one cell that was free
      or just evicted holds a fresh connecting placeholder, the streams of an evicted one are settled
      and all others untouched, and one in-flight unit was taken. */
  ghost predicate DrainStarted(s: State, oldIdx: int, newIdx: int, s': State) {
    && |s'.cells| == |s.cells| && 0 <= newIdx < |s.cells| && newIdx != oldIdx
    && Is(s.cells, oldIdx, Ready)
    && SameButStreams(s'.cells[oldIdx], Occupied(s.cells[oldIdx].slot.(state := Draining)))
    && (s.cells[newIdx].Empty? || Is(s.cells, newIdx, Ready))
    && s'.cells[newIdx] == Occupied(FRESH_SLOT)
    && (forall i | 0 <= i < |s.cells| && i != oldIdx && i != newIdx :: SameButStreams(s.cells[i], s'.cells[i]))
    && (if s.cells[newIdx].Empty? then StreamsUntouched(s, s') else StreamsSettled(s, newIdx, s'))
    && s'.inflight == s.inflight + 1
  }

  /** Nothing of it: the pool is as before, except that the cell may carry a new backoff stamp. */
  ghost predicate DrainDeferred(s: State, oldIdx: int, s': State) {
    || s' == s
    || (&& InCell(s.cells, oldIdx) && |s'.cells| == |s.cells| && s'.cells[oldIdx].Occupied?
        && var slot := s.cells[oldIdx].slot.(nextDrain := s'.cells[oldIdx].slot.nextDrain);
           s' == s.(cells := s.cells[oldIdx := Occupied(slot)]))
  }

  /** A slot that is connecting carries no stream. */
  lemma PlaceholderUnbound(s: State, i: int)
    requires Inv(s) && Is(s.cells, i, Connecting)
    ensures forall id | id in s.streamMap :: s.streamMap[id].slotIdx != i
  {
  }

  lemma DeferredKeeps(s: State, oldIdx: int, s': State)
    requires Inv(s) && DrainDeferred(s, oldIdx, s')
    ensures Inv(s')
  {
  }

  /** One cell, empty or ready before, now holds a placeholder; nothing else changed shape. */
  ghost predicate Replaced(s: State, newIdx: int, s': State) {
    && |s'.cells| == |s.cells| && 0 <= newIdx < |s.cells|
    && (s.cells[newIdx].Empty? || Is(s.cells, newIdx, Ready))
    && s'.cells[newIdx] == Occupied(FRESH_SLOT)
    && (forall i | 0 <= i < |s.cells| && i != newIdx :: SameButStreams(s.cells[i], s'.cells[i]))
    && (if s.cells[newIdx].Empty? then StreamsUntouched(s, s') else StreamsSettled(s, newIdx, s'))
    && s'.inflight == s.inflight
    && (Inv(s) ==> Inv(s'))
  }

  lemma ReplacedByClaim(s: State, s1: State, newIdx: int)
    requires 0 <= newIdx < |s1.cells| && s1.cells[newIdx].Empty?
    requires s1 == s || Evicted(s, newIdx, s1)
    ensures Replaced(s, newIdx, s1.(cells := s1.cells[newIdx := Occupied(FRESH_SLOT)]))
  {
    var s' := s1.(cells := s1.cells[newIdx := Occupied(FRESH_SLOT)]);
    if s1 != s {
      SettledFrame(s, newIdx, s1, s');
    }
  }

  /** Streams stay settled when no ready cell but the given one changes. */
  lemma SettledFrame(s: State, victim: int, s1: State, s': State)
    requires StreamsSettled(s, victim, s1) && StreamsUntouched(s1, s')
    requires forall i :: Is(s1.cells, i, Ready) && i != victim ==> Is(s'.cells, i, Ready)
    ensures StreamsSettled(s, victim, s')
  {
    forall id: StreamId
      ensures StreamSettled(s, victim, s', id)
    {
      assert StreamSettled(s, victim, s1, id);
    }
  }

  lemma SettledFrom(s: State, s0: State, victim: int, s': State)
    requires StreamsSettled(s0, victim, s') && StreamsUntouched(s, s0)
    ensures StreamsSettled(s, victim, s')
  {
    forall id: StreamId
      ensures StreamSettled(s, victim, s', id)
    {
      assert StreamSettled(s0, victim, s', id);
    }
  }

  /** A replacement for oldIdx can be placed: some cell is empty, some other ready slot is idle, or
      the target is over-aged and some other ready slot can be evicted. */
  ghost predicate HasRoom(cells: seq<Cell>, oldIdx: int, overAged: bool) {
    || (exists i :: 0 <= i < |cells| && cells[i].Empty?)
    || (exists i :: Is(cells, i, Ready) && i != oldIdx && cells[i].slot.streams == 0)
    || (overAged && Some(cells, Overflowable(), oldIdx))
  }

  /** Marking the target draining does not change the room for its replacement. */
  lemma MarkedRoom(cells: seq<Cell>, i: int, overAged: bool)
    requires Is(cells, i, Ready)
    ensures HasRoom(SetState(cells, i, Draining), i, overAged) <==> HasRoom(cells, i, overAged)
  {
    var c := SetState(cells, i, Draining);
    assert forall j :: Fits(c, Overflowable(), i, j) <==> Fits(cells, Overflowable(), i, j);
    assert forall j | 0 <= j < |cells| :: c[j].Empty? <==> cells[j].Empty?;
    assert forall j | j != i :: Is(c, j, Ready) <==> Is(cells, j, Ready);
  }

  lemma StartedByReplacement(s: State, oldIdx: int, newIdx: int, s': State)
    requires Is(s.cells, oldIdx, Ready) && newIdx != oldIdx
    requires Replaced(s.(cells := SetState(s.cells, oldIdx, Draining), inflight := s.inflight + 1), newIdx, s')
    ensures DrainStarted(s, oldIdx, newIdx, s')
  {
    var s0 := s.(cells := SetState(s.cells, oldIdx, Draining), inflight := s.inflight + 1);
    if !s0.cells[newIdx].Empty? {
      SettledFrom(s, s0, newIdx, s');
    }
  }
}
