/** The slot pool as a state machine over whole operations.

    A pool has 2*poolSize cells.  A cell is empty or holds a slot; a stream is bound to a cell by
    an entry of the stream map.  Each action below is one complete operation of the client. */
module PoolState {
  import opened Counting
  import opened SlotTypes
  import opened Streams

  datatype Slot = Slot(
    state: SlotState,
    streams: int,      // active stream counter
    pending: int,      // CONNECTs awaiting an answer
    startedAt: int,    // moment the connection became ready, 0 if never
    lastDeath: int,
    nextDrain: int)    // no drain attempt before this moment

  datatype Cell = Empty | Occupied(slot: Slot)

  /** Outcome of one MIGRATE or RESUME round trip. */
  datatype Reply = ReplyOK | ReplyFail | ReplyTimeout | NoSend

  datatype State = State(
    cells: seq<Cell>,
    streamMap: map<StreamId, Entry>,
    chans: set<StreamId>,         // streams with an open flat channel
    frameChans: set<StreamId>,    // streams with an open seq-tagged channel
    closes: multiset<StreamId>,   // every close() performed, per stream
    inflight: int)                // drain starts and watchdogs counted by the cap

  const MAX_INT32: int := 0x7FFF_FFFF

  /** How long after its last death a slot is not preferred (nanoseconds). */
  const FRESHNESS_WINDOW: int := 30_000_000_000

  // Waits before the next drain attempt on a slot whose start was refused (nanoseconds).
  const STORM_BRAKE_BACKOFF: int := 5_000_000_000
  const CATASTROPHIC_BACKOFF: int := 150_000_000_000

  const FRESH_SLOT: Slot := Slot(Connecting, 0, 0, 0, 0, 0)

  function NewEntry(idx: int, now: int): Entry {
    Entry(idx, now, false, false)
  }

  predicate InCell(cells: seq<Cell>, i: int) {
    0 <= i < |cells| && cells[i].Occupied?
  }

  predicate Is(cells: seq<Cell>, i: int, st: SlotState) {
    InCell(cells, i) && cells[i].slot.state == st
  }

  /** The cell carries a usable connection. */
  predicate Live(cells: seq<Cell>, i: int) {
    Is(cells, i, Ready) || Is(cells, i, Draining)
  }

  /** A new slot may be written over this cell. */
  predicate Overwritable(cells: seq<Cell>, i: int) {
    0 <= i < |cells| && !Live(cells, i)
  }

  function SetState(cells: seq<Cell>, i: int, st: SlotState): seq<Cell>
    requires InCell(cells, i)
  {
    cells[i := Occupied(cells[i].slot.(state := st))]
  }

  /** streams.Add(n) on the slot in cell i, if there is one. */
  function Raise(cells: seq<Cell>, i: int, n: int): seq<Cell> {
    if InCell(cells, i) then
      cells[i := Occupied(cells[i].slot.(streams := cells[i].slot.streams + n))]
    else cells
  }

  /** The floor-clamped decrement on the slot in cell i, if there is one. */
  function Lower(cells: seq<Cell>, i: int): seq<Cell> {
    if InCell(cells, i) then
      cells[i := Occupied(cells[i].slot.(streams := Decremented(cells[i].slot.streams)))]
    else cells
  }

  // ---------------------------------------------------------------- choosing a slot

  function Score(): Slot -> int {
    (slot: Slot) => slot.pending * 4 + slot.streams
  }

  function Load(): Slot -> int {
    (slot: Slot) => slot.streams
  }

  function Youth(): Slot -> int {
    (slot: Slot) => -slot.startedAt
  }

  /** Eligible in a picking pass: ready, with spare capacity, and not freshly reconnected unless
      `allowFresh`. */
  function Pickable(max: int, now: int, allowFresh: bool): Slot -> bool {
    (slot: Slot) =>
      && slot.state == Ready
      && !(max > 0 && slot.streams >= max)
      && (allowFresh || !(slot.lastDeath > 0 && now - slot.lastDeath < FRESHNESS_WINDOW))
      && slot.pending * 4 + slot.streams < MAX_INT32
  }

  function Overflowable(): Slot -> bool {
    (slot: Slot) => slot.state == Ready && slot.streams < MAX_INT32
  }

  /** Eligible as a migration target: ready and stamped. */
  function Stamped(): Slot -> bool {
    (slot: Slot) => slot.state == Ready && slot.startedAt != 0
  }

  predicate Fits(cells: seq<Cell>, ok: Slot -> bool, skip: int, i: int) {
    InCell(cells, i) && i != skip && ok(cells[i].slot)
  }

  ghost predicate Some(cells: seq<Cell>, ok: Slot -> bool, skip: int) {
    exists i :: Fits(cells, ok, skip, i)
  }

  /** t is the first cell of least cost among the fitting ones, or -1 when none fits. */
  ghost predicate FirstLeast(cells: seq<Cell>, ok: Slot -> bool, cost: Slot -> int, skip: int, t: int) {
    if Some(cells, ok, skip) then
      && Fits(cells, ok, skip, t)
      && (forall j | Fits(cells, ok, skip, j) :: cost(cells[t].slot) <= cost(cells[j].slot))
      && (forall j | Fits(cells, ok, skip, j) && j < t :: cost(cells[t].slot) < cost(cells[j].slot))
    else t == -1
  }

  ghost predicate FirstOccupied(cells: seq<Cell>, t: int) {
    if exists i :: InCell(cells, i) then
      InCell(cells, t) && forall j | 0 <= j < t :: !InCell(cells, j)
    else t == -1
  }

  /** Where a new stream goes: least score among rested slots, else among fresh ones, else the
      least loaded ready slot, else the first occupied cell, else nowhere (-1). */
  ghost predicate AssignTarget(cells: seq<Cell>, max: int, now: int, t: int) {
    if Some(cells, Pickable(max, now, false), -1) then FirstLeast(cells, Pickable(max, now, false), Score(), -1, t)
    else if Some(cells, Pickable(max, now, true), -1) then FirstLeast(cells, Pickable(max, now, true), Score(), -1, t)
    else if Some(cells, Overflowable(), -1) then FirstLeast(cells, Overflowable(), Load(), -1, t)
    else FirstOccupied(cells, t)
  }

  /** The youngest ready slot outside cell `skip`, or -1. */
  ghost predicate YoungTarget(cells: seq<Cell>, skip: int, t: int) {
    FirstLeast(cells, Stamped(), Youth(), skip, t)
  }

  // ---------------------------------------------------------------- operations

  function AssignTo(s: State, id: StreamId, t: int, now: int): State {
    if t < 0 || id in s.streamMap then s
    else s.(cells := Raise(s.cells, t, 1), streamMap := s.streamMap[id := NewEntry(t, now)])
  }

  function ReleaseStream(s: State, id: StreamId): State {
    if id in s.streamMap then
      s.(cells := Lower(s.cells, s.streamMap[id].slotIdx), streamMap := s.streamMap - {id})
    else s
  }

  function CloseStream(s: State, id: StreamId): State {
    var r := ReleaseStream(s, id);
    r.(chans := r.chans - {id},
       frameChans := r.frameChans - {id},
       closes := r.closes + Once(id, r.chans) + Once(id, r.frameChans))
  }

  /** One close() if the stream has an open channel in `open`, none otherwise. */
  function Once(id: StreamId, open: set<StreamId>): multiset<StreamId> {
    if id in open then multiset{id} else multiset{}
  }

  function RebindStream(s: State, id: StreamId, t: int, now: int): State {
    if id !in s.streamMap || s.streamMap[id].slotIdx == t then s
    else s.(cells := Lower(Raise(s.cells, t, 1), s.streamMap[id].slotIdx),
            streamMap := s.streamMap[id := NewEntry(t, now)])
  }

  /** A whole MIGRATE round trip; t is the target chosen (-1 if none). */
  function MigrateStream(s: State, id: StreamId, capable: bool, t: int, reply: Reply, now: int): State {
    if capable && id in s.streamMap && !s.streamMap[id].migrating && t >= 0 && reply == ReplyOK
    then RebindStream(s, id, t, now)
    else s
  }

  function BoundTo(i: int): Entry -> bool {
    (e: Entry) => e.slotIdx == i
  }

  /** Streams a death of cell idx moves to t: a RESUME was tried and accepted. */
  ghost function Moved(s: State, idx: int, on: bool, t: int, replies: map<StreamId, Reply>): set<StreamId> {
    set id | id in s.streamMap && s.streamMap[id].slotIdx == idx
             && on && !s.streamMap[id].migrating && t >= 0
             && id in replies && replies[id] == ReplyOK
  }

  /** Streams left alone because another mover already owns them. */
  ghost function Kept(s: State, idx: int, on: bool): set<StreamId> {
    set id | id in s.streamMap && s.streamMap[id].slotIdx == idx && on && s.streamMap[id].migrating
  }

  ghost function Broken(s: State, idx: int, on: bool, t: int, replies: map<StreamId, Reply>): set<StreamId> {
    Matching(s.streamMap, BoundTo(idx)) - Kept(s, idx, on) - Moved(s, idx, on, t, replies)
  }

  /** The stream map once the streams in `moved` sit on t and those in `broken` are closed. */
  ghost function FateMap(s: State, moved: set<StreamId>, broken: set<StreamId>, t: int, now: int)
    : map<StreamId, Entry>
  {
    map id | id in s.streamMap && id !in broken ::
      if id in moved then NewEntry(t, now) else s.streamMap[id]
  }

  /** The dying cell after teardown: freed by a drain, otherwise a dead slot with no streams. */
  function Corpse(slot: Slot, cause: Cause, now: int): Cell {
    if cause == DrainTeardown then Empty
    else Occupied(slot.(state := Dead, streams := 0, pending := 0, lastDeath := now))
  }

  /** A whole slot death: every carried stream is resumed on t, kept by its mover, or broken. */
  ghost function Die(s: State, idx: int, cause: Cause, on: bool, t: int, replies: map<StreamId, Reply>,
                     now: int): State
  {
    if !InCell(s.cells, idx) || s.cells[idx].slot.state == Dead then s
    else
      var moved := Moved(s, idx, on, t, replies);
      var broken := Broken(s, idx, on, t, replies);
      s.(cells := Raise(s.cells[idx := Corpse(s.cells[idx].slot, cause, now)], t, |moved|),
         streamMap := FateMap(s, moved, broken, t, now),
         chans := s.chans - broken,
         frameChans := s.frameChans - broken,
         closes := s.closes + multiset(broken * s.chans) + multiset(broken * s.frameChans))
  }

  datatype Action =
    | Open(id: StreamId, seqTagged: bool)
    | Assign(id: StreamId, max: int, now: int, t: int)
    | Release(id: StreamId)
    | Close(id: StreamId)
    | Migrate(id: StreamId, capable: bool, t: int, reply: Reply, now: int)
    | SlotDeath(idx: int, cause: Cause, on: bool, t: int, replies: map<StreamId, Reply>, now: int)
    | MarkDraining(idx: int)
    | RevertDraining(idx: int)
    | Install(idx: int)
    | ConnectOk(idx: int, now: int)
    | ConnectFail(idx: int, free: bool)

  /** One whole operation.  Assigning needs some ready slot: its last resort is treated apart. */
  ghost predicate Next(s: State, a: Action, s': State) {
    match a
    case Open(id, seqTagged) =>
      s' == if seqTagged then s.(frameChans := s.frameChans + {id}) else s.(chans := s.chans + {id})
    case Assign(id, max, now, t) =>
      (exists i :: Is(s.cells, i, Ready)) && AssignTarget(s.cells, max, now, t) && s' == AssignTo(s, id, t, now)
    case Release(id) => s' == ReleaseStream(s, id)
    case Close(id) => s' == CloseStream(s, id)
    case Migrate(id, capable, t, reply, now) =>
      (id in s.streamMap ==> YoungTarget(s.cells, s.streamMap[id].slotIdx, t))
      && s' == MigrateStream(s, id, capable, t, reply, now)
    case SlotDeath(idx, cause, on, t, replies, now) =>
      YoungTarget(s.cells, idx, t) && s' == Die(s, idx, cause, on, t, replies, now)
    case MarkDraining(i) => Is(s.cells, i, Ready) && s' == s.(cells := SetState(s.cells, i, Draining))
    case RevertDraining(i) => Is(s.cells, i, Draining) && s' == s.(cells := SetState(s.cells, i, Ready))
    case Install(i) => Overwritable(s.cells, i) && s' == s.(cells := s.cells[i := Occupied(FRESH_SLOT)])
    case ConnectOk(i, now) =>
      Is(s.cells, i, Connecting)
      && s' == s.(cells := s.cells[i := Occupied(s.cells[i].slot.(state := Ready, startedAt := now))])
    case ConnectFail(i, free) =>
      Is(s.cells, i, Connecting)
      && s' == s.(cells := if free then s.cells[i := Empty] else SetState(s.cells, i, Dead))
  }

  // ---------------------------------------------------------------- invariant

  /** Every slot's counter is the number of streams bound to its cell, and streams are bound to
      live cells only. */
  ghost predicate Consistent(s: State) {
    && (forall i | InCell(s.cells, i) :: s.cells[i].slot.streams == Count(s.streamMap, BoundTo(i)))
    && (forall id | id in s.streamMap :: Live(s.cells, s.streamMap[id].slotIdx))
  }

  /** No move is in flight between whole operations. */
  ghost predicate Settled(s: State) {
    forall id | id in s.streamMap :: !s.streamMap[id].migrating
  }

  ghost predicate Inv(s: State) {
    Consistent(s) && Settled(s)
  }

  ghost predicate Initial(s: State) {
    s.streamMap == map[] && forall i | 0 <= i < |s.cells| :: s.cells[i] == Empty
  }

  ghost predicate Run(states: seq<State>, acts: seq<Action>) {
    && |states| == |acts| + 1
    && Initial(states[0])
    && forall n | 0 <= n < |acts| :: Next(states[n], acts[n], states[n + 1])
  }

  // ---------------------------------------------------------------- assign

  /** A consistent pool never has a counter near the scan sentinel: the overflow scan, which compares
      the counter alone, takes every ready slot. */
  lemma CounterBound(s: State, i: int)
    requires Consistent(s) && InCell(s.cells, i)
    ensures 0 <= s.cells[i].slot.streams <= 0x1_0000
    ensures Is(s.cells, i, Ready) ==> Fits(s.cells, Overflowable(), -1, i)
  {
    StreamSetBound(Matching(s.streamMap, BoundTo(i)));
  }

  /** If some slot is ready, the chosen target is ready. */
  lemma AssignFindsReady(s: State, max: int, now: int, t: int)
    requires Consistent(s) && AssignTarget(s.cells, max, now, t)
    requires exists i :: Is(s.cells, i, Ready)
    ensures Is(s.cells, t, Ready)
  {
    var i :| Is(s.cells, i, Ready);
    CounterBound(s, i);
    assert Fits(s.cells, Overflowable(), -1, i);
  }

  /** Binding a stream to a cell keeps the pool consistent exactly when the cell is live. */
  lemma BindConsistent(s: State, id: StreamId, t: int, now: int)
    requires Consistent(s) && t < |s.cells|
    ensures Consistent(AssignTo(s, id, t, now)) <==> id in s.streamMap || t < 0 || Live(s.cells, t)
  {
    var s' := AssignTo(s, id, t, now);
    if id !in s.streamMap && t >= 0 {
      forall i | InCell(s'.cells, i)
        ensures Count(s'.streamMap, BoundTo(i)) == Count(s.streamMap, BoundTo(i)) + Hit(i == t)
      {
        CountStore(s.streamMap, id, NewEntry(t, now), BoundTo(i));
      }
      assert s'.streamMap[id].slotIdx == t;
    }
  }

  /** Without a ready slot the choice falls on the first occupied cell. */
  lemma LastResort(s: State, max: int, now: int, t: int, f: int)
    requires AssignTarget(s.cells, max, now, t) && FirstOccupied(s.cells, f)
    requires !exists i :: Is(s.cells, i, Ready)
    ensures t == f
  {
    assert forall i :: Fits(s.cells, Pickable(max, now, false), -1, i) ==> Is(s.cells, i, Ready);
    assert forall i :: Fits(s.cells, Pickable(max, now, true), -1, i) ==> Is(s.cells, i, Ready);
    assert forall i :: Fits(s.cells, Overflowable(), -1, i) ==> Is(s.cells, i, Ready);
  }

  /** An assign keeps the pool consistent if and only if the stream is already mapped, no cell is
      occupied, some slot is ready, or the first occupied cell is draining. */
  lemma AssignConsistentExactly(s: State, id: StreamId, max: int, now: int, t: int, f: int)
    requires Consistent(s) && AssignTarget(s.cells, max, now, t) && FirstOccupied(s.cells, f)
    ensures Consistent(AssignTo(s, id, t, now)) <==>
            id in s.streamMap || f < 0 || (exists i :: Is(s.cells, i, Ready)) || Is(s.cells, f, Draining)
  {
    if exists i :: Is(s.cells, i, Ready) {
      AssignFindsReady(s, max, now, t);
    } else {
      LastResort(s, max, now, t, f);
    }
    BindConsistent(s, id, t, now);
  }

  /** It does fail: a new pool whose first connection is still being made takes a stream onto it. */
  lemma LastResortBindsConnecting(s: State, id: StreamId, max: int, now: int) returns (s1: State)
    requires Initial(s) && s.cells != []
    ensures Run([s, s1], [Install(0)]) && AssignTarget(s1.cells, max, now, 0)
    ensures var s2 := AssignTo(s1, id, 0, now);
            id in s2.streamMap && s2.streamMap[id].slotIdx == 0 && Is(s2.cells, 0, Connecting) && !Consistent(s2)
  {
    s1 := s.(cells := s.cells[0 := Occupied(FRESH_SLOT)]);
    assert Next(s, Install(0), s1);
    assert InCell(s1.cells, 0);
    assert forall i :: !Is(s1.cells, i, Ready);
  }

  // ---------------------------------------------------------------- the choices, in slot fields

  /** Ready, below the stream limit if there is one, and of a score the scan can register. */
  ghost predicate HasSpare(cells: seq<Cell>, max: int, i: int) {
    && InCell(cells, i) && cells[i].slot.state == Ready
    && (max <= 0 || cells[i].slot.streams < max)
    && 4 * cells[i].slot.pending + cells[i].slot.streams < 0x7FFF_FFFF
  }

  /** The same, and no death in the last 30 seconds. */
  ghost predicate Rested(cells: seq<Cell>, max: int, now: int, i: int) {
    HasSpare(cells, max, i) && (cells[i].slot.lastDeath <= 0 || now - cells[i].slot.lastDeath >= 30_000_000_000)
  }

  /** A CONNECT under way weighs as much as four streams; of equal weights the lower cell is `first`. */
  ghost predicate Lighter(a: Slot, b: Slot, first: bool) {
    && 4 * a.pending + a.streams <= 4 * b.pending + b.streams
    && (first ==> 4 * a.pending + a.streams < 4 * b.pending + b.streams)
  }

  /** Where a new stream goes, tier by tier. */
  lemma AssignChoice(cells: seq<Cell>, max: int, now: int, t: int)
    requires AssignTarget(cells, max, now, t)
    ensures (exists i :: Rested(cells, max, now, i)) ==>
              && Rested(cells, max, now, t)
              && forall j | Rested(cells, max, now, j) :: Lighter(cells[t].slot, cells[j].slot, j < t)
    ensures !(exists i :: Rested(cells, max, now, i)) && (exists i :: HasSpare(cells, max, i)) ==>
              && HasSpare(cells, max, t)
              && forall j | HasSpare(cells, max, j) :: Lighter(cells[t].slot, cells[j].slot, j < t)
    ensures !(exists i :: HasSpare(cells, max, i)) && (exists i :: Countable(cells, i)) ==>
              && Countable(cells, t)
              && forall j | Countable(cells, j) ::
                   cells[t].slot.streams <= cells[j].slot.streams
                   && (j < t ==> cells[t].slot.streams < cells[j].slot.streams)
    ensures !(exists i :: HasSpare(cells, max, i)) && !(exists i :: Countable(cells, i)) ==>
              if exists i :: InCell(cells, i) then InCell(cells, t) && forall j | 0 <= j < t :: !InCell(cells, j)
              else t == -1
  {
    assert forall j :: Fits(cells, Pickable(max, now, false), -1, j) <==> Rested(cells, max, now, j);
    assert forall j :: Fits(cells, Pickable(max, now, true), -1, j) <==> HasSpare(cells, max, j);
    assert forall j :: Fits(cells, Overflowable(), -1, j) <==> Countable(cells, j);
    if !(exists i :: HasSpare(cells, max, i)) && !exists i :: Countable(cells, i) {
      assert FirstOccupied(cells, t);
    }
  }

  /** Ready, with a counter the overflow scan can register. */
  ghost predicate Countable(cells: seq<Cell>, i: int) {
    Is(cells, i, Ready) && cells[i].slot.streams < 0x7FFF_FFFF
  }

  /** The victim of an emergency eviction, and the overflow choice: least loaded, the first of equals. */
  lemma LeastLoaded(cells: seq<Cell>, skip: int, t: int)
    requires FirstLeast(cells, Overflowable(), Load(), skip, t)
    ensures t >= 0 <==> exists j :: j != skip && Countable(cells, j)
    ensures t >= 0 ==> t != skip && Countable(cells, t)
                       && forall j | j != skip && Countable(cells, j) ::
                            cells[t].slot.streams <= cells[j].slot.streams
                            && (j < t ==> cells[t].slot.streams < cells[j].slot.streams)
  {
    assert forall j :: Fits(cells, Overflowable(), skip, j) <==> j != skip && Countable(cells, j);
  }

  /** A cell a stream of cell `skip` may move to: ready, and its connection has a starting moment. */
  ghost predicate Candidate(cells: seq<Cell>, skip: int, i: int) {
    i != skip && Is(cells, i, Ready) && cells[i].slot.startedAt != 0
  }

  /** Of the candidates the one that started last, the first of equals. */
  lemma YoungestTarget(cells: seq<Cell>, skip: int, t: int)
    requires YoungTarget(cells, skip, t)
    ensures t >= 0 <==> exists j :: Candidate(cells, skip, j)
    ensures t >= 0 ==> Candidate(cells, skip, t)
    ensures forall j | t >= 0 && Candidate(cells, skip, j) ::
              cells[j].slot.startedAt <= cells[t].slot.startedAt
              && (j < t ==> cells[j].slot.startedAt < cells[t].slot.startedAt)
  {
    assert forall j :: Fits(cells, Stamped(), skip, j) <==> Candidate(cells, skip, j);
  }

  /** An assign binds the stream to the target, freshly written, unless it was mapped already; the
      target counts one stream more and nothing else changes. */
  lemma AssignFate(s: State, id: StreamId, t: int, now: int)
    requires t < |s.cells|
    ensures id in s.streamMap || t < 0 ==> AssignTo(s, id, t, now) == s
    ensures id !in s.streamMap && t >= 0 ==>
              var s' := AssignTo(s, id, t, now);
              && s'.streamMap == s.streamMap[id := Entry(t, now, false, false)]
              && s' == s.(cells := s'.cells, streamMap := s'.streamMap)
              && CountersMove(s.cells, s'.cells, map[t := 1])
  {
  }

  /** No cell changes but for its stream counter, which moves by the amounts in `gains`. */
  ghost predicate CountersMove(a: seq<Cell>, b: seq<Cell>, gains: map<int, int>) {
    && |a| == |b|
    && forall i | 0 <= i < |a| ::
         && a[i].Occupied? == b[i].Occupied?
         && (a[i].Occupied? ==>
               b[i].slot == a[i].slot.(streams := a[i].slot.streams + (if i in gains then gains[i] else 0)))
  }

  // ---------------------------------------------------------------- release, close, rebind

  lemma ReleaseKeeps(s: State, id: StreamId)
    requires Consistent(s)
    ensures Consistent(ReleaseStream(s, id))
  {
    if id in s.streamMap {
      var s' := ReleaseStream(s, id);
      var src := s.streamMap[id].slotIdx;
      CountZero(s.streamMap, BoundTo(src));
      assert BoundTo(src)(s.streamMap[id]);
      forall i | InCell(s'.cells, i)
        ensures s'.cells[i].slot.streams == Count(s'.streamMap, BoundTo(i))
      {
        CountDelete(s.streamMap, id, BoundTo(i));
      }
    }
  }

  lemma RebindKeeps(s: State, id: StreamId, t: int, now: int)
    requires Consistent(s) && Live(s.cells, t)
    ensures Consistent(RebindStream(s, id, t, now))
  {
    if id in s.streamMap && s.streamMap[id].slotIdx != t {
      var s' := RebindStream(s, id, t, now);
      var src := s.streamMap[id].slotIdx;
      CountZero(s.streamMap, BoundTo(src));
      assert BoundTo(src)(s.streamMap[id]);
      forall i | InCell(s'.cells, i)
        ensures s'.cells[i].slot.streams == Count(s'.streamMap, BoundTo(i))
      {
        CountStore(s.streamMap, id, NewEntry(t, now), BoundTo(i));
      }
    }
  }

  /** The cell of a mapped stream counts it. */
  lemma BoundIsCounted(s: State, id: StreamId)
    requires Consistent(s) && id in s.streamMap
    ensures InCell(s.cells, s.streamMap[id].slotIdx) && s.cells[s.streamMap[id].slotIdx].slot.streams > 0
  {
    CountZero(s.streamMap, BoundTo(s.streamMap[id].slotIdx));
    assert BoundTo(s.streamMap[id].slotIdx)(s.streamMap[id]);
  }

  /** A released stream is unmapped and its cell counts one stream less; a closed one also has each
      channel it had open closed once.  No other stream is touched. */
  lemma ReleaseFate(s: State, id: StreamId)
    requires Consistent(s) && id in s.streamMap
    ensures var s', c := ReleaseStream(s, id), CloseStream(s, id);
            && s'.streamMap == c.streamMap == s.streamMap - {id}
            && s' == s.(cells := s'.cells, streamMap := s'.streamMap)
            && c.cells == s'.cells && CountersMove(s.cells, s'.cells, map[s.streamMap[id].slotIdx := -1])
            && c.inflight == s.inflight && OpenChannels(c, id) == 0
            && c.closes[id] == s.closes[id] + OpenChannels(s, id)
            && forall x: StreamId | x != id ::
                 && (x in c.chans <==> x in s.chans) && (x in c.frameChans <==> x in s.frameChans)
                 && c.closes[x] == s.closes[x]
  {
    BoundIsCounted(s, id);
  }

  ghost predicate NoneNegative(cells: seq<Cell>) {
    forall i | InCell(cells, i) :: cells[i].slot.streams >= 0
  }

  /** No operation takes a counter below zero, in any pool, also one whose counters are not exact. */
  lemma NeverNegative(s: State, id: StreamId, t: int, now: int)
    requires NoneNegative(s.cells)
    ensures NoneNegative(ReleaseStream(s, id).cells) && NoneNegative(CloseStream(s, id).cells)
    ensures NoneNegative(RebindStream(s, id, t, now).cells) && NoneNegative(AssignTo(s, id, t, now).cells)
  {
  }

  /** The fate of a stream after a MIGRATE round trip: it moves, to the youngest other ready cell, if
      and only if the feature is on, nobody else is moving it, there is such a cell and the server
      said OK; otherwise nothing at all changes. */
  lemma MigrationFate(s: State, id: StreamId, capable: bool, t: int, reply: Reply, now: int)
    requires id in s.streamMap && YoungTarget(s.cells, s.streamMap[id].slotIdx, t)
    ensures var s' := MigrateStream(s, id, capable, t, reply, now);
            var src := s.streamMap[id].slotIdx;
            var moves := && capable && !s.streamMap[id].migrating && reply.ReplyOK?
                         && exists j :: Candidate(s.cells, src, j);
            && (id in s'.streamMap && s'.streamMap[id].slotIdx != src <==> moves)
            && (moves ==> && s'.streamMap == s.streamMap[id := Entry(t, now, false, false)]
                          && s' == s.(cells := s'.cells, streamMap := s'.streamMap)
                          && Candidate(s.cells, src, t))
            && (moves ==> forall j | Candidate(s.cells, src, j) ::
                            s.cells[j].slot.startedAt <= s.cells[t].slot.startedAt
                            && (j < t ==> s.cells[j].slot.startedAt < s.cells[t].slot.startedAt))
            && (!moves ==> s' == s)
  {
    YoungestTarget(s.cells, s.streamMap[id].slotIdx, t);
  }

  /** In a consistent pool a migration moves one stream from the count of its cell to the target's. */
  lemma MigrationCounters(s: State, id: StreamId, capable: bool, t: int, reply: Reply, now: int)
    requires Consistent(s) && id in s.streamMap && YoungTarget(s.cells, s.streamMap[id].slotIdx, t)
    ensures var s' := MigrateStream(s, id, capable, t, reply, now);
            s' == s || CountersMove(s.cells, s'.cells, map[t := 1, s.streamMap[id].slotIdx := -1])
  {
    BoundIsCounted(s, id);
    YoungestTarget(s.cells, s.streamMap[id].slotIdx, t);
  }

  // ---------------------------------------------------------------- slot death

  /** A death leaves on the dying cell exactly the streams other movers hold. */
  lemma FateOnDying(s: State, idx: int, on: bool, t: int, replies: map<StreamId, Reply>, now: int)
    requires t != idx
    ensures var m := FateMap(s, Moved(s, idx, on, t, replies), Broken(s, idx, on, t, replies), t, now);
            Matching(m, BoundTo(idx)) == Kept(s, idx, on)
  {
  }

  /** ... adds the resumed ones to the target ... */
  lemma FateOnTarget(s: State, idx: int, on: bool, t: int, replies: map<StreamId, Reply>, now: int)
    requires t != idx && t >= 0
    ensures var m := FateMap(s, Moved(s, idx, on, t, replies), Broken(s, idx, on, t, replies), t, now);
            Count(m, BoundTo(t)) == Count(s.streamMap, BoundTo(t)) + |Moved(s, idx, on, t, replies)|
  {
    var moved := Moved(s, idx, on, t, replies);
    var m := FateMap(s, moved, Broken(s, idx, on, t, replies), t, now);
    var before := Matching(s.streamMap, BoundTo(t));
    forall id
      ensures id in Matching(m, BoundTo(t)) <==> id in before + moved
    {
    }
    assert Matching(m, BoundTo(t)) == before + moved;
    assert before !! moved;
  }

  /** ... and leaves every other cell alone. */
  lemma FateElsewhere(s: State, idx: int, on: bool, t: int, replies: map<StreamId, Reply>, now: int, i: int)
    requires i != idx && i != t
    ensures var m := FateMap(s, Moved(s, idx, on, t, replies), Broken(s, idx, on, t, replies), t, now);
            Matching(m, BoundTo(i)) == Matching(s.streamMap, BoundTo(i))
  {
  }

  lemma DeathCounters(s: State, idx: int, cause: Cause, on: bool, t: int, replies: map<StreamId, Reply>, now: int,
                      i: int)
    requires Consistent(s) && (t >= 0 ==> Is(s.cells, t, Ready)) && t != idx
    requires InCell(s.cells, idx) && s.cells[idx].slot.state != Dead
    requires InCell(Die(s, idx, cause, on, t, replies, now).cells, i) && i != idx
    ensures var s' := Die(s, idx, cause, on, t, replies, now);
            s'.cells[i].slot.streams == Count(s'.streamMap, BoundTo(i))
  {
    if i == t {
      FateOnTarget(s, idx, on, t, replies, now);
    } else {
      FateElsewhere(s, idx, on, t, replies, now, i);
    }
  }

  /** A death changes no slot state outside the dying cell, which ends without a live slot. */
  lemma DeathStates(s: State, idx: int, cause: Cause, on: bool, t: int, replies: map<StreamId, Reply>, now: int, i: int)
    requires InCell(s.cells, idx) && s.cells[idx].slot.state != Dead && t != idx
    ensures var s' := Die(s, idx, cause, on, t, replies, now);
            && !Live(s'.cells, idx)
            && (i != idx ==> (Live(s'.cells, i) <==> Live(s.cells, i)))
  {
  }

  lemma DeathBindings(s: State, idx: int, cause: Cause, on: bool, t: int, replies: map<StreamId, Reply>, now: int,
                      id: StreamId)
    requires Consistent(s) && (t >= 0 ==> Is(s.cells, t, Ready)) && t != idx
    requires InCell(s.cells, idx) && s.cells[idx].slot.state != Dead
    requires id in Die(s, idx, cause, on, t, replies, now).streamMap
    ensures var s' := Die(s, idx, cause, on, t, replies, now);
            Live(s'.cells, s'.streamMap[id].slotIdx) <==> id !in Kept(s, idx, on)
  {
    var s' := Die(s, idx, cause, on, t, replies, now);
    if s.streamMap[id].slotIdx != idx {
      DeathStates(s, idx, cause, on, t, replies, now, s.streamMap[id].slotIdx);
    } else if id in Moved(s, idx, on, t, replies) {
      DeathStates(s, idx, cause, on, t, replies, now, t);
    } else {
      DeathStates(s, idx, cause, on, t, replies, now, idx);
      assert id in Matching(s.streamMap, BoundTo(idx));
    }
  }

  /** A death leaves the pool consistent exactly when no mover holds a stream of the dying cell. */
  lemma DeathConsistentExactly(s: State, idx: int, cause: Cause, on: bool, t: int, replies: map<StreamId, Reply>,
                               now: int)
    requires Consistent(s) && YoungTarget(s.cells, idx, t)
    requires InCell(s.cells, idx) && s.cells[idx].slot.state != Dead
    ensures Consistent(Die(s, idx, cause, on, t, replies, now)) <==> Kept(s, idx, on) == {}
  {
    var s' := Die(s, idx, cause, on, t, replies, now);
    assert (t >= 0 ==> Is(s.cells, t, Ready)) && t != idx;
    forall i | InCell(s'.cells, i) && i != idx
      ensures s'.cells[i].slot.streams == Count(s'.streamMap, BoundTo(i))
    {
      DeathCounters(s, idx, cause, on, t, replies, now, i);
    }
    forall id | id in s'.streamMap
      ensures Live(s'.cells, s'.streamMap[id].slotIdx) <==> id !in Kept(s, idx, on)
    {
      DeathBindings(s, idx, cause, on, t, replies, now, id);
    }
    FateOnDying(s, idx, on, t, replies, now);
    if id :| id in Kept(s, idx, on) {
      assert id in Matching(s'.streamMap, BoundTo(idx));
    }
  }

  /** Number of channels stream id has open. */
  function OpenChannels(s: State, id: StreamId): nat {
    (if id in s.chans then 1 else 0) + (if id in s.frameChans then 1 else 0)
  }

  /** The fate of every stream of a dying cell that no other mover holds: either it now sits on the
      youngest other ready cell with its channels untouched, or it is unmapped and each channel it had
      was closed exactly once.  Streams of other cells are untouched. */
  lemma DeathFate(s: State, idx: int, cause: Cause, on: bool, t: int, replies: map<StreamId, Reply>, now: int,
                  id: StreamId)
    requires YoungTarget(s.cells, idx, t) && id !in Kept(s, idx, on)
    requires InCell(s.cells, idx) && s.cells[idx].slot.state != Dead
    ensures var s' := Die(s, idx, cause, on, t, replies, now);
            var carried := id in s.streamMap && s.streamMap[id].slotIdx == idx;
            var resumed := && carried && on && (exists j :: Candidate(s.cells, idx, j))
                           && id in replies && replies[id].ReplyOK?;
            && (resumed ==> id in s'.streamMap && s'.streamMap[id] == Entry(t, now, false, false)
                            && t != idx && Is(s'.cells, t, Ready))
            && (resumed ==> forall j | Candidate(s.cells, idx, j) ::
                              s.cells[j].slot.startedAt <= s.cells[t].slot.startedAt)
            && (carried && !resumed ==> id !in s'.streamMap && OpenChannels(s', id) == 0
                                        && s'.closes[id] == s.closes[id] + OpenChannels(s, id))
            && (resumed || !carried ==> OpenChannels(s', id) == OpenChannels(s, id) && s'.closes[id] == s.closes[id])
            && (!carried ==> (id in s'.streamMap <==> id in s.streamMap)
                             && (id in s.streamMap ==> s'.streamMap[id] == s.streamMap[id]))
  {
    YoungestTarget(s.cells, idx, t);
  }

  /** What a death leaves behind: a dead slot without streams, stamped with the moment, unless a drain
      gave the cell up; a cell that is empty or already dead stays as it is, and no other cell changes
      but for the counter of the target. */
  lemma DeathCells(s: State, idx: int, cause: Cause, on: bool, t: int, replies: map<StreamId, Reply>, now: int)
    requires YoungTarget(s.cells, idx, t)
    ensures var s' := Die(s, idx, cause, on, t, replies, now);
            var dies := InCell(s.cells, idx) && s.cells[idx].slot.state != Dead;
            && (!dies ==> s' == s)
            && (dies ==> |s'.cells| == |s.cells| && (s'.cells[idx].Occupied? <==> cause != DrainTeardown))
            && (dies && cause != DrainTeardown ==>
                  s'.cells[idx].slot
                  == Slot(Dead, 0, 0, s.cells[idx].slot.startedAt, now, s.cells[idx].slot.nextDrain))
            && forall i | 0 <= i < |s.cells| && i != idx ::
                 s'.cells[i] == s.cells[i]
                 || (i == t && s'.cells[i] == Occupied(s.cells[i].slot.(streams := s'.cells[i].slot.streams)))
  {
  }

  // ---------------------------------------------------------------- runs

  lemma SettledStep(s: State, a: Action, s': State)
    requires Settled(s) && Next(s, a, s')
    ensures Settled(s')
  {
  }

  /** Changing one cell that carries no stream, to a slot with a zero counter or to nothing. */
  lemma IdleCellKeeps(s: State, i: int, c: Cell)
    requires Consistent(s) && 0 <= i < |s.cells| && !Live(s.cells, i)
    requires c.Occupied? ==> c.slot.streams == 0
    ensures Consistent(s.(cells := s.cells[i := c]))
  {
  }

  lemma ConsistentStep(s: State, a: Action, s': State)
    requires Inv(s) && Next(s, a, s')
    ensures Consistent(s')
  {
    match a
    case Open(_, _) =>
    case Assign(id, max, now, t) =>
      AssignFindsReady(s, max, now, t);
      BindConsistent(s, id, t, now);
    case Release(id) => ReleaseKeeps(s, id);
    case Close(id) => ReleaseKeeps(s, id);
    case Migrate(id, _, t, _, now) =>
      if s' != s {
        RebindKeeps(s, id, t, now);
      }
    case SlotDeath(idx, cause, on, t, replies, now) =>
      if s' != s {
        DeathConsistentExactly(s, idx, cause, on, t, replies, now);
      }
    case MarkDraining(_) =>
    case RevertDraining(_) =>
    case Install(i) => IdleCellKeeps(s, i, Occupied(FRESH_SLOT));
    case ConnectOk(i, now) =>
      IdleCellKeeps(s, i, s'.cells[i]) by { ConnectingIsIdle(s, i); }
    case ConnectFail(i, _) =>
      IdleCellKeeps(s, i, s'.cells[i]) by { ConnectingIsIdle(s, i); }
  }

  lemma ConnectingIsIdle(s: State, i: int)
    requires Consistent(s) && Is(s.cells, i, Connecting)
    ensures s.cells[i].slot.streams == 0
  {
  }

  /** The cell whose slot an action replaces, marks or removes, or -1. */
  function CellOf(a: Action): int {
    match a
    case SlotDeath(idx, _, _, _, _, _) => idx
    case MarkDraining(idx) => idx
    case RevertDraining(idx) => idx
    case Install(idx) => idx
    case ConnectOk(idx, _) => idx
    case ConnectFail(idx, _) => idx
    case _ => -1
  }

  /** A cell is occupied as before, by a slot of the same state and starting moment. */
  ghost predicate SameShape(a: seq<Cell>, b: seq<Cell>, i: int) {
    && (InCell(a, i) <==> InCell(b, i))
    && (InCell(a, i) ==> a[i].slot.state == b[i].slot.state && a[i].slot.startedAt == b[i].slot.startedAt)
  }

  lemma StreamOpsKeepShape(s: State, id: StreamId, t: int, now: int, i: int)
    ensures SameShape(s.cells, AssignTo(s, id, t, now).cells, i)
    ensures SameShape(s.cells, ReleaseStream(s, id).cells, i) && SameShape(s.cells, CloseStream(s, id).cells, i)
    ensures SameShape(s.cells, RebindStream(s, id, t, now).cells, i)
  {
  }

  lemma DeathKeepsShape(s: State, idx: int, cause: Cause, on: bool, t: int, replies: map<StreamId, Reply>, now: int,
                        i: int)
    requires YoungTarget(s.cells, idx, t) && i != idx
    ensures SameShape(s.cells, Die(s, idx, cause, on, t, replies, now).cells, i)
  {
  }

  lemma OthersKeepShape(s: State, a: Action, s': State, i: int)
    requires Next(s, a, s') && CellOf(a) != i
    ensures SameShape(s.cells, s'.cells, i)
  {
    match a
    case Assign(id, _, now, t) => StreamOpsKeepShape(s, id, t, now, i);
    case Release(id) => StreamOpsKeepShape(s, id, -1, 0, i);
    case Close(id) => StreamOpsKeepShape(s, id, -1, 0, i);
    case Migrate(id, _, t, _, now) => StreamOpsKeepShape(s, id, t, now, i);
    case SlotDeath(idx, cause, on, t, replies, now) => DeathKeepsShape(s, idx, cause, on, t, replies, now, i);
    case _ =>
  }

  /** How a cell comes to be given up or to hold a dead slot: only the end of a drain and a failed
      reserve connect free a cell, only another death and another failed connect leave a corpse. */
  lemma CellChanges(s: State, a: Action, s': State, i: int)
    requires Next(s, a, s')
    ensures InCell(s.cells, i) && !InCell(s'.cells, i) <==>
            && InCell(s.cells, i) && CellOf(a) == i
            && ((a.SlotDeath? && a.cause.DrainTeardown? && !Is(s.cells, i, Dead)) || (a.ConnectFail? && a.free))
    ensures !Is(s.cells, i, Dead) && Is(s'.cells, i, Dead) <==>
            && InCell(s.cells, i) && !Is(s.cells, i, Dead) && CellOf(a) == i
            && ((a.SlotDeath? && !a.cause.DrainTeardown?) || (a.ConnectFail? && !a.free))
  {
    if CellOf(a) != i {
      OthersKeepShape(s, a, s', i);
    } else if a.SlotDeath? {
      DeathCells(s, i, a.cause, a.on, a.t, a.replies, a.now);
    }
  }

  ghost predicate LiveStamped(cells: seq<Cell>) {
    forall i | Live(cells, i) :: cells[i].slot.startedAt != 0
  }

  lemma StampedStep(s: State, a: Action, s': State)
    requires LiveStamped(s.cells) && Next(s, a, s') && (a.ConnectOk? ==> a.now != 0)
    ensures LiveStamped(s'.cells)
  {
    forall i | Live(s'.cells, i)
      ensures s'.cells[i].slot.startedAt != 0
    {
      if CellOf(a) != i {
        OthersKeepShape(s, a, s', i);
        assert Live(s.cells, i);
      } else if a.SlotDeath? {
        DeathCells(s, i, a.cause, a.on, a.t, a.replies, a.now);
      }
    }
  }

  /** On every run whose clock is past zero each ready slot knows when it started, so every other ready
      cell is a candidate to move a stream to. */
  lemma {:induction false} ReadyAreCandidates(states: seq<State>, acts: seq<Action>, n: nat)
    requires Run(states, acts) && n < |states|
    requires forall m | 0 <= m < |acts| && acts[m].ConnectOk? :: acts[m].now != 0
    ensures LiveStamped(states[n].cells)
    ensures forall i, skip | i != skip :: Candidate(states[n].cells, skip, i) <==> Is(states[n].cells, i, Ready)
  {
    if n == 0 {
    } else {
      ReadyAreCandidates(states, acts, n - 1);
      StampedStep(states[n - 1], acts[n - 1], states[n]);
    }
  }

  lemma {:induction false} RunKeepsInv(states: seq<State>, acts: seq<Action>, n: nat)
    requires Run(states, acts) && n < |states|
    ensures Inv(states[n])
  {
    if n == 0 {
    } else {
      RunKeepsInv(states, acts, n - 1);
      SettledStep(states[n - 1], acts[n - 1], states[n]);
      ConsistentStep(states[n - 1], acts[n - 1], states[n]);
    }
  }

  /** After every run of whole operations: a slot's counter is exactly the number of streams mapped
      to its cell, and no stream is mapped to an empty, connecting or dead cell. */
  lemma CountersExactOnEveryRun(states: seq<State>, acts: seq<Action>, n: nat)
    requires Run(states, acts) && n < |states|
    ensures var s := states[n];
            && (forall i | InCell(s.cells, i) ::
                  s.cells[i].slot.streams == |set id | id in s.streamMap && s.streamMap[id].slotIdx == i|)
            && (forall id | id in s.streamMap ::
                  var i := s.streamMap[id].slotIdx;
                  InCell(s.cells, i) && s.cells[i].slot.state != Connecting && s.cells[i].slot.state != Dead)
  {
    var s := states[n];
    RunKeepsInv(states, acts, n);
    forall i | InCell(s.cells, i)
      ensures s.cells[i].slot.streams == |set id | id in s.streamMap && s.streamMap[id].slotIdx == i|
    {
      assert Matching(s.streamMap, BoundTo(i)) == set id | id in s.streamMap && s.streamMap[id].slotIdx == i;
    }
  }
}
