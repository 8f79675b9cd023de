/** Per-stream credit flow control: the application consumes bytes, a sender returns them to the
    peer as credit.  The credit rule is additive, as that of WINDOW_UPDATE in section 6.9 of
    RFC 9113.

    One stream is a step system in which the tick's load, its compare-and-swap and the outcome of
    its send interleave with consumption and with the peer; the whole tick over all streams is the
    loop of class CreditSender. */
module CreditFlow {
  import opened Streams

  const FLUSH_FLOOR: nat := 32 * 1024
  const MAX_WINDOW: nat := 6 * 1024 * 1024
  const WATCHDOG_NS: int := 200_000_000
  const UINT32: nat := 0x1_0000_0000

  function ClampWindow(w: nat): (r: nat)
    ensures r <= w && r <= 6_291_456 && (r == w || r == 6_291_456)
  {
    if w > MAX_WINDOW then MAX_WINDOW else w
  }

  /** Where the credit sender stands on this stream. */
  datatype Tick = Idle | Loaded(d: nat) | InHand(d: nat)

  datatype State = State(
    sent: nat,        // bytes the peer has sent
    consumed: nat,    // bytes the application has taken
    pending: nat,     // consumed, not yet credited
    credited: nat,    // credit granted so far
    lastSent: int,    // moment of the last successful update, 0 if none
    tick: Tick)

  const START: State := State(0, 0, 0, 0, 0, Idle)

  datatype Action =
    | PeerSends(n: nat)
    | Consume(n: nat)
    | Load(now: int)       // read pending, decide whether to flush
    | Swap                 // take it, if it did not change
    | SendOk(now: int)
    | SendFails            // give it back

  /** A tail left over since the last update for too long; never before the first update. */
  predicate Stale(lastSent: int, now: int) {
    lastSent != 0 && now - lastSent >= WATCHDOG_NS
  }

  predicate Flushes(pending: nat, lastSent: int, now: int) {
    pending != 0 && (pending >= FLUSH_FLOOR || Stale(lastSent, now))
  }

  predicate Enabled(window: nat, s: State, a: Action) {
    match a
    case PeerSends(n) => s.sent + n <= s.credited + window     // the peer keeps within its window
    case Consume(n) => s.consumed + n <= s.sent
    case Load(_) => s.tick.Idle?
    case Swap => s.tick.Loaded?
    case SendOk(_) => s.tick.InHand?
    case SendFails => s.tick.InHand?
  }

  function Apply(s: State, a: Action): State {
    match a
    case PeerSends(n) => s.(sent := s.sent + n)
    case Consume(n) => s.(consumed := s.consumed + n, pending := s.pending + n)
    case Load(now) => if Flushes(s.pending, s.lastSent, now) then s.(tick := Loaded(s.pending)) else s
    case Swap =>
      if s.tick.Loaded? && s.pending == s.tick.d then s.(pending := 0, tick := InHand(s.tick.d)) else s.(tick := Idle)
    case SendOk(now) =>
      if s.tick.InHand? then s.(credited := s.credited + s.tick.d % UINT32, lastSent := now, tick := Idle) else s
    case SendFails =>
      if s.tick.InHand? then s.(pending := s.pending + s.tick.d, tick := Idle) else s
  }

  ghost predicate Run(window: nat, acts: seq<Action>, states: seq<State>) {
    && |states| == |acts| + 1
    && states[0] == START
    && forall n | 0 <= n < |acts| :: Enabled(window, states[n], acts[n]) && states[n + 1] == Apply(states[n], acts[n])
  }

  function Hand(s: State): nat {
    if s.tick.InHand? then s.tick.d else 0
  }

  predicate Conserved(window: nat, s: State) {
    && s.consumed == s.credited + s.pending + Hand(s)
    && s.consumed <= s.sent <= s.credited + window
  }

  /** At every moment of every interleaving with a peer that keeps within a clamped window:
      consumed = credited + pending + in hand; so credit never exceeds consumption, nothing
      uncredited exceeds the window, and no delta is cut by its 32-bit field. */
  lemma {:induction false} CreditConserved(window: nat, acts: seq<Action>, states: seq<State>, n: nat)
    requires Run(window, acts, states) && n < |states| && window <= MAX_WINDOW
    ensures var s := states[n];
            && s.consumed == s.credited + s.pending + Hand(s)
            && s.credited <= s.consumed <= s.sent <= s.credited + window
            && s.pending + Hand(s) <= window
            && (s.tick.InHand? ==> s.tick.d % UINT32 == s.tick.d)
  {
    if n == 0 {
    } else {
      CreditConserved(window, acts, states, n - 1);
      var s, s' := states[n - 1], states[n];
      assert Conserved(window, s) && Conserved(window, s');
    }
  }

  /** One uncontended pass of the sender over the stream. */
  function WholeTick(s: State, now: int, ok: bool): State {
    var loaded := Apply(s, Load(now));
    if loaded.tick.Loaded? then Apply(Apply(loaded, Swap), if ok then SendOk(now) else SendFails) else loaded
  }

  /** An uncontended, successful tick leaves less than the flush floor uncredited; once the
      application has caught up, a peer with a window of at least the floor can send again. */
  lemma NoStall(window: nat, s: State, now: int)
    requires s.tick.Idle? && Conserved(window, s) && FLUSH_FLOOR <= window <= MAX_WINDOW
    ensures var s' := WholeTick(s, now, true);
            && s'.consumed - s'.credited < 32_768
            && (s'.consumed == s'.sent ==> Enabled(window, s', PeerSends(1)))
  {
  }

  /** Moment of the last update sent, or 0. */
  function LastUpdate(acts: seq<Action>): int {
    if acts == [] then 0
    else if acts[|acts| - 1].SendOk? then acts[|acts| - 1].now
    else LastUpdate(acts[..|acts| - 1])
  }

  lemma {:induction false} StampIsLastUpdate(window: nat, acts: seq<Action>, states: seq<State>, n: nat)
    requires Run(window, acts, states) && n < |states|
    ensures states[n].lastSent == LastUpdate(acts[..n])
  {
    if n == 0 {
    } else {
      StampIsLastUpdate(window, acts, states, n - 1);
      assert acts[..n][..n - 1] == acts[..n - 1] && acts[..n][n - 1] == acts[n - 1];
      assert Enabled(window, states[n - 1], acts[n - 1]) && states[n] == Apply(states[n - 1], acts[n - 1]);
    }
  }

  /** What one uncontended, successful tick leaves uncredited, at any moment of any run: nothing at all
      when 32 KiB or more are owed, or when the last update was sent 200 ms ago or longer; otherwise
      exactly what was owed. */
  lemma TailCredited(window: nat, acts: seq<Action>, states: seq<State>, n: nat, now: int)
    requires Run(window, acts, states) && n < |states| && window <= MAX_WINDOW && states[n].tick.Idle?
    ensures var s, last := states[n], LastUpdate(acts[..n]);
            var s' := WholeTick(s, now, true);
            && s'.consumed == s.consumed && s'.tick.Idle?
            && s'.consumed - s'.credited
               == if s.consumed - s.credited >= 32_768 || (last != 0 && now - last >= 200_000_000) then 0
                  else s.consumed - s.credited
  {
    CreditConserved(window, acts, states, n);
    StampIsLastUpdate(window, acts, states, n);
  }

  /** The floor is exact: with any smaller window the peer can be stopped for good.  It fills the
      window, the application consumes all of it, and no tick at any later moment returns a byte. */
  lemma SmallWindowStalls(window: nat)
    returns (acts: seq<Action>, states: seq<State>)
    requires 0 < window < 32_768
    ensures Run(window, acts, states)
    ensures var s := states[|acts|];
            && s.consumed == s.sent && s.tick.Idle?
            && !Enabled(window, s, PeerSends(1))
            && forall now, ok :: WholeTick(s, now, ok) == s
  {
    acts := [PeerSends(window), Consume(window)];
    states := [START, Apply(START, acts[0]), Apply(Apply(START, acts[0]), acts[1])];
  }

  // ---------------------------------------------------------------- the sender object

  datatype Flow = Flow(pending: nat, lastSent: int)

  /** What one tick does to one stream's flow state, and the credit it sends. */
  function TickFlow(f: Flow, now: int, ok: bool): (Flow, nat) {
    if Flushes(f.pending, f.lastSent, now) && ok then (Flow(0, now), f.pending % UINT32) else (f, 0)
  }

  /** It is the uncontended pass of the step system. */
  lemma TickFlowIsWholeTick(s: State, now: int, ok: bool)
    requires s.tick.Idle?
    ensures var s' := WholeTick(s, now, ok);
            var (f, credit) := TickFlow(Flow(s.pending, s.lastSent), now, ok);
            s' == s.(pending := f.pending, lastSent := f.lastSent, credited := s.credited + credit)
  {
  }

  ghost predicate Ledger(consumed: map<StreamId, nat>, credited: map<StreamId, nat>, flow: map<StreamId, Flow>) {
    && consumed.Keys == credited.Keys == flow.Keys
    && forall id | id in flow :: consumed[id] == credited[id] + flow[id].pending
  }

  /** The updates of one tick, as a function of the flows before it. */
  ghost predicate UpdatesOf(flow: map<StreamId, Flow>, now: int, writable: set<StreamId>, updates: map<StreamId, nat>) {
    && (forall id :: id in updates <==>
          id in flow && id in writable && Flushes(flow[id].pending, flow[id].lastSent, now))
    && (forall id | id in updates :: updates[id] == TickFlow(flow[id], now, true).1)
  }

  ghost predicate FlowsAfter(flow: map<StreamId, Flow>, now: int, writable: set<StreamId>, after: map<StreamId, Flow>) {
    && after.Keys == flow.Keys
    && forall id | id in flow :: after[id] == TickFlow(flow[id], now, id in writable).0
  }

  /** One tick on one stream, in numbers: an update goes out if and only if it can be enqueued and at
      least 32 KiB are owed, or anything at all 200 ms or more after an earlier update; it carries all
      that is owed, in 32 bits, and then nothing is owed.  Without an update nothing changes. */
  lemma TickExactly(flow: map<StreamId, Flow>, now: int, writable: set<StreamId>, updates: map<StreamId, nat>,
                    after: map<StreamId, Flow>, id: StreamId)
    requires UpdatesOf(flow, now, writable, updates) && FlowsAfter(flow, now, writable, after) && id in flow
    ensures var owed, last := flow[id].pending, flow[id].lastSent;
            && (id in updates <==>
                  id in writable && owed > 0 && (owed >= 32_768 || (last != 0 && now - last >= 200_000_000)))
            && (id in updates ==> updates[id] == owed % 0x1_0000_0000 && after[id] == Flow(0, now))
            && (id !in updates ==> after[id] == flow[id])
  {
  }

  function Credit(credited: map<StreamId, nat>, updates: map<StreamId, nat>): map<StreamId, nat> {
    map id | id in credited :: credited[id] + if id in updates then updates[id] else 0
  }

  lemma LedgerTick(consumed: map<StreamId, nat>, credited: map<StreamId, nat>, flow: map<StreamId, Flow>,
                   now: int, writable: set<StreamId>, updates: map<StreamId, nat>, after: map<StreamId, Flow>)
    requires Ledger(consumed, credited, flow)
    requires UpdatesOf(flow, now, writable, updates) && FlowsAfter(flow, now, writable, after)
    ensures Ledger(consumed, Credit(credited, updates), after) <==>
            forall id | id in updates :: flow[id].pending < UINT32
  {
    var credit := Credit(credited, updates);
    forall id | id in flow
      ensures consumed[id] == credit[id] + after[id].pending <==> id in updates ==> flow[id].pending < UINT32
    {
    }
  }

  class CreditSender {
    var enabled: bool
    var flow: map<StreamId, Flow>

    // Bytes the application has taken of each stream, and credit returned for them.
    ghost var consumed: map<StreamId, nat>
    ghost var credited: map<StreamId, nat>

    /** The ledger: every byte taken is either credited or pending. */
    ghost predicate Valid()
      reads this
    {
      Ledger(consumed, credited, flow)
    }

    /** The application took n bytes of stream id: they are owed as credit, to that stream alone. */
    method OnStreamConsumed(id: StreamId, n: int)
      requires Valid()
      modifies this`flow, this`consumed
      ensures Valid()
      ensures consumed == if enabled && n > 0 && id in old(flow) then old(consumed)[id := old(consumed)[id] + n]
                          else old(consumed)
      ensures forall x | x in flow :: x in old(flow) && flow[x].lastSent == old(flow)[x].lastSent
    {
      if !enabled || n <= 0 || id !in flow {
        return;
      }
      flow := flow[id := flow[id].(pending := flow[id].pending + n)];
      consumed := consumed[id := consumed[id] + n];
    }

    /** One pass over all streams; `writable` are those whose update can be enqueued.  Returns the
        updates sent, and keeps the ledger unless an update is cut by its 32-bit field. */
    method CreditSenderTick(now: int, writable: set<StreamId>) returns (updates: map<StreamId, nat>)
      requires Valid()
      modifies this`flow, this`credited
      ensures FlowsAfter(old(flow), now, writable, flow) && UpdatesOf(old(flow), now, writable, updates)
      ensures credited == Credit(old(credited), updates)
      ensures Valid() <==> forall id | id in updates :: old(flow)[id].pending < UINT32
    {
      updates := SendUpdates(now, writable);
      LedgerTick(consumed, credited, old(flow), now, writable, updates, flow);
      credited := Credit(credited, updates);
    }

    /** The scan of the tick. */
    method SendUpdates(now: int, writable: set<StreamId>) returns (updates: map<StreamId, nat>)
      modifies this`flow
      ensures FlowsAfter(old(flow), now, writable, flow) && UpdatesOf(old(flow), now, writable, updates)
    {
      updates := map[];
      var items := flow.Keys;
      while items != {}
        invariant items <= flow.Keys == old(flow).Keys
        invariant forall id | id in items :: flow[id] == old(flow)[id]
        invariant forall id | id in old(flow) && id !in items ::
                    flow[id] == TickFlow(old(flow)[id], now, id in writable).0
        invariant forall id :: id in updates <==> id in old(flow) && id !in items && id in writable
                                                  && Flushes(old(flow)[id].pending, old(flow)[id].lastSent, now)
        invariant forall id | id in updates :: updates[id] == TickFlow(old(flow)[id], now, true).1
        decreases items
      {
        var id :| id in items;
        items := items - {id};
        var d := flow[id].pending;
        var stale := flow[id].lastSent != 0 && now - flow[id].lastSent >= WATCHDOG_NS;
        if d == 0 || (d < FLUSH_FLOOR && !stale) {
          continue;
        }
        flow := flow[id := flow[id].(pending := 0)];
        if id in writable {
          updates := updates[id := d % UINT32];
          flow := flow[id := flow[id].(lastSent := now)];
        } else {
          flow := flow[id := flow[id].(pending := flow[id].pending + d)];
        }
      }
    }
  }
}
