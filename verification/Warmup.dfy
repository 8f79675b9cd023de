/** Phased warm-up of the ready pool: the derived schedule, the phase coordinator, and the gating of
    the workers.

    Granularity: a worker's wait for the prior phase, its first enqueue, the tally increment and the
    once-guarded close are separate steps, so they interleave with every other worker's.  A worker
    signals the coordinator only on its first enqueue, and refills the bounded ready channel from
    then on. */
module Warmup {
  datatype Phase = Phase(slots: seq<int>, delayMs: int, requireDone: bool)

  datatype Config = Config(size: int, custom: seq<Phase>, staggerMs: int, phased: bool)

  // ---------------------------------------------------------------- the schedule

  /** The phases hold each of 0..size-1 exactly once, and no phase is empty. */
  ghost predicate Partition(phases: seq<Phase>, size: int) {
    && (forall k | 0 <= k < |phases| :: phases[k].slots != [])
    && (forall k, x | 0 <= k < |phases| && x in phases[k].slots :: 0 <= x < size)
    && (forall x | 0 <= x < size :: Listed(phases, x))
    && (forall k, l, x | 0 <= k < |phases| && 0 <= l < |phases| && x in phases[k].slots && x in phases[l].slots ::
          k == l)
    && (forall k | 0 <= k < |phases| :: Distinct(phases[k].slots))
  }

  ghost predicate Listed(phases: seq<Phase>, x: int) {
    exists k :: 0 <= k < |phases| && x in phases[k].slots
  }

  ghost predicate Distinct(s: seq<int>) {
    forall i, j | 0 <= i < j < |s| :: s[i] != s[j]
  }

  method RangeSlots(start: int, count: nat) returns (out: seq<int>)
    ensures |out| == count && forall i | 0 <= i < count :: out[i] == start + i
  {
    out := [];
    for i := 0 to count
      invariant |out| == i && forall j | 0 <= j < i :: out[j] == start + j
    {
      out := out + [start + i];
    }
  }

  /** The rollback schedule: one phase per slot. */
  method OnePhasePerSlot(size: int, staggerMs: int) returns (phases: seq<Phase>)
    ensures |phases| == if size < 0 then 0 else size
    ensures forall k | 0 <= k < |phases| ::
              phases[k] == Phase([k], if k == 0 then 0 else if staggerMs <= 0 then 300 else staggerMs, false)
  {
    var stagger := if staggerMs <= 0 then 300 else staggerMs;
    phases := [];
    var i := 0;
    while i < size
      invariant 0 <= i && |phases| == i && (size < 0 ==> i == 0) && (size >= 0 ==> i <= size)
      invariant forall k | 0 <= k < i :: phases[k] == Phase([k], if k == 0 then 0 else stagger, false)
    {
      var d := if i == 0 then 0 else stagger;
      phases := phases + [Phase([i], d, false)];
      i := i + 1;
    }
  }

  /** For every size of at least one the schedule the pool derives itself is a partition of its
      workers; every phase but the last gates the next one, unless phasing is off. */
  method EffectiveWarmup(c: Config) returns (phases: seq<Phase>)
    ensures c.custom != [] ==> phases == c.custom
    ensures c.custom == [] && c.size >= 1 ==> Partition(phases, c.size)
    ensures c.custom == [] && c.phased ==> |phases| == (if c.size <= 1 then 1 else if c.size <= 3 then 2 else 3)
    ensures c.custom == [] && c.phased ==> phases[0] == Phase([0], 0, true)
    ensures c.custom == [] && c.phased ==> forall k | 0 < k < |phases| ::
              phases[k].delayMs == k * 800 && phases[k].requireDone == (k < |phases| - 1)
    ensures c.custom == [] && c.phased && c.size > 3 ==> phases[1].slots == [1, 2]
    ensures c.custom == [] && !c.phased ==> forall k | 0 <= k < |phases| ::
              phases[k].slots == [k] && !phases[k].requireDone
              && phases[k].delayMs == (if k == 0 then 0 else if c.staggerMs <= 0 then 300 else c.staggerMs)
  {
    if |c.custom| > 0 {
      return c.custom;
    }
    if !c.phased {
      phases := OnePhasePerSlot(c.size, c.staggerMs);
      OnePerSlot(phases);
      return;
    }
    if c.size <= 1 {
      phases := [Phase([0], 0, true)];
      assert c.size >= 1 ==> 0 in phases[0].slots;
      return;
    }
    if c.size <= 3 {
      var rest := RangeSlots(1, c.size - 1);
      phases := [Phase([0], 0, true), Phase(rest, 800, false)];
      HeadAndTail(phases, c.size);
      return;
    }
    var tail := RangeSlots(3, c.size - 3);
    phases := [Phase([0], 0, true), Phase([1, 2], 800, true)] + [Phase(tail, 1600, false)];
    HeadMidTail(phases, c.size);
  }

  lemma OnePerSlot(phases: seq<Phase>)
    requires forall k | 0 <= k < |phases| :: phases[k].slots == [k]
    ensures Partition(phases, |phases|)
  {
    forall x | 0 <= x < |phases|
      ensures Listed(phases, x)
    {
      assert phases[x].slots[0] == x;
    }
  }

  lemma HeadAndTail(phases: seq<Phase>, size: int)
    requires size >= 2 && |phases| == 2 && phases[0].slots == [0]
    requires |phases[1].slots| == size - 1 && forall i | 0 <= i < size - 1 :: phases[1].slots[i] == 1 + i
    ensures Partition(phases, size)
  {
    forall x | 0 <= x < size
      ensures Listed(phases, x)
    {
      if x == 0 {
        assert phases[0].slots[0] == x;
      } else {
        assert phases[1].slots[x - 1] == x;
      }
    }
  }

  lemma HeadMidTail(phases: seq<Phase>, size: int)
    requires size >= 4 && |phases| == 3 && phases[0].slots == [0] && phases[1].slots == [1, 2]
    requires |phases[2].slots| == size - 3 && forall i | 0 <= i < size - 3 :: phases[2].slots[i] == 3 + i
    ensures Partition(phases, size)
  {
    forall x | 0 <= x < size
      ensures Listed(phases, x)
    {
      if x < 3 {
        assert phases[0].slots[0] == 0 && phases[1].slots[0] == 1 && phases[1].slots[1] == 2;
      } else {
        assert phases[2].slots[x - 3] == x;
      }
    }
  }

  // ---------------------------------------------------------------- the coordinator

  /** The first phase from index i on that lists slot w, or -1. */
  function PhaseFrom(phases: seq<Phase>, w: int, i: nat): (k: int)
    requires i <= |phases|
    ensures k == -1 || i <= k < |phases|
    ensures k == -1 ==> forall j | i <= j < |phases| :: w !in phases[j].slots
    ensures k >= 0 ==> w in phases[k].slots && forall j | i <= j < k :: w !in phases[j].slots
    decreases |phases| - i
  {
    if i == |phases| then -1 else if w in phases[i].slots then i else PhaseFrom(phases, w, i + 1)
  }

  function PhaseOf(phases: seq<Phase>, w: int): (k: int)
    ensures -1 <= k < |phases|
    ensures k >= 0 ==> w in phases[k].slots
  {
    PhaseFrom(phases, w, 0)
  }

  datatype Gates = Gates(tally: seq<nat>, fired: seq<bool>, closes: seq<nat>)

  ghost predicate Fits(phases: seq<Phase>, g: Gates) {
    |g.tally| == |g.fired| == |g.closes| == |phases|
  }

  /** The tally that lets phase k complete is reached. */
  predicate Enough(p: Phase, tally: nat) {
    tally > 0 && (p.requireDone ==> tally >= |p.slots|)
  }

  function Add(g: Gates, k: nat): Gates
    requires k < |g.tally|
  {
    g.(tally := g.tally[k := g.tally[k] + 1])
  }

  /** once.Do(close) */
  function CloseOnce(g: Gates, k: nat): Gates
    requires k < |g.fired| == |g.closes|
  {
    if g.fired[k] then g else g.(fired := g.fired[k := true], closes := g.closes[k := g.closes[k] + 1])
  }

  class PhaseCoordinator {
    const phases: seq<Phase>
    var gates: Gates

    ghost predicate Valid()
      reads this
    {
      Fits(phases, gates)
    }

    constructor (phases: seq<Phase>)
      ensures Valid() && this.phases == phases
      ensures forall k | 0 <= k < |phases| :: gates.tally[k] == 0 && !gates.fired[k] && gates.closes[k] == 0
    {
      this.phases := phases;
      gates := Gates(seq(|phases|, _ => 0), seq(|phases|, _ => false), seq(|phases|, _ => 0));
    }

    method PhaseFor(slot: int) returns (ph: int)
      ensures ph == PhaseOf(phases, slot)
    {
      for i := 0 to |phases|
        invariant PhaseOf(phases, slot) == PhaseFrom(phases, slot, i)
      {
        for j := 0 to |phases[i].slots|
          invariant forall n | 0 <= n < j :: phases[i].slots[n] != slot
        {
          if phases[i].slots[j] == slot {
            return i;
          }
        }
      }
      return -1;
    }

    method MarkSlotReady(slot: int)
      requires Valid()
      modifies this
      ensures Valid()
      ensures PhaseOf(phases, slot) < 0 ==> gates == old(gates)
      ensures PhaseOf(phases, slot) >= 0 ==>
                var k := PhaseOf(phases, slot);
                gates == var g := Add(old(gates), k); if Enough(phases[k], g.tally[k]) then CloseOnce(g, k) else g
    {
      var ph := PhaseFor(slot);
      if ph < 0 {
        return;
      }
      gates := Add(gates, ph);
      var phase := phases[ph];
      if !phase.requireDone {
        gates := CloseOnce(gates, ph);
        return;
      }
      if gates.tally[ph] >= |phase.slots| {
        gates := CloseOnce(gates, ph);
      }
    }
  }

  // ---------------------------------------------------------------- the workers

  /** Settled: this worker has nothing more to tell the coordinator. */
  datatype Status = Waiting | Connecting | Published | Closing | Settled

  /** `queued` connections sit in the ready channel, which has room for one per worker. */
  datatype State = State(status: seq<Status>, gates: Gates, queued: nat)

  datatype Action =
    | Start(w: nat)      // past the gate, first attempt begins
    | Retry(w: nat)      // an attempt fails, or its connection ages out before it is enqueued
    | Publish(w: nat)    // first enqueue
    | Tally(w: nat)
    | Close(w: nat)
    | Refill(w: nat)     // a later enqueue
    | Acquire            // a consumer takes a connection

  predicate At(s: State, w: nat, x: Status) {
    w < |s.status| && s.status[w] == x
  }

  predicate Full(s: State) {
    s.queued >= |s.status|
  }

  predicate Open(s: State, k: int) {
    k <= 0 || (k <= |s.gates.fired| && s.gates.fired[k - 1])
  }

  predicate Enabled(phases: seq<Phase>, s: State, a: Action) {
    match a
    case Start(w) => At(s, w, Waiting) && Open(s, PhaseOf(phases, w))
    case Retry(w) => At(s, w, Connecting)
    case Publish(w) => At(s, w, Connecting) && !Full(s)
    case Tally(w) => At(s, w, Published)
    case Close(w) => At(s, w, Closing)
    case Refill(w) => At(s, w, Settled) && !Full(s)
    case Acquire => s.queued > 0
  }

  function Next(phases: seq<Phase>, s: State, a: Action): State
    requires Fits(phases, s.gates) && Enabled(phases, s, a)
  {
    match a
    case Start(w) => s.(status := s.status[w := Connecting])
    case Retry(w) => s
    case Publish(w) => s.(status := s.status[w := Published], queued := s.queued + 1)
    case Tally(w) =>
      var k := PhaseOf(phases, w);
      if k < 0 then s.(status := s.status[w := Settled])
      else var g := Add(s.gates, k);
           s.(status := s.status[w := if Enough(phases[k], g.tally[k]) then Closing else Settled], gates := g)
    case Close(w) =>
      var k := PhaseOf(phases, w);
      s.(status := s.status[w := Settled], gates := if k < 0 then s.gates else CloseOnce(s.gates, k))
    case Refill(w) => s.(queued := s.queued + 1)
    case Acquire => s.(queued := s.queued - 1)
  }

  /** The action moves a worker towards being settled. */
  predicate Advances(a: Action) {
    a.Start? || a.Publish? || a.Tally? || a.Close?
  }

  ghost predicate Initial(phases: seq<Phase>, s: State) {
    && Fits(phases, s.gates) && s.queued == 0
    && (forall w | 0 <= w < |s.status| :: s.status[w] == Waiting)
    && (forall k | 0 <= k < |phases| :: s.gates.tally[k] == 0 && !s.gates.fired[k] && s.gates.closes[k] == 0)
  }

  ghost predicate Run(phases: seq<Phase>, states: seq<State>, actions: seq<Action>) {
    && |states| == |actions| + 1 && Initial(phases, states[0])
    && (forall i | 0 <= i < |actions| ::
          Fits(phases, states[i].gates) && Enabled(phases, states[i], actions[i])
          && states[i + 1] == Next(phases, states[i], actions[i]))
  }

  predicate Tallied(x: Status) { x == Closing || x == Settled }

  predicate HasPublished(x: Status) { x == Published || Tallied(x) }

  /** Workers of phase k already tallied. */
  ghost function TalliedIn(phases: seq<Phase>, status: seq<Status>, k: int): set<int> {
    set w | 0 <= w < |status| && PhaseOf(phases, w) == k && Tallied(status[w])
  }

  ghost predicate TallyExact(phases: seq<Phase>, s: State) {
    Fits(phases, s.gates) &&
    forall k | 0 <= k < |phases| :: s.gates.tally[k] == |TalliedIn(phases, s.status, k)|
  }

  ghost predicate ClosedOnce(phases: seq<Phase>, s: State) {
    Fits(phases, s.gates) &&
    forall k | 0 <= k < |phases| :: s.gates.closes[k] == if s.gates.fired[k] then 1 else 0
  }

  ghost predicate Gated(phases: seq<Phase>, s: State) {
    && Fits(phases, s.gates)
    && (forall w | 0 <= w < |s.status| && s.status[w] != Waiting && PhaseOf(phases, w) > 0 ::
          s.gates.fired[PhaseOf(phases, w) - 1])
  }

  ghost predicate EarnedClose(phases: seq<Phase>, s: State) {
    && Fits(phases, s.gates)
    && (forall k | 0 <= k < |phases| && s.gates.fired[k] :: Enough(phases[k], s.gates.tally[k]))
    && (forall w | 0 <= w < |s.status| && s.status[w] == Closing ::
          PhaseOf(phases, w) >= 0 && Enough(phases[PhaseOf(phases, w)], s.gates.tally[PhaseOf(phases, w)]))
  }

  ghost predicate SomeClosing(phases: seq<Phase>, status: seq<Status>, k: int) {
    exists w :: 0 <= w < |status| && status[w] == Closing && PhaseOf(phases, w) == k
  }

  /** A phase whose tally suffices is closed or about to be. */
  ghost predicate CloseComing(phases: seq<Phase>, s: State) {
    Fits(phases, s.gates) &&
    forall k | 0 <= k < |phases| && Enough(phases[k], s.gates.tally[k]) ::
      s.gates.fired[k] || SomeClosing(phases, s.status, k)
  }

  ghost predicate Inv(phases: seq<Phase>, s: State) {
    && TallyExact(phases, s) && ClosedOnce(phases, s) && Gated(phases, s)
    && EarnedClose(phases, s) && CloseComing(phases, s)
  }

  lemma TalliedMove(phases: seq<Phase>, status: seq<Status>, w: nat, x: Status, k: int)
    requires w < |status| && !Tallied(status[w])
    ensures |TalliedIn(phases, status[w := x], k)|
            == |TalliedIn(phases, status, k)| + if Tallied(x) && PhaseOf(phases, w) == k then 1 else 0
  {
    var before := TalliedIn(phases, status, k);
    assert w !in before;
    assert TalliedIn(phases, status[w := x], k)
           == before + if Tallied(x) && PhaseOf(phases, w) == k then {w} else {};
  }

  lemma TalliedStays(phases: seq<Phase>, status: seq<Status>, w: nat, x: Status, k: int)
    requires w < |status| && Tallied(status[w]) && Tallied(x)
    ensures TalliedIn(phases, status[w := x], k) == TalliedIn(phases, status, k)
  {
  }

  lemma TallyStep(phases: seq<Phase>, s: State, a: Action)
    requires TallyExact(phases, s) && Enabled(phases, s, a)
    ensures TallyExact(phases, Next(phases, s, a))
  {
    var t := Next(phases, s, a);
    forall k | 0 <= k < |phases|
      ensures t.gates.tally[k] == |TalliedIn(phases, t.status, k)|
    {
      TallyAt(phases, s, a, k);
    }
  }

  lemma TallyAt(phases: seq<Phase>, s: State, a: Action, k: nat)
    requires Fits(phases, s.gates) && Enabled(phases, s, a) && k < |phases|
    requires s.gates.tally[k] == |TalliedIn(phases, s.status, k)|
    ensures Next(phases, s, a).gates.tally[k] == |TalliedIn(phases, Next(phases, s, a).status, k)|
  {
    var t := Next(phases, s, a);
    if Advances(a) {
      assert t.status == s.status[a.w := t.status[a.w]];
      if a.Close? {
        TalliedStays(phases, s.status, a.w, t.status[a.w], k);
      } else {
        TalliedMove(phases, s.status, a.w, t.status[a.w], k);
      }
    }
  }

  lemma GateStep(phases: seq<Phase>, s: State, a: Action)
    requires ClosedOnce(phases, s) && Gated(phases, s) && Enabled(phases, s, a)
    ensures ClosedOnce(phases, Next(phases, s, a)) && Gated(phases, Next(phases, s, a))
  {
  }

  lemma EarnedStep(phases: seq<Phase>, s: State, a: Action)
    requires EarnedClose(phases, s) && Enabled(phases, s, a)
    ensures EarnedClose(phases, Next(phases, s, a))
  {
  }

  lemma ComingStep(phases: seq<Phase>, s: State, a: Action)
    requires CloseComing(phases, s) && Enabled(phases, s, a)
    ensures CloseComing(phases, Next(phases, s, a))
  {
    var t := Next(phases, s, a);
    forall k | 0 <= k < |phases| && Enough(phases[k], t.gates.tally[k])
      ensures t.gates.fired[k] || SomeClosing(phases, t.status, k)
    {
      if a.Tally? && k == PhaseOf(phases, a.w) {
        assert t.status[a.w] == Closing;
      } else if !t.gates.fired[k] {
        var w :| 0 <= w < |s.status| && s.status[w] == Closing && PhaseOf(phases, w) == k;
        assert t.status[w] == Closing;
      }
    }
  }

  lemma InvStep(phases: seq<Phase>, s: State, a: Action)
    requires Inv(phases, s) && Enabled(phases, s, a)
    ensures Inv(phases, Next(phases, s, a))
  {
    TallyStep(phases, s, a);
    GateStep(phases, s, a);
    EarnedStep(phases, s, a);
    ComingStep(phases, s, a);
  }

  lemma InitialInv(phases: seq<Phase>, s: State)
    requires Initial(phases, s)
    ensures Inv(phases, s)
  {
    forall k | 0 <= k < |phases|
      ensures TalliedIn(phases, s.status, k) == {}
    {
    }
  }

  lemma {:induction false} RunKeepsInv(phases: seq<Phase>, states: seq<State>, actions: seq<Action>, i: nat)
    requires Run(phases, states, actions) && i < |states|
    ensures Inv(phases, states[i])
  {
    if i == 0 {
      InitialInv(phases, states[0]);
    } else {
      RunKeepsInv(phases, states, actions, i - 1);
      InvStep(phases, states[i - 1], actions[i - 1]);
    }
  }

  // ---------------------------------------------------------------- what the gate guarantees

  ghost function Elems(s: seq<int>): set<int> {
    set x | x in s
  }

  lemma {:induction false} ElemsCard(s: seq<int>)
    ensures |Elems(s)| <= |s|
    ensures |Elems(s)| == |s| ==> Distinct(s)
  {
    if s != [] {
      var p, x := s[..|s| - 1], s[|s| - 1];
      ElemsCard(p);
      assert Elems(s) == Elems(p) + {x};
      if |Elems(s)| == |s| {
        assert x !in Elems(p);
      }
    }
  }

  lemma {:induction false} FullSubset(a: set<int>, b: set<int>)
    requires a <= b && |a| >= |b|
    ensures a == b
  {
    if x: int :| x in a {
      FullSubset(a - {x}, b - {x});
      assert a == (a - {x}) + {x} && b == (b - {x}) + {x};
    } else {
      assert forall x: int :: x !in a;
      assert a == {};
    }
  }

  /** Everybody the phase lists has published; in particular the list names distinct workers of
      this pool that no earlier phase lists. */
  ghost predicate AllPublished(phases: seq<Phase>, s: State, k: nat) {
    && k < |phases|
    && Distinct(phases[k].slots)
    && (forall x | x in phases[k].slots :: 0 <= x < |s.status| && PhaseOf(phases, x) == k && HasPublished(s.status[x]))
  }

  /** A gating phase that is done had every one of its slots published: by counting, for any phase
      list, custom ones with repeated or unknown slots included (those never complete). */
  lemma DonePhasePublished(phases: seq<Phase>, s: State, k: nat)
    requires Inv(phases, s) && k < |phases| && s.gates.fired[k] && phases[k].requireDone
    ensures AllPublished(phases, s, k)
  {
    var done, all := TalliedIn(phases, s.status, k), Elems(phases[k].slots);
    assert done <= all;
    ElemsCard(phases[k].slots);
    FullSubset(done, all);
    forall x | x in phases[k].slots
      ensures x in done
    {
      assert x in all;
    }
  }

  ghost predicate PhaseDone(phases: seq<Phase>, s: State, k: nat) {
    && Fits(phases, s.gates) && k < |phases|
    && s.gates.fired[k] && s.gates.closes[k] == 1
    && (phases[k].requireDone ==> AllPublished(phases, s, k))
  }

  lemma {:induction false} EarlierPhasesDone(phases: seq<Phase>, s: State, k: nat, j: nat)
    requires Inv(phases, s) && j <= k < |phases| && s.gates.fired[k]
    ensures PhaseDone(phases, s, j)
    decreases k - j
  {
    if j == k {
      assert ClosedOnce(phases, s);
      if phases[k].requireDone {
        DonePhasePublished(phases, s, k);
      }
    } else {
      EarlierPhasesDone(phases, s, k - 1, j);
    }
  }

  ghost predicate GateHeld(phases: seq<Phase>, s: State) {
    forall w, j | 0 <= w < |s.status| && s.status[w] != Waiting && 0 <= j < PhaseOf(phases, w) ::
      PhaseDone(phases, s, j)
  }

  lemma WorkerGate(phases: seq<Phase>, s: State, w: nat, j: nat)
    requires Inv(phases, s) && w < |s.status| && s.status[w] != Waiting && j < PhaseOf(phases, w)
    ensures PhaseDone(phases, s, j)
  {
    assert Gated(phases, s);
    EarlierPhasesDone(phases, s, PhaseOf(phases, w) - 1, j);
  }

  lemma InvHoldsGate(phases: seq<Phase>, s: State)
    requires Inv(phases, s)
    ensures GateHeld(phases, s)
  {
    forall w, j | 0 <= w < |s.status| && s.status[w] != Waiting && 0 <= j < PhaseOf(phases, w)
      ensures PhaseDone(phases, s, j)
    {
      WorkerGate(phases, s, w, j);
    }
  }

  ghost predicate NoDoubleClose(phases: seq<Phase>, g: Gates) {
    |g.closes| == |phases| && forall k | 0 <= k < |phases| :: g.closes[k] <= 1
  }

  /** In every state of every run, for every phase list: a worker that has begun to connect had all
      earlier phases done, each done channel closed once, and every slot of the gating ones
      published; no channel is ever closed twice. */
  lemma WarmupGated(phases: seq<Phase>, states: seq<State>, actions: seq<Action>, i: nat)
    requires Run(phases, states, actions) && i < |states|
    ensures GateHeld(phases, states[i]) && NoDoubleClose(phases, states[i].gates)
  {
    var s := states[i];
    RunKeepsInv(phases, states, actions, i);
    assert NoDoubleClose(phases, s.gates) by {
      assert ClosedOnce(phases, s);
    }
    InvHoldsGate(phases, s);
  }

  /** A phase is done, or a worker is about to close it, exactly when enough of its workers have been
      tallied: one is enough, unless the phase waits for all it lists. */
  lemma GateOpensExactly(phases: seq<Phase>, states: seq<State>, actions: seq<Action>, i: nat, k: nat)
    requires Run(phases, states, actions) && i < |states| && k < |phases|
    ensures var s := states[i];
            && |s.gates.fired| == |phases|
            && (s.gates.fired[k] || SomeClosing(phases, s.status, k) <==>
                  var n := |set w | 0 <= w < |s.status| && PhaseOf(phases, w) == k && Tallied(s.status[w])|;
                  n >= 1 && (phases[k].requireDone ==> n >= |phases[k].slots|))
  {
    RunKeepsInv(phases, states, actions, i);
    var s := states[i];
    assert TalliedIn(phases, s.status, k)
           == set w | 0 <= w < |s.status| && PhaseOf(phases, w) == k && Tallied(s.status[w]);
  }

  // ---------------------------------------------------------------- the gate always opens

  /** Some worker can get further. */
  ghost predicate CanMove(phases: seq<Phase>, s: State) {
    exists a :: Enabled(phases, s, a) && Advances(a)
  }

  ghost predicate Resting(s: State) {
    forall w | 0 <= w < |s.status| :: s.status[w] == Waiting || s.status[w] == Settled
  }

  /** A worker has a connection it cannot enqueue, and nobody is in the middle of a signal. */
  ghost predicate Blocked(s: State) {
    && Full(s)
    && (exists w :: 0 <= w < |s.status| && s.status[w] == Connecting)
    && (forall w | 0 <= w < |s.status| :: s.status[w] != Published && s.status[w] != Closing)
  }

  lemma BusyCanMove(phases: seq<Phase>, s: State)
    requires !Resting(s) && !Blocked(s)
    ensures CanMove(phases, s)
  {
    if w: nat :| At(s, w, Published) {
      assert Enabled(phases, s, Tally(w));
    } else if w: nat :| At(s, w, Closing) {
      assert Enabled(phases, s, Close(w));
    } else {
      var w: nat :| w < |s.status| && s.status[w] != Waiting && s.status[w] != Settled;
      assert !At(s, w, Published) && !At(s, w, Closing);
      forall x | 0 <= x < |s.status|
        ensures s.status[x] != Published && s.status[x] != Closing
      {
        assert !At(s, x, Published) && !At(s, x, Closing);
      }
      assert Enabled(phases, s, Publish(w));
    }
  }

  lemma {:induction false} DistinctCard(s: seq<int>)
    requires Distinct(s)
    ensures |Elems(s)| == |s|
  {
    if s != [] {
      var p, x := s[..|s| - 1], s[|s| - 1];
      DistinctCard(p);
      assert Elems(s) == Elems(p) + {x};
    }
  }

  ghost predicate SettledThroughout(phases: seq<Phase>, status: seq<Status>, k: nat) {
    k < |phases| && forall x | x in phases[k].slots && 0 <= x < |status| :: status[x] == Settled
  }

  lemma SettledCount(phases: seq<Phase>, status: seq<Status>, k: nat)
    requires Partition(phases, |status|) && SettledThroughout(phases, status, k)
    ensures |TalliedIn(phases, status, k)| == |phases[k].slots| > 0
  {
    var done, all := TalliedIn(phases, status, k), Elems(phases[k].slots);
    forall x | x in phases[k].slots
      ensures x in done
    {
    }
    assert done == all;
    DistinctCard(phases[k].slots);
  }

  /** When nothing is under way and the workers of phase k have all settled, phase k is done. */
  lemma SettledPhaseDone(phases: seq<Phase>, s: State, k: nat)
    requires TallyExact(phases, s) && CloseComing(phases, s)
    requires Partition(phases, |s.status|) && Resting(s) && SettledThroughout(phases, s.status, k)
    ensures s.gates.fired[k]
  {
    SettledCount(phases, s.status, k);
    assert Enough(phases[k], s.gates.tally[k]);
  }

  /** Some waiting worker whose prior phase, if any, has settled throughout. */
  lemma {:induction false} NextInLine(phases: seq<Phase>, s: State, w: nat) returns (v: nat)
    requires Partition(phases, |s.status|) && Resting(s) && w < |s.status| && s.status[w] == Waiting
    ensures v < |s.status| && s.status[v] == Waiting
    ensures var k := PhaseOf(phases, v);
            k > 0 ==> SettledThroughout(phases, s.status, k - 1)
    decreases PhaseOf(phases, w)
  {
    var k := PhaseOf(phases, w);
    if k > 0 && exists x :: x in phases[k - 1].slots && 0 <= x < |s.status| && s.status[x] != Settled {
      var x :| x in phases[k - 1].slots && 0 <= x < |s.status| && s.status[x] != Settled;
      v := NextInLine(phases, s, x);
    } else {
      v := w;
    }
  }

  lemma RestingCanMove(phases: seq<Phase>, s: State, w: nat)
    requires TallyExact(phases, s) && CloseComing(phases, s) && Partition(phases, |s.status|) && Resting(s)
    requires w < |s.status| && s.status[w] != Settled
    ensures CanMove(phases, s)
  {
    var v := NextInLine(phases, s, w);
    var k := PhaseOf(phases, v);
    if k > 0 {
      SettledPhaseDone(phases, s, k - 1);
    }
    assert Enabled(phases, s, Start(v));
  }

  ghost predicate GatesShut(phases: seq<Phase>, s: State) {
    forall w | 0 <= w < |s.status| && s.status[w] == Waiting :: !Open(s, PhaseOf(phases, w))
  }

  /** With a partition (every derived schedule), as long as some worker has not settled: some worker
      can get further unless the ready channel is full, a connection waits for room in it, nobody is
      signalling and every gate a worker waits at is shut.  One acquire then ends the standstill. */
  lemma StuckExactly(phases: seq<Phase>, states: seq<State>, actions: seq<Action>, i: nat, w: nat)
    requires Run(phases, states, actions) && i < |states| && Partition(phases, |states[i].status|)
    requires w < |states[i].status| && states[i].status[w] != Settled
    ensures CanMove(phases, states[i]) <==> !(Blocked(states[i]) && GatesShut(phases, states[i]))
    ensures Blocked(states[i]) ==> AcquireHelps(phases, states[i])
  {
    var s := states[i];
    RunKeepsInv(phases, states, actions, i);
    QueueBound(phases, states, actions, i);
    if Blocked(s) {
      BlockedMoves(phases, s);
      RoomHelps(phases, s);
    } else if Resting(s) {
      RestingCanMove(phases, s, w);
    } else {
      BusyCanMove(phases, s);
    }
  }

  /** An acquire is possible, and after it some worker can get further. */
  ghost predicate AcquireHelps(phases: seq<Phase>, s: State) {
    Fits(phases, s.gates) && Enabled(phases, s, Acquire) && CanMove(phases, Next(phases, s, Acquire))
  }

  lemma RoomHelps(phases: seq<Phase>, s: State)
    requires Blocked(s) && Fits(phases, s.gates) && s.queued <= |s.status|
    ensures AcquireHelps(phases, s)
  {
    var w: nat :| w < |s.status| && s.status[w] == Connecting;
    assert Enabled(phases, Next(phases, s, Acquire), Publish(w));
  }

  /** Where everyone with a connection is blocked, only a worker at an open gate can get further. */
  lemma BlockedMoves(phases: seq<Phase>, s: State)
    requires Blocked(s)
    ensures CanMove(phases, s) <==> !GatesShut(phases, s)
  {
    if !GatesShut(phases, s) {
      var w :| 0 <= w < |s.status| && s.status[w] == Waiting && Open(s, PhaseOf(phases, w));
      assert Enabled(phases, s, Start(w));
    }
  }

  /** The channel never holds more than it has room for. */
  lemma {:induction false} QueueBound(phases: seq<Phase>, states: seq<State>, actions: seq<Action>, i: nat)
    requires Run(phases, states, actions) && i < |states|
    ensures states[i].queued <= |states[i].status| == |states[0].status|
  {
    if i > 0 {
      QueueBound(phases, states, actions, i - 1);
    }
  }

  // ---------------------------------------------------------------- with nobody acquiring

  /** Workers that have still to enqueue their first connection. */
  function Unpublished(status: seq<Status>): nat {
    if status == [] then 0
    else Unpublished(status[..|status| - 1]) + if HasPublished(status[|status| - 1]) then 0 else 1
  }

  /** The channel has room for a first connection of everybody who still has to enqueue one. */
  predicate HasRoom(s: State) {
    s.queued + Unpublished(s.status) <= |s.status|
  }

  ghost predicate AllSettled(s: State) {
    forall w | 0 <= w < |s.status| :: s.status[w] == Settled
  }

  /** Steps from s in which nobody acquires. */
  ghost predicate Unacquired(phases: seq<Phase>, s: State, states: seq<State>, actions: seq<Action>) {
    && |states| == |actions| + 1 && states[0] == s
    && (forall i | 0 <= i < |actions| ::
          Fits(phases, states[i].gates) && Enabled(phases, states[i], actions[i]) && !actions[i].Acquire?
          && states[i + 1] == Next(phases, states[i], actions[i]))
  }

  /** Every worker can still settle although nobody acquires. */
  ghost predicate CanSettle(phases: seq<Phase>, s: State) {
    exists states, actions :: Unacquired(phases, s, states, actions) && AllSettled(states[|actions|])
  }

  lemma {:induction false} UnpublishedAt(status: seq<Status>, w: nat, x: Status)
    requires w < |status|
    ensures Unpublished(status[w := x]) + (if HasPublished(status[w]) then 0 else 1)
            == Unpublished(status) + if HasPublished(x) then 0 else 1
  {
    var n := |status| - 1;
    if w == n {
      assert status[w := x][..n] == status[..n];
    } else {
      UnpublishedAt(status[..n], w, x);
      assert status[w := x][..n] == status[..n][w := x];
    }
  }

  /** Without an acquire the room needed never shrinks, and only a refill makes it grow. */
  lemma RoomStep(phases: seq<Phase>, s: State, a: Action)
    requires Fits(phases, s.gates) && Enabled(phases, s, a) && !a.Acquire?
    ensures var t := Next(phases, s, a);
            && t.queued + Unpublished(t.status) == s.queued + Unpublished(s.status) + (if a.Refill? then 1 else 0)
            && |t.status| == |s.status| && (s.queued <= |s.status| ==> t.queued <= |t.status|)
  {
    if Advances(a) {
      UnpublishedAt(s.status, a.w, Next(phases, s, a).status[a.w]);
    }
  }

  lemma {:induction false} RoomNeverFreed(phases: seq<Phase>, s: State, states: seq<State>, actions: seq<Action>,
                                        i: nat)
    requires Unacquired(phases, s, states, actions) && i <= |actions| && s.queued <= |s.status|
    ensures s.queued + Unpublished(s.status) <= states[i].queued + Unpublished(states[i].status)
    ensures states[i].queued <= |states[i].status| == |s.status|
  {
    if i > 0 {
      RoomNeverFreed(phases, s, states, actions, i - 1);
      RoomStep(phases, states[i - 1], actions[i - 1]);
    }
  }

  lemma {:induction false} SomeUnpublished(status: seq<Status>, w: nat)
    requires w < |status| && !HasPublished(status[w])
    ensures Unpublished(status) > 0
  {
    var n := |status| - 1;
    if w < n {
      SomeUnpublished(status[..n], w);
    }
  }

  lemma {:induction false} NoneUnpublished(status: seq<Status>)
    requires forall w | 0 <= w < |status| :: status[w] == Settled
    ensures Unpublished(status) == 0
  {
    if status != [] {
      NoneUnpublished(status[..|status| - 1]);
    }
  }

  /** Where there is room, some worker gets further, so long as one has not settled. */
  lemma RoomCanMove(phases: seq<Phase>, s: State, w: nat)
    requires Inv(phases, s) && Partition(phases, |s.status|) && HasRoom(s)
    requires w < |s.status| && s.status[w] != Settled
    ensures CanMove(phases, s)
  {
    if Blocked(s) {
      var v: nat :| v < |s.status| && s.status[v] == Connecting;
      SomeUnpublished(s.status, v);
      assert false;
    } else if Resting(s) {
      RestingCanMove(phases, s, w);
    } else {
      BusyCanMove(phases, s);
    }
  }

  lemma {:induction false} RoomSettles(phases: seq<Phase>, s: State)
    requires Inv(phases, s) && Partition(phases, |s.status|) && HasRoom(s)
    ensures CanSettle(phases, s)
    decreases Remaining(s.status)
  {
    if AllSettled(s) {
      assert Unacquired(phases, s, [s], []);
    } else {
      var w: nat :| w < |s.status| && s.status[w] != Settled;
      RoomCanMove(phases, s, w);
      var a :| Enabled(phases, s, a) && Advances(a);
      var t := Next(phases, s, a);
      InvStep(phases, s, a);
      RoomStep(phases, s, a);
      EveryStepAdvances(phases, s, a);
      RoomSettles(phases, t);
      SettlesAfter(phases, s, a);
    }
  }

  lemma SettlesAfter(phases: seq<Phase>, s: State, a: Action)
    requires Fits(phases, s.gates) && Enabled(phases, s, a) && !a.Acquire? && CanSettle(phases, Next(phases, s, a))
    ensures CanSettle(phases, s)
  {
    var t := Next(phases, s, a);
    var states: seq<State>, actions :| Unacquired(phases, t, states, actions) && AllSettled(states[|actions|]);
    var states', actions' := [s] + states, [a] + actions;
    forall i | 0 <= i < |actions'|
      ensures Fits(phases, states'[i].gates) && Enabled(phases, states'[i], actions'[i]) && !actions'[i].Acquire?
      ensures states'[i + 1] == Next(phases, states'[i], actions'[i])
    {
      if i > 0 {
        assert states'[i] == states[i - 1] && actions'[i] == actions[i - 1] && states'[i + 1] == states[i];
      }
    }
    assert states'[|actions'|] == states[|actions|];
  }

  lemma SettlingNeedsRoom(phases: seq<Phase>, s: State)
    requires s.queued <= |s.status| && CanSettle(phases, s)
    ensures HasRoom(s)
  {
    var states: seq<State>, actions :| Unacquired(phases, s, states, actions) && AllSettled(states[|actions|]);
    RoomNeverFreed(phases, s, states, actions, |actions|);
    NoneUnpublished(states[|actions|].status);
  }

  /** With a partition (every derived schedule), at any moment of any run: all workers can still settle
      without an acquire, which closes every phase, if and only if the channel has room for everybody
      who has not enqueued yet. */
  lemma SettlesExactly(phases: seq<Phase>, states: seq<State>, actions: seq<Action>, i: nat)
    requires Run(phases, states, actions) && i < |states| && Partition(phases, |states[i].status|)
    ensures CanSettle(phases, states[i]) <==> HasRoom(states[i])
  {
    RunKeepsInv(phases, states, actions, i);
    QueueBound(phases, states, actions, i);
    if HasRoom(states[i]) {
      RoomSettles(phases, states[i]);
    } else if CanSettle(phases, states[i]) {
      SettlingNeedsRoom(phases, states[i]);
    }
  }

  /** What an action does to that: a refill spoils it exactly when it takes the last room to spare, and
      no other action but an acquire changes it. */
  lemma RefillHarmlessExactly(phases: seq<Phase>, states: seq<State>, actions: seq<Action>, i: nat)
    requires Run(phases, states, actions) && i < |actions| && Partition(phases, |states[i].status|)
    requires CanSettle(phases, states[i])
    ensures CanSettle(phases, states[i + 1]) <==>
            (actions[i].Refill? ==> states[i].queued + Unpublished(states[i].status) < |states[i].status|)
  {
    var s, t, a := states[i], states[i + 1], actions[i];
    assert Fits(phases, s.gates) && Enabled(phases, s, a) && t == Next(phases, s, a);
    assert |t.status| == |s.status|;
    SettlesExactly(phases, states, actions, i);
    SettlesExactly(phases, states, actions, i + 1);
    if !a.Acquire? {
      RoomStep(phases, s, a);
    }
  }

  // Two workers, the second behind the first, and one that refills before anybody acquires.
  const TWO_PHASES: seq<Phase> := [Phase([0], 0, true), Phase([1], 0, false)]

  const REFILLING: seq<Action> := [Start(0), Publish(0), Tally(0), Close(0), Refill(0), Start(1)]

  function Moment(n: nat): State {
    match n
    case 0 => State([Waiting, Waiting], Gates([0, 0], [false, false], [0, 0]), 0)
    case 1 => State([Connecting, Waiting], Gates([0, 0], [false, false], [0, 0]), 0)
    case 2 => State([Published, Waiting], Gates([0, 0], [false, false], [0, 0]), 1)
    case 3 => State([Closing, Waiting], Gates([1, 0], [false, false], [0, 0]), 1)
    case 4 => State([Settled, Waiting], Gates([1, 0], [true, false], [1, 0]), 1)
    case 5 => State([Settled, Waiting], Gates([1, 0], [true, false], [1, 0]), 2)
    case _ => State([Settled, Connecting], Gates([1, 0], [true, false], [1, 0]), 2)
  }

  /** It does come to a standstill: the first worker refills the channel while nobody acquires, and
      the second can only let its connection age out and try again.  The refill decides it: before it
      both could settle, after it the second cannot, although it is still free to start. */
  lemma RefillsBlockWarmup() returns (states: seq<State>)
    ensures Run(TWO_PHASES, states, REFILLING) && |states| == 7
    ensures At(states[6], 1, Connecting) && !CanMove(TWO_PHASES, states[6])
    ensures CanSettle(TWO_PHASES, states[4]) && CanMove(TWO_PHASES, states[5]) && !CanSettle(TWO_PHASES, states[5])
  {
    states := RefillingRun();
    RefillDecides(states);
    Standstill(states[6]);
  }

  lemma Standstill(s: State)
    requires s == Moment(6)
    ensures At(s, 1, Connecting) && !CanMove(TWO_PHASES, s)
  {
  }

  lemma RefillingRun() returns (states: seq<State>)
    ensures Run(TWO_PHASES, states, REFILLING) && |states| == 7
    ensures states[4] == Moment(4) && states[5] == Moment(5) && states[6] == Moment(6)
  {
    states := seq(7, n requires 0 <= n => Moment(n));
    forall n | 0 <= n < 6
      ensures Fits(TWO_PHASES, states[n].gates) && Enabled(TWO_PHASES, states[n], REFILLING[n])
      ensures states[n + 1] == Next(TWO_PHASES, states[n], REFILLING[n])
    {
      MomentStep(n);
    }
  }

  lemma RefillDecides(states: seq<State>)
    requires Run(TWO_PHASES, states, REFILLING) && states[4] == Moment(4) && states[5] == Moment(5)
    ensures CanSettle(TWO_PHASES, states[4]) && CanMove(TWO_PHASES, states[5]) && !CanSettle(TWO_PHASES, states[5])
  {
    OnePerSlot(TWO_PHASES);
    assert Unpublished([Settled, Waiting]) == 1 by {
      assert [Settled, Waiting][..1] == [Settled] && [Settled][..0] == [];
    }
    SettlesExactly(TWO_PHASES, states, REFILLING, 4);
    SettlesExactly(TWO_PHASES, states, REFILLING, 5);
    assert Enabled(TWO_PHASES, states[5], REFILLING[5]) && Advances(REFILLING[5]);
  }

  lemma MomentStep(n: nat)
    requires n < 6
    ensures Fits(TWO_PHASES, Moment(n).gates) && Enabled(TWO_PHASES, Moment(n), REFILLING[n])
    ensures Moment(n + 1) == Next(TWO_PHASES, Moment(n), REFILLING[n])
  {
    assert PhaseOf(TWO_PHASES, 0) == 0;
    assert PhaseOf(TWO_PHASES, 1) == 1;
  }

  ghost predicate AllClosed(phases: seq<Phase>, g: Gates) {
    |g.closes| == |phases| && forall k | 0 <= k < |phases| :: g.closes[k] == 1
  }

  /** Where every worker has settled, every phase is done and was closed exactly once. */
  lemma WarmupCompletes(phases: seq<Phase>, states: seq<State>, actions: seq<Action>, i: nat)
    requires Run(phases, states, actions) && i < |states| && Partition(phases, |states[i].status|)
    requires forall w | 0 <= w < |states[i].status| :: states[i].status[w] == Settled
    ensures AllClosed(phases, states[i].gates)
  {
    RunKeepsInv(phases, states, actions, i);
    forall k | 0 <= k < |phases|
      ensures states[i].gates.fired[k]
    {
      SettledPhaseDone(phases, states[i], k);
    }
  }

  function Remaining(status: seq<Status>): nat {
    if status == [] then 0
    else Remaining(status[..|status| - 1]) + match status[|status| - 1]
                                             case Waiting => 4
                                             case Connecting => 3
                                             case Published => 2
                                             case Closing => 1
                                             case Settled => 0
  }

  lemma {:induction false} RemainingAt(status: seq<Status>, w: nat, x: Status)
    requires w < |status| && Remaining([x]) < Remaining([status[w]])
    ensures Remaining(status[w := x]) < Remaining(status)
  {
    var n := |status| - 1;
    if w == n {
      assert status[w := x][..n] == status[..n];
      assert [x][..0] == [] && [status[w]][..0] == [];
    } else {
      RemainingAt(status[..n], w, x);
      assert status[w := x][..n] == status[..n][w := x];
    }
  }

  /** Every step that advances a worker uses up some of a bounded supply. */
  lemma EveryStepAdvances(phases: seq<Phase>, s: State, a: Action)
    requires Fits(phases, s.gates) && Enabled(phases, s, a) && Advances(a)
    ensures Remaining(Next(phases, s, a).status) < Remaining(s.status)
  {
    var t := Next(phases, s, a);
    var from, to := s.status[a.w], t.status[a.w];
    assert [from][..0] == [] && [to][..0] == [];
    RemainingAt(s.status, a.w, to);
  }

  /** Failed attempts, age-outs, refills and acquires in a run. */
  function Idle(actions: seq<Action>): nat {
    if actions == [] then 0
    else Idle(actions[..|actions| - 1]) + if Advances(actions[|actions| - 1]) then 0 else 1
  }

  lemma {:induction false} AllWaiting(status: seq<Status>)
    requires forall w | 0 <= w < |status| :: status[w] == Waiting
    ensures Remaining(status) == 4 * |status|
  {
    if status != [] {
      AllWaiting(status[..|status| - 1]);
    }
  }

  lemma {:induction false} Spent(phases: seq<Phase>, states: seq<State>, actions: seq<Action>, i: nat)
    requires Run(phases, states, actions) && i < |states|
    ensures i + Remaining(states[i].status) <= Remaining(states[0].status) + Idle(actions[..i])
  {
    if i == 0 {
    } else {
      Spent(phases, states, actions, i - 1);
      assert actions[..i][..i - 1] == actions[..i - 1];
      if Advances(actions[i - 1]) {
        EveryStepAdvances(phases, states[i - 1], actions[i - 1]);
      }
    }
  }

  /** Warm-up itself takes at most four steps per worker, however many attempts fail and however often
      settled workers refill the channel meanwhile. */
  lemma WarmupIsBounded(phases: seq<Phase>, states: seq<State>, actions: seq<Action>)
    requires Run(phases, states, actions)
    ensures |actions| <= 4 * |states[0].status| + Idle(actions)
  {
    Spent(phases, states, actions, |actions|);
    AllWaiting(states[0].status);
    assert actions[..|actions|] == actions;
  }
}
