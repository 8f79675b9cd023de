/** The timeout hysteresis one atomic action at a time.  A timeout is noted in three actions: raise the
    streak, test it together with the capability, drop the capability and count the drop.  A
    renegotiation is two: clear the streak, then re-arm the capability.

    Uninterrupted, they lose the capability at the third timeout in a row of an epoch and count that
    once.  Interleaved they need not: this module gives runs that fail, and the exact schedules
    under which every run keeps the promise. */
module HysteresisRace {
  import opened Counting
  import MigrateAck

  datatype Note =
    | Raised(n: nat)   // streak raised to n, not yet tested
    | Passed           // test passed, capability not yet dropped

  datatype State = State(
    streak: nat,
    capable: bool,
    notes: map<nat, Note>,    // timeouts being noted
    resets: set<nat>)         // renegotiations between their two stores

  const FRESH: State := State(0, true, map[], {})

  datatype Action =
    | RaiseStreak(k: nat)
    | Test(k: nat)
    | Drop(k: nat)
    | Answered               // a reply clears the streak
    | ClearStreak(r: nat)    // first store of a renegotiation
    | Rearm(r: nat)          // second store

  predicate Passes(s: State, k: nat) {
    k in s.notes && s.notes[k] == Raised(MigrateAck.THRESHOLD) && s.capable
  }

  ghost predicate Next(s: State, a: Action, s': State) {
    match a
    case RaiseStreak(k) =>
      k !in s.notes && s' == s.(streak := s.streak + 1, notes := s.notes[k := Raised(s.streak + 1)])
    case Test(k) =>
      k in s.notes && s.notes[k].Raised?
      && s' == s.(notes := if Passes(s, k) then s.notes[k := Passed] else s.notes - {k})
    case Drop(k) =>
      k in s.notes && s.notes[k].Passed? && s' == s.(capable := false, notes := s.notes - {k})
    case Answered => s' == s.(streak := 0)
    case ClearStreak(r) => r !in s.resets && s' == s.(streak := 0, resets := s.resets + {r})
    case Rearm(r) => r in s.resets && s' == s.(capable := true, resets := s.resets - {r})
  }

  // ---------------------------------------------------------------- what is promised

  /** What the actions themselves say of the current epoch, which starts where the capability was
      last re-armed: the timeouts in a row at its end, whether some timeout was its third in a row,
      and the drops counted in it. */
  datatype Epoch = Epoch(row: nat, third: bool, drops: nat)

  const NEW_EPOCH: Epoch := Epoch(0, false, 0)

  function Observe(e: Epoch, a: Action): Epoch {
    match a
    case RaiseStreak(_) => e.(row := e.row + 1, third := e.third || e.row + 1 == MigrateAck.THRESHOLD)
    case Test(_) => e
    case Drop(_) => e.(drops := e.drops + 1)
    case Answered => e.(row := 0)
    case ClearStreak(_) => e.(row := 0)
    case Rearm(_) => NEW_EPOCH
  }

  function History(e: Epoch, acts: seq<Action>): Epoch {
    if acts == [] then e else Observe(History(e, acts[..|acts| - 1]), acts[|acts| - 1])
  }

  function CanDrop(): Note -> bool {
    (w: Note) => w == Passed || w == Raised(MigrateAck.THRESHOLD)
  }

  function HasPassed(): Note -> bool {
    (w: Note) => w.Passed?
  }

  /** No note can still drop the capability. */
  ghost predicate Quiet(s: State) {
    forall k | k in s.notes :: !CanDrop()(s.notes[k])
  }

  /** The promise: within an epoch the capability falls only once a third timeout in a row has been
      raised, its fall is counted once, and when nothing is under way it has fallen if there was one. */
  ghost predicate Promised(s: State, e: Epoch) {
    && e.drops <= 1
    && (e.drops == 1 ==> e.third)
    && (e.third && Quiet(s) ==> e.drops == 1)
    && (s.capable <==> e.drops == 0)
  }

  // ---------------------------------------------------------------- schedules

  ghost predicate NoneHasPassed(s: State) {
    forall l | l in s.notes :: !s.notes[l].Passed?
  }

  /** No test passes while another note sits between its test and its drop, and the capability is
      re-armed only while the streak is still clear and no note can drop it. */
  ghost predicate Orderly(s: State, a: Action) {
    match a
    case Test(k) => Passes(s, k) ==> NoneHasPassed(s)
    case Rearm(_) => s.streak == 0 && Quiet(s)
    case _ => true
  }

  /** A path of orderly actions from s. */
  ghost predicate OrderlyPath(s: State, states: seq<State>, acts: seq<Action>) {
    && |states| == |acts| + 1 && states[0] == s
    && forall n | 0 <= n < |acts| :: Next(states[n], acts[n], states[n + 1]) && Orderly(states[n], acts[n])
  }

  ghost predicate Inv(s: State, e: Epoch) {
    && e.row == s.streak
    && (s.capable <==> e.drops == 0)
    && e.drops + Count(s.notes, HasPassed()) <= 1
    && (e.third <==> e.drops > 0 || Count(s.notes, CanDrop()) > 0)
  }

  lemma OrderlyStep(s: State, e: Epoch, a: Action, s': State)
    requires Inv(s, e) && Next(s, a, s') && Orderly(s, a)
    ensures Inv(s', Observe(e, a))
  {
    CountZero(s.notes, HasPassed());
    CountZero(s.notes, CanDrop());
    match a
    case RaiseStreak(k) =>
      CountStore(s.notes, k, Raised(s.streak + 1), HasPassed());
      CountStore(s.notes, k, Raised(s.streak + 1), CanDrop());
    case Test(k) =>
      CountStore(s.notes, k, Passed, HasPassed());
      CountStore(s.notes, k, Passed, CanDrop());
      CountDelete(s.notes, k, HasPassed());
      CountDelete(s.notes, k, CanDrop());
    case Drop(k) =>
      CountDelete(s.notes, k, HasPassed());
    case _ =>
  }

  lemma {:induction false} OrderlyPathKeeps(s: State, e: Epoch, states: seq<State>, acts: seq<Action>)
    requires Inv(s, e) && OrderlyPath(s, states, acts)
    ensures Inv(states[|acts|], History(e, acts))
  {
    if acts == [] {
    } else {
      var n := |acts| - 1;
      assert OrderlyPath(s, states[..n + 1], acts[..n]);
      OrderlyPathKeeps(s, e, states[..n + 1], acts[..n]);
      OrderlyStep(states[n], History(e, acts[..n]), acts[n], states[n + 1]);
    }
  }

  /** Every orderly run from a fresh pool keeps the promise at every moment. */
  lemma OrderlyRunsKeep(states: seq<State>, acts: seq<Action>, n: nat)
    requires OrderlyPath(FRESH, states, acts) && n <= |acts|
    ensures Promised(states[n], History(NEW_EPOCH, acts[..n]))
  {
    assert OrderlyPath(FRESH, states[..n + 1], acts[..n]);
    OrderlyPathKeeps(FRESH, NEW_EPOCH, states[..n + 1], acts[..n]);
  }

  // ---------------------------------------------------------------- and only those

  /** However the run goes on, as long as it is orderly, the promise is kept. */
  ghost predicate StaysPromised(s: State, e: Epoch) {
    forall states, acts :: OrderlyPath(s, states, acts) ==> Promised(states[|acts|], History(e, acts))
  }

  /** A continuation that breaks the promise. */
  ghost predicate Breaks(s: State, e: Epoch, states: seq<State>, acts: seq<Action>) {
    OrderlyPath(s, states, acts) && !Promised(states[|acts|], History(e, acts))
  }

  lemma {:induction false} Unused(notes: map<nat, Note>) returns (k: nat)
    ensures forall l | l in notes :: l < k
    decreases |notes|
  {
    if notes == map[] {
      k := 0;
    } else {
      var l :| l in notes;
      var rest := notes - {l};
      assert rest.Keys == notes.Keys - {l};
      var m := Unused(rest);
      k := if l < m then m else l + 1;
      forall j | j in notes
        ensures j < k
      {
        assert j == l || j in rest;
      }
    }
  }

  /** One more timeout raised by a new note. */
  function Raise(s: State, k: nat): State {
    s.(streak := s.streak + 1, notes := s.notes[k := Raised(s.streak + 1)])
  }

  /** One more orderly action on a path. */
  lemma Extend(s: State, e: Epoch, states: seq<State>, acts: seq<Action>, a: Action, t: State)
    requires OrderlyPath(s, states, acts) && Next(states[|acts|], a, t) && Orderly(states[|acts|], a)
    ensures OrderlyPath(s, states + [t], acts + [a]) && (states + [t])[|acts + [a]|] == t
    ensures History(e, acts + [a]) == Observe(History(e, acts), a)
  {
    assert (acts + [a])[..|acts|] == acts;
  }

  /** A second note passes: both drop. */
  lemma TwoPassedBreak(s: State, e: Epoch, k: nat, l: nat) returns (states: seq<State>, acts: seq<Action>)
    requires k != l && k in s.notes && l in s.notes && s.notes[k].Passed? && s.notes[l].Passed?
    ensures Breaks(s, e, states, acts)
  {
    var t := s.(capable := false, notes := s.notes - {k});
    Extend(s, e, [s], [], Drop(k), t);
    Extend(s, e, [s] + [t], [] + [Drop(k)], Drop(l), t.(notes := t.notes - {l}));
    states, acts := [s] + [t] + [t.(notes := t.notes - {l})], [] + [Drop(k)] + [Drop(l)];
  }

  /** A note that can drop lives on into a new epoch: it drops what no timeout of that epoch cost. */
  lemma StaleNoteBreaks(s: State) returns (states: seq<State>, acts: seq<Action>)
    requires s.capable && !Quiet(s)
    ensures Breaks(s, NEW_EPOCH, states, acts)
  {
    if k :| k in s.notes && s.notes[k].Passed? {
      var t := s.(capable := false, notes := s.notes - {k});
      Extend(s, NEW_EPOCH, [s], [], Drop(k), t);
      states, acts := [s] + [t], [] + [Drop(k)];
    } else {
      var k :| k in s.notes && CanDrop()(s.notes[k]);
      var t := s.(notes := s.notes[k := Passed]);
      var u := t.(capable := false, notes := t.notes - {k});
      Extend(s, NEW_EPOCH, [s], [], Test(k), t);
      Extend(s, NEW_EPOCH, [s] + [t], [] + [Test(k)], Drop(k), u);
      states, acts := [s] + [t] + [u], [] + [Test(k)] + [Drop(k)];
    }
  }

  /** Raising three timeouts, all by notes not in use. */
  lemma RaiseThree(s: State, e: Epoch, k: nat) returns (states: seq<State>, acts: seq<Action>)
    requires forall l | l in s.notes :: l < k
    ensures OrderlyPath(s, states, acts) && |acts| == 3
    ensures states[3] == Raise(Raise(Raise(s, k), k + 1), k + 2)
    ensures History(e, acts) == Observe(Observe(Observe(e, RaiseStreak(k)), RaiseStreak(k + 1)), RaiseStreak(k + 2))
  {
    var r := Raise(s, k);
    var t := Raise(r, k + 1);
    Extend(s, e, [s], [], RaiseStreak(k), r);
    Extend(s, e, [s] + [r], [] + [RaiseStreak(k)], RaiseStreak(k + 1), t);
    Extend(s, e, [s] + [r] + [t], [] + [RaiseStreak(k)] + [RaiseStreak(k + 1)], RaiseStreak(k + 2), Raise(t, k + 2));
    states := [s] + [r] + [t] + [Raise(t, k + 2)];
    acts := [] + [RaiseStreak(k)] + [RaiseStreak(k + 1)] + [RaiseStreak(k + 2)];
  }

  /** A timeout raised to 3 by a new note tests and drops. */
  lemma RaiseAndDrop(s: State, e: Epoch, states: seq<State>, acts: seq<Action>, k: nat)
    returns (ts: seq<State>, bs: seq<Action>)
    requires OrderlyPath(s, states, acts)
    requires var t := states[|acts|];
             t.capable && t.streak == MigrateAck.THRESHOLD - 1 && k !in t.notes && NoneHasPassed(t)
    ensures OrderlyPath(s, ts, bs)
    ensures History(e, bs) == Observe(Observe(Observe(History(e, acts), RaiseStreak(k)), Test(k)), Drop(k))
  {
    var t := Raise(states[|acts|], k);
    var u := t.(notes := t.notes[k := Passed]);
    var v := u.(capable := false, notes := u.notes - {k});
    Extend(s, e, states, acts, RaiseStreak(k), t);
    Extend(s, e, states + [t], acts + [RaiseStreak(k)], Test(k), u);
    Extend(s, e, states + [t] + [u], acts + [RaiseStreak(k)] + [Test(k)], Drop(k), v);
    ts, bs := states + [t] + [u] + [v], acts + [RaiseStreak(k)] + [Test(k)] + [Drop(k)];
  }

  /** The streak starts the epoch at 1 or 2: the capability falls before a third timeout in a row. */
  lemma EarlyThirdBreaks(s: State) returns (states: seq<State>, acts: seq<Action>)
    requires s.capable && Quiet(s) && 0 < s.streak < MigrateAck.THRESHOLD
    ensures Breaks(s, NEW_EPOCH, states, acts)
  {
    var k := Unused(s.notes);
    var t := Raise(s, k);
    if s.streak == 2 {
      states, acts := RaiseAndDrop(s, NEW_EPOCH, [s], [], k);
    } else {
      Extend(s, NEW_EPOCH, [s], [], RaiseStreak(k), t);
      assert NoneHasPassed(t);
      states, acts := RaiseAndDrop(s, NEW_EPOCH, [s] + [t], [] + [RaiseStreak(k)], k + 1);
    }
  }

  /** The streak is past 3 when the epoch starts: three more timeouts in a row do not cost it. */
  lemma MissedThirdBreaks(s: State) returns (states: seq<State>, acts: seq<Action>)
    requires s.capable && Quiet(s) && s.streak >= MigrateAck.THRESHOLD
    ensures Breaks(s, NEW_EPOCH, states, acts)
  {
    var k := Unused(s.notes);
    states, acts := RaiseThree(s, NEW_EPOCH, k);
    assert Quiet(states[3]);
  }

  /** Whatever is not orderly can break the promise later on, by orderly actions alone. */
  lemma DisorderBreaks(s: State, e: Epoch, a: Action, s': State) returns (states: seq<State>, acts: seq<Action>)
    requires Inv(s, e) && Next(s, a, s') && !Orderly(s, a)
    ensures Breaks(s', Observe(e, a), states, acts)
  {
    match a
    case Test(k) =>
      var l :| l in s.notes && s.notes[l].Passed?;
      states, acts := TwoPassedBreak(s', e, k, l);
    case Rearm(_) =>
      if !Quiet(s) {
        states, acts := StaleNoteBreaks(s');
      } else if s.streak < MigrateAck.THRESHOLD {
        states, acts := EarlyThirdBreaks(s');
      } else {
        states, acts := MissedThirdBreaks(s');
      }
  }

  /** The condition is exact.  After any orderly run from a fresh pool, let one more action happen:
      all orderly continuations keep the promise if and only if that action is orderly too. */
  lemma OrderExactly(states: seq<State>, acts: seq<Action>, a: Action, s': State)
    requires OrderlyPath(FRESH, states, acts) && Next(states[|acts|], a, s')
    ensures StaysPromised(s', History(NEW_EPOCH, acts + [a])) <==> Orderly(states[|acts|], a)
  {
    var s, e := states[|acts|], History(NEW_EPOCH, acts);
    assert (acts + [a])[..|acts|] == acts;
    OrderlyPathKeeps(FRESH, NEW_EPOCH, states, acts);
    if Orderly(s, a) {
      OrderlyStep(s, e, a, s');
      forall ts, bs | OrderlyPath(s', ts, bs)
        ensures Promised(ts[|bs|], History(Observe(e, a), bs))
      {
        OrderlyPathKeeps(s', Observe(e, a), ts, bs);
      }
    } else {
      var ts, bs := DisorderBreaks(s, e, a, s');
    }
  }

  // ---------------------------------------------------------------- runs that fail

  /** A path of any actions, orderly or not. */
  ghost predicate Path(s: State, states: seq<State>, acts: seq<Action>) {
    && |states| == |acts| + 1 && states[0] == s
    && forall n | 0 <= n < |acts| :: Next(states[n], acts[n], states[n + 1])
  }

  /** Without interruption these actions are the one-step bookkeeping of MigrateAck: a timeout noted from
      start to end, and a renegotiation. */
  lemma UninterruptedIsReact(s: State, drops: nat, k: nat, r: nat)
    returns (states: seq<State>, acts: seq<Action>, ts: seq<State>, bs: seq<Action>)
    requires k !in s.notes && r !in s.resets
    ensures Path(s, states, acts) && Path(s, ts, bs) && bs == [ClearStreak(r), Rearm(r)]
    ensures var h := MigrateAck.React(MigrateAck.Hysteresis(s.streak, s.capable, drops), MigrateAck.Timeout);
            && states[|acts|] == s.(streak := h.streak, capable := h.capable)
            && acts == [RaiseStreak(k), Test(k)] + if h.drops > drops then [Drop(k)] else []
    ensures var h := MigrateAck.React(MigrateAck.Hysteresis(s.streak, s.capable, drops), MigrateAck.Renegotiate);
            ts[|bs|] == s.(streak := h.streak, capable := h.capable)
  {
    var t := Raise(s, k);
    var done := s.(streak := s.streak + 1);
    assert t.notes - {k} == s.notes;
    if Passes(t, k) {
      var u := t.(notes := t.notes[k := Passed]);
      assert u.notes - {k} == s.notes;
      states, acts := [s, t, u, done.(capable := false)], [RaiseStreak(k), Test(k), Drop(k)];
    } else {
      states, acts := [s, t, done], [RaiseStreak(k), Test(k)];
    }
    var c := s.(streak := 0, resets := s.resets + {r});
    assert c.resets - {r} == s.resets;
    ts, bs := [s, c, s.(streak := 0, capable := true)], [ClearStreak(r), Rearm(r)];
  }

  lemma Go(states: seq<State>, acts: seq<Action>, a: Action, t: State) returns (ts: seq<State>, bs: seq<Action>)
    requires Path(FRESH, states, acts) && Next(states[|acts|], a, t)
    ensures Path(FRESH, ts, bs) && bs == acts + [a] && ts[|bs|] == t
    ensures History(NEW_EPOCH, bs) == Observe(History(NEW_EPOCH, acts), a)
  {
    ts, bs := states + [t], acts + [a];
    assert bs[..|acts|] == acts;
  }

  /** A timeout noted without interruption, not the third. */
  lemma GoTimeout(states: seq<State>, acts: seq<Action>, k: nat) returns (ts: seq<State>, bs: seq<Action>)
    requires Path(FRESH, states, acts) && k !in states[|acts|].notes
    requires states[|acts|].streak + 1 != MigrateAck.THRESHOLD
    ensures Path(FRESH, ts, bs) && bs == acts + [RaiseStreak(k), Test(k)]
    ensures ts[|bs|] == states[|acts|].(streak := states[|acts|].streak + 1)
    ensures History(NEW_EPOCH, bs) == Observe(History(NEW_EPOCH, acts), RaiseStreak(k))
  {
    var s := states[|acts|];
    ts, bs := Go(states, acts, RaiseStreak(k), Raise(s, k));
    assert Raise(s, k).notes - {k} == s.notes;
    ts, bs := Go(ts, bs, Test(k), s.(streak := s.streak + 1));
  }

  /** Two of them in a row. */
  const TWO: seq<Action> := [RaiseStreak(1), Test(1), RaiseStreak(1), Test(1)]

  lemma GoTwo(states: seq<State>, acts: seq<Action>) returns (ts: seq<State>, bs: seq<Action>)
    requires Path(FRESH, states, acts) && 1 !in states[|acts|].notes && states[|acts|].streak == 0
    ensures Path(FRESH, ts, bs) && bs == acts + TWO
    ensures ts[|bs|] == states[|acts|].(streak := 2)
    ensures History(NEW_EPOCH, bs) == Observe(Observe(History(NEW_EPOCH, acts), RaiseStreak(1)), RaiseStreak(1))
  {
    ts, bs := GoTimeout(states, acts, 1);
    ts, bs := GoTimeout(ts, bs, 1);
  }

  /** Three timeouts from a fresh pool, the third by note 0: its test has passed. */
  lemma GoPassed() returns (states: seq<State>, acts: seq<Action>)
    ensures Path(FRESH, states, acts) && acts == TO_THIRD + [Test(0)]
    ensures states[|acts|] == State(3, true, map[0 := Passed], {})
    ensures History(NEW_EPOCH, acts) == Epoch(3, true, 0)
  {
    states, acts := GoThird();
    states, acts := Go(states, acts, Test(0), State(3, true, map[0 := Passed], {}));
  }

  /** Two timeouts noted, a third raised and not yet tested. */
  const TO_THIRD: seq<Action> := TWO + [RaiseStreak(0)]

  lemma GoThird() returns (states: seq<State>, acts: seq<Action>)
    ensures Path(FRESH, states, acts) && acts == TO_THIRD
    ensures states[|acts|] == State(3, true, map[0 := Raised(3)], {})
    ensures History(NEW_EPOCH, acts) == Epoch(3, true, 0)
  {
    states, acts := GoTwo([FRESH], []);
    states, acts := Go(states, acts, RaiseStreak(0), State(3, true, map[0 := Raised(3)], {}));
  }

  /** A whole renegotiation. */
  lemma GoRenegotiate(states: seq<State>, acts: seq<Action>) returns (ts: seq<State>, bs: seq<Action>)
    requires Path(FRESH, states, acts) && states[|acts|].resets == {}
    ensures Path(FRESH, ts, bs) && bs == acts + [ClearStreak(0), Rearm(0)]
    ensures ts[|bs|] == states[|acts|].(streak := 0, capable := true) && History(NEW_EPOCH, bs) == NEW_EPOCH
  {
    var s := states[|acts|];
    ts, bs := Go(states, acts, ClearStreak(0), s.(streak := 0, resets := {0}));
    ts, bs := Go(ts, bs, Rearm(0), s.(streak := 0, capable := true));
  }

  /** A passed note stalls, an answer clears the streak, three more timeouts pass a second note ... */
  lemma GoBothPassed() returns (states: seq<State>, acts: seq<Action>)
    ensures Path(FRESH, states, acts)
    ensures acts == TO_THIRD + [Test(0)] + [Answered] + TWO + [RaiseStreak(1)] + [Test(1)]
    ensures states[|acts|] == State(3, true, map[0 := Passed, 1 := Passed], {})
    ensures History(NEW_EPOCH, acts).drops == 0
  {
    states, acts := GoPassed();
    states, acts := Go(states, acts, Answered, State(0, true, map[0 := Passed], {}));
    states, acts := GoTwo(states, acts);
    states, acts := Go(states, acts, RaiseStreak(1), State(3, true, map[0 := Passed, 1 := Raised(3)], {}));
    states, acts := Go(states, acts, Test(1), State(3, true, map[0 := Passed, 1 := Passed], {}));
  }

  /** ... both drop the capability, and two drops are counted in one epoch. */
  lemma CountedTwice() returns (states: seq<State>, acts: seq<Action>)
    ensures Path(FRESH, states, acts)
    ensures acts == TO_THIRD + [Test(0)] + [Answered] + TWO + [RaiseStreak(1)] + [Test(1)] + [Drop(0)] + [Drop(1)]
    ensures History(NEW_EPOCH, acts).drops == 2
  {
    states, acts := GoBothPassed();
    assert map[0 := Passed, 1 := Passed] - {0} == map[1 := Passed];
    states, acts := Go(states, acts, Drop(0), State(3, false, map[1 := Passed], {}));
    states, acts := Go(states, acts, Drop(1), State(3, false, map[], {}));
  }

  /** A renegotiation falls between a passed test and its drop: the new epoch loses the capability
      without a single timeout. */
  lemma DropIntoNewEpoch() returns (states: seq<State>, acts: seq<Action>)
    ensures Path(FRESH, states, acts) && acts == TO_THIRD + [Test(0), ClearStreak(0), Rearm(0), Drop(0)]
    ensures !states[|acts|].capable && History(NEW_EPOCH, acts) == Epoch(0, false, 1)
  {
    states, acts := GoPassed();
    states, acts := GoRenegotiate(states, acts);
    states, acts := Go(states, acts, Drop(0), State(0, false, map[], {}));
  }

  /** The same when it falls between the third timeout and its test: keeping renegotiations away from
      passed notes is not enough. */
  lemma TestInNewEpoch() returns (states: seq<State>, acts: seq<Action>)
    ensures Path(FRESH, states, acts) && acts == TO_THIRD + [ClearStreak(0), Rearm(0), Test(0), Drop(0)]
    ensures !states[|acts|].capable && History(NEW_EPOCH, acts) == Epoch(0, false, 1)
  {
    states, acts := GoThird();
    states, acts := GoRenegotiate(states, acts);
    states, acts := Go(states, acts, Test(0), State(0, true, map[0 := Passed], {}));
    states, acts := Go(states, acts, Drop(0), State(0, false, map[], {}));
  }

  /** Three timeouts and a drop between the two stores of a renegotiation: the new epoch starts with
      the streak at 3 ... */
  lemma GoStraddle() returns (states: seq<State>, acts: seq<Action>)
    ensures Path(FRESH, states, acts)
    ensures acts == [ClearStreak(0)] + TWO + [RaiseStreak(0)] + [Test(0)] + [Drop(0)] + [Rearm(0)]
    ensures states[|acts|] == State(3, true, map[], {}) && History(NEW_EPOCH, acts) == NEW_EPOCH
  {
    states, acts := Go([FRESH], [], ClearStreak(0), State(0, true, map[], {0}));
    states, acts := GoTwo(states, acts);
    states, acts := Go(states, acts, RaiseStreak(0), State(3, true, map[0 := Raised(3)], {0}));
    states, acts := Go(states, acts, Test(0), State(3, true, map[0 := Passed], {0}));
    states, acts := Go(states, acts, Drop(0), State(3, false, map[], {0}));
    states, acts := Go(states, acts, Rearm(0), State(3, true, map[], {}));
  }

  /** ... and three more timeouts in a row, all noted to the end, do not cost it the capability. */
  lemma StraddledThird() returns (states: seq<State>, acts: seq<Action>)
    ensures Path(FRESH, states, acts)
    ensures states[|acts|] == State(6, true, map[], {}) && History(NEW_EPOCH, acts) == Epoch(3, true, 0)
  {
    states, acts := GoStraddle();
    states, acts := GoTimeout(states, acts, 1);
    states, acts := GoTimeout(states, acts, 1);
    states, acts := GoTimeout(states, acts, 1);
  }
}
