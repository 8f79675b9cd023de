/** The per-slot stream counter at micro-step granularity.

    Assign, release, server close and rebind each touch a slot counter and the stream map in
    separate atomic actions.  This module interleaves those actions freely, over slot objects
    that are not replaced meanwhile, and shows what the counter means at every moment. */
module StreamCounters {
  import opened Counting
  import opened SlotTypes
  import opened Streams

  /** How far one in-flight operation has got. */
  datatype Op =
    | AssignChecked(id: StreamId, slot: nat)          // duplicate check missed, slot captured
    | AssignCounted(id: StreamId, slot: nat)          // counter raised, entry not yet published
    | RebindLoaded(id: StreamId, src: nat, dst: nat)  // entry loaded, both slots captured
    | RebindCounted(id: StreamId, src: nat, dst: nat) // target counter raised
    | RebindStored(src: nat)                          // new entry published, source not lowered
    | Deleted(slot: nat)                              // entry deleted, counter not lowered

  datatype State = State(counter: seq<int>, bound: map<StreamId, nat>, ops: map<nat, Op>)

  /** One atomic action of one operation; `k` names the operation. */
  datatype Action =
    | BeginAssign(k: nat, id: StreamId, slot: nat)
    | BeginRebind(k: nat, id: StreamId, dst: nat)
    | Delete(k: nat, id: StreamId)
    | Raise(k: nat)
    | Publish(k: nat)
    | Lower(k: nat)

  predicate Assigning(op: Op) {
    op.AssignChecked? || op.AssignCounted?
  }

  predicate Rebinding(op: Op) {
    op.RebindLoaded? || op.RebindCounted?
  }

  predicate AssignOf(op: Op, id: StreamId) {
    Assigning(op) && op.id == id
  }

  predicate RebindOf(op: Op, id: StreamId) {
    Rebinding(op) && op.id == id
  }

  /** Two unfinished assigns, or two unfinished rebinds, of one stream. */
  predicate Conflict(a: Op, b: Op) {
    || (Assigning(a) && Assigning(b) && a.id == b.id)
    || (Rebinding(a) && Rebinding(b) && a.id == b.id)
  }

  ghost predicate NoAssign(s: State, id: StreamId) {
    forall k | k in s.ops :: !AssignOf(s.ops[k], id)
  }

  ghost predicate NoRebind(s: State, id: StreamId) {
    forall k | k in s.ops :: !RebindOf(s.ops[k], id)
  }

  /** One floor-clamped decrement of counter i. */
  function LowerAt(counter: seq<int>, i: nat): seq<int>
    requires i < |counter|
  {
    counter[i := Decremented(counter[i])]
  }

  /** LoadAndDelete by a release or a close, with no exclusion against a rebind. */
  function DeleteEntry(s: State, k: nat, id: StreamId): State
    requires id in s.bound
  {
    s.(bound := s.bound - {id}, ops := s.ops[k := Deleted(s.bound[id])])
  }

  /** Every action of the four operations.  A stream has one assigner at a time (the SOCKS
      layer owns it), one mover at a time (the migrating flag), and a release or close does
      not delete the entry of a stream between a mover's load and store. */
  ghost predicate Next(s: State, a: Action, s': State) {
    match a
    case BeginAssign(k, id, slot) =>
      && k !in s.ops && slot < |s.counter| && id !in s.bound && NoAssign(s, id)
      && s' == s.(ops := s.ops[k := AssignChecked(id, slot)])
    case BeginRebind(k, id, dst) =>
      && k !in s.ops && dst < |s.counter| && id in s.bound && s.bound[id] != dst && NoRebind(s, id)
      && s' == s.(ops := s.ops[k := RebindLoaded(id, s.bound[id], dst)])
    case Delete(k, id) =>
      && k !in s.ops && id in s.bound && NoRebind(s, id)
      && s' == DeleteEntry(s, k, id)
    case Raise(k) =>
      && k in s.ops
      && (match s.ops[k]
          case AssignChecked(id, slot) =>
            && slot < |s.counter|
            && s' == s.(counter := s.counter[slot := s.counter[slot] + 1],
                        ops := s.ops[k := AssignCounted(id, slot)])
          case RebindLoaded(id, src, dst) =>
            && dst < |s.counter|
            && s' == s.(counter := s.counter[dst := s.counter[dst] + 1],
                        ops := s.ops[k := RebindCounted(id, src, dst)])
          case _ => false)
    case Publish(k) =>
      && k in s.ops
      && (match s.ops[k]
          case AssignCounted(id, slot) =>
            s' == s.(bound := s.bound[id := slot], ops := s.ops - {k})
          case RebindCounted(id, src, dst) =>
            s' == s.(bound := s.bound[id := dst], ops := s.ops[k := RebindStored(src)])
          case _ => false)
    case Lower(k) =>
      && k in s.ops
      && (match s.ops[k]
          case RebindStored(src) =>
            src < |s.counter| && s' == s.(counter := LowerAt(s.counter, src), ops := s.ops - {k})
          case Deleted(slot) =>
            slot < |s.counter| && s' == s.(counter := LowerAt(s.counter, slot), ops := s.ops - {k})
          case _ => false)
  }

  function BoundTo(i: nat): nat -> bool {
    slot => slot == i
  }

  /** The operation has raised slot i's counter for an entry not yet published there, or has
      taken an entry of slot i away without lowering the counter. */
  function PendingOn(i: nat): Op -> bool {
    (op: Op) =>
      match op
      case AssignCounted(_, slot) => slot == i
      case RebindCounted(_, _, dst) => dst == i
      case RebindStored(src) => src == i
      case Deleted(slot) => slot == i
      case _ => false
  }

  predicate OpInRange(op: Op, n: nat) {
    match op
    case AssignChecked(_, slot) => slot < n
    case AssignCounted(_, slot) => slot < n
    case RebindLoaded(_, src, dst) => src < n && dst < n && src != dst
    case RebindCounted(_, src, dst) => src < n && dst < n && src != dst
    case RebindStored(src) => src < n
    case Deleted(slot) => slot < n
  }

  /** What an unfinished assign or rebind knows about the stream it works on. */
  ghost predicate Owned(s: State) {
    && InRange(s)
    && (forall k | k in s.ops :: Knows(s.bound, s.ops[k]))
    && (forall k, l | k in s.ops && l in s.ops && k != l :: !Conflict(s.ops[k], s.ops[l]))
  }

  ghost predicate InRange(s: State) {
    && (forall id | id in s.bound :: s.bound[id] < |s.counter|)
    && (forall k | k in s.ops :: OpInRange(s.ops[k], |s.counter|))
  }

  /** An unfinished assign's stream is unbound; an unfinished rebind's is bound to its source. */
  predicate Knows(bound: map<StreamId, nat>, op: Op) {
    && (Assigning(op) ==> op.id !in bound)
    && (Rebinding(op) ==> op.id in bound && bound[op.id] == op.src)
  }

  ghost predicate Balanced(s: State) {
    forall i | 0 <= i < |s.counter| ::
      s.counter[i] == Count(s.bound, BoundTo(i)) + Count(s.ops, PendingOn(i))
  }

  ghost predicate Inv(s: State) {
    Owned(s) && Balanced(s)
  }

  ghost predicate Initial(s: State) {
    s.bound == map[] && s.ops == map[] && forall i | 0 <= i < |s.counter| :: s.counter[i] == 0
  }

  /** A run: a state per moment, an action between neighbours. */
  ghost predicate Run(states: seq<State>, acts: seq<Action>) {
    && |states| == |acts| + 1
    && Initial(states[0])
    && forall n | 0 <= n < |acts| :: Next(states[n], acts[n], states[n + 1])
  }

  lemma OwnedStep(s: State, a: Action, s': State)
    requires Owned(s) && Next(s, a, s')
    ensures Owned(s')
  {
    assert InRange(s');
    forall l | l in s'.ops
      ensures Knows(s'.bound, s'.ops[l])
    {
    }
    forall k, l | k in s'.ops && l in s'.ops && k != l
      ensures !Conflict(s'.ops[k], s'.ops[l])
    {
    }
  }

  /** A decrement always finds its unit: the clamp at zero is never what stops it. */
  lemma ClampNeverFires(s: State, k: nat)
    requires Inv(s) && k in s.ops && (s.ops[k].RebindStored? || s.ops[k].Deleted?)
    ensures var i := if s.ops[k].Deleted? then s.ops[k].slot else s.ops[k].src;
            i < |s.counter| && s.counter[i] > 0
  {
    var i := if s.ops[k].Deleted? then s.ops[k].slot else s.ops[k].src;
    CountZero(s.ops, PendingOn(i));
    assert PendingOn(i)(s.ops[k]);
  }

  lemma CounterStep(s: State, a: Action, s': State, i: nat)
    requires Inv(s) && Next(s, a, s') && i < |s'.counter|
    ensures s'.counter[i] == Count(s'.bound, BoundTo(i)) + Count(s'.ops, PendingOn(i))
  {
    if a.k in s'.ops {
      CountStore(s.ops, a.k, s'.ops[a.k], PendingOn(i));
    } else {
      CountDelete(s.ops, a.k, PendingOn(i));
    }
    match a
    case Lower(k) => ClampNeverFires(s, k);
    case Delete(_, id) => CountDelete(s.bound, id, BoundTo(i));
    case Publish(k) => CountStore(s.bound, s.ops[k].id, s'.bound[s.ops[k].id], BoundTo(i));
    case _ =>
  }

  lemma BalancedStep(s: State, a: Action, s': State)
    requires Inv(s) && Next(s, a, s')
    ensures Balanced(s')
  {
    forall i | 0 <= i < |s'.counter|
      ensures s'.counter[i] == Count(s'.bound, BoundTo(i)) + Count(s'.ops, PendingOn(i))
    {
      CounterStep(s, a, s', i);
    }
  }

  lemma {:induction false} RunKeepsInv(states: seq<State>, acts: seq<Action>, n: nat)
    requires Run(states, acts) && n < |states|
    ensures Inv(states[n])
  {
    if n == 0 {
      forall i | 0 <= i < |states[0].counter|
        ensures Count(states[0].bound, BoundTo(i)) == 0 && Count(states[0].ops, PendingOn(i)) == 0
      {
        CountZero(states[0].bound, BoundTo(i));
        CountZero(states[0].ops, PendingOn(i));
      }
    } else {
      RunKeepsInv(states, acts, n - 1);
      OwnedStep(states[n - 1], acts[n - 1], states[n]);
      BalancedStep(states[n - 1], acts[n - 1], states[n]);
    }
  }

  /** At every moment of every interleaving: a slot's counter is its bound streams plus its
      pending operations, so it is never negative and the drain's zero test never fires on a
      slot that still has a bound stream; with nothing in flight it is exactly the number of
      bound streams. */
  lemma CounterMeaning(states: seq<State>, acts: seq<Action>, n: nat, i: nat)
    requires Run(states, acts) && n < |states| && i < |states[n].counter|
    ensures var s := states[n];
            && s.counter[i] == Count(s.bound, BoundTo(i)) + Count(s.ops, PendingOn(i))
            && (s.counter[i] == 0 ==> forall id | id in s.bound :: s.bound[id] != i)
            && (s.ops == map[] ==> s.counter[i] == Count(s.bound, BoundTo(i)))
  {
    var s := states[n];
    RunKeepsInv(states, acts, n);
    CountZero(s.bound, BoundTo(i));
    CountZero(s.ops, PendingOn(i));
    if s.counter[i] == 0 {
      forall id | id in s.bound
        ensures s.bound[id] != i
      {
        assert !BoundTo(i)(s.bound[id]);
      }
    }
  }

  // ---------------------------------------------------------------- the exclusion is exact

  /** A path of permitted actions from s. */
  ghost predicate Path(s: State, states: seq<State>, acts: seq<Action>) {
    && |states| == |acts| + 1 && states[0] == s
    && forall n | 0 <= n < |acts| :: Next(states[n], acts[n], states[n + 1])
  }

  /** However it goes on from s, every counter stays balanced. */
  ghost predicate StaysBalanced(s: State) {
    forall states, acts :: Path(s, states, acts) ==> Balanced(states[|acts|])
  }

  lemma {:induction false} PathKeepsInv(s: State, states: seq<State>, acts: seq<Action>)
    requires Inv(s) && Path(s, states, acts)
    ensures Inv(states[|acts|])
  {
    if acts == [] {
    } else {
      var n := |acts| - 1;
      assert Path(s, states[..n + 1], acts[..n]);
      PathKeepsInv(s, states[..n + 1], acts[..n]);
      OwnedStep(states[n], acts[n], states[n + 1]);
      BalancedStep(states[n], acts[n], states[n + 1]);
    }
  }

  lemma InvStaysBalanced(s: State)
    requires Inv(s)
    ensures StaysBalanced(s)
  {
    forall states, acts | Path(s, states, acts)
      ensures Balanced(states[|acts|])
    {
      PathKeepsInv(s, states, acts);
    }
  }

  lemma TwoStepsUnbalance(s: State, a: Action, t: State, b: Action, u: State)
    requires Next(s, a, t) && Next(t, b, u) && !Balanced(u)
    ensures !StaysBalanced(s)
  {
    assert Path(s, [s, t, u], [a, b]);
  }

  /** The entry was deleted under a mover that has raised its target: the mover's store brings the
      entry back, and the source then owes two decrements for one stream. */
  lemma StoreAfterDelete(s: State, k: nat, id: StreamId, l: nat) returns (t: State)
    requires Inv(s) && k !in s.ops && l in s.ops && s.ops[l].RebindCounted? && s.ops[l].id == id
    requires id in s.bound
    ensures Next(DeleteEntry(s, k, id), Publish(l), t) && !Balanced(t)
  {
    var src, dst := s.ops[l].src, s.ops[l].dst;
    assert Knows(s.bound, s.ops[l]) && OpInRange(s.ops[l], |s.counter|);
    var s' := DeleteEntry(s, k, id);
    t := s'.(bound := s'.bound[id := dst], ops := s'.ops[l := RebindStored(src)]);
    CountDelete(s.bound, id, BoundTo(src));
    CountStore(s.ops, k, Deleted(src), PendingOn(src));
    CountStore(s'.bound, id, dst, BoundTo(src));
    CountStore(s'.ops, l, RebindStored(src), PendingOn(src));
    assert t.counter[src] < Count(t.bound, BoundTo(src)) + Count(t.ops, PendingOn(src));
  }

  /** Deleting an entry commutes with a mover's raise of its target. */
  lemma RaiseAroundDelete(s: State, k: nat, id: StreamId, l: nat) returns (u: State)
    requires Inv(s) && k !in s.ops && l in s.ops && s.ops[l].RebindLoaded? && s.ops[l].id == id
    requires id in s.bound
    ensures Next(s, Raise(l), u) && Inv(u) && k !in u.ops && l in u.ops && u.ops[l].RebindCounted? && u.ops[l].id == id
    ensures id in u.bound && Next(DeleteEntry(s, k, id), Raise(l), DeleteEntry(u, k, id))
  {
    var src, dst := s.ops[l].src, s.ops[l].dst;
    assert OpInRange(s.ops[l], |s.counter|);
    u := s.(counter := s.counter[dst := s.counter[dst] + 1], ops := s.ops[l := RebindCounted(id, src, dst)]);
    OwnedStep(s, Raise(l), u);
    BalancedStep(s, Raise(l), u);
    var s' := DeleteEntry(s, k, id);
    assert s'.ops[l := RebindCounted(id, src, dst)] == u.ops[k := Deleted(s.bound[id])];
  }

  /** The exclusion on deletes is exact.  Let a release or close delete the entry of a stream at any
      moment: every way to go on keeps all counters balanced if and only if no mover is between its
      load and its store on that stream. */
  lemma DeleteExactlyOutsideRebind(s: State, k: nat, id: StreamId)
    requires Inv(s) && k !in s.ops && id in s.bound
    ensures StaysBalanced(DeleteEntry(s, k, id)) <==> NoRebind(s, id)
  {
    var s' := DeleteEntry(s, k, id);
    if NoRebind(s, id) {
      assert Next(s, Delete(k, id), s');
      OwnedStep(s, Delete(k, id), s');
      BalancedStep(s, Delete(k, id), s');
      InvStaysBalanced(s');
    } else {
      var l :| l in s.ops && RebindOf(s.ops[l], id);
      if s.ops[l].RebindCounted? {
        var t := StoreAfterDelete(s, k, id, l);
        assert Path(s', [s', t], [Publish(l)]);
      } else {
        var u := RaiseAroundDelete(s, k, id, l);
        var t := StoreAfterDelete(u, k, id, l);
        TwoStepsUnbalance(s', Raise(l), DeleteEntry(u, k, id), Publish(l), t);
      }
    }
  }

  /** Streams 1 and 2 on slot 0, none on slot 1, nothing in flight. */
  const TWO_STREAMS := State([2, 0], map[1 := 0, 2 := 0], map[])

  lemma TwoStreamsInv()
    ensures Inv(TWO_STREAMS)
  {
    assert Matching(TWO_STREAMS.bound, BoundTo(0)) == {1, 2};
    assert Matching(TWO_STREAMS.bound, BoundTo(1)) == {};
    assert Matching(TWO_STREAMS.ops, PendingOn(0)) == {} && Matching(TWO_STREAMS.ops, PendingOn(1)) == {};
  }

  /** Without the exclusion the counter drifts down: streams 1 and 2 live on slot 0; stream 1 is
      released between the load and the store of its move to slot 1.  When everything has
      finished, slot 0 reads zero while stream 2 is still bound to it, which is exactly the state
      in which a drain would tear down a slot with a live stream. */
  lemma ReleaseInsideRebindDrifts()
    returns (s1: State, s2: State, s3: State, s4: State, s5: State, s6: State)
    ensures Next(TWO_STREAMS, BeginRebind(7, 1, 1), s1)
    ensures 1 in s1.bound && s2 == DeleteEntry(s1, 8, 1)
    ensures Next(s2, Raise(7), s3)
    ensures Next(s3, Publish(7), s4)
    ensures Next(s4, Lower(7), s5)
    ensures Next(s5, Lower(8), s6)
    ensures s6.ops == map[] && s6.counter == [0, 1] && 2 in s6.bound && s6.bound[2] == 0
  {
    s1 := TWO_STREAMS.(ops := map[7 := RebindLoaded(1, 0, 1)]);
    s2 := DeleteEntry(s1, 8, 1);
    s3 := s2.(counter := [2, 1], ops := s2.ops[7 := RebindCounted(1, 0, 1)]);
    s4 := s3.(bound := s3.bound[1 := 1], ops := s3.ops[7 := RebindStored(0)]);
    s5 := s4.(counter := [1, 1], ops := s4.ops - {7});
    s6 := s5.(counter := [0, 1], ops := s5.ops - {8});
  }
}
