/** Slot objects, the cells they sit in, and the connects and deaths that act on cells by index.

    Every access to a cell is a step of its own.  An install does not look back at the recycle guard
    it passed; a failed reserve connect frees its cell in a later step; a death looks its slot up by
    cell index, marks it in a later step, when the cell may hold another, and a teardown frees the
    cell in a later step still, whatever the cell then holds.  A finished connect marks its own object
    ready whatever has happened to the cell meanwhile. */
module SlotLifecycle {
  import opened Options
  import opened SlotTypes

  datatype Obj = Obj(
    cell: nat,
    state: SlotState,
    dialing: bool,      // a connect is working on this object
    reserve: bool,      // that connect frees the cell if it fails
    cleanups: nat)      // how often the death cleanup ran for it

  datatype State = State(
    cells: seq<Option<nat>>,
    objs: map<nat, Obj>,
    reserves: multiset<nat>,      // cells with a reserve connect spawned and not yet installed
    teardowns: map<nat, nat>,     // drains and evictions under way, and the object each has marked
    freeing: multiset<nat>,       // cells a teardown has still to free
    failing: multiset<nat>)       // cells a failed reserve connect has still to free

  datatype Action =
    | Claim(i: nat, o: nat)            // claimFreeSlot, and the reserve connect it leads to
    | ReserveInstall(i: nat, o: nat)   // connectSlot from connectReserveSlot
    | Install(i: nat, o: nat)          // connectSlot from a reconnect, its guard passed earlier
    | ConnectOk(o: nat)
    | ConnectFail(o: nat)
    | FreeFailed(i: nat)               // the freeing after a failed reserve connect
    | StartDrain(k: nat, o: nat)       // ready to draining, for a drain or an eviction
    | RevertDrain(k: nat)              // back to ready if still draining
    | SlotDied(o: nat)                 // reader, writer, age cut or network change
    | Teardown(k: nat, o: nat)         // the drain is over: death of what its cell held
    | Free(i: nat)                     // the freeing after a teardown

  predicate Holds(s: State, i: nat, o: nat) {
    i < |s.cells| && s.cells[i] == Some(o) && o in s.objs
  }

  predicate CellIs(s: State, i: nat, st: SlotState) {
    i < |s.cells| && s.cells[i].Some? && s.cells[i].value in s.objs && s.objs[s.cells[i].value].state == st
  }

  predicate CellLive(s: State, i: nat) {
    CellIs(s, i, Ready) || CellIs(s, i, Draining)
  }

  function Place(s: State, i: nat, o: nat, dialing: bool, reserve: bool): State
    requires i < |s.cells|
  {
    s.(cells := s.cells[i := Some(o)], objs := s.objs[o := Obj(i, Connecting, dialing, reserve, 0)])
  }

  function Wipe(s: State, i: nat): State {
    if i < |s.cells| then s.(cells := s.cells[i := None]) else s
  }

  /** The death of an object: nothing if it is dead already. */
  function Kill(s: State, o: nat, free: bool): State
    requires o in s.objs
  {
    var obj := s.objs[o];
    if obj.state == Dead then s
    else s.(objs := s.objs[o := obj.(state := Dead, cleanups := obj.cleanups + 1)],
            freeing := if free then s.freeing + multiset{obj.cell} else s.freeing)
  }

  ghost predicate Next(s: State, a: Action, s': State) {
    match a
    case Claim(i, o) =>
      i < |s.cells| && s.cells[i].None? && o !in s.objs
      && s' == Place(s, i, o, false, false).(reserves := s.reserves + multiset{i})
    case ReserveInstall(i, o) =>
      i in s.reserves && i < |s.cells| && o !in s.objs
      && s' == (if CellLive(s, i) then s else Place(s, i, o, true, true)).(reserves := s.reserves - multiset{i})
    case Install(i, o) =>
      i < |s.cells| && !CellLive(s, i) && o !in s.objs && s' == Place(s, i, o, true, false)
    case ConnectOk(o) =>
      o in s.objs && s.objs[o].dialing
      && s' == s.(objs := s.objs[o := s.objs[o].(state := Ready, dialing := false)])
    case ConnectFail(o) =>
      o in s.objs && s.objs[o].dialing
      && s' == s.(objs := s.objs[o := s.objs[o].(state := Dead, dialing := false)],
                  failing := if s.objs[o].reserve then s.failing + multiset{s.objs[o].cell} else s.failing)
    case FreeFailed(i) =>
      i in s.failing && s' == (if CellIs(s, i, Ready) then s else Wipe(s, i)).(failing := s.failing - multiset{i})
    case StartDrain(k, o) =>
      k !in s.teardowns && o in s.objs && s.objs[o].state == Ready
      && s' == s.(objs := s.objs[o := s.objs[o].(state := Draining)], teardowns := s.teardowns[k := o])
    case RevertDrain(k) =>
      k in s.teardowns && s.teardowns[k] in s.objs
      && (var o := s.teardowns[k];
          var obj := s.objs[o];
          s' == s.(objs := if obj.state == Draining then s.objs[o := obj.(state := Ready)] else s.objs,
                   teardowns := s.teardowns - {k}))
    case SlotDied(o) => o in s.objs && s' == Kill(s, o, false)
    case Teardown(k, o) =>
      k in s.teardowns && s.teardowns[k] in s.objs && o in s.objs && s.objs[o].cell == s.objs[s.teardowns[k]].cell
      && s' == Kill(s, o, true).(teardowns := s.teardowns - {k})
    case Free(i) => i in s.freeing && s' == Wipe(s, i).(freeing := s.freeing - multiset{i})
  }

  /** The object is the one its cell holds, and still connecting. */
  predicate InMidConnect(s: State, o: nat) {
    o in s.objs && s.objs[o].state == Connecting && Holds(s, s.objs[o].cell, o)
  }

  /** No death hits a slot in mid-connect, no install takes a cell that is connecting, which its guard
      had not found connecting, and no freeing hits a cell retaken since: one that is connecting or
      live. */
  predicate Orderly(s: State, a: Action) {
    match a
    case Install(i, _) => !CellIs(s, i, Connecting)
    case FreeFailed(i) => !CellIs(s, i, Connecting) && !CellIs(s, i, Draining)
    case SlotDied(o) => !InMidConnect(s, o)
    case Teardown(_, o) => !InMidConnect(s, o)
    case Free(i) => !CellIs(s, i, Connecting) && !CellLive(s, i)
    case _ => true
  }

  /** A live object sits in its cell. */
  predicate Anchored(s: State, o: nat)
    requires o in s.objs
  {
    s.objs[o].state == Ready || s.objs[o].state == Draining ==> Holds(s, s.objs[o].cell, o)
  }

  /** A connect in progress works on the connecting object its cell holds. */
  predicate Dialing(s: State, o: nat)
    requires o in s.objs
  {
    s.objs[o].dialing ==> s.objs[o].state == Connecting && Holds(s, s.objs[o].cell, o)
  }

  /** A spawned reserve connect is alone on its cell and finds its placeholder there. */
  predicate Reserved(s: State, i: nat) {
    i in s.reserves ==> s.reserves[i] == 1 && CellIs(s, i, Connecting) && !s.objs[s.cells[i].value].dialing
  }

  /** A cell's object knows its cell, and is only connecting because someone connects it. */
  predicate Attended(s: State, i: nat)
    requires i < |s.cells|
  {
    s.cells[i].Some? ==>
      && s.cells[i].value in s.objs
      && s.objs[s.cells[i].value].cell == i
      && (s.objs[s.cells[i].value].state == Connecting ==> s.objs[s.cells[i].value].dialing || i in s.reserves)
  }

  predicate CleanedOnce(obj: Obj) {
    obj.cleanups <= 1 && (obj.cleanups == 1 ==> obj.state == Dead)
  }

  ghost predicate Inv(s: State) {
    && (forall o | o in s.objs :: Anchored(s, o) && Dialing(s, o) && CleanedOnce(s.objs[o]))
    && (forall i | i in s.reserves :: Reserved(s, i))
    && (forall i | 0 <= i < |s.cells| :: Attended(s, i))
  }

  ghost predicate Initial(s: State) {
    && s.objs == map[] && s.teardowns == map[]
    && s.reserves == s.freeing == s.failing == multiset{}
    && forall i | 0 <= i < |s.cells| :: s.cells[i].None?
  }

  ghost predicate Run(states: seq<State>, acts: seq<Action>) {
    && |states| == |acts| + 1
    && Initial(states[0])
    && forall n | 0 <= n < |acts| :: Next(states[n], acts[n], states[n + 1])
  }

  lemma ObjsIn(s: State, o: nat)
    requires Inv(s) && o in s.objs
    ensures Anchored(s, o) && Dialing(s, o) && CleanedOnce(s.objs[o])
  {
  }

  /** The invariant speaks of cells, objects and spawned reserve connects only. */
  lemma SameView(s: State, s': State)
    requires Inv(s) && s'.cells == s.cells && s'.objs == s.objs && s'.reserves == s.reserves
    ensures Inv(s')
  {
    forall o | o in s'.objs
      ensures Anchored(s', o) && Dialing(s', o) && CleanedOnce(s'.objs[o])
    {
      ObjsIn(s, o);
    }
    forall i | i in s'.reserves
      ensures Reserved(s', i)
    {
      assert Reserved(s, i);
    }
    forall i | 0 <= i < |s'.cells|
      ensures Attended(s', i)
    {
      assert Attended(s, i);
    }
  }

  /** An object that is not a waiting placeholder becomes a settled version of itself, live only if its
      cell holds it. */
  lemma UpdateKeeps(s: State, o: nat, obj: Obj)
    requires Inv(s) && o in s.objs && (Holds(s, s.objs[o].cell, o) ==> s.objs[o].cell !in s.reserves)
    requires obj.cell == s.objs[o].cell && obj.state != Connecting && !obj.dialing && CleanedOnce(obj)
    requires obj.state != Dead ==> Holds(s, s.objs[o].cell, o)
    ensures Inv(s.(objs := s.objs[o := obj]))
  {
    var s' := s.(objs := s.objs[o := obj]);
    forall p | p in s'.objs
      ensures Anchored(s', p) && Dialing(s', p) && CleanedOnce(s'.objs[p])
    {
      if p != o {
        ObjsIn(s, p);
      }
    }
    forall i | i in s'.reserves
      ensures Reserved(s', i)
    {
      assert Reserved(s, i);
      assert Attended(s, i);
    }
    forall i | 0 <= i < |s'.cells|
      ensures Attended(s', i)
    {
      assert Attended(s, i);
    }
  }

  /** Putting a new object into a cell nobody uses or connects. */
  lemma PlaceKeeps(s: State, i: nat, o: nat, dialing: bool, reserve: bool, reserves: multiset<nat>)
    requires Inv(s) && i < |s.cells| && o !in s.objs
    requires !CellLive(s, i)
    requires s.cells[i].Some? && s.cells[i].value in s.objs ==> !s.objs[s.cells[i].value].dialing
    requires forall j | j != i :: reserves[j] == s.reserves[j]
    requires reserves[i] == if dialing then 0 else 1
    ensures Inv(Place(s, i, o, dialing, reserve).(reserves := reserves))
  {
    var s' := Place(s, i, o, dialing, reserve).(reserves := reserves);
    assert Attended(s, i);
    forall p | p in s'.objs
      ensures Anchored(s', p) && Dialing(s', p) && CleanedOnce(s'.objs[p])
    {
      if p != o {
        ObjsIn(s, p);
      }
    }
    forall j | j in s'.reserves
      ensures Reserved(s', j)
    {
      if j != i {
        assert j in s.reserves && Reserved(s, j);
        assert Attended(s, j);
      }
    }
    forall j | 0 <= j < |s'.cells|
      ensures Attended(s', j)
    {
      assert Attended(s, j);
      if j != i {
        assert j in s.reserves <==> j in reserves;
      }
    }
  }

  /** Emptying a cell that is empty or holds a dead slot. */
  lemma WipeKeeps(s: State, i: nat)
    requires Inv(s) && !CellIs(s, i, Connecting) && !CellLive(s, i)
    ensures Inv(Wipe(s, i))
  {
    var s' := Wipe(s, i);
    if i < |s.cells| {
      assert Attended(s, i);
      assert i in s.reserves ==> Reserved(s, i);
    }
    forall o | o in s'.objs
      ensures Anchored(s', o) && Dialing(s', o) && CleanedOnce(s'.objs[o])
    {
      ObjsIn(s, o);
    }
    forall j | j in s'.reserves
      ensures Reserved(s', j)
    {
      assert Reserved(s, j);
    }
    forall j | 0 <= j < |s'.cells|
      ensures Attended(s', j)
    {
      assert Attended(s, j);
    }
  }

  /** A death that hits no slot in mid-connect; one that a replaced placeholder takes included. */
  lemma DeathKeeps(s: State, o: nat, free: bool)
    requires Inv(s) && o in s.objs && !InMidConnect(s, o)
    ensures Inv(Kill(s, o, free))
  {
    if s.objs[o].state != Dead {
      var obj := s.objs[o].(state := Dead, cleanups := s.objs[o].cleanups + 1);
      ObjsIn(s, o);
      assert s.objs[o].cell in s.reserves ==> Reserved(s, s.objs[o].cell);
      UpdateKeeps(s, o, obj);
      SameView(s.(objs := s.objs[o := obj]), Kill(s, o, free));
    }
  }

  /** A connect that ends, either way, leaves a settled object in its cell. */
  lemma ConnectKeeps(s: State, o: nat, st: SlotState)
    requires Inv(s) && o in s.objs && s.objs[o].dialing
    requires st == Ready || st == Dead
    ensures Holds(s, s.objs[o].cell, o) && Inv(s.(objs := s.objs[o := s.objs[o].(state := st, dialing := false)]))
  {
    ObjsIn(s, o);
    assert s.objs[o].cell in s.reserves ==> Reserved(s, s.objs[o].cell);
    UpdateKeeps(s, o, s.objs[o].(state := st, dialing := false));
  }

  /** A slot changes between ready and draining. */
  lemma DrainKeeps(s: State, o: nat, st: SlotState)
    requires Inv(s) && o in s.objs && (s.objs[o].state == Ready || s.objs[o].state == Draining)
    requires st == Ready || st == Draining
    ensures Inv(s.(objs := s.objs[o := s.objs[o].(state := st)]))
  {
    ObjsIn(s, o);
    assert s.objs[o].cell in s.reserves ==> Reserved(s, s.objs[o].cell);
    UpdateKeeps(s, o, s.objs[o].(state := st));
  }

  /** A new object never displaces a live one or a running connect. */
  lemma InstallKeeps(s: State, a: Action, s': State)
    requires Inv(s) && Next(s, a, s') && (a.Claim? || a.ReserveInstall? || a.Install?) && Orderly(s, a)
    ensures Inv(s')
  {
    assert Attended(s, a.i);
    assert a.i in s.reserves ==> Reserved(s, a.i);
    if s.cells[a.i].Some? {
      ObjsIn(s, s.cells[a.i].value);
    }
    PlaceKeeps(s, a.i, a.o, !a.Claim?, a.ReserveInstall?, s'.reserves);
  }

  lemma InvStep(s: State, a: Action, s': State)
    requires Inv(s) && Next(s, a, s') && Orderly(s, a)
    ensures Inv(s')
  {
    match a
    case Claim(_, _) => InstallKeeps(s, a, s');
    case ReserveInstall(_, _) => InstallKeeps(s, a, s');
    case Install(_, _) => InstallKeeps(s, a, s');
    case ConnectOk(o) => ConnectKeeps(s, o, Ready);
    case ConnectFail(o) =>
      ConnectKeeps(s, o, Dead);
      SameView(s.(objs := s'.objs), s');
    case FreeFailed(i) =>
      if !CellIs(s, i, Ready) {
        WipeKeeps(s, i);
        SameView(Wipe(s, i), s');
      } else {
        SameView(s, s');
      }
    case StartDrain(_, o) =>
      DrainKeeps(s, o, Draining);
      SameView(s.(objs := s'.objs), s');
    case RevertDrain(k) =>
      if s.objs[s.teardowns[k]].state == Draining {
        DrainKeeps(s, s.teardowns[k], Ready);
      }
      SameView(s.(objs := s'.objs), s');
    case SlotDied(o) => DeathKeeps(s, o, false);
    case Teardown(_, o) =>
      DeathKeeps(s, o, true);
      SameView(Kill(s, o, true), s');
    case Free(i) =>
      WipeKeeps(s, i);
      SameView(Wipe(s, i), s');
  }

  lemma {:induction false} RunKeepsInv(states: seq<State>, acts: seq<Action>, n: nat)
    requires Run(states, acts) && n < |states|
    requires forall m | 0 <= m < |acts| :: Orderly(states[m], acts[m])
    ensures Inv(states[n])
  {
    if n == 0 {
    } else {
      RunKeepsInv(states, acts, n - 1);
      InvStep(states[n - 1], acts[n - 1], states[n]);
    }
  }

  /** Every ready or draining object is in its cell, a cell has at most one connect in flight, and no
      object's death cleanup runs twice. */
  ghost predicate Sound(s: State) {
    && (forall o | o in s.objs && (s.objs[o].state == Ready || s.objs[o].state == Draining) ::
          Holds(s, s.objs[o].cell, o))
    && (forall o, p | o in s.objs && p in s.objs && s.objs[o].dialing && s.objs[p].dialing
                      && s.objs[o].cell == s.objs[p].cell :: o == p)
    && (forall o | o in s.objs :: s.objs[o].cleanups <= 1)
  }

  /** No orphaned connection, on every orderly run. */
  lemma NoOrphans(states: seq<State>, acts: seq<Action>, n: nat)
    requires Run(states, acts) && n < |states|
    requires forall m | 0 <= m < |acts| :: Orderly(states[m], acts[m])
    ensures Sound(states[n])
  {
    RunKeepsInv(states, acts, n);
  }

  // ---------------------------------------------------------------- the order is exact

  /** A path of orderly actions from s. */
  ghost predicate OrderlyPath(s: State, states: seq<State>, acts: seq<Action>) {
    && |states| == |acts| + 1 && states[0] == s
    && forall n | 0 <= n < |acts| :: Next(states[n], acts[n], states[n + 1]) && Orderly(states[n], acts[n])
  }

  /** However it goes on from s, as long as it is orderly, no connection is orphaned. */
  ghost predicate StaysSound(s: State) {
    forall states, acts :: OrderlyPath(s, states, acts) ==> Sound(states[|acts|])
  }

  lemma {:induction false} OrderlyPathKeeps(s: State, states: seq<State>, acts: seq<Action>)
    requires Inv(s) && OrderlyPath(s, states, acts)
    ensures Inv(states[|acts|])
  {
    if acts == [] {
    } else {
      var n := |acts| - 1;
      assert OrderlyPath(s, states[..n + 1], acts[..n]);
      OrderlyPathKeeps(s, states[..n + 1], acts[..n]);
      InvStep(states[n], acts[n], states[n + 1]);
    }
  }

  lemma InvStaysSound(s: State)
    requires Inv(s)
    ensures StaysSound(s)
  {
    forall states, acts | OrderlyPath(s, states, acts)
      ensures Sound(states[|acts|])
    {
      OrderlyPathKeeps(s, states, acts);
    }
  }

  lemma {:induction false} Unused(objs: map<nat, Obj>) returns (o: nat)
    ensures forall p | p in objs :: p < o
    decreases |objs|
  {
    if objs == map[] {
      o := 0;
    } else {
      var p :| p in objs;
      var rest := objs - {p};
      assert rest.Keys == objs.Keys - {p};
      var q := Unused(rest);
      o := if p < q then q else p + 1;
      forall r | r in objs
        ensures r < o
      {
        assert r == p || r in rest;
      }
    }
  }

  lemma AtOnce(s: State)
    requires !Sound(s)
    ensures !StaysSound(s)
  {
    assert OrderlyPath(s, [s], []);
  }

  lemma OneStep(s: State, a: Action, s': State)
    requires Next(s, a, s') && Orderly(s, a) && !Sound(s')
    ensures !StaysSound(s)
  {
    assert OrderlyPath(s, [s, s'], [a]);
  }

  lemma TwoSteps(s: State, a: Action, s': State, b: Action, s'': State)
    requires Next(s, a, s') && Orderly(s, a) && Next(s', b, s'') && Orderly(s', b) && !Sound(s'')
    ensures !StaysSound(s)
  {
    assert OrderlyPath(s, [s, s', s''], [a, b]);
  }

  /** An object being dialed that its cell no longer holds: the connect succeeds, in no cell. */
  lemma LateConnectOrphans(s: State, o: nat)
    requires o in s.objs && s.objs[o].dialing && !Holds(s, s.objs[o].cell, o)
    ensures !StaysSound(s)
  {
    var t := s.(objs := s.objs[o := s.objs[o].(state := Ready, dialing := false)]);
    assert o in t.objs && t.objs[o].state == Ready && !Holds(t, t.objs[o].cell, o);
    OneStep(s, ConnectOk(o), t);
  }

  /** A dead object still being dialed in its cell: a reconnect takes the cell, then the old connect
      succeeds. */
  lemma RetakenCellOrphans(s: State, i: nat, o: nat)
    requires o in s.objs && s.objs[o].dialing && s.objs[o].cell == i && Holds(s, i, o) && s.objs[o].state == Dead
    ensures !StaysSound(s)
  {
    var p := Unused(s.objs);
    var t := Place(s, i, p, true, false);
    var u := t.(objs := t.objs[o := t.objs[o].(state := Ready, dialing := false)]);
    assert o in u.objs && u.objs[o].state == Ready && !Holds(u, u.objs[o].cell, o);
    TwoSteps(s, Install(i, p), t, ConnectOk(o), u);
  }

  /** A reserve connect spawned for a placeholder that is gone or dead: a reconnect takes the cell,
      then the reserve connect installs over it, and both dial. */
  lemma LateReserveDoubles(s: State, i: nat)
    requires i in s.reserves && i < |s.cells| && (s.cells[i].None? || CellIs(s, i, Dead))
    ensures !StaysSound(s)
  {
    var p := Unused(s.objs);
    var t := Place(s, i, p, true, false);
    var u := Place(t, i, p + 1, true, true).(reserves := t.reserves - multiset{i});
    assert u.objs[p].dialing && u.objs[p + 1].dialing;
    TwoSteps(s, Install(i, p), t, ReserveInstall(i, p + 1), u);
  }

  /** A death in mid-connect; t may differ in what is still to be torn down or freed. */
  lemma KilledConnectBreaks(s: State, o: nat, t: State)
    requires Inv(s) && InMidConnect(s, o) && t.cells == s.cells && t.reserves == s.reserves
    requires t.objs == s.objs[o := s.objs[o].(state := Dead, cleanups := s.objs[o].cleanups + 1)]
    ensures !StaysSound(t)
  {
    var i := s.objs[o].cell;
    assert Attended(s, i);
    if s.objs[o].dialing {
      RetakenCellOrphans(t, i, o);
    } else {
      LateReserveDoubles(t, i);
    }
  }

  /** A freeing that hits a connecting or live slot. */
  lemma WipedSlotBreaks(s: State, i: nat, t: State)
    requires Inv(s) && (CellIs(s, i, Connecting) || CellLive(s, i))
    requires t.cells == s.cells[i := None] && t.objs == s.objs && t.reserves == s.reserves
    ensures !StaysSound(t)
  {
    assert Attended(s, i);
    var o := s.cells[i].value;
    assert !Holds(t, t.objs[o].cell, o);
    if CellLive(s, i) {
      assert !Sound(t);
      AtOnce(t);
    } else if s.objs[o].dialing {
      LateConnectOrphans(t, o);
    } else {
      LateReserveDoubles(t, i);
    }
  }

  /** An install over a connecting slot: two connects on the cell, now or once the reserve connect
      installs. */
  lemma OvertakenInstallBreaks(s: State, i: nat, o: nat)
    requires Inv(s) && CellIs(s, i, Connecting) && o !in s.objs
    ensures !StaysSound(Place(s, i, o, true, false))
  {
    assert Attended(s, i);
    var t := Place(s, i, o, true, false);
    var q := s.cells[i].value;
    if s.objs[q].dialing {
      assert t.objs[q].dialing && t.objs[o].dialing && t.objs[q].cell == t.objs[o].cell;
      AtOnce(t);
    } else {
      var p := Unused(t.objs);
      var u := Place(t, i, p, true, true).(reserves := t.reserves - multiset{i});
      assert u.objs[o].dialing && u.objs[p].dialing && u.objs[o].cell == u.objs[p].cell;
      OneStep(t, ReserveInstall(i, p), u);
    }
  }

  /** Whatever is not orderly can be followed, by orderly actions alone, by an orphan or by two connects
      on one cell. */
  lemma DisorderBreaks(s: State, a: Action, s': State)
    requires Inv(s) && Next(s, a, s') && !Orderly(s, a)
    ensures !StaysSound(s')
  {
    match a
    case Install(i, o) => OvertakenInstallBreaks(s, i, o);
    case SlotDied(o) => KilledConnectBreaks(s, o, s');
    case Teardown(_, o) => KilledConnectBreaks(s, o, s');
    case _ => FreeingBreaks(s, a, s');
  }

  lemma FreeingBreaks(s: State, a: Action, s': State)
    requires Inv(s) && Next(s, a, s') && !Orderly(s, a) && (a.Free? || a.FreeFailed?)
    ensures !StaysSound(s')
  {
    WipedSlotBreaks(s, a.i, s');
  }

  /** The condition is exact: after any action, all orderly ways to go on keep every connection sound
      if and only if the action was orderly. */
  lemma SoundExactly(s: State, a: Action, s': State)
    requires Inv(s) && Next(s, a, s')
    ensures StaysSound(s') <==> Orderly(s, a)
  {
    if Orderly(s, a) {
      InvStep(s, a, s');
      InvStaysSound(s');
    } else {
      DisorderBreaks(s, a, s');
    }
  }

  // ---------------------------------------------------------------- runs that fail

  /** A pool of one cell with nothing else under way. */
  function OneCell(held: Option<nat>, objs: map<nat, Obj>): State {
    State([held], objs, multiset{}, map[], multiset{}, multiset{})
  }

  const CUT: Obj := Obj(0, Dead, false, false, 1)

  // A drain outlives its slot: the teardown hits the reconnect.
  const KILLING_RUN: seq<Action> :=
    [Install(0, 0), ConnectOk(0), StartDrain(9, 0), SlotDied(0), Install(0, 1), Teardown(9, 1), Free(0), ConnectOk(1)]

  function KillingMoment(n: nat): State {
    match n
    case 0 => OneCell(None, map[])
    case 1 => OneCell(Some(0), map[0 := Obj(0, Connecting, true, false, 0)])
    case 2 => OneCell(Some(0), map[0 := Obj(0, Ready, false, false, 0)])
    case 3 => OneCell(Some(0), map[0 := Obj(0, Draining, false, false, 0)]).(teardowns := map[9 := 0])
    case 4 => OneCell(Some(0), map[0 := CUT]).(teardowns := map[9 := 0])
    case 5 => OneCell(Some(1), map[0 := CUT, 1 := Obj(0, Connecting, true, false, 0)]).(teardowns := map[9 := 0])
    case 6 => OneCell(Some(1), map[0 := CUT, 1 := Obj(0, Dead, true, false, 1)]).(freeing := multiset{0})
    case 7 => OneCell(None, map[0 := CUT, 1 := Obj(0, Dead, true, false, 1)])
    case _ => OneCell(None, map[0 := CUT, 1 := Obj(0, Ready, false, false, 1)])
  }

  lemma KillingStart(n: nat)
    requires n < 4
    ensures Next(KillingMoment(n), KILLING_RUN[n], KillingMoment(n + 1))
  {
  }

  lemma KillingEnd(n: nat)
    requires 4 <= n < 8
    ensures Next(KillingMoment(n), KILLING_RUN[n], KillingMoment(n + 1))
  {
  }

  /** A draining slot is cut and reconnected while its watchdog still runs; the watchdog tears down the
      cell index, hitting the connecting slot; when that connect succeeds, its object is ready and in
      no cell at all. */
  lemma WatchdogOrphansReconnect() returns (states: seq<State>)
    ensures Run(states, KILLING_RUN)
    ensures var s := states[8];
            1 in s.objs && s.objs[1].state == Ready && forall i | 0 <= i < |s.cells| :: s.cells[i] != Some(1)
  {
    states := seq(9, n requires 0 <= n => KillingMoment(n));
    forall n | 0 <= n < 8
      ensures Next(states[n], KILLING_RUN[n], states[n + 1])
    {
      if n < 4 {
        KillingStart(n);
      } else {
        KillingEnd(n);
      }
    }
  }

  // A failed reserve connect leaves a reconnect behind; the cell is claimed again, connected, drained.
  const RETAKING_RUN: seq<Action> :=
    [Claim(0, 0), ReserveInstall(0, 1), ConnectFail(1), FreeFailed(0), Claim(0, 2), ReserveInstall(0, 3), ConnectOk(3),
     StartDrain(9, 3), Teardown(9, 3), Install(0, 4), Free(0), ConnectOk(4)]

  const PLACEHOLDER: Obj := Obj(0, Connecting, false, false, 0)
  const FAILED: Obj := Obj(0, Dead, false, true, 0)

  function RetakingMoment(n: nat): State {
    var first := map[0 := PLACEHOLDER, 1 := FAILED];
    var second := map[0 := PLACEHOLDER, 1 := FAILED, 2 := PLACEHOLDER];
    var torn := second[3 := Obj(0, Dead, false, true, 1)];
    match n
    case 0 => OneCell(None, map[])
    case 1 => OneCell(Some(0), map[0 := PLACEHOLDER]).(reserves := multiset{0})
    case 2 => OneCell(Some(1), map[0 := PLACEHOLDER, 1 := Obj(0, Connecting, true, true, 0)])
    case 3 => OneCell(Some(1), first).(failing := multiset{0})
    case 4 => OneCell(None, first)
    case 5 => OneCell(Some(2), second).(reserves := multiset{0})
    case 6 => OneCell(Some(3), second[3 := Obj(0, Connecting, true, true, 0)])
    case 7 => OneCell(Some(3), second[3 := Obj(0, Ready, false, true, 0)])
    case 8 => OneCell(Some(3), second[3 := Obj(0, Draining, false, true, 0)]).(teardowns := map[9 := 3])
    case 9 => OneCell(Some(3), torn).(freeing := multiset{0})
    case 10 => OneCell(Some(4), torn[4 := Obj(0, Connecting, true, false, 0)]).(freeing := multiset{0})
    case 11 => OneCell(None, torn[4 := Obj(0, Connecting, true, false, 0)])
    case _ => OneCell(None, torn[4 := Obj(0, Ready, false, false, 0)])
  }

  lemma FirstConnectFails(n: nat)
    requires n < 3
    ensures Next(RetakingMoment(n), RETAKING_RUN[n], RetakingMoment(n + 1))
    ensures n != 10 ==> Orderly(RetakingMoment(n), RETAKING_RUN[n])
  {
  }

  lemma CellIsClaimedAgain(n: nat)
    requires 3 <= n < 6
    ensures Next(RetakingMoment(n), RETAKING_RUN[n], RetakingMoment(n + 1))
    ensures n != 10 ==> Orderly(RetakingMoment(n), RETAKING_RUN[n])
  {
  }

  lemma SecondSlotIsDrained(n: nat)
    requires 6 <= n < 9
    ensures Next(RetakingMoment(n), RETAKING_RUN[n], RetakingMoment(n + 1))
    ensures n != 10 ==> Orderly(RetakingMoment(n), RETAKING_RUN[n])
  {
  }

  lemma ReconnectIsWiped(n: nat)
    requires 9 <= n < 12
    ensures Next(RetakingMoment(n), RETAKING_RUN[n], RetakingMoment(n + 1))
    ensures n != 10 ==> Orderly(RetakingMoment(n), RETAKING_RUN[n])
  {
  }

  /** No death hits a connecting slot here: a live slot is torn down, the reconnect left over from a
      failed reserve connect takes the dead slot's cell before the teardown frees it, the freeing
      empties the cell, and the reconnect succeeds in no cell.  Every step but the freeing is orderly. */
  lemma FreeOrphansReconnect() returns (states: seq<State>)
    ensures Run(states, RETAKING_RUN)
    ensures forall n | 0 <= n < 12 && n != 10 :: Orderly(states[n], RETAKING_RUN[n])
    ensures var s := states[12];
            4 in s.objs && s.objs[4].state == Ready && forall i | 0 <= i < |s.cells| :: s.cells[i] != Some(4)
  {
    states := seq(13, n requires 0 <= n => RetakingMoment(n));
    forall n | 0 <= n < 12
      ensures Next(states[n], RETAKING_RUN[n], states[n + 1]) && (n != 10 ==> Orderly(states[n], RETAKING_RUN[n]))
    {
      if n < 3 {
        FirstConnectFails(n);
      } else if n < 6 {
        CellIsClaimedAgain(n);
      } else if n < 9 {
        SecondSlotIsDrained(n);
      } else {
        ReconnectIsWiped(n);
      }
    }
  }
}
