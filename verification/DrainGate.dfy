/** The concurrency cap on drains, and the accounting of sticky drains, under every interleaving.

    A drain start raises the in-flight counter first and looks at the value it got; it either
    backs out or hands its unit over to a watchdog, which gives the unit back on exit.  A watchdog
    may mark its slot sticky, in two atomic actions (flag, then pool counter), and undoes both on
    exit. */
module DrainGate {
  import opened Counting

  /** Half the pool, rounded up, but always one drain and never the whole pool. */
  function MaxConcurrentDrains(poolSize: nat): (cap: nat)
    ensures poolSize >= 1 ==> poolSize <= 2 * cap <= poolSize + 1
    ensures 1 <= cap && (poolSize >= 2 ==> cap <= poolSize - 1)
    ensures poolSize == 0 ==> cap == 1
  {
    var half := (poolSize + 1) / 2;
    var upper := if half >= poolSize then poolSize - 1 else half;
    if upper < 1 then 1 else upper
  }

  /** Where one drain attempt stands. */
  datatype Drain =
    | Raised(slot: nat, seen: int)              // counter raised, this value was returned
    | Watching(slot: nat, counted: bool)        // watchdog alive; counted: its unit is in stickyCount
    | Leaving(slot: nat)                        // sticky flag cleared, pool counter not yet lowered
    | Finishing(slot: nat)                      // sticky accounting done, unit not yet returned

  datatype State = State(
    poolSize: nat,
    inflight: int,
    stickyCount: int,
    sticky: set<nat>,          // slots whose sticky flag is up
    drains: map<nat, Drain>)   // attempts in progress, by attempt number

  datatype Action =
    | Trigger(k: nat, slot: nat)   // startDrain: raise inflight, remember the value
    | BackOut(k: nat)              // over the cap, or a later gate refused
    | Commit(k: nat)               // all gates passed: spawn the watchdog
    | FlagSticky(k: nat)           // markSticky, first half: CAS false -> true
    | CountSticky(k: nat)          // markSticky, second half: Add(1)
    | Unflag(k: nat)               // releaseSticky, first half: Swap(false)
    | Uncount(k: nat)              // releaseSticky, second half: Add(-1)
    | Return(k: nat)               // watchdog exit: give the in-flight unit back

  function Cap(s: State): nat {
    MaxConcurrentDrains(s.poolSize)
  }

  /** An attempt that got a value within the cap, or a live watchdog. */
  function Holding(cap: nat): Drain -> bool {
    (d: Drain) => !d.Raised? || d.seen <= cap
  }

  function Any(): Drain -> bool {
    (d: Drain) => true
  }

  function Watchdog(): Drain -> bool {
    (d: Drain) => !d.Raised?
  }

  function Uncommitted(): Drain -> bool {
    (d: Drain) => d.Raised?
  }

  /** The attempt's slot has exactly one attempt past the ready-to-draining transition. */
  ghost predicate Sole(s: State, slot: nat) {
    forall k | k in s.drains && !s.drains[k].Raised? :: s.drains[k].slot != slot
  }

  ghost predicate Next(s: State, a: Action, s': State) {
    match a
    case Trigger(k, slot) =>
      k !in s.drains
      && s' == s.(inflight := s.inflight + 1, drains := s.drains[k := Raised(slot, s.inflight + 1)])
    case BackOut(k) =>
      k in s.drains && s.drains[k].Raised?
      && s' == s.(inflight := s.inflight - 1, drains := s.drains - {k})
    case Commit(k) =>
      // The ready-to-draining transition is won once per slot object.
      k in s.drains && s.drains[k].Raised? && s.drains[k].seen <= Cap(s) && Sole(s, s.drains[k].slot)
      && s' == s.(drains := s.drains[k := Watching(s.drains[k].slot, false)])
    case FlagSticky(k) =>
      k in s.drains && s.drains[k].Watching? && s.drains[k].slot !in s.sticky
      && s' == s.(sticky := s.sticky + {s.drains[k].slot})
    case CountSticky(k) =>
      k in s.drains && s.drains[k].Watching? && !s.drains[k].counted && s.drains[k].slot in s.sticky
      && s' == s.(stickyCount := s.stickyCount + 1, drains := s.drains[k := s.drains[k].(counted := true)])
    case Unflag(k) =>
      // The watchdog is sequential: it does not leave between the two halves of markSticky.
      k in s.drains && s.drains[k].Watching? && (s.drains[k].slot in s.sticky ==> s.drains[k].counted)
      && s' == s.(sticky := s.sticky - {s.drains[k].slot},
                  drains := s.drains[k := if s.drains[k].slot in s.sticky then Leaving(s.drains[k].slot)
                                          else Finishing(s.drains[k].slot)])
    case Uncount(k) =>
      k in s.drains && s.drains[k].Leaving?
      && s' == s.(stickyCount := s.stickyCount - 1, drains := s.drains[k := Finishing(s.drains[k].slot)])
    case Return(k) =>
      k in s.drains && s.drains[k].Finishing?
      && s' == s.(inflight := s.inflight - 1, drains := s.drains - {k})
  }

  /** The attempt's unit is in the pool-wide sticky counter. */
  function InCount(): Drain -> bool {
    (d: Drain) => (d.Watching? && d.counted) || d.Leaving?
  }

  predicate WatchedBy(s: State, slot: nat, k: nat) {
    k in s.drains && s.drains[k].Watching? && s.drains[k].slot == slot
  }

  /** Past its commit every attempt has a slot to itself; a watchdog that counts as sticky has its slot
      flagged, one that is leaving has not, and every flagged slot has its watchdog. */
  ghost predicate StickyOwned(s: State) {
    && (forall k, l | k in s.drains && l in s.drains && k != l && !s.drains[k].Raised? && !s.drains[l].Raised? ::
          s.drains[k].slot != s.drains[l].slot)
    && (forall k | k in s.drains && s.drains[k].Watching? && s.drains[k].counted :: s.drains[k].slot in s.sticky)
    && (forall k | k in s.drains && (s.drains[k].Leaving? || s.drains[k].Finishing?) :: s.drains[k].slot !in s.sticky)
    && (forall slot | slot in s.sticky :: exists k :: WatchedBy(s, slot, k))
  }

  ghost predicate Inv(s: State) {
    && s.inflight == Count(s.drains, Any())
    && Count(s.drains, Holding(Cap(s))) <= Cap(s)
    && s.stickyCount == Count(s.drains, InCount())
    && StickyOwned(s)
  }

  ghost predicate Initial(s: State) {
    s.inflight == 0 && s.stickyCount == 0 && s.sticky == {} && s.drains == map[]
  }

  ghost predicate Run(states: seq<State>, acts: seq<Action>) {
    && |states| == |acts| + 1
    && Initial(states[0])
    && forall n | 0 <= n < |acts| :: Next(states[n], acts[n], states[n + 1])
  }

  /** Everything that holds a unit is counted in it. */
  lemma HoldersAreCounted(s: State, p: Drain -> bool)
    ensures Count(s.drains, p) <= Count(s.drains, Any())
  {
    SubsetCard(Matching(s.drains, p), Matching(s.drains, Any()));
  }

  lemma {:induction false} SubsetCard(a: set<nat>, b: set<nat>)
    requires a <= b
    ensures |a| <= |b|
  {
    assert b == a + (b - a);
  }

  lemma CountStep(s: State, a: Action, s': State, p: Drain -> bool)
    requires Next(s, a, s')
    ensures Count(s'.drains, p) ==
            Count(s.drains, p) + Hit(a.k in s'.drains && p(s'.drains[a.k])) - Hit(a.k in s.drains && p(s.drains[a.k]))
  {
    if a.k in s'.drains {
      assert s'.drains == s.drains[a.k := s'.drains[a.k]];
      CountStore(s.drains, a.k, s'.drains[a.k], p);
    } else {
      CountDelete(s.drains, a.k, p);
    }
  }

  /** An attempt goes ahead exactly when the value it got is within half the pool, rounded up (or it is
      the first), and no other attempt is past its commit on that slot. */
  lemma CommitExactly(s: State, k: nat)
    ensures (exists s' :: Next(s, Commit(k), s')) <==>
            && k in s.drains && s.drains[k].Raised?
            && (s.drains[k].seen <= 1 || 2 * s.drains[k].seen <= s.poolSize + 1)
            && Sole(s, s.drains[k].slot)
  {
    if k in s.drains && s.drains[k].Raised? && s.drains[k].seen <= Cap(s) && Sole(s, s.drains[k].slot) {
      assert Next(s, Commit(k), s.(drains := s.drains[k := Watching(s.drains[k].slot, false)]));
    }
  }

  lemma CapStep(s: State, a: Action, s': State)
    requires Inv(s) && Next(s, a, s')
    ensures s'.inflight == Count(s'.drains, Any())
    ensures Count(s'.drains, Holding(Cap(s'))) <= Cap(s')
  {
    CountStep(s, a, s', Any());
    CountStep(s, a, s', Holding(Cap(s)));
    HoldersAreCounted(s', Holding(Cap(s)));
  }

  lemma StickyOwnedStep(s: State, a: Action, s': State)
    requires StickyOwned(s) && Next(s, a, s')
    ensures StickyOwned(s')
  {
    forall slot | slot in s'.sticky
      ensures exists k :: WatchedBy(s', slot, k)
    {
      if slot in s.sticky {
        var k :| WatchedBy(s, slot, k);
        assert WatchedBy(s', slot, k);
      } else {
        assert WatchedBy(s', slot, a.k);
      }
    }
  }

  lemma {:induction false} RunKeepsInv(states: seq<State>, acts: seq<Action>, n: nat)
    requires Run(states, acts) && n < |states|
    ensures Inv(states[n])
  {
    if n == 0 {
      CountZero(states[0].drains, Any());
      CountZero(states[0].drains, Holding(Cap(states[0])));
      CountZero(states[0].drains, InCount());
    } else {
      var s, a, s' := states[n - 1], acts[n - 1], states[n];
      RunKeepsInv(states, acts, n - 1);
      CapStep(s, a, s');
      CountStep(s, a, s', InCount());
      StickyOwnedStep(s, a, s');
    }
  }

  // ---------------------------------------------------------------- what the counters mean

  /** Flag up, pool counter not yet raised. */
  function HalfMarked(sticky: set<nat>): Drain -> bool {
    (d: Drain) => d.Watching? && !d.counted && d.slot in sticky
  }

  /** Flag down, pool counter not yet lowered. */
  function HalfReleased(): Drain -> bool {
    (d: Drain) => d.Leaving?
  }

  function Flagged(sticky: set<nat>): Drain -> bool {
    (d: Drain) => d.Watching? && d.slot in sticky
  }

  function Counted(): Drain -> bool {
    (d: Drain) => d.Watching? && d.counted
  }

  /** A set of labels, each carried by exactly one thing, is as large as the set of things. */
  lemma {:induction false} SameCard(ks: set<nat>, f: map<nat, nat>, labels: set<nat>)
    requires ks <= f.Keys && forall k, l | k in ks && l in ks && k != l :: f[k] != f[l]
    requires forall k | k in ks :: f[k] in labels
    requires forall x | x in labels :: exists k :: k in ks && f[k] == x
    ensures |ks| == |labels|
  {
    if ks == {} {
      assert labels == {};
    } else {
      var k :| k in ks;
      forall x | x in labels - {f[k]}
        ensures exists l :: l in ks - {k} && f[l] == x
      {
        var l :| l in ks && f[l] == x;
        assert l in ks - {k};
      }
      SameCard(ks - {k}, f, labels - {f[k]});
    }
  }

  /** Each sticky slot belongs to exactly one flagged watchdog. */
  lemma StickySlotsAreFlagged(s: State)
    requires StickyOwned(s)
    ensures |s.sticky| == Count(s.drains, Flagged(s.sticky))
  {
    var ks := Matching(s.drains, Flagged(s.sticky));
    var slotOf: map<nat, nat> := map k | k in ks :: s.drains[k].slot;
    forall slot | slot in s.sticky
      ensures exists k :: k in ks && slotOf[k] == slot
    {
      var k :| WatchedBy(s, slot, k);
      assert k in ks && slotOf[k] == slot;
    }
    SameCard(ks, slotOf, s.sticky);
  }

  /** At every moment of every interleaving of drain triggers, watchdogs and sticky marks:
      the in-flight counter is the live watchdogs plus the uncommitted starts; the starts past the
      gate plus the live watchdogs stay within the cap, below the pool size; the sticky counter is
      the number of sticky slots, up to marks and releases caught between their two halves; and
      with no watchdog alive nothing is sticky and the counter is back at zero. */
  lemma DrainAccounting(states: seq<State>, acts: seq<Action>, n: nat)
    requires Run(states, acts) && n < |states|
    ensures var s := states[n];
            var cap := MaxConcurrentDrains(s.poolSize);
            && s.inflight == Count(s.drains, Watchdog()) + Count(s.drains, Uncommitted())
            && Count(s.drains, Holding(cap)) <= cap
            && (s.poolSize >= 2 ==> Count(s.drains, Watchdog()) <= s.poolSize - 1)
            && s.stickyCount + Count(s.drains, HalfMarked(s.sticky)) == |s.sticky| + Count(s.drains, HalfReleased())
            && (Count(s.drains, Watchdog()) == 0 ==> s.sticky == {} && s.stickyCount == 0)
  {
    var s := states[n];
    var cap := MaxConcurrentDrains(s.poolSize);
    RunKeepsInv(states, acts, n);
    SplitCount(s.drains, Any(), Watchdog(), Uncommitted());
    SubsetCard(Matching(s.drains, Watchdog()), Matching(s.drains, Holding(cap)));
    StickySlotsAreFlagged(s);
    SplitCount(s.drains, Flagged(s.sticky), Counted(), HalfMarked(s.sticky));
    SplitCount(s.drains, InCount(), Counted(), HalfReleased());
    CountZero(s.drains, Watchdog());
    if Count(s.drains, Watchdog()) == 0 {
      CountZero(s.drains, InCount());
      CountZero(s.drains, Flagged(s.sticky));
      assert |s.sticky| == 0;
    }
  }

  /** A predicate that is the disjoint union of two others counts as their sum. */
  lemma SplitCount(m: map<nat, Drain>, p: Drain -> bool, q: Drain -> bool, r: Drain -> bool)
    requires forall k | k in m :: (p(m[k]) <==> q(m[k]) || r(m[k])) && !(q(m[k]) && r(m[k]))
    ensures Count(m, p) == Count(m, q) + Count(m, r)
  {
    assert Matching(m, p) == Matching(m, q) + Matching(m, r);
    assert Matching(m, q) !! Matching(m, r);
  }
}
