/** How long a connection can live: the age-rotation sweep, one deferral, the drain watchdog, and the
    budget the pool computes for all of it.

    Times are nanoseconds since the connection became ready.  Timers are ideal: a sweep happens at
    the drawn wake-up and a deadline is handled when it fires.  The rotation threshold is fixed for
    the life of the connection, and the drain is graceful. */
module TeardownBudget {
  import opened Options
  import opened SlotTypes

  const TICK: nat := 500_000_000
  const RECHECK_INTERVAL: nat := 5_000_000_000
  const DEFAULT_STEP: nat := 15_000_000_000

  /** base is the rotation threshold in force; a cap of zero or less means no cap, a sticky age of
      zero or less means no sticky extension. */
  datatype Config = Config(base: nat, cells: nat, step: int, cap: int, hardCap: nat, sticky: int, idleEnabled: bool)

  function Max(a: int, b: int): int { if a > b then a else b }

  // ---------------------------------------------------------------- the budget

  function Step(c: Config): (s: nat)
    ensures s > 0 && (s == c.step || (c.step <= 0 && s == 15_000_000_000))
  {
    if c.step <= 0 then DEFAULT_STEP else c.step
  }

  function Rung(c: Config, idx: nat): (r: nat)
    ensures r <= idx * Step(c) && (c.cap > 0 ==> r <= c.cap) && (r == idx * Step(c) || r == c.cap)
  {
    if c.cap > 0 && idx * Step(c) > c.cap then c.cap else idx * Step(c)
  }

  function StaggerSpan(c: Config): nat {
    Rung(c, if c.cells == 0 then 0 else c.cells - 1) + Step(c) / 2
  }

  function SweepWorstCase(): nat { 2 * (TICK + TICK) }

  /** The total of worstCaseTeardown with graceful drain on. */
  function Total(c: Config): nat {
    c.base + StaggerSpan(c) + SweepWorstCase() + REVERT_BACKOFF + Max(c.hardCap, c.sticky)
  }

  // ---------------------------------------------------------------- the threshold

  /** uniform[-step/2, step/2), truncated to whole nanoseconds */
  predicate Jitter(c: Config, j: int) {
    -(Step(c) / 2) <= j <= (Step(c) - 1) / 2
  }

  function StaggerOffset(c: Config, idx: nat, j: int): int {
    if idx == 0 then 0 else Rung(c, idx) + j
  }

  lemma RungMonotone(c: Config, i: nat, j: nat)
    requires i <= j
    ensures Rung(c, i) <= Rung(c, j)
  {
  }

  /** The span covers every cell's draw; the half-open jitter leaves one unit when the step is even. */
  lemma StaggerBound(c: Config, idx: nat, j: int)
    requires idx < c.cells && Jitter(c, j)
    ensures StaggerOffset(c, idx, j) <= StaggerSpan(c) - (if Step(c) % 2 == 0 then 1 else 0)
    ensures StaggerOffset(c, 0, j) == 0
  {
    RungMonotone(c, idx, c.cells - 1);
  }

  // ---------------------------------------------------------------- the sweep

  /** The first wake-up after the start, the gaps between wake-ups, and the backoff of the one
      deferral if there is any. */
  datatype Sweeps = Sweeps(first: nat, gap: nat -> nat, deferral: Option<nat>)

  ghost predicate Drawn(w: Sweeps) {
    && w.first < 2 * TICK
    && (forall k: nat :: TICK <= w.gap(k) < 2 * TICK)
    && (w.deferral.Some? ==> w.deferral.value <= REVERT_BACKOFF)
  }

  ghost function Wake(w: Sweeps, k: nat): nat {
    if k == 0 then w.first else Wake(w, k - 1) + w.gap(k - 1)
  }

  /** Wake-up k is the first one from wake-up lo on that is not before t. */
  ghost predicate FirstFrom(w: Sweeps, lo: nat, t: int, k: nat) {
    lo <= k && Wake(w, k) >= t && (k == lo || Wake(w, k - 1) < t)
  }

  /** The drain starts at moment `at`: at the first sweep past the threshold, or, if that attempt is
      deferred, at the first later sweep past the backoff. */
  ghost predicate Starts(w: Sweeps, threshold: int, at: nat) {
    exists k: nat :: FirstFrom(w, 0, threshold, k) && StartsAfter(w, k, at)
  }

  ghost predicate StartsAfter(w: Sweeps, k: nat, at: nat) {
    if w.deferral.None? then at == Wake(w, k)
    else exists m: nat :: FirstFrom(w, k + 1, Wake(w, k) + w.deferral.value, m) && at == Wake(w, m)
  }

  lemma StartIsSoon(w: Sweeps, threshold: int, at: nat)
    requires Drawn(w) && Starts(w, threshold, at)
    ensures threshold <= at <= Max(threshold, 1) + 31_999_999_996
  {
    var k: nat :| FirstFrom(w, 0, threshold, k) && StartsAfter(w, k, at);
    if w.deferral.Some? {
      var m: nat :| FirstFrom(w, k + 1, Wake(w, k) + w.deferral.value, m) && at == Wake(w, m);
    }
  }

  /** The rotation watchdog seen by one slot: sweep after sweep, skip while in backoff or under age,
      otherwise try to start the drain. */
  method RotationWatchdog(w: Sweeps, threshold: int) returns (at: nat)
    requires Drawn(w)
    ensures Starts(w, threshold, at)
    ensures threshold <= at <= Max(threshold, 1) + 31_999_999_996
  {
    var k, now := Sleep(w, 0, w.first, threshold);
    at := now;
    if w.deferral.Some? {
      var nextAttempt := now + w.deferral.value;
      assert w.gap(k) >= TICK;
      var m;
      m, at := Sleep(w, k + 1, now + w.gap(k), nextAttempt);
    }
    assert StartsAfter(w, k, at);
    StartIsSoon(w, threshold, at);
  }

  /** Sweeps that find the slot not yet due. */
  method Sleep(w: Sweeps, lo: nat, from: nat, due: int) returns (k: nat, now: nat)
    requires Drawn(w) && from == Wake(w, lo)
    ensures FirstFrom(w, lo, due, k) && now == Wake(w, k)
  {
    k, now := lo, from;
    while now < due
      invariant lo <= k && now == Wake(w, k) && (k == lo || Wake(w, k - 1) < due)
      decreases due - now
    {
      assert w.gap(k) >= TICK;
      now := now + w.gap(k);
      k := k + 1;
    }
  }

  // ---------------------------------------------------------------- the drain

  /** Where the age backstop falls: the hard cap, then the first recheck at which the drain is at
      least the sticky age. */
  function Backstop(c: Config): nat {
    if c.sticky <= c.hardCap || !c.idleEnabled then c.hardCap
    else c.hardCap + RECHECK_INTERVAL * ((c.sticky - c.hardCap + RECHECK_INTERVAL - 1) / RECHECK_INTERVAL)
  }

  /** The hard cap itself or the first recheck, every 5 s from the hard cap on, at the sticky age. */
  lemma BackstopBounds(c: Config)
    ensures c.hardCap <= Backstop(c) < Max(c.hardCap, c.sticky) + 5_000_000_000
    ensures (Backstop(c) - c.hardCap) % 5_000_000_000 == 0
    ensures !c.idleEnabled ==> Backstop(c) == c.hardCap
    ensures c.sticky <= c.hardCap || (c.sticky - c.hardCap) % RECHECK_INTERVAL == 0 ==>
              Backstop(c) <= Max(c.hardCap, c.sticky)
    ensures c.idleEnabled ==> Backstop(c) >= c.sticky
  {
  }

  /** What a deadline finds besides age: a reason to end that is looked at before the age test (phantom
      counter, no streams, all idle), one looked at after it (byte limit, quota), or neither. */
  datatype Finding = EndNow | EndUnlessOld | KeepOpen

  datatype Cause = Ticked | HardCap | Found | AgeBackstop

  ghost predicate Quiet(found: nat -> Finding) {
    forall n: nat :: found(n) == KeepOpen
  }

  /** The rechecks before moment `age` of a drain. */
  function NthRecheck(c: Config, age: nat): nat {
    if age <= c.hardCap then 0 else (age - c.hardCap + 4_999_999_999) / 5_000_000_000
  }

  /** The drain watchdog.  It ends at a tick, or at the first deadline that finds a reason: those looked
      at before the age test end it at any age, those after it below the sticky age only, and at
      every earlier deadline there was none.  `ticked` is the moment, if any, at which a poll tick ends
      the drain. */
  method DrainWatchdog(c: Config, ticked: Option<nat>, found: nat -> Finding) returns (age: nat, cause: Cause)
    ensures age <= Backstop(c)
    ensures ticked.None? && Quiet(found) ==> age == Backstop(c)
    ensures cause == AgeBackstop ==> age >= c.sticky
    ensures cause == HardCap ==> age == c.hardCap && (c.sticky <= 0 || !c.idleEnabled)
    ensures cause == Ticked <==> ticked == Some(age)
    ensures cause != Ticked ==> age >= c.hardCap && (age - c.hardCap) % 5_000_000_000 == 0
    ensures cause == Found ==> var at := found(NthRecheck(c, age));
                               at == EndNow || (at == EndUnlessOld && age < c.sticky)
    ensures cause == AgeBackstop ==> found(NthRecheck(c, age)) != EndNow
    ensures forall m: nat | m < NthRecheck(c, age) ::
              found(m) == KeepOpen && c.hardCap + 5_000_000_000 * m < c.sticky
  {
    var deadline, n := c.hardCap, 0;
    while true
      invariant deadline == c.hardCap + RECHECK_INTERVAL * n && deadline <= Backstop(c)
      invariant n > 0 ==> c.idleEnabled && 0 < c.sticky && deadline - RECHECK_INTERVAL < c.sticky
      invariant n > 0 ==> ticked.None? || ticked.value > deadline - RECHECK_INTERVAL
      invariant forall m: nat | m < n :: found(m) == KeepOpen && c.hardCap + 5_000_000_000 * m < c.sticky
      decreases Backstop(c) - deadline
    {
      if ticked.Some? && ticked.value <= deadline {
        return ticked.value, Ticked;
      }
      if c.sticky <= 0 || !c.idleEnabled {
        return deadline, HardCap;
      }
      if found(n) == EndNow {
        return deadline, Found;
      }
      if deadline >= c.sticky {
        return deadline, AgeBackstop;
      }
      if found(n) == EndUnlessOld {
        return deadline, Found;
      }
      BackstopBounds(c);
      deadline, n := deadline + RECHECK_INTERVAL, n + 1;
    }
  }

  // ---------------------------------------------------------------- the life of a connection

  ghost predicate Life(c: Config, idx: nat, j: int, w: Sweeps, start: nat, drain: nat) {
    && c.base > 0 && idx < c.cells && Jitter(c, j) && Drawn(w)
    && Starts(w, c.base + StaggerOffset(c, idx, j), start)
    && drain <= Backstop(c)
  }

  function Slack(c: Config): nat { if Step(c) % 2 == 0 then 5 else 4 }

  lemma LifeBound(c: Config, idx: nat, j: int, w: Sweeps, start: nat, drain: nat)
    requires Life(c, idx, j, w, start, drain)
    ensures start + drain <= Total(c) - Slack(c) + Backstop(c) - Max(c.hardCap, c.sticky)
  {
    StaggerBound(c, idx, j);
    StartIsSoon(w, c.base + StaggerOffset(c, idx, j), start);
  }

  /** For every stagger draw, sweep jitter, deferral and drain: torn down before the budget plus one
      recheck interval, and within the budget itself when the sticky age is at most the hard cap or
      a whole number of rechecks past it. */
  lemma TeardownWithinBudget(c: Config, idx: nat, j: int, w: Sweeps, start: nat, drain: nat)
    requires Life(c, idx, j, w, start, drain)
    ensures start + drain < Total(c) + 5_000_000_000
    ensures c.sticky <= c.hardCap || (c.sticky - c.hardCap) % 5_000_000_000 == 0 ==> start + drain <= Total(c)
  {
    LifeBound(c, idx, j, w, start, drain);
    BackstopBounds(c);
  }

  /** The whole path run through the two loops. */
  method Retire(c: Config, idx: nat, j: int, w: Sweeps, ticked: Option<nat>, found: nat -> Finding) returns (at: nat)
    requires c.base > 0 && idx < c.cells && Jitter(c, j) && Drawn(w)
    ensures at < Total(c) + RECHECK_INTERVAL
    ensures c.sticky <= c.hardCap ==> at <= Total(c)
  {
    var start := RotationWatchdog(w, c.base + StaggerOffset(c, idx, j));
    var drain, cause := DrainWatchdog(c, ticked, found);
    TeardownWithinBudget(c, idx, j, w, start, drain);
    at := start + drain;
  }

  // ---------------------------------------------------------------- when the budget is exact

  ghost predicate WithinBudget(c: Config) {
    forall idx: nat, j, w, start: nat, drain: nat | Life(c, idx, j, w, start, drain) :: start + drain <= Total(c)
  }

  /** A draw of wake-ups that costs the most: the sweep just misses the threshold, is deferred for
      the full backoff, and just misses its end too. */
  function WorstGap(q: nat): nat -> nat {
    (k: nat) => if k == q || k == q + 59 || k == q + 60 then 2 * TICK - 1 else TICK
  }

  /** The moment the drain starts under these draws. */
  function WorstStartOf(threshold: nat): nat {
    threshold + 4 * TICK + REVERT_BACKOFF - 4
  }

  function WorstSweeps(threshold: nat): Sweeps
    requires threshold > 0
  {
    Sweeps((threshold - 1) % TICK, WorstGap((threshold - 1) / TICK), Some(REVERT_BACKOFF))
  }

  lemma {:induction false} SteadyWakes(w: Sweeps, k: nat, n: nat)
    requires forall i: nat | k <= i < k + n :: w.gap(i) == TICK
    ensures Wake(w, k + n) == Wake(w, k) + n * TICK
  {
    if n > 0 {
      SteadyWakes(w, k, n - 1);
      assert w.gap(k + n - 1) == TICK;
    }
  }

  lemma WorstWakes(threshold: nat)
    requires threshold > 0
    ensures var w, q := WorstSweeps(threshold), (threshold - 1) / TICK;
            && Wake(w, q) == threshold - 1
            && Wake(w, q + 1) == threshold + 2 * TICK - 2
            && Wake(w, q + 60) == threshold + 2 * TICK - 2 + REVERT_BACKOFF - 1
            && Wake(w, q + 61) == WorstStartOf(threshold)
  {
    var w, q := WorstSweeps(threshold), (threshold - 1) / TICK;
    SteadyWakes(w, 0, q);
    SteadyWakes(w, q + 1, 58);
    assert w.gap(q) == w.gap(q + 59) == w.gap(q + 60) == 2 * TICK - 1;
    assert Wake(w, q + 60) == Wake(w, q + 59) + w.gap(q + 59);
    assert Wake(w, q + 61) == Wake(w, q + 60) + w.gap(q + 60);
  }

  lemma WorstStart(threshold: nat)
    requires threshold > 0
    ensures Drawn(WorstSweeps(threshold)) && Starts(WorstSweeps(threshold), threshold, WorstStartOf(threshold))
  {
    var w, q := WorstSweeps(threshold), (threshold - 1) / TICK;
    WorstWakes(threshold);
    assert FirstFrom(w, 0, threshold, q + 1);
    assert FirstFrom(w, q + 2, Wake(w, q + 1) + REVERT_BACKOFF, q + 61);
    assert StartsAfter(w, q + 1, WorstStartOf(threshold));
  }

  lemma WorstLife(c: Config)
    requires c.base > 0 && c.cells >= 2
    ensures var j := (Step(c) - 1) / 2;
            var threshold := c.base + StaggerOffset(c, c.cells - 1, j);
            && threshold > 0
            && Life(c, c.cells - 1, j, WorstSweeps(threshold), WorstStartOf(threshold), Backstop(c))
            && WorstStartOf(threshold) + Backstop(c) == Total(c) - Slack(c) + Backstop(c) - Max(c.hardCap, c.sticky)
  {
    WorstStart(c.base + StaggerOffset(c, c.cells - 1, (Step(c) - 1) / 2));
  }

  lemma RungPositive(c: Config, idx: nat)
    requires idx > 0
    ensures Rung(c, idx) > 0
  {
  }

  /** The budget is an upper bound on every life exactly when the rechecks overshoot the sticky age by
      at most the few nanoseconds the half-open draws leave free. */
  lemma BudgetHoldsExactly(c: Config)
    requires c.base > 0 && c.cells >= 2
    ensures WithinBudget(c) <==> Backstop(c) - Max(c.hardCap, c.sticky) <= Slack(c)
  {
    if Backstop(c) - Max(c.hardCap, c.sticky) <= Slack(c) {
      forall idx: nat, j, w, start: nat, drain: nat | Life(c, idx, j, w, start, drain)
        ensures start + drain <= Total(c)
      {
        LifeBound(c, idx, j, w, start, drain);
      }
    } else {
      WorstLife(c);
    }
  }

  /** A sticky age one second past the hard cap: a life four seconds over the budget. */
  lemma StickyOvershoots()
    ensures var c := Config(75_000_000_000, 16, 1_000_000_000, 15_000_000_000, 15_000_000_000, 16_000_000_000, true);
            Total(c) == 138_500_000_000 && Backstop(c) == 20_000_000_000 && !WithinBudget(c)
  {
    BudgetHoldsExactly(Config(75_000_000_000, 16, 1_000_000_000, 15_000_000_000, 15_000_000_000, 16_000_000_000, true));
  }
}
