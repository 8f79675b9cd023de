/** The meltdown detector when deaths race: the counter increment, the clock reading, the load of the
    cooldown field and its compare-and-swap are separate actions, interleaved freely with those of
    other deaths, with the timers that age deaths out, and with time. */
module MeltdownRace {
  import Meltdown

  /** How far one natural death has got in being recorded. */
  datatype Call =
    | Counted(seen: int)                        // counter raised to `seen`
    | Stamped(seen: int, now: nat)              // threshold met, clock read
    | Loaded(seen: int, now: nat, prev: nat)    // field loaded: no cooldown is running at `now`

  /** A cooldown: its start, and the counter value that called for it. */
  datatype Start = Start(at: nat, seen: int)

  datatype State = State(
    clock: nat,
    recentDeaths: int,
    timers: map<nat, nat>,     // deaths not yet aged out, and the moment each was counted
    until: nat,
    starts: seq<Start>,
    calls: map<nat, Call>)

  datatype Action =
    | Pass(t: nat)
    | Add(k: nat)
    | Expire(k: nat)
    | Stamp(k: nat)
    | Load(k: nat)
    | Swap(k: nat)

  /** Timers are ideal: time does not pass beyond the moment one is due. */
  ghost predicate Next(c: Meltdown.Config, s: State, a: Action, s': State) {
    match a
    case Pass(t) =>
      s.clock <= t && (forall k | k in s.timers :: t <= s.timers[k] + c.window) && s' == s.(clock := t)
    case Add(k) =>
      k !in s.calls && k !in s.timers
      && s' == s.(recentDeaths := s.recentDeaths + 1, timers := s.timers[k := s.clock],
                  calls := s.calls[k := Counted(s.recentDeaths + 1)])
    case Expire(k) =>
      k in s.timers && s.clock >= s.timers[k] + c.window
      && s' == s.(recentDeaths := s.recentDeaths - 1, timers := s.timers - {k})
    case Stamp(k) =>
      k in s.calls && s.calls[k].Counted?
      && s' == s.(calls := if s.calls[k].seen >= c.threshold then s.calls[k := Stamped(s.calls[k].seen, s.clock)]
                           else s.calls - {k})
    case Load(k) =>
      k in s.calls && s.calls[k].Stamped?
      && s' == s.(calls := if s.until == 0 || s.calls[k].now >= s.until
                           then s.calls[k := Loaded(s.calls[k].seen, s.calls[k].now, s.until)] else s.calls - {k})
    case Swap(k) =>
      k in s.calls && s.calls[k].Loaded?
      && s' == (var call := s.calls[k];
                if s.until != call.prev then s.(calls := s.calls - {k})
                else s.(until := call.now + c.cooldown, starts := s.starts + [Start(call.now, call.seen)],
                        calls := s.calls - {k}))
  }

  ghost predicate Initial(s: State) {
    s.recentDeaths == 0 && s.timers == map[] && s.until == 0 && s.starts == [] && s.calls == map[]
  }

  ghost predicate Run(c: Meltdown.Config, states: seq<State>, acts: seq<Action>) {
    && |states| == |acts| + 1
    && Initial(states[0])
    && forall n | 0 <= n < |acts| :: Next(c, states[n], acts[n], states[n + 1])
  }

  predicate CallFits(c: Meltdown.Config, call: Call, clock: nat) {
    && (!call.Counted? ==> call.seen >= c.threshold && call.now <= clock)
    && (call.Loaded? ==> call.prev == 0 || call.now >= call.prev)
  }

  /** Cooldown i starts no sooner than the one before it is over. */
  ghost predicate Follows(starts: seq<Start>, i: nat, cooldown: nat)
    requires i < |starts|
  {
    i > 0 ==> starts[i].at >= starts[i - 1].at + cooldown
  }

  /** Each cooldown starts when the one before it is over, was called for, and has started. */
  ghost predicate Apart(c: Meltdown.Config, starts: seq<Start>, clock: nat) {
    && (forall i: nat | i < |starts| :: Follows(starts, i, c.cooldown))
    && (forall i: nat | i < |starts| :: starts[i].seen >= c.threshold && starts[i].at <= clock)
  }

  function LastEnd(starts: seq<Start>, cooldown: nat): nat {
    if starts == [] then 0 else starts[|starts| - 1].at + cooldown
  }

  ghost predicate TimersFit(c: Meltdown.Config, s: State) {
    && s.recentDeaths == |s.timers|
    && (forall k | k in s.timers :: s.timers[k] <= s.clock <= s.timers[k] + c.window)
  }

  ghost predicate CallsFit(c: Meltdown.Config, s: State) {
    forall k | k in s.calls :: CallFits(c, s.calls[k], s.clock)
  }

  ghost predicate Inv(c: Meltdown.Config, s: State) {
    && TimersFit(c, s)
    && s.until == LastEnd(s.starts, c.cooldown) && Apart(c, s.starts, s.clock)
    && CallsFit(c, s)
  }

  lemma TimersStep(c: Meltdown.Config, s: State, a: Action, s': State)
    requires TimersFit(c, s) && Next(c, s, a, s')
    ensures TimersFit(c, s')
  {
    if a.Expire? {
      TimerDropped(s.timers, a.k);
    } else if a.Add? {
      TimerAdded(s.timers, a.k, s.clock);
    }
  }

  lemma TimerDropped(timers: map<nat, nat>, k: nat)
    requires k in timers
    ensures |timers - {k}| == |timers| - 1
  {
    assert (timers - {k}).Keys == timers.Keys - {k};
  }

  lemma TimerAdded(timers: map<nat, nat>, k: nat, at: nat)
    requires k !in timers
    ensures |timers[k := at]| == |timers| + 1
  {
    assert timers[k := at].Keys == timers.Keys + {k};
  }

  lemma CallsStep(c: Meltdown.Config, s: State, a: Action, s': State)
    requires CallsFit(c, s) && Next(c, s, a, s')
    ensures CallsFit(c, s')
  {
  }

  /** The swap succeeds only on the value it was based on, and that cooldown is over. */
  lemma StartsStep(c: Meltdown.Config, s: State, a: Action, s': State)
    requires CallsFit(c, s) && Next(c, s, a, s')
    requires s.until == LastEnd(s.starts, c.cooldown) && Apart(c, s.starts, s.clock)
    ensures s'.until == LastEnd(s'.starts, c.cooldown) && Apart(c, s'.starts, s'.clock)
  {
    if s'.starts != s.starts {
      assert CallFits(c, s.calls[a.k], s.clock);
      forall i: nat | i < |s'.starts|
        ensures Follows(s'.starts, i, c.cooldown)
      {
        assert i < |s.starts| ==> Follows(s.starts, i, c.cooldown);
      }
    }
  }

  lemma {:induction false} RunKeepsInv(c: Meltdown.Config, states: seq<State>, acts: seq<Action>, n: nat)
    requires Run(c, states, acts) && n < |states|
    ensures Inv(c, states[n])
  {
    if n == 0 {
    } else {
      RunKeepsInv(c, states, acts, n - 1);
      TimersStep(c, states[n - 1], acts[n - 1], states[n]);
      CallsStep(c, states[n - 1], acts[n - 1], states[n]);
      StartsStep(c, states[n - 1], acts[n - 1], states[n]);
    }
  }

  /** In every interleaving: the counter is the number of natural deaths inside the last window, each
      cooldown was called for by a count of at least the threshold, no cooldown starts before the one
      before it is over, none is extended, and from now on nobody waits longer than one cooldown. */
  lemma RacesKeepCooldowns(c: Meltdown.Config, states: seq<State>, acts: seq<Action>, n: nat)
    requires Run(c, states, acts) && n < |states|
    ensures var s := states[n];
            && s.recentDeaths == |s.timers|
            && (forall k | k in s.timers :: s.clock <= s.timers[k] + c.window)
            && Apart(c, s.starts, s.clock)
            && s.until == LastEnd(s.starts, c.cooldown)
            && Meltdown.WaitsAtMost(s.until, s.clock, c.cooldown)
  {
    RunKeepsInv(c, states, acts, n);
  }

  /** The counter value a death goes by counts that many natural deaths inside the window, itself
      included, at the moment it is taken. */
  lemma SeenInWindow(c: Meltdown.Config, states: seq<State>, acts: seq<Action>, n: nat)
    requires Run(c, states, acts) && n < |acts| && acts[n].Add?
    ensures var s, k := states[n + 1], acts[n].k;
            && k in s.calls && s.calls[k] == Counted(|s.timers|) && k in s.timers && s.timers[k] == s.clock
            && forall l | l in s.timers :: s.timers[l] <= s.clock <= s.timers[l] + c.window
  {
    assert Next(c, states[n], acts[n], states[n + 1]);
    RunKeepsInv(c, states, acts, n + 1);
    RunKeepsInv(c, states, acts, n);
  }

  /** Deaths counted less deaths aged out over the actions n..m. */
  function Change(acts: seq<Action>, n: nat, m: nat): int
    requires n <= m <= |acts|
    decreases m - n
  {
    if n == m then 0
    else Change(acts, n, m - 1) + if acts[m - 1].Add? then 1 else if acts[m - 1].Expire? then -1 else 0
  }

  /** A death's count waits for its clock reading, whatever others do. */
  lemma CallWaitsStep(c: Meltdown.Config, s: State, a: Action, s': State, k: nat)
    requires Next(c, s, a, s') && k in s.calls && s.calls[k].Counted? && a != Stamp(k)
    ensures k in s'.calls && s'.calls[k] == s.calls[k]
    ensures s'.recentDeaths == s.recentDeaths + if a.Add? then 1 else if a.Expire? then -1 else 0
  {
  }

  lemma AddCounts(c: Meltdown.Config, s: State, s': State, k: nat)
    requires Next(c, s, Add(k), s')
    ensures k in s'.calls && s'.calls[k] == Counted(s'.recentDeaths)
    ensures k in s'.timers && s'.timers[k] == s.clock
  {
  }

  lemma {:induction false} CallWaits(c: Meltdown.Config, states: seq<State>, acts: seq<Action>, n: nat, m: nat, k: nat)
    requires Run(c, states, acts) && n < m < |states| && acts[n] == Add(k)
    requires forall j | n < j < m :: acts[j] != Stamp(k)
    ensures k in states[m].calls && states[m].calls[k] == Counted(states[n + 1].recentDeaths)
    ensures states[m].recentDeaths == states[n + 1].recentDeaths + Change(acts, n + 1, m)
    decreases m
  {
    if m == n + 1 {
      AddCounts(c, states[n], states[m], k);
    } else {
      CallWaits(c, states, acts, n, m - 1, k);
      CallWaitsStep(c, states[m - 1], acts[m - 1], states[m], k);
    }
  }

  /** When the count a death went by still holds at its clock reading, from which its cooldown runs:
      the window then holds what was seen, plus the deaths counted and less the deaths aged out in
      between.  So it holds at least the threshold if and only if no more deaths have aged out than
      have been added and were seen in excess. */
  lemma CountAtStart(c: Meltdown.Config, states: seq<State>, acts: seq<Action>, n: nat, m: nat, k: nat)
    requires Run(c, states, acts) && n < m < |acts| && acts[n] == Add(k) && acts[m] == Stamp(k)
    requires forall j | n < j < m :: acts[j] != Stamp(k)
    requires states[n + 1].recentDeaths >= c.threshold
    ensures var s, seen := states[m], states[n + 1].recentDeaths;
            && k in states[m + 1].calls && states[m + 1].calls[k] == Stamped(seen, s.clock)
            && (forall l | l in s.timers :: s.timers[l] <= s.clock <= s.timers[l] + c.window)
            && (|s.timers| >= c.threshold <==> -Change(acts, n + 1, m) <= seen - c.threshold)
  {
    CallWaits(c, states, acts, n, m, k);
    RunKeepsInv(c, states, acts, m);
    assert Next(c, states[m], acts[m], states[m + 1]);
  }

  /** No death leaves the count before its time: one counted less than a window ago is still in it. */
  lemma {:induction false} StaysCounted(c: Meltdown.Config, states: seq<State>, acts: seq<Action>, n: nat, m: nat,
                                        k: nat)
    requires Run(c, states, acts) && n < m < |states| && acts[n] == Add(k)
    requires forall j | n < j <= m :: states[j].clock < states[n].clock + c.window
    ensures k in states[m].timers && states[m].timers[k] == states[n].clock
    decreases m
  {
    if m == n + 1 {
      AddCounts(c, states[n], states[m], k);
    } else {
      StaysCounted(c, states, acts, n, m - 1, k);
      TimerStays(c, states[m - 1], acts[m - 1], states[m], k);
    }
  }

  lemma TimerStays(c: Meltdown.Config, s: State, a: Action, s': State, k: nat)
    requires Next(c, s, a, s') && k in s.timers && s.clock < s.timers[k] + c.window
    ensures k in s'.timers && s'.timers[k] == s.timers[k]
  {
  }

  /** A cooldown is running at moment t, or starts later. */
  ghost predicate CoolsAfter(starts: seq<Start>, cooldown: nat, t: nat) {
    exists i :: 0 <= i < |starts| && t < starts[i].at + cooldown
  }

  /** A death that met the threshold ends in one of three ways: a cooldown that outlasts its clock
      reading is there already, it starts its own, or another death's swap came between its load and
      its own swap. */
  lemma CallEnds(c: Meltdown.Config, s: State, a: Action, s': State, k: nat)
    requires Inv(c, s) && Next(c, s, a, s') && c.cooldown > 0 && k in s.calls && !s.calls[k].Counted?
    requires a == Load(k) || a == Swap(k)
    ensures a.Load? ==> (k !in s'.calls <==> CoolsAfter(s.starts, c.cooldown, s.calls[k].now))
    ensures a.Swap? ==> k !in s'.calls
                        && s'.starts == if s.until == s.calls[k].prev
                                        then s.starts + [Start(s.calls[k].now, s.calls[k].seen)] else s.starts
    ensures k !in s'.calls ==> CoolsAfter(s'.starts, c.cooldown, s.calls[k].now)
                               || (a.Swap? && s.until != s.calls[k].prev)
  {
    var starts := s.starts;
    if a.Load? {
      if starts != [] && s.calls[k].now < s.until {
        assert s.calls[k].now < starts[|starts| - 1].at + c.cooldown;
      } else if i: nat :| i < |starts| && s.calls[k].now < starts[i].at + c.cooldown {
        LaterStarts(c, starts, s.clock, i, |starts| - 1);
      }
    } else if s.until == s.calls[k].prev {
      assert s'.starts[|starts|] == Start(s.calls[k].now, s.calls[k].seen);
    }
  }

  lemma {:induction false} LaterStarts(c: Meltdown.Config, starts: seq<Start>, clock: nat, i: nat, j: nat)
    requires Apart(c, starts, clock) && i <= j < |starts|
    ensures starts[i].at <= starts[j].at
    decreases j - i
  {
    if i < j {
      LaterStarts(c, starts, clock, i, j - 1);
      assert Follows(starts, j, c.cooldown);
    }
  }
}
