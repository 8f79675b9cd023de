/** The meltdown detector: natural slot deaths inside a rolling window trip a reconnect cooldown.

    Time is the timestamps of the deaths; the one-shot timers that age a death out of the window are
    ideal, that is, they have all fired by the moment the next event is handled. */
module Meltdown {
  import opened SlotTypes

  datatype Death = Death(at: nat, cause: Cause)

  datatype Config = Config(threshold: nat, window: nat, cooldown: nat)

  /** The defaults: window 15 s, cooldown 10 s, threshold three quarters of the pool, at least 3. */
  function Defaults(poolSize: nat, threshold: int, window: int, cooldown: int): (c: Config)
    ensures c.window > 0 && c.cooldown > 0 && c.threshold >= 1
    ensures c.window == window || (window <= 0 && c.window == 15_000_000_000)
    ensures c.cooldown == cooldown || (cooldown <= 0 && c.cooldown == 10_000_000_000)
    ensures c.threshold == threshold
            || (threshold < 1 && c.threshold >= 3 && 4 * c.threshold >= 3 * poolSize
                && (c.threshold == 3 || 4 * (c.threshold - 1) < 3 * poolSize))
  {
    Config(if threshold >= 1 then threshold else if (poolSize * 3 + 3) / 4 < 3 then 3 else (poolSize * 3 + 3) / 4,
           if window > 0 then window else 15_000_000_000,
           if cooldown > 0 then cooldown else 10_000_000_000)
  }

  // ---------------------------------------------------------------- what the detector should do

  ghost predicate Ordered(h: seq<Death>) {
    forall i, j | 0 <= i <= j < |h| :: h[i].at <= h[j].at
  }

  /** Natural deaths of h younger than the window at moment now. */
  function InWindow(h: seq<Death>, window: nat, now: nat): nat {
    if h == [] then 0
    else InWindow(h[..|h| - 1], window, now)
         + if h[|h| - 1].cause == Natural && h[|h| - 1].at + window > now then 1 else 0
  }

  /** End of the latest cooldown (0 if none yet), and the moments at which cooldowns started. */
  datatype Alarm = Alarm(until: nat, starts: seq<nat>)

  function Alarms(c: Config, h: seq<Death>): Alarm {
    if h == [] then Alarm(0, [])
    else
      var before, d := Alarms(c, h[..|h| - 1]), h[|h| - 1];
      if d.cause == Natural && InWindow(h, c.window, d.at) >= c.threshold && (before.until == 0 || d.at >= before.until)
      then Alarm(d.at + c.cooldown, before.starts + [d.at])
      else before
  }

  /** The wait a reconnect still has at moment now. */
  function Wait(until: nat, now: nat): nat {
    if until == 0 || until <= now then 0 else until - now
  }

  ghost predicate Justified(c: Config, h: seq<Death>, start: nat) {
    exists n :: 0 < n <= |h| && h[n - 1] == Death(start, Natural) && InWindow(h[..n], c.window, start) >= c.threshold
  }

  ghost predicate AllJustified(c: Config, h: seq<Death>, starts: seq<nat>) {
    forall i | 0 <= i < |starts| :: Justified(c, h, starts[i])
  }

  ghost predicate Spaced(starts: seq<nat>, cooldown: nat) {
    forall i | 0 < i < |starts| :: starts[i] >= starts[i - 1] + cooldown
  }

  ghost predicate WaitsAtMost(until: nat, from: nat, most: nat) {
    forall now: nat | now >= from :: Wait(until, now) <= most
  }

  lemma JustifiedExtends(c: Config, h: seq<Death>, starts: seq<nat>)
    requires h != [] && AllJustified(c, h[..|h| - 1], starts)
    ensures AllJustified(c, h, starts)
  {
    var p := h[..|h| - 1];
    forall i | 0 <= i < |starts|
      ensures Justified(c, h, starts[i])
    {
      var n :| 0 < n <= |p| && p[n - 1] == Death(starts[i], Natural)
               && InWindow(p[..n], c.window, starts[i]) >= c.threshold;
      assert h[..n] == p[..n];
    }
  }

  /** Every cooldown of a history starts at a natural death that makes at least threshold natural
      deaths within the last window. */
  lemma {:induction false} CooldownsJustified(c: Config, h: seq<Death>)
    ensures AllJustified(c, h, Alarms(c, h).starts)
  {
    if h != [] {
      var p := h[..|h| - 1];
      CooldownsJustified(c, p);
      JustifiedExtends(c, h, Alarms(c, p).starts);
      assert h[..|h|] == h;
    }
  }

  /** Cooldowns do not overlap and none is extended, so a reconnect never waits longer than one. */
  lemma {:induction false} CooldownsDisjoint(c: Config, h: seq<Death>)
    requires Ordered(h) && c.cooldown > 0
    ensures var a := Alarms(c, h);
            && Spaced(a.starts, c.cooldown)
            && a.until == (if a.starts == [] then 0 else a.starts[|a.starts| - 1] + c.cooldown)
            && (a.starts != [] ==> h != [] && a.starts[|a.starts| - 1] <= h[|h| - 1].at)
            && WaitsAtMost(a.until, if h == [] then 0 else h[|h| - 1].at, c.cooldown)
  {
    if h != [] {
      CooldownsDisjoint(c, h[..|h| - 1]);
    }
  }

  /** A natural death that makes threshold natural deaths within the last window. */
  predicate Trips(c: Config, h: seq<Death>, n: nat)
    requires n < |h|
  {
    h[n].cause == Natural && InWindow(h[..n + 1], c.window, h[n].at) >= c.threshold
  }

  /** Some cooldown among `starts` is running at moment t. */
  ghost predicate CoolingAt(starts: seq<nat>, cooldown: nat, t: nat) {
    exists i :: 0 <= i < |starts| && starts[i] <= t < starts[i] + cooldown
  }

  /** Completeness over histories: at every death that trips the detector, early or late, a cooldown
      is running, be it the one that death starts. */
  lemma {:induction false} CooldownsComplete(c: Config, h: seq<Death>)
    requires Ordered(h) && c.cooldown > 0
    ensures forall n | 0 <= n < |h| && Trips(c, h, n) :: CoolingAt(Alarms(c, h).starts, c.cooldown, h[n].at)
  {
    if h != [] {
      var p := h[..|h| - 1];
      CooldownsComplete(c, p);
      forall n | 0 <= n < |h| && Trips(c, h, n)
        ensures CoolingAt(Alarms(c, h).starts, c.cooldown, h[n].at)
      {
        if n < |p| {
          assert h[..n + 1] == p[..n + 1];
          StaysCooling(c, h, h[n].at);
        } else {
          assert h[..n + 1] == h;
          LastCools(c, h);
        }
      }
    }
  }

  /** No cooldown is taken back. */
  lemma StaysCooling(c: Config, h: seq<Death>, t: nat)
    requires h != [] && CoolingAt(Alarms(c, h[..|h| - 1]).starts, c.cooldown, t)
    ensures CoolingAt(Alarms(c, h).starts, c.cooldown, t)
  {
    var starts, more := Alarms(c, h[..|h| - 1]).starts, Alarms(c, h).starts;
    var i :| 0 <= i < |starts| && starts[i] <= t < starts[i] + c.cooldown;
    assert more[i] == starts[i];
  }

  /** The last death of a history trips the detector: it starts a cooldown or meets a running one. */
  lemma LastCools(c: Config, h: seq<Death>)
    requires Ordered(h) && c.cooldown > 0 && h != [] && Trips(c, h, |h| - 1)
    ensures CoolingAt(Alarms(c, h).starts, c.cooldown, h[|h| - 1].at)
  {
    var p := h[..|h| - 1];
    assert h[..|h|] == h;
    CooldownsDisjoint(c, p);
    var starts := Alarms(c, h).starts;
    assert starts[|starts| - 1] <= h[|h| - 1].at < starts[|starts| - 1] + c.cooldown;
  }

  /** The wait ends exactly when the cooldown running at moment now does; without one there is none. */
  ghost predicate WaitsOut(starts: seq<nat>, cooldown: nat, now: nat, wait: nat) {
    && (forall i | 0 <= i < |starts| && starts[i] <= now < starts[i] + cooldown :: now + wait == starts[i] + cooldown)
    && (!CoolingAt(starts, cooldown, now) ==> wait == 0)
  }

  lemma WaitExactly(c: Config, h: seq<Death>, now: nat)
    requires Ordered(h) && c.cooldown > 0 && (h == [] || h[|h| - 1].at <= now)
    ensures WaitsOut(Alarms(c, h).starts, c.cooldown, now, Wait(Alarms(c, h).until, now))
  {
    CooldownsDisjoint(c, h);
    OnlyLastRuns(Alarms(c, h).starts, c.cooldown, now);
  }

  /** Once the last cooldown has started, all earlier ones are over. */
  lemma OnlyLastRuns(starts: seq<nat>, cooldown: nat, now: nat)
    requires Spaced(starts, cooldown) && (starts != [] ==> starts[|starts| - 1] <= now)
    ensures forall i | 0 <= i < |starts| - 1 :: starts[i] + cooldown <= now
  {
    forall i | 0 <= i < |starts| - 1
      ensures starts[i] + cooldown <= now
    {
      SpacedFrom(starts, cooldown, i, |starts| - 1);
    }
  }

  lemma {:induction false} SpacedFrom(starts: seq<nat>, cooldown: nat, i: nat, j: nat)
    requires Spaced(starts, cooldown) && i <= j < |starts|
    ensures i < j ==> starts[i] + cooldown <= starts[j]
    decreases j - i
  {
    if i + 1 < j {
      SpacedFrom(starts, cooldown, i, j - 1);
    }
  }

  /** The window counts the natural deaths less than its length ago. */
  lemma {:induction false} InWindowCounts(h: seq<Death>, window: nat, now: nat)
    ensures InWindow(h, window, now) == |set i | 0 <= i < |h| && h[i].cause.Natural? && now - h[i].at < window|
  {
    var s := set i | 0 <= i < |h| && h[i].cause.Natural? && now - h[i].at < window;
    if h != [] {
      var p, n := h[..|h| - 1], |h| - 1;
      InWindowCounts(p, window, now);
      var r := set i | 0 <= i < |p| && p[i].cause.Natural? && now - p[i].at < window;
      assert s == if h[n].cause.Natural? && now - h[n].at < window then r + {n} else r;
    }
  }

  function NaturalOnly(h: seq<Death>): (r: seq<Death>)
    ensures |r| <= |h|
  {
    if h == [] then []
    else NaturalOnly(h[..|h| - 1]) + if h[|h| - 1].cause == Natural then [h[|h| - 1]] else []
  }

  lemma {:induction false} WindowIgnoresOthers(h: seq<Death>, window: nat, now: nat)
    ensures InWindow(NaturalOnly(h), window, now) == InWindow(h, window, now)
  {
    if h == [] {
    } else {
      var p, d := h[..|h| - 1], h[|h| - 1];
      WindowIgnoresOthers(p, window, now);
      if d.cause == Natural {
        var r := NaturalOnly(h);
        assert r[..|r| - 1] == NaturalOnly(p) && r[|r| - 1] == d;
      } else {
        assert NaturalOnly(h) == NaturalOnly(p);
      }
    }
  }

  /** Age cuts, rotations, drains and network changes leave no trace: the alarms of a history are
      those of its natural deaths alone. */
  lemma {:induction false} OnlyNaturalDeathsCount(c: Config, h: seq<Death>)
    ensures Alarms(c, NaturalOnly(h)) == Alarms(c, h)
  {
    if h == [] {
    } else {
      var p, d := h[..|h| - 1], h[|h| - 1];
      OnlyNaturalDeathsCount(c, p);
      if d.cause == Natural {
        var r := NaturalOnly(h);
        assert r[..|r| - 1] == NaturalOnly(p) && r[|r| - 1] == d;
        WindowIgnoresOthers(h, c.window, d.at);
      } else {
        assert NaturalOnly(h) == NaturalOnly(p);
      }
    }
  }

  // ---------------------------------------------------------------- the detector

  /** Expiry moments of the natural deaths still in the window at moment now, oldest first. */
  function Expiries(h: seq<Death>, window: nat, now: nat): (r: seq<nat>)
    ensures |r| == InWindow(h, window, now)
    ensures forall i | 0 <= i < |r| :: r[i] > now
  {
    if h == [] then []
    else Expiries(h[..|h| - 1], window, now)
         + if h[|h| - 1].cause == Natural && h[|h| - 1].at + window > now then [h[|h| - 1].at + window] else []
  }

  /** The timers that have not fired by now. */
  function Unfired(timers: seq<nat>, now: nat): seq<nat> {
    if timers == [] then []
    else Unfired(timers[..|timers| - 1], now) + if timers[|timers| - 1] > now then [timers[|timers| - 1]] else []
  }

  lemma UnfiredAppend(timers: seq<nat>, t: nat, now: nat)
    ensures Unfired(timers + [t], now) == Unfired(timers, now) + if t > now then [t] else []
  {
  }

  lemma {:induction false} TimePasses(h: seq<Death>, window: nat, t0: nat, t1: nat)
    requires t0 <= t1
    ensures Unfired(Expiries(h, window, t0), t1) == Expiries(h, window, t1)
  {
    if h != [] {
      var p, d := h[..|h| - 1], h[|h| - 1];
      TimePasses(p, window, t0, t1);
      if d.cause == Natural && d.at + window > t0 {
        UnfiredAppend(Expiries(p, window, t0), d.at + window, t1);
      } else {
        assert Expiries(h, window, t0) == Expiries(p, window, t0);
      }
    }
  }

  /** The three views of a history after one more death, in terms of the views before it. */
  lemma OneMore(c: Config, h: seq<Death>, d: Death)
    requires c.window > 0
    ensures d.cause != Natural ==> Alarms(c, h + [d]) == Alarms(c, h)
                                   && Expiries(h + [d], c.window, d.at) == Expiries(h, c.window, d.at)
    ensures d.cause == Natural ==> Expiries(h + [d], c.window, d.at) == Expiries(h, c.window, d.at) + [d.at + c.window]
    ensures d.cause == Natural ==>
              Alarms(c, h + [d]).until
              == if InWindow(h, c.window, d.at) + 1 >= c.threshold
                    && (Alarms(c, h).until == 0 || d.at >= Alarms(c, h).until)
                 then d.at + c.cooldown else Alarms(c, h).until
  {
  }

  /** The detector's fields are what the history up to the clock calls for. */
  ghost predicate Tracks(c: Config, h: seq<Death>, clock: nat, timers: seq<nat>, until: nat) {
    && Ordered(h) && (h != [] ==> h[|h| - 1].at <= clock)
    && timers == Expiries(h, c.window, clock)
    && until == Alarms(c, h).until
  }

  lemma TracksTime(c: Config, h: seq<Death>, t0: nat, t1: nat, timers: seq<nat>, until: nat)
    requires Tracks(c, h, t0, timers, until) && t0 <= t1
    ensures Tracks(c, h, t1, Unfired(timers, t1), until)
  {
    TimePasses(h, c.window, t0, t1);
  }

  lemma TracksDeath(c: Config, h: seq<Death>, d: Death, timers: seq<nat>, until: nat)
    requires Tracks(c, h, d.at, timers, until) && c.window > 0
    ensures d.cause != Natural ==> Tracks(c, h + [d], d.at, timers, until)
    ensures d.cause == Natural ==>
              Tracks(c, h + [d], d.at, timers + [d.at + c.window],
                     if |timers| + 1 >= c.threshold && (until == 0 || d.at >= until) then d.at + c.cooldown else until)
  {
    OneMore(c, h, d);
  }

  class Detector {
    const config: Config
    var recentDeaths: int
    var timers: seq<nat>
    var meltdownUntil: nat
    ghost var history: seq<Death>
    ghost var clock: nat

    ghost predicate Valid()
      reads this
    {
      && config.window > 0 && config.cooldown > 0
      && Tracks(config, history, clock, timers, meltdownUntil)
      && recentDeaths == |timers|
    }

    constructor (poolSize: nat, threshold: int, window: int, cooldown: int)
      ensures Valid() && history == [] && config == Defaults(poolSize, threshold, window, cooldown)
    {
      config := Defaults(poolSize, threshold, window, cooldown);
      recentDeaths, timers, meltdownUntil, history, clock := 0, [], 0, [], 0;
    }

    /** The timers due by now fire, each taking one death off the counter. */
    method FireTimers(now: nat)
      requires Valid() && clock <= now
      modifies this`timers, this`recentDeaths, this`clock
      ensures Valid() && clock == now
    {
      var kept, fired := Due(timers, now);
      TracksTime(config, history, clock, now, timers, meltdownUntil);
      recentDeaths := recentDeaths - fired;
      timers := kept;
      clock := now;
    }

    /** A slot died at moment now.  The cooldown field follows the reference for the whole history. */
    method OnSlotDeath(now: nat, cause: Cause)
      requires Valid() && clock <= now
      modifies this
      ensures Valid() && clock == now
      ensures history == old(history) + [Death(now, cause)]
      ensures meltdownUntil == Alarms(config, history).until
    {
      FireTimers(now);
      TracksDeath(config, history, Death(now, cause), timers, meltdownUntil);
      if cause == Natural {
        RecordSlotDeath(now);
      }
      history := history + [Death(now, cause)];
    }

    method RecordSlotDeath(now: nat)
      modifies this`recentDeaths, this`timers, this`meltdownUntil
      ensures recentDeaths == old(recentDeaths) + 1 && timers == old(timers) + [now + config.window]
      ensures meltdownUntil == if old(recentDeaths) + 1 >= config.threshold
                                  && (old(meltdownUntil) == 0 || now >= old(meltdownUntil))
                               then now + config.cooldown else old(meltdownUntil)
    {
      recentDeaths := recentDeaths + 1;
      timers := timers + [now + config.window];
      if recentDeaths >= config.threshold {
        if meltdownUntil == 0 || now >= meltdownUntil {
          meltdownUntil := now + config.cooldown;
        }
      }
    }

    /** The wait of a reconnect at any moment from the last event on: the reference's, and never more
        than one cooldown. */
    method MeltdownWait(now: nat) returns (wait: nat)
      requires Valid() && clock <= now
      ensures wait == Wait(Alarms(config, history).until, now)
      ensures wait <= config.cooldown
      ensures WaitsOut(Alarms(config, history).starts, config.cooldown, now, wait)
    {
      CooldownsDisjoint(config, history);
      WaitExactly(config, history, now);
      assert Wait(meltdownUntil, now) <= config.cooldown;
      if meltdownUntil == 0 || meltdownUntil <= now {
        return 0;
      }
      return meltdownUntil - now;
    }
  }

  method Due(timers: seq<nat>, now: nat) returns (kept: seq<nat>, fired: nat)
    ensures kept == Unfired(timers, now) && fired == |timers| - |kept|
  {
    kept, fired := [], 0;
    for i := 0 to |timers|
      invariant kept == Unfired(timers[..i], now) && fired == i - |kept|
    {
      assert timers[..i + 1][..i] == timers[..i];
      if timers[i] > now {
        kept := kept + [timers[i]];
      } else {
        fired := fired + 1;
      }
    }
    assert timers[..|timers|] == timers;
  }
}
