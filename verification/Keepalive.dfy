/** The keepalive schedule of the pool: one loop, a jittered pause, then a pass that spreads one frame
    per slot over at most 400 ms.  Times are nanoseconds; the interval sampler and the per-slot
    offsets are arbitrary values in their stated ranges, and writes take no time. */
module Keepalive {
  const SPREAD_MAX: nat := 400_000_000
  const DEFAULT_BASE: nat := 5_000_000_000

  function EffectiveBase(base: int): (b: nat)
    ensures b > 0 && (b == base || (base <= 0 && b == 5_000_000_000))
  {
    if base <= 0 then DEFAULT_BASE else base
  }

  /** The pause before the next pass, from the sampled interval. */
  function NextDelay(base: nat, interval: nat): nat {
    if interval < SPREAD_MAX + base / 2 then base / 2 else interval - SPREAD_MAX
  }

  predicate Sampled(base: nat, interval: nat) {
    base / 2 <= interval <= 2 * base
  }

  function MaxDelay(base: nat): nat {
    if 2 * base < SPREAD_MAX + base / 2 then base / 2 else 2 * base - SPREAD_MAX
  }

  // ---------------------------------------------------------------- one pass

  datatype Pending = Pending(idx: nat, at: nat)

  ghost predicate Ordered(q: seq<Pending>) {
    forall i, j | 0 <= i < j < |q| :: q[i].at <= q[j].at
  }

  function Insert(q: seq<Pending>, x: Pending): (r: seq<Pending>)
    requires Ordered(q)
    ensures Ordered(r) && |r| == |q| + 1
    ensures forall y :: y in r <==> y == x || y in q
  {
    if q == [] || x.at <= q[0].at then [x] + q
    else
      var r := Insert(q[1..], x);
      assert forall y | y in r :: y.at >= q[0].at;
      [q[0]] + r
  }

  function Sort(q: seq<Pending>): (r: seq<Pending>)
    ensures Ordered(r) && |r| == |q|
    ensures forall y :: y in r <==> y in q
  {
    if q == [] then [] else Insert(Sort(q[1..]), q[0])
  }

  /** What one pass meets: which cells want a keepalive when the pass begins, which still do (and
      take the write) when their turn comes, and the offsets drawn. */
  datatype Cell = Cell(wants: bool, still: bool, offset: nat)

  ghost predicate Drawn(cells: seq<Cell>) {
    forall i | 0 <= i < |cells| && cells[i].wants :: cells[i].offset < SPREAD_MAX
  }

  predicate Eligible(c: Cell) { c.wants && c.still }

  ghost predicate QueueOf(cells: seq<Cell>, queue: seq<Pending>) {
    forall p :: p in queue <==> p.idx < |cells| && cells[p.idx].wants && p.at == cells[p.idx].offset
  }

  method Queue(cells: seq<Cell>) returns (queue: seq<Pending>)
    ensures QueueOf(cells, queue) && Ordered(queue)
  {
    queue := [];
    for i := 0 to |cells|
      invariant forall p :: p in queue <==> p.idx < i && cells[p.idx].wants && p.at == cells[p.idx].offset
    {
      if cells[i].wants {
        queue := queue + [Pending(i, cells[i].offset)];
      }
    }
    queue := Sort(queue);
  }

  datatype Pass = Pass(start: nat, end: nat, sent: map<nat, nat>)

  /** A frame to each eligible cell, exactly its own offset after the start, whatever the number of
      cells; the pass ends with the latest offset drawn. */
  ghost predicate PassOf(cells: seq<Cell>, p: Pass) {
    && (forall i: nat :: i in p.sent <==> i < |cells| && Eligible(cells[i]))
    && (forall i | i in p.sent :: i < |cells| && p.sent[i] == p.start + cells[i].offset)
    && p.start <= p.end
    && (forall i | 0 <= i < |cells| && cells[i].wants :: p.start + cells[i].offset <= p.end)
    && (p.end == p.start || exists i :: 0 <= i < |cells| && cells[i].wants && p.end == p.start + cells[i].offset)
  }

  /** The frames sent once the cells in done have had their turn. */
  ghost predicate SentSoFar(cells: seq<Cell>, start: nat, done: seq<Pending>, sent: map<nat, nat>) {
    && (forall i: nat :: i in sent <==> i < |cells| && Eligible(cells[i]) && Pending(i, cells[i].offset) in done)
    && (forall i | i in sent :: i < |cells| && sent[i] == start + cells[i].offset)
  }

  lemma AllTurns(cells: seq<Cell>, queue: seq<Pending>, p: Pass)
    requires QueueOf(cells, queue) && Ordered(queue)
    requires p.end == (if queue == [] then p.start else p.start + queue[|queue| - 1].at)
    requires SentSoFar(cells, p.start, queue, p.sent)
    ensures PassOf(cells, p)
  {
    forall i | 0 <= i < |cells| && cells[i].wants
      ensures p.start + cells[i].offset <= p.end
    {
      assert Pending(i, cells[i].offset) in queue;
    }
    if queue != [] {
      assert queue[|queue| - 1] in queue;
    }
  }

  /** One turn of the pass: sleep until the item's own moment, then send if the cell still wants it. */
  method Turn(cells: seq<Cell>, start: nat, it: Pending, t: nat, sent0: map<nat, nat>)
    returns (now: nat, sent: map<nat, nat>)
    requires it.idx < |cells| && t <= start + it.at
    ensures now == start + it.at
    ensures sent == if cells[it.idx].still then sent0[it.idx := start + it.at] else sent0
  {
    now, sent := t, sent0;
    var wait := it.at - (now - start);
    if wait > 0 {
      now := now + wait;
    }
    if cells[it.idx].still {
      sent := sent[it.idx := now];
    }
  }

  method SendKeepaliveToAllSlots(cells: seq<Cell>, start: nat) returns (p: Pass)
    ensures PassOf(cells, p) && p.start == start
  {
    var queue := Queue(cells);
    var now: nat, sent: map<nat, nat> := start, map[];
    for n := 0 to |queue|
      invariant now == if n == 0 then start else start + queue[n - 1].at
      invariant SentSoFar(cells, start, queue[..n], sent)
    {
      assert queue[n] in queue;
      assert queue[..n + 1] == queue[..n] + [queue[n]];
      now, sent := Turn(cells, start, queue[n], now, sent);
    }
    p := Pass(start, now, sent);
    assert queue[..|queue|] == queue;
    AllTurns(cells, queue, p);
  }

  // ---------------------------------------------------------------- the loop

  datatype Round = Round(interval: nat, cells: seq<Cell>)

  ghost predicate Schedule(base: nat, rounds: seq<Round>, passes: seq<Pass>, begin: nat) {
    && |passes| == |rounds|
    && (forall n | 0 <= n < |rounds| :: PassOf(rounds[n].cells, passes[n]))
    && (forall n | 0 <= n < |rounds| :: StartsOnTime(base, rounds, passes, begin, n))
  }

  ghost predicate StartsOnTime(base: nat, rounds: seq<Round>, passes: seq<Pass>, begin: nat, n: nat) {
    && n < |passes| && n < |rounds|
    && passes[n].start == (if n == 0 then begin else passes[n - 1].end) + NextDelay(base, rounds[n].interval)
  }

  ghost predicate AllDrawn(base: nat, rounds: seq<Round>) {
    forall n | 0 <= n < |rounds| :: Sampled(base, rounds[n].interval) && Drawn(rounds[n].cells)
  }

  method KeepaliveLoop(configured: int, rounds: seq<Round>, begin: nat) returns (passes: seq<Pass>)
    ensures Schedule(EffectiveBase(configured), rounds, passes, begin)
  {
    var base := EffectiveBase(configured);
    var now := begin;
    passes := [];
    for n := 0 to |rounds|
      invariant |passes| == n && now == (if n == 0 then begin else passes[n - 1].end)
      invariant forall m | 0 <= m < n :: PassOf(rounds[m].cells, passes[m])
      invariant forall m | 0 <= m < n :: StartsOnTime(base, rounds, passes, begin, m)
    {
      now := now + NextDelay(base, rounds[n].interval);
      var p := SendKeepaliveToAllSlots(rounds[n].cells, now);
      ghost var before := passes;
      passes := passes + [p];
      assert forall m | 0 <= m < n ::
        StartsOnTime(base, rounds, before, begin, m) ==> StartsOnTime(base, rounds, passes, begin, m);
      now := p.end;
    }
  }

  ghost predicate ServedTwice(rounds: seq<Round>, n: nat, i: nat) {
    && n + 1 < |rounds|
    && i < |rounds[n].cells| && Eligible(rounds[n].cells[i])
    && i < |rounds[n + 1].cells| && Eligible(rounds[n + 1].cells[i])
  }

  /** The silence of a cell eligible in rounds n and n+1 is below the largest pause plus twice the
      spread, for any number of cells; with a base of 400 ms or more that is 2*base plus the spread. */
  lemma SilenceBound(base: nat, rounds: seq<Round>, passes: seq<Pass>, begin: nat, n: nat, i: nat)
    requires Schedule(base, rounds, passes, begin) && AllDrawn(base, rounds) && ServedTwice(rounds, n, i)
    ensures i in passes[n].sent && i in passes[n + 1].sent
    ensures base / 2 <= passes[n + 1].sent[i] - passes[n].sent[i] < MaxDelay(base) + 800_000_000
    ensures base >= 400_000_000 ==> passes[n + 1].sent[i] - passes[n].sent[i] < 2 * base + 400_000_000
  {
    var p, q := passes[n], passes[n + 1];
    assert PassOf(rounds[n].cells, p) && PassOf(rounds[n + 1].cells, q);
    assert StartsOnTime(base, rounds, passes, begin, n + 1);
    DelayRange(base, rounds[n + 1].interval);
  }

  /** The pause is the sampled interval less the 400 ms of the spread, but never below half the base:
      the largest pause comes from the largest sample. */
  lemma DelayRange(base: nat, interval: nat)
    requires Sampled(base, interval)
    ensures var d := NextDelay(base, interval);
            && d >= base / 2 && d >= interval - 400_000_000
            && (d == base / 2 || d == interval - 400_000_000)
    ensures NextDelay(base, interval) <= MaxDelay(base) == NextDelay(base, 2 * base)
  {
  }

  // ---------------------------------------------------------------- when twice the base is enough

  /** Nobody but the cell itself wants a keepalive in this round. */
  ghost predicate Alone(cells: seq<Cell>, i: nat) {
    forall j | 0 <= j < |cells| && cells[j].wants :: j == i
  }

  /** The same cells want and take a keepalive; only the offsets drawn may differ. */
  ghost predicate SamePattern(a: seq<Cell>, b: seq<Cell>) {
    |a| == |b| && forall j | 0 <= j < |a| :: a[j].wants == b[j].wants && a[j].still == b[j].still
  }

  /** A schedule, with any draws, whose rounds n and n+1 have the given patterns. */
  ghost predicate Plays(base: nat, a: seq<Cell>, b: seq<Cell>, rounds: seq<Round>, passes: seq<Pass>, begin: nat,
                        n: nat)
  {
    && Schedule(base, rounds, passes, begin) && AllDrawn(base, rounds)
    && n + 1 < |rounds| && SamePattern(a, rounds[n].cells) && SamePattern(b, rounds[n + 1].cells)
  }

  ghost predicate GapAtMost(passes: seq<Pass>, n: nat, i: nat, limit: nat) {
    && n + 1 < |passes| && i in passes[n].sent && i in passes[n + 1].sent
    && passes[n + 1].sent[i] <= passes[n].sent[i] + limit
  }

  /** All draws keep the silence of cell i between two such rounds within the limit. */
  ghost predicate NeverBeyond(base: nat, a: seq<Cell>, b: seq<Cell>, i: nat, limit: nat) {
    forall rounds, passes, begin, n :: Plays(base, a, b, rounds, passes, begin, n) ==> GapAtMost(passes, n, i, limit)
  }

  /** A cell alone in the earlier pass waits at most the largest pause and one offset. */
  lemma AloneGap(base: nat, a: seq<Cell>, b: seq<Cell>, i: nat,
                 rounds: seq<Round>, passes: seq<Pass>, begin: nat, n: nat)
    requires i < |a| && Eligible(a[i]) && i < |b| && Eligible(b[i]) && Alone(a, i)
    requires Plays(base, a, b, rounds, passes, begin, n)
    ensures GapAtMost(passes, n, i, MaxDelay(base) + SPREAD_MAX - 1)
  {
    var p, q := passes[n], passes[n + 1];
    assert PassOf(rounds[n].cells, p) && PassOf(rounds[n + 1].cells, q);
    assert StartsOnTime(base, rounds, passes, begin, n + 1);
    DelayRange(base, rounds[n + 1].interval);
  }

  /** The cells with offset `own` for cell i and `others` for the rest. */
  function Draw(cells: seq<Cell>, i: nat, own: nat, others: nat): (c: seq<Cell>)
    ensures SamePattern(cells, c)
    ensures forall j | 0 <= j < |c| :: c[j].offset == if j == i then own else others
  {
    seq(|cells|, j requires 0 <= j < |cells| => cells[j].(offset := if j == i then own else others))
  }

  /** The latest offset among the cells that want a keepalive, or 0. */
  ghost predicate Last(cells: seq<Cell>, last: nat) {
    && (forall j | 0 <= j < |cells| && cells[j].wants :: cells[j].offset <= last)
    && (last == 0 || exists j :: 0 <= j < |cells| && cells[j].wants && cells[j].offset == last)
  }

  function Served(cells: seq<Cell>, start: nat): map<nat, nat> {
    map j: nat | j < |cells| && Eligible(cells[j]) :: start + cells[j].offset
  }

  /** How far the others can put off the end of a pass in which cell i goes first. */
  ghost function Rest(cells: seq<Cell>, i: nat): nat {
    if Alone(cells, i) then 0 else SPREAD_MAX - 1
  }

  /** Two rounds from moment 0 on with the shortest first and the longest second interval. */
  lemma TwoRounds(base: nat, c: seq<Cell>, d: seq<Cell>, last: nat, i: nat)
    returns (rounds: seq<Round>, passes: seq<Pass>)
    requires Drawn(c) && Last(c, last) && Drawn(d) && Last(d, SPREAD_MAX - 1)
    requires i < |c| && Eligible(c[i]) && c[i].offset == 0 && i < |d| && Eligible(d[i]) && d[i].offset == SPREAD_MAX - 1
    ensures Schedule(base, rounds, passes, 0) && AllDrawn(base, rounds)
    ensures |rounds| == 2 && rounds[0].cells == c && rounds[1].cells == d && i in passes[0].sent && i in passes[1].sent
    ensures passes[1].sent[i] == passes[0].sent[i] + last + MaxDelay(base) + SPREAD_MAX - 1
  {
    var s0 := NextDelay(base, base);
    var s1 := s0 + last + NextDelay(base, 2 * base);
    rounds := [Round(base, c), Round(2 * base, d)];
    passes := [Pass(s0, s0 + last, Served(c, s0)), Pass(s1, s1 + SPREAD_MAX - 1, Served(d, s1))];
    assert StartsOnTime(base, rounds, passes, 0, 0) && StartsOnTime(base, rounds, passes, 0, 1);
  }

  /** For every base and every two patterns some draws make cell i wait exactly the largest pause, its
      own offset and, unless it was alone, the rest of the earlier pass: with another cell in the
      earlier pass this is the bound of SilenceBound, less 2 ns. */
  lemma LongestGap(base: nat, a: seq<Cell>, b: seq<Cell>, i: nat)
    returns (rounds: seq<Round>, passes: seq<Pass>)
    requires i < |a| && Eligible(a[i]) && i < |b| && Eligible(b[i])
    ensures Plays(base, a, b, rounds, passes, 0, 0)
    ensures forall limit: nat ::
              GapAtMost(passes, 0, i, limit) <==>
                (if Alone(a, i) then 0 else 399_999_999) + MaxDelay(base) + 399_999_999 <= limit
  {
    rounds, passes := TwoRounds(base, Draw(a, i, 0, Rest(a, i)), Draw(b, i, SPREAD_MAX - 1, 0), Rest(a, i), i);
  }

  /** The promise beside the constant, made exact, for every base and every pattern of who wants a
      keepalive in two passes: all draws keep the silence of a served cell within 2*base if and only
      if the cell was alone in the earlier pass and the base is not so short that the spread alone
      exceeds it.  From 400 ms on the second condition holds. */
  lemma SilenceWithinExactly(base: nat, a: seq<Cell>, b: seq<Cell>, i: nat)
    requires i < |a| && Eligible(a[i]) && i < |b| && Eligible(b[i])
    ensures NeverBeyond(base, a, b, i, 2 * base) <==> Alone(a, i) && base / 2 + 399_999_999 <= 2 * base
    ensures base >= 400_000_000 ==> base / 2 + 399_999_999 <= 2 * base
  {
    if Alone(a, i) && base / 2 + SPREAD_MAX - 1 <= 2 * base {
      forall rounds, passes, begin, n | Plays(base, a, b, rounds, passes, begin, n)
        ensures GapAtMost(passes, n, i, 2 * base)
      {
        AloneGap(base, a, b, i, rounds, passes, begin, n);
      }
    } else {
      var rounds, passes := LongestGap(base, a, b, i);
      assert !GapAtMost(passes, 0, i, 2 * base);
    }
  }
}
