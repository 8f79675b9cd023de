# Shadowlink client: slot pool and stream migration

The client keeps a pool of WebSocket connections.  A pool of size N has 2N *cells*; a cell is empty
or holds a *slot* that is connecting, ready, draining or dead.  Streams are bound to cells through a
stream map, each slot counts its streams, and many goroutines change all of this: assign, release,
server close, MIGRATE and RESUME round trips, drains, evictions, deaths, reconnects.  The project
models that core and the protocols on top of it, and proves what holds on every run.

| module | part of the client |
|---|---|
| `PoolState`, `PoolSteps`, `Pool` | whole operations on the pool; the pool object with its scan and teardown loops; drain start |
| `StreamCounters` | the same counters when the operations interleave action by action |
| `SlotLifecycle` | slot objects, cells, connects and deaths by cell index |
| `DrainGate` | the cap on concurrent drains and the sticky-drain counter |
| `TeardownBudget` | how long a connection can live, and the budget computed for it |
| `MigrateAck`, `HysteresisRace` | awaiting MIGRATE/RESUME replies; the timeout hysteresis |
| `CreditFlow` | per-stream credit |
| `StreamTable` | stream registration and identifier allocation |
| `Wire`, `FlowCtl`, `Demux` (over `Bytes`) | payload builders and parsers, the FLOWCTL marker, downlink demultiplexing |
| `Meltdown`, `MeltdownRace` | the meltdown detector; the same when deaths race |
| `Warmup` | phased warm-up of the ready pool |
| `Keepalive` | the keepalive schedule |
| `DrainScan` | the two scans a drain makes over the stream map |
| `Counting`, `Streams`, `SlotTypes`, `Options` | shared definitions |

Check everything with `dafny verify dfyconfig.toml`.

## Granularity

A step system says what one atomic step is; these are the choices.

- `PoolState`: one step is one complete operation (an assign, a release, a close, a full MIGRATE
  round trip, a death with all its RESUME round trips, a connect outcome).  Assign steps need some
  ready slot.
- `StreamCounters`: every counter change and every stream-map access is its own step, on slot
  objects that are not replaced meanwhile.  A release or close does not delete the entry of a stream
  that a mover has loaded and not yet stored; `DeleteExactlyOutsideRebind` shows this exclusion is
  exact (any delete inside the window can unbalance a counter) and `ReleaseInsideRebindDrifts` shows
  what happens without it.  A stream has one mover at a time (`BeginRebind` requires `NoRebind`): the
  migrating flag belongs to an entry, so a stream released and assigned again while its MIGRATE is
  pending could have two, which is excluded.
- `SlotLifecycle`: every access to a cell is its own step.  An install does not look back at the
  recycle guard it passed; a death looks its slot up by cell index and marks it in a later step; a
  failed reserve connect and a teardown free the cell in a later step still, whatever it then holds;
  connects finish on their own object.
- `DrainGate`: raising the in-flight counter, committing, both halves of marking and unmarking a
  sticky slot, and returning the unit are separate steps.
- `MigrateAck`: registering, enqueueing, removing a table entry, delivering and receiving are
  separate steps; the bookkeeping of one outcome is one step.
- `HysteresisRace`: raising the streak, testing it, and dropping the capability (with its count) are
  separate steps, and so are the two stores of a renegotiation.
- `CreditFlow`: the sender's load, its compare-and-swap and the outcome of its send interleave with
  consumption and the peer.
- `Warmup`: a worker's start, failed attempts, first enqueue, tally increment, once-guarded close and
  refills, and a consumer's acquire are separate steps.
- `MeltdownRace`: a death's counter increment, clock reading, load and compare-and-swap, the expiry of
  timers and the passing of time are separate steps; `Meltdown` records a death in one.
- `Meltdown`, `Keepalive`, `TeardownBudget`: timed runs with ideal timers and instant writes; every
  random draw is an arbitrary value of its range.

The clock, server replies, random draws, write success, the peer's obedience to its window and the
time budget of an emergency migration are parameters.

## Where the code and its comments disagree

The models follow the code.

- Hysteresis: the comment at client/migrate_send.go:52-56 says the drop is counted exactly once and a
  racing store is benign.  That holds when the bookkeeping runs uninterrupted
  (`CapabilityOnEveryRun`).  Interleaved, a drop can be counted twice in one epoch (`CountedTwice`), an
  epoch can lose the capability without a timeout of its own, whether the renegotiation falls before
  or after the test (`TestInNewEpoch`, `DropIntoNewEpoch`), and can keep it through three timeouts in a
  row (`StraddledThird`).  `OrderExactly` gives the exact condition: no test passes while another note
  sits between its test and its drop, and the capability is re-armed only while the streak is still
  clear and no note can drop it.
- Keepalive: the comments at client/ws_pool.go:2850-2854 and 2870-2879 promise a silence of at most
  twice the base interval.  `SilenceWithinExactly` gives the exact condition, for every base and every
  pattern of which slots want a keepalive: the slot must have been alone in the earlier pass (and the
  base not shorter than the spread allows).  With another slot in that pass some draws reach, from a
  base of 400 ms on, 2*base plus the spread, less 2 ns (`LongestGap`, `SilenceBound`).
- Warm-up: the comment at client/ws_ready_pool.go:355-356 says a worker keeps exactly one connection
  in the pool.  A worker refills at once, so one that is ahead can fill the channel; while nobody
  acquires, a later worker then never enqueues and the phases behind it do not open
  (`RefillsBlockWarmup`).  `SettlesExactly` gives the exact condition: without an acquire all workers
  can still settle if and only if the connections in the channel and the workers that have still to
  enqueue their first are together at most the pool size.  So a refill is harmless exactly when it
  leaves that room (`RefillHarmlessExactly`).
- Last resort of an assign: with no ready slot the stream is bound to the first occupied cell, also a
  connecting or dead one (`LastResortBindsConnecting`, `AssignConsistentExactly`).
- Drain watchdog: it tears down by cell index (client/ws_pool_drain.go:1136).  A draining slot that
  is cut by age reconnects within 800 ms (client/ws_pool.go:1559), so the watchdog's next tick can
  hit the new, connecting object; when that connect succeeds its object is ready and in no cell
  (`WatchdogOrphansReconnect`).  A teardown of a live slot can do it too: it marks the slot dead at
  client/ws_pool.go:5322 and empties the cell, unconditionally, only at 5473-5476, after a RESUME round
  trip per stream.  In between, a reconnect left over from an earlier failed reserve connect
  (client/ws_pool_drain.go:854-862) finds a dead slot, passes the recycle guard
  (client/ws_pool.go:3663-3665), installs and is wiped (`FreeOrphansReconnect`).  `SoundExactly` gives
  the exact condition, action by action: no death marks a slot in mid-connect in its cell, no install
  lands on a cell that started connecting after its guard, and no freeing hits a cell that is
  connecting or live again.  Any action that breaks it can be followed by an orphan or by two connects
  on one cell, and no other can.
- Teardown budget: `worstCaseTeardown` is documented as an upper bound.  Rechecks every 5 s can
  overshoot the sticky age; `BudgetHoldsExactly` says for which configurations the bound holds and
  `StickyOvershoots` gives one for which it does not.
- Credit: the stale-tail watchdog needs an earlier update, so a window below 32 KiB can stall for
  good (`SmallWindowStalls`).
- UDP payloads: the length field and the bounds test are 16-bit, so an address longer than 65531
  bytes does not read back (`UdpRoundTripExactly`), and a received length field of 65532 or more
  makes the parser slice out of bounds (`UdpPanicExactly`).
- Seq-tagged downlink: a data frame whose sequence number spells the eight bytes `CONNECT_` and
  whose data completes a control string is taken for control (`SeqFrameDeliveredExactly`); no such
  number is below 2^62.

## Model

| member | source | states |
|---|---|---|
| `PoolState.CountersExactOnEveryRun` | client/ws_pool.go:4167-5553 | after every run of whole operations each slot's counter is the number of map entries bound to its cell, and no entry is bound to an empty, connecting or dead cell |
| `PoolState.RunKeepsInv` | client/ws_pool.go:4167-5553 | the invariant (exact counters, live bindings, no move in flight) holds in every state of every run |
| `PoolState.ConsistentStep` | client/ws_pool.go:4167-5553 | every operation, of every kind, keeps the counters exact and the bindings live |
| `PoolState.AssignFindsReady` | client/ws_pool.go:4173-4229 | if any slot is ready the chosen target is ready, whatever the capacity limit, freshness penalty and scores |
| `PoolState.AssignChoice` | client/ws_pool.go:4173-4229 | tier by tier in slot fields: among the ready slots below the limit with no death in the last 30 s the first with the least 4*pending + streams; else the same among those with a fresh death; else the first ready slot with the fewest streams; else the first occupied cell; else none |
| `PoolState.AssignFate` | client/ws_pool.go:4236-4270 | an unmapped stream is bound to the target with a fresh entry, the target counts one more, nothing else changes; a mapped one changes nothing |
| `PoolState.LeastLoaded` | client/ws_pool_drain.go:484-520 | the victim of an emergency eviction is the first ready slot other than the target with the fewest streams |
| `PoolState.YoungestTarget` | client/migrate_watchdog.go:132-158 | there is a migration target exactly if another ready cell has a starting moment, and it is the first of the latest started |
| `PoolState.AssignConsistentExactly` | client/ws_pool.go:4173-4270 | an assign keeps the pool consistent if and only if the stream is already mapped, no cell is occupied, some slot is ready, or the first occupied cell is draining |
| `PoolState.LastResortBindsConnecting` | client/ws_pool.go:4221-4270 | a run that fails: a new pool whose first connection is still being made gets a stream bound to it |
| `PoolState.CounterBound` | client/ws_pool.go:4208-4220 | a counter of a consistent pool is between 0 and 2^16, so the overflow scan, which compares the counter alone, takes every ready slot |
| `PoolState.ReleaseKeeps` | client/ws_pool.go:4337-4380 | a release keeps counters exact: the clamped decrement takes off exactly the deleted entry |
| `PoolState.RebindKeeps` | client/migrate_watchdog.go:321-367 | a rebind to a live cell keeps counters exact on source, target and all other cells |
| `PoolState.ReleaseFate` | client/ws_pool.go:4337-4380 | a released stream is unmapped and its cell counts one less; a closed one has each open channel closed once; no other stream is touched |
| `PoolState.NeverNegative` | client/ws_pool.go:1386-1396 | no operation takes a counter below zero, in any pool, also one whose counters are not exact |
| `PoolState.MigrationFate` | client/migrate_watchdog.go:230-284 | a stream moves, to the latest started other ready cell, if and only if the feature is on, no mover holds it, there is such a cell and the server answers OK; otherwise the pool is unchanged |
| `PoolState.MigrationCounters` | client/migrate_watchdog.go:321-367 | in a consistent pool a migration moves exactly one stream from its cell's count to the target's |
| `PoolState.FateOnDying` | client/ws_pool.go:5355-5376 | after a death the dying cell is bound by exactly the streams other movers hold |
| `PoolState.FateOnTarget` | client/ws_pool.go:5516-5553 | the target gains exactly the resumed streams |
| `PoolState.FateElsewhere` | client/ws_pool.go:5355-5376 | the bindings of every other cell are unchanged |
| `PoolState.DeathCounters` | client/ws_pool.go:5355-5386 | after a death every surviving slot's counter is again the number of its bound streams |
| `PoolState.DeathConsistentExactly` | client/ws_pool.go:5317-5478 | a death leaves the pool consistent if and only if no mover held a stream of the dying cell |
| `PoolState.DeathFate` | client/ws_pool.go:5238-5386 | each stream a dying cell carried and no other mover holds ends on the latest started other ready cell with its channels untouched, if resuming is on, there is such a cell and its RESUME was answered OK, and otherwise unmapped with each channel it had closed exactly once; other streams are untouched |
| `PoolState.DeathCells` | client/ws_pool.go:5317-5478 | after a death the cell is empty if and only if a drain ended, and otherwise holds a dead slot with no streams and no pending CONNECTs, stamped with the moment, its start and drain stamp kept; an empty or dead cell is left as it is, and no other cell changes but for the target's counter |
| `PoolState.CellChanges` | client/ws_pool.go:5317-5478 | over all operations: a cell is freed only by the end of a drain or a failed reserve connect, and comes to hold a dead slot only by another death or another failed connect |
| `PoolState.ReadyAreCandidates` | client/ws_pool.go:3346-3367 | on every run whose clock is past zero each ready slot is stamped with its start, so the candidates to move to are all other ready cells |
| `PoolSteps.ChooseUpTo` | client/ws_pool.go:4173-4201 | a left-to-right scan has a least-cost first result on every prefix |
| `PoolSteps.DyingMove` | client/ws_pool.go:5516-5553 | a resumed stream extends the moved part of a half-finished teardown and changes nothing else |
| `PoolSteps.DyingBreak` | client/ws_pool.go:5286-5305 | a closed stream extends the broken part of a half-finished teardown: entry gone, channels closed once |
| `PoolSteps.DyingDone` | client/ws_pool.go:5385-5478 | once every stream is settled, the corpse or the freed cell completes exactly the whole death, whose cells are those of `PoolState.DeathCells` |
| `PoolSteps.EvictByDeath` | client/ws_pool_drain.go:409-566 | tearing down a victim, idle or with part of its streams already migrated off, frees exactly its cell, settles each of its streams (on another ready cell, or unmapped with each channel closed once), leaves all other streams untouched and keeps the invariant |
| `PoolSteps.MovedOffStep` | client/ws_pool_drain.go:588-622 | migrating one stream off a victim puts it on another ready cell or leaves it, and touches no other stream |
| `PoolSteps.LeftStepExactly` | client/ws_pool_drain.go:588-622 | a stream tried leaves the victim if and only if the feature is on, no mover holds it, another ready cell is stamped and its own MIGRATE was answered OK |
| `Pool.SlotPool.constructor` | client/ws_pool.go:2398-2398 | a new pool has 2*poolSize empty cells and satisfies the invariant |
| `Pool.SlotPool.PickInPass` | client/ws_pool.go:4173-4201 | finds the first slot of least score among the eligible ones, or none |
| `Pool.SlotPool.LeastLoadedReady` | client/ws_pool.go:4208-4220 | finds the first least-loaded ready slot outside a cell, or none |
| `Pool.SlotPool.FirstNonNil` | client/ws_pool.go:4221-4229 | finds the first occupied cell, or none |
| `Pool.SlotPool.SelectYoungTargetSlot` | client/migrate_watchdog.go:132-158 | finds the first youngest ready, stamped slot outside a cell, or none |
| `Pool.SlotPool.AssignStream` | client/ws_pool.go:4167-4276 | chooses the target of the four-tier rule and binds the stream to it once; a duplicate or an empty pool changes nothing |
| `Pool.SlotPool.ReleaseStream` | client/ws_pool.go:4337-4380 | the whole new pool state of a release |
| `Pool.SlotPool.HandleStreamClose` | client/ws_pool.go:5238-5305 | the whole new pool state of a close, with each channel the stream had closed once |
| `Pool.SlotPool.RebindStreamToSlot` | client/migrate_watchdog.go:321-367 | the whole new pool state of a rebind, including the no-op cases |
| `Pool.SlotPool.MigrateStream` | client/migrate_watchdog.go:230-284 | moves the stream to the youngest other slot exactly when capable, not already moving, a target exists and the server accepts; otherwise the pool is as before |
| `Pool.SlotPool.ResumeStreamOnDeath` | client/ws_pool.go:5516-5553 | keeps the stream exactly when a mover owns it or the RESUME is accepted; rebinds only in the second case |
| `Pool.SlotPool.SettleStream` | client/ws_pool.go:5355-5376 | settles one stream of a dying slot into exactly one of resumed, kept, closed |
| `Pool.SlotPool.SettleAll` | client/ws_pool.go:5355-5376 | the loop over the stream map, in any order and with any replies, settles every stream of the cell |
| `Pool.SlotPool.HandleSlotDeath` | client/ws_pool.go:5317-5478 | the loop yields exactly the whole-operation death; a missing or already dead slot changes nothing |
| `Pool.SlotPool.ReadyCapacity` | client/ws_pool.go:1204-1212 | counts the ready cells |
| `Pool.SlotPool.ClaimFreeSlot` | client/ws_pool_drain.go:231-243 | turns the first empty cell into a connecting placeholder, or finds that every cell is occupied |
| `Pool.SlotPool.ClaimFreeCellForHealing` | client/ws_pool_drain.go:328-362 | the first empty cell unless poolSize cells are ready or connecting; if needed and blocked, more than half of the cells are draining or dead |
| `Pool.SlotPool.TryForceEvictIdleSlot` | client/ws_pool_drain.go:409-462 | frees a ready cell without streams and touches no stream of another cell, or no other ready cell is idle and nothing changes |
| `Pool.SlotPool.MigrateVictimStreams` | client/ws_pool_drain.go:588-622 | tries all streams of the victim, or as many as the budget allows, in any order; of those exactly the ones whose own MIGRATE was accepted leave, to other ready cells, and their number is returned; no other stream moves |
| `Pool.SlotPool.TryEmergencyEvict` | client/ws_pool_drain.go:484-566 | frees the first least-loaded ready cell and settles each of its streams, all others untouched, or there is none and nothing changes |
| `Pool.SlotPool.ClaimReplacement` | client/ws_pool_drain.go:731-768 | finds a cell if and only if there is an empty one, an idle ready one, or (over-aged target) any other ready one; the streams of an evicted one are settled, all others untouched; without a cell nothing changes |
| `Pool.SlotPool.DrainMarked` | client/ws_pool_drain.go:724-792 | behind the gates: drain started in full, with the fate of every stream of an evicted cell, or reverted with the 30 s stamp |
| `Pool.SlotPool.StartDrain` | client/ws_pool_drain.go:655-793 | all or nothing: starts if and only if every gate passes and a cell can be found; then one cell goes from ready to draining, one free or just-evicted cell holds a fresh connecting placeholder with no bound stream, each stream of an evicted cell is on another ready cell or closed once, every other stream is untouched and in-flight rises by one; otherwise only the exact backoff stamp changes; the invariant is kept |
| `Pool.SlotPool.StartsExactly` | client/ws_pool_drain.go:655-768 | the gates in the pool's own fields: feature on, target ready, fewer than half the pool draining (or none), the ready slots at least the configured fraction rounded down (or all but one), and an empty cell, an idle slot, or for a target of twice the age limit any other ready slot |
| `Pool.SlotPool.DefersExactly` | client/ws_pool_drain.go:678-792 | a refused start waits 5 s at the cap or the floor, 150 s when less than half the pool is ready, 30 s when no cell was found; a target that is not ready keeps its stamp |
| `StreamCounters.CounterMeaning` | client/ws_pool.go:4236-4270 | at every moment of every interleaving a counter is its bound entries plus its pending operations; zero means no bound stream |
| `StreamCounters.RunKeepsInv` | client/migrate_watchdog.go:321-367 | the micro-step invariant holds in every state of every interleaving |
| `StreamCounters.CounterStep` | client/migrate_watchdog.go:356-366 | each single action moves counter, entries and pending operations together |
| `StreamCounters.OwnedStep` | client/migrate_watchdog.go:249-262 | an unfinished assign's stream stays unbound and an unfinished rebind's stays bound to its source |
| `StreamCounters.ClampNeverFires` | client/ws_pool.go:1386-1396 | a due decrement always finds a positive counter: the clamp is never what stops it |
| `StreamCounters.DeleteExactlyOutsideRebind` | client/migrate_watchdog.go:321-367 | after an entry is deleted, all counters stay balanced in every continuation if and only if no mover is between load and store on that stream |
| `StreamCounters.TwoStreamsInv` | client/ws_pool.go:4236-4270 | the starting point of the drifting run below satisfies the invariant |
| `StreamCounters.ReleaseInsideRebindDrifts` | client/migrate_watchdog.go:321-367 | a release inside that window leaves a slot reading zero with a stream still bound |
| `SlotLifecycle.NoOrphans` | client/ws_pool.go:3131-3195 | on every run of orderly actions (the condition of `SoundExactly`): every ready or draining object is in its cell, a cell has at most one connect in flight, no object's cleanup runs twice |
| `SlotLifecycle.InvStep` | client/ws_pool.go:3663-3749 | every orderly claim, install, connect outcome, drain start, revert, death, teardown and freeing keeps the anchoring of objects |
| `SlotLifecycle.InstallKeeps` | client/ws_pool.go:3188-3195 | an orderly install never displaces a live object or a running connect |
| `SlotLifecycle.ConnectKeeps` | client/ws_pool.go:3196-3369 | a connect that ends, either way, leaves a settled object, which is the one in its cell |
| `SlotLifecycle.DeathKeeps` | client/ws_pool.go:1404-1423 | marking an object dead keeps the invariant unless it is the connecting one of its cell; a replaced placeholder may be hit |
| `SlotLifecycle.WipeKeeps` | client/ws_pool.go:5473-5476 | emptying a cell that is empty or holds a dead slot keeps the invariant |
| `SlotLifecycle.SoundExactly` | client/ws_pool.go:5317-5476 | after any action, every orderly continuation keeps all connections sound (no orphan, one connect per cell, one cleanup per object) if and only if the action hit no slot in mid-connect, installed over no connecting cell and freed no connecting or live cell |
| `SlotLifecycle.WatchdogOrphansReconnect` | client/ws_pool_drain.go:1120-1137 | a concrete run in which the drain watchdog marks a reconnect dead, which then succeeds in no cell |
| `SlotLifecycle.FreeOrphansReconnect` | client/ws_pool.go:5473-5476 | a concrete run in which no death hits a connecting cell: the late freeing of a torn-down slot wipes a reconnect; every other step of it is orderly |
| `DrainGate.DrainAccounting` | client/ws_pool_drain.go:669-792 | at every moment: in-flight is live watchdogs plus uncommitted starts; starts past the gate plus watchdogs are within the cap; the sticky counter is the number of sticky slots up to half-done marks; with no watchdog alive it is zero |
| `DrainGate.MaxConcurrentDrains` | client/ws_pool.go:1364-1373 | half the pool size rounded up, at least 1 and, from pool size 2 on, below the pool size |
| `DrainGate.CommitExactly` | client/ws_pool_drain.go:669-696 | a start goes ahead if and only if the in-flight value it got is within half the pool size rounded up and no other drain is on the slot |
| `DrainGate.CapStep` | client/ws_pool_drain.go:669-696 | no action lets the holders of a unit exceed the cap |
| `DrainGate.StickyOwnedStep` | client/ws_pool.go:1306-1319 | a sticky flag always belongs to exactly one live watchdog |
| `DrainGate.StickySlotsAreFlagged` | client/ws_pool.go:1306-1319 | the number of sticky slots is the number of flagged watchdogs |
| `TeardownBudget.TeardownWithinBudget` | client/ws_pool.go:824-843 | for every stagger draw, sweep jitter, deferral of at most 30 s and drain: torn down before the budget plus one recheck, and within the budget when sticky is at most the hard cap or whole rechecks past it |
| `TeardownBudget.BudgetHoldsExactly` | client/ws_pool.go:824-843 | the budget bounds every life if and only if the recheck overshoot is within the few nanoseconds the half-open draws leave |
| `TeardownBudget.StickyOvershoots` | client/ws_pool_drain.go:1230-1286 | a configuration with a budget of 138.5 s that does not hold |
| `TeardownBudget.StaggerBound` | client/ws_pool.go:700-714 | the span covers the offset of every cell for every draw; cell 0 has none |
| `TeardownBudget.StartIsSoon` | client/ws_pool.go:3400-3423 | the drain starts within two wake-ups and one backoff of the threshold |
| `TeardownBudget.RotationWatchdog` | client/ws_pool.go:2605-2679 | the sweep loop starts the drain at the first wake-up past the threshold, or past the backoff if deferred, and within the bound |
| `TeardownBudget.BackstopBounds` | client/ws_pool_drain.go:1266-1284 | the age backstop is the hard cap or a recheck, every 5 s after it, at or after the sticky age and less than 5 s after the larger of hard cap and sticky age |
| `TeardownBudget.DrainWatchdog` | client/ws_pool_drain.go:1014-1306 | the deadline loop ends by the backstop, exactly there if nothing else ends it, at a tick or at the first deadline that gives the reason it names: findings before the age test at any age, those after it only below the sticky age |
| `TeardownBudget.Retire` | client/ws_pool_drain.go:1014-1306 | the two loops in sequence stay within the budget plus one recheck |
| `TeardownBudget.WorstLife` | client/ws_pool.go:897-913 | draws under which the bound is reached |
| `MigrateAck.OneReplyPerSend` | client/migrate_send.go:129-184 | under every interleaving a reply channel receives at most one value, a resolver about to deliver finds it empty, and attempts = OK + FAIL + timeout + still waiting |
| `MigrateAck.ClaimsStep` | client/migrate_send.go:256-280 | no step, of several sends of one stream included, creates a second claim on a channel |
| `MigrateAck.AttemptsStep` | client/migrate_send.go:137-184 | every step keeps the attempt accounting |
| `MigrateAck.VerdictsConserved` | client/migrate_send.go:129-184 | at every moment the OKs (FAILs) delivered are those counted as OK (FAIL) plus those still unread in their channels |
| `MigrateAck.TableIsClean` | client/migrate_send.go:129-184 | on every run each table entry belongs to a send of that stream that has not ended |
| `MigrateAck.NewestIsPending` | client/migrate_send.go:129-145 | on every run the entry of a stream is its newest send, so a reply goes to that one |
| `MigrateAck.TimeoutExactly` | client/migrate_send.go:155-184 | a timeout is counted exactly when the timer finds the stream's entry, which it removes, or, without an entry, when the channel is still empty |
| `MigrateAck.TimedOutEnds` | client/migrate_send.go:155-184 | a send whose timer lost the race for the entry ends with the reply if it has come, with a timeout if not |
| `MigrateAck.TallyIsTrace` | client/migrate_send.go:47-184 | on every run the timeout and reply counters are the numbers of timeouts and replies the hysteresis has seen |
| `MigrateAck.EpochMeaning` | client/migrate_send.go:57-71 | within an epoch the capability survives exactly the histories without three timeouts in a row, and one drop is counted exactly when it is lost |
| `MigrateAck.HysteresisMeaning` | client/migrate_send.go:47-71 | for every history, in terms of its current epoch: lost at a third consecutive timeout, counted once, regained only by renegotiation |
| `MigrateAck.CapabilityOnEveryRun` | client/migrate_send.go:47-184 | the same for the fields of every run of the ack protocol |
| `HysteresisRace.OrderlyRunsKeep` | client/migrate_send.go:47-71 | on every orderly run, at every moment: the capability falls only after a third timeout in a row of its epoch, its fall is counted once, and it has fallen if there was one and no note is under way |
| `HysteresisRace.OrderExactly` | client/migrate_send.go:47-63 | after any orderly run and one more action, all orderly continuations keep that promise if and only if the action is orderly: a test passes only with no other passed note, a re-arm comes only with a clear streak and no note able to drop |
| `HysteresisRace.UninterruptedIsReact` | client/migrate_send.go:47-63 | run without interruption, the actions are the one-step bookkeeping of MigrateAck |
| `HysteresisRace.CountedTwice` | client/migrate_send.go:52-63 | a run from a fresh pool that counts two drops in one epoch |
| `HysteresisRace.DropIntoNewEpoch` | client/migrate_send.go:47-63 | a run in which a renegotiation between test and drop costs the new epoch the capability without a timeout |
| `HysteresisRace.TestInNewEpoch` | client/migrate_send.go:47-63 | the same when it falls between the third timeout and its test |
| `HysteresisRace.StraddledThird` | client/migrate_send.go:47-63 | a run in which a drop between the two stores of a renegotiation leaves the capability up through three timeouts in a row |
| `CreditFlow.CreditConserved` | client/stream_flow.go:194-237 | at every moment consumed = credited + pending + in hand; credit never exceeds consumption, the uncredited rest fits the window, no delta is cut to 32 bits |
| `CreditFlow.NoStall` | client/stream_flow.go:194-237 | after an uncontended successful tick less than 32768 bytes are uncredited, so with a window of at least that a drained stream can go on |
| `CreditFlow.TailCredited` | client/stream_flow.go:194-237 | at every moment of every run an uncontended successful tick leaves nothing uncredited if 32768 bytes or more are owed or the last update is 200 ms old or older, and otherwise exactly what was owed |
| `CreditFlow.SmallWindowStalls` | client/stream_flow.go:194-237 | with any smaller window there is a run that stalls for good |
| `CreditFlow.ClampWindow` | client/stream_flow.go:15-24 | at most 6 MiB, and smaller windows unchanged |
| `CreditFlow.TickFlowIsWholeTick` | client/stream_flow.go:194-237 | the loop's effect on one stream is an uncontended pass of the step system |
| `CreditFlow.CreditSender.OnStreamConsumed` | client/stream_flow.go:291-302 | keeps the ledger (bytes consumed = credit returned + pending, for every stream) with the bytes booked to that stream alone; none while flow control is off, for n <= 0 or an unknown stream |
| `CreditFlow.CreditSender.CreditSenderTick` | client/stream_flow.go:194-237 | one pass flushes exactly the streams over the floor or stale, returns unsent credit, leaves the rest alone, and keeps the ledger if and only if no update sent is cut by its 32-bit field |
| `CreditFlow.TickExactly` | client/stream_flow.go:205-234 | an update is sent if and only if it can be enqueued and at least 32768 bytes are owed, or any bytes 200 ms or more after an earlier update; it carries all of them and clears them; without one nothing changes |
| `CreditFlow.LedgerTick` | client/stream_flow.go:194-237 | over all streams at once: a tick loses no credit exactly when every pending amount it sends fits 32 bits |
| `StreamTable.StreamTable.NextStreamID` | client/client.go:801-822 | in every reachable state returns the first free non-zero identifier in wrapping order; the fallback is not reached |
| `StreamTable.StreamTable.RegisterStream` | client/client.go:860-878 | fails exactly at the limit, and keeps the limits |
| `StreamTable.StreamTable.RegisterStreamSeq` | client/client.go:838-856 | fails exactly at the joint limit, and keeps the limits |
| `StreamTable.StreamTable.UnregisterStream` | client/client.go:882-893 | removes the identifier from both tables, and keeps the limits |
| `StreamTable.TriedIsRotation` | client/client.go:804-808 | closed form of the k-th trial of the wrapping counter |
| `StreamTable.RoundCoversAll` | client/client.go:804-808 | one round of the counter tries every non-zero identifier |
| `StreamTable.FreeIdExists` | client/client.go:804-820 | within the registration limits some trial of a round is free |
| `Wire.SeqDataRoundTrip` | core/chunk.go:238-259 | a seq data payload reads back for all values |
| `Wire.DataLayouts` | core/chunk.go:238-392 | byte positions of every field of the data, window update and migrate frames, high byte first |
| `Wire.ReplyLayouts` | core/chunk.go:407-492 | the same for acks and replies; status 1 is OK and 0 is FAIL |
| `Wire.SeqDataParseInverse` | core/chunk.go:252-259 | every accepted seq payload is the encoding of what was read |
| `Wire.ControlRoundTrips` | core/chunk.go:305-516 | window update, migrate frame, ack, stream close, and both migrate replies read back for all values |
| `Wire.ControlParseExactly` | core/chunk.go:314-445 | window update, ack, migrate frame and stream close parse exactly from payloads that are long enough, whose front is then the frame of what was read |
| `Wire.ReplyParseExactly` | core/chunk.go:498-516 | a reply is accepted exactly with status 1 and 11 bytes, refused exactly with status 0 and 4 bytes, malformed otherwise, and re-encodes to the front of the payload |
| `Wire.UdpRoundTripExactly` | core/chunk.go:338-361 | a UDP payload reads back if and only if the address is at most 65531 bytes |
| `Wire.UdpPanicExactly` | core/chunk.go:351-361 | parsing slices out of bounds exactly on payloads of at least 4 bytes whose length field is 65532 or more |
| `Wire.UdpParseInverse` | core/chunk.go:351-361 | every accepted UDP payload is the encoding of what was read |
| `Wire.BuildSeqData` | core/chunk.go:238-247 | the buffer filled in place is the seq data encoding |
| `Wire.BuildMigrateFrame` | core/chunk.go:387-392 | the buffer is the migrate frame encoding |
| `Wire.BuildStreamAck` | core/chunk.go:407-412 | the buffer is the ack encoding |
| `Wire.BuildWindowUpdate` | core/chunk.go:305-312 | the buffer is the window update encoding |
| `Wire.BuildMigrateOk` | core/chunk.go:477-483 | the buffer is the accepted-reply encoding |
| `Wire.BuildMigrateFail` | core/chunk.go:486-492 | the buffer is the refused-reply encoding |
| `Wire.BuildUdp` | core/chunk.go:338-346 | the buffer is the UDP encoding, length field cut to 16 bits |
| `FlowCtl.BuildMarkerV1` | core/flowctl.go:21-26 | the buffer is the V1 marker |
| `FlowCtl.BuildMarkerV2` | core/flowctl.go:55-63 | the buffer is the V2 marker |
| `FlowCtl.ParseMarkerV1` | core/flowctl.go:32-42 | reads a window exactly from payloads that begin with the magic and are long enough |
| `FlowCtl.ParseMarkerV2` | core/flowctl.go:68-82 | the same, with the migration bit of the 12th byte if there is one |
| `FlowCtl.ReadersAgree` | core/flowctl.go:32-82 | on every payload both readers agree on acceptance and window |
| `FlowCtl.MarkersRoundTrip` | core/flowctl.go:21-82 | either marker reads back in either reader, V1 as not offering migration |
| `FlowCtl.MarkerLayouts` | core/flowctl.go:21-63 | the markers byte by byte: FLOWCTL in ASCII, the window in four bytes, the capability byte |
| `FlowCtl.MarkerReadExactly` | core/flowctl.go:68-82 | a payload is a marker exactly if it starts with those letters and has 11 bytes; it offers migration exactly if it has an odd twelfth byte |
| `Demux.SeqBodyIsControlExactly` | client/client.go:1144-1182 | a seq frame's body is a control string if and only if its number spells CONNECT_ and its data completes one |
| `Demux.SeqFrameDeliveredExactly` | client/ws_pool.go:5202-5236 | a seq frame is delivered with exact stream, number and data if and only if it is not that shape |
| `Demux.SeqFramesBelow62Bits` | client/ws_pool.go:5202-5236 | so always below 2^62 |
| `Demux.FlatFramesDelivered` | client/ws_pool.go:5202-5236 | CONNECT_OK, CONNECT_FAIL and CONNECT_OK with proof are routed as seq 0 with the proof readable; a flat slot recovers flat data exactly |
| `Demux.NothingVanishes` | client/ws_pool.go:5202-5236 | on a seq slot every payload with a stream id is control, the data frame it encodes, or tears its stream, exactly when too short for data and no control string; a flat slot delivers it; only a payload without a stream id is ignored |
| `Demux.ControlStrings` | client/client.go:1144-1182 | the control strings in ASCII: CONNECT_OK, CONNECT_FAIL, and CONNECT_OK with a 32-byte proof; nothing else |
| `Meltdown.CooldownsJustified` | client/ws_pool.go:3932-3962 | each cooldown starts at a natural death with at least threshold natural deaths inside the last window |
| `Meltdown.InWindowCounts` | client/ws_pool.go:3932-3944 | the window count is the number of natural deaths less than its length ago |
| `Meltdown.CooldownsDisjoint` | client/ws_pool.go:3918-3962 | cooldowns do not overlap and are not extended; the remaining wait never exceeds one cooldown |
| `Meltdown.CooldownsComplete` | client/ws_pool.go:3945-3961 | for every history and every natural death in it that makes threshold natural deaths in the window, a cooldown is running at that moment |
| `Meltdown.OnlyNaturalDeathsCount` | client/ws_pool.go:5419-5477 | age cuts, rotations, drains and network changes leave the alarms of a history unchanged |
| `Meltdown.TimePasses` | client/ws_pool.go:3935-3944 | firing the due timers leaves exactly the deaths still inside the window |
| `Meltdown.Defaults` | client/ws_pool.go:2233-2244 | configured values are kept; otherwise window 15 s, cooldown 10 s, threshold three quarters of the pool rounded up and at least 3 |
| `Meltdown.Detector.OnSlotDeath` | client/ws_pool.go:5419-5477 | the counter, the timers and the cooldown field follow the reference for the whole history |
| `Meltdown.Detector.MeltdownWait` | client/ws_pool.go:3918-3928 | returns exactly the time until the running cooldown ends, zero without one, never more than one cooldown |
| `MeltdownRace.RacesKeepCooldowns` | client/ws_pool.go:3932-3962 | in every interleaving of racing deaths: the counter is the number of natural deaths in the window, every cooldown was called for by a count of at least the threshold, none starts before the one before it is over or is extended, and nobody waits longer than one |
| `MeltdownRace.StartsStep` | client/ws_pool.go:3955-3960 | the swap sets a cooldown only on the value it was based on, and only when that cooldown is over |
| `MeltdownRace.SeenInWindow` | client/ws_pool.go:3932-3944 | the count a death goes by is that many natural deaths inside the window, itself included |
| `MeltdownRace.CountAtStart` | client/ws_pool.go:3945-3956 | at the clock reading a cooldown runs from, the window holds the count seen, plus the deaths added and less those aged out since: at least the threshold if and only if no more aged out than were added and seen in excess |
| `MeltdownRace.StaysCounted` | client/ws_pool.go:3932-3944 | a death counted less than a window ago is still in the count |
| `MeltdownRace.CallEnds` | client/ws_pool.go:3945-3961 | a death that met the threshold gives up at its load exactly if a cooldown outlasting its clock reading is there; at its swap it starts its own unless another death's swap came in between |
| `Warmup.EffectiveWarmup` | client/ws_ready_pool.go:124-177 | for every size of at least 1 the derived phases partition the workers, with the documented sizes, delays and gating flags; a custom schedule is returned as is |
| `Warmup.RangeSlots` | client/ws_ready_pool.go:45-52 | consecutive indices from the start |
| `Warmup.PhaseCoordinator.constructor` | client/ws_ready_pool.go:211-223 | no phase tallied or closed |
| `Warmup.PhaseCoordinator.PhaseFor` | client/ws_ready_pool.go:226-235 | the first phase that lists the slot, or -1 |
| `Warmup.PhaseCoordinator.MarkSlotReady` | client/ws_ready_pool.go:261-276 | tallies the slot's phase and closes it once when the phase has enough |
| `Warmup.WarmupGated` | client/ws_ready_pool.go:458-479 | in every state of every run and for every phase list: a worker that has begun had all earlier phases done and closed once, and every slot of the gating ones published; no channel is closed twice |
| `Warmup.DonePhasePublished` | client/ws_ready_pool.go:261-276 | a done gating phase lists distinct workers, all published |
| `Warmup.RunKeepsInv` | client/ws_ready_pool.go:458-558 | exact tallies, earned closes and the gate hold in every state of every run |
| `Warmup.GateOpensExactly` | client/ws_ready_pool.go:261-276 | a phase is done or about to be closed exactly when one of its workers has been tallied, or, for a gating phase, as many as it lists |
| `Warmup.SettlesExactly` | client/ws_ready_pool.go:458-558 | with a derived schedule, at any moment of any run: some continuation without an acquire settles all workers if and only if queued connections plus workers still to enqueue their first are at most the pool size |
| `Warmup.RefillHarmlessExactly` | client/ws_ready_pool.go:493-558 | while all can still settle without an acquire, an action leaves it so if and only if it is not a refill that takes the last room to spare |
| `Warmup.StuckExactly` | client/ws_ready_pool.go:458-558 | with a derived schedule and some worker not settled, some worker has a step to take at this moment if and only if not (channel full, a connection waiting for room, nobody signalling, every awaited gate shut); one acquire ends such a standstill |
| `Warmup.RefillsBlockWarmup` | client/ws_ready_pool.go:493-558 | a run that comes to that standstill because the first worker refills the channel while nobody acquires: before the refill all could settle, after it they cannot although the second may still start |
| `Warmup.WarmupIsBounded` | client/ws_ready_pool.go:458-558 | on every run warm-up itself takes at most four steps per worker, not counting failed attempts, age-outs, refills and acquires |
| `Warmup.WarmupCompletes` | client/ws_ready_pool.go:261-276 | when all workers have settled every phase was closed exactly once |
| `Keepalive.SilenceBound` | client/ws_pool.go:2828-3036 | the gap between two keepalives of an eligible slot is at least half the base and below the largest pause plus twice the spread, below 2*base plus the spread from 400 ms on, for any number of slots |
| `Keepalive.SilenceWithinExactly` | client/ws_pool.go:2843-2879 | for every base and every two patterns of who wants a keepalive, all draws keep the silence of a served cell within 2*base if and only if it was alone in the earlier pass and base/2 plus the spread, less 1 ns, is at most 2*base (always so from 400 ms on) |
| `Keepalive.LongestGap` | client/ws_pool.go:2843-2861 | for every base and every two patterns some draws attain exactly the largest pause plus the own offset and, with another cell in the earlier pass, the rest of that pass |
| `Keepalive.DelayRange` | client/ws_pool.go:2843-2861 | the pause is the sampled interval less 400 ms, but at least half the base |
| `Keepalive.SendKeepaliveToAllSlots` | client/ws_pool.go:2973-3036 | the sorted pass sends each eligible slot its frame exactly at its own offset and ends with the latest offset |
| `Keepalive.KeepaliveLoop` | client/ws_pool.go:2828-2838 | pass after pass, each started one pause after the end of the one before |
| `DrainScan.SnapshotDrainStreams` | client/stream_entry.go:98-137 | in any visiting order: exact totals, idle and active counts, and attained least and greatest ages |
| `DrainScan.AllStreamsIdle` | client/stream_entry.go:165-195 | true exactly when the slot has streams and each is silent for the threshold or moving |
| `DrainScan.ScansAgree` | client/stream_entry.go:98-195 | the idle test at 30 s succeeds if and only if the snapshot has streams and none active; total = idle + active, least age <= greatest age |
| `DrainScan.SameVerdict` | client/stream_entry.go:111-130 | truncation to milliseconds, clamping and a regressed clock do not move an entry across 30 s |
| `DrainScan.BothScans` | client/stream_entry.go:98-195 | the two loops side by side agree |

## Left out

- SlotLifecycle.NoOrphans: stated for orderly runs, which exclude the network-change teardown of connecting slots and the steps that make WatchdogOrphansReconnect and FreeOrphansReconnect fail.
- SlotLifecycle.InstallKeeps: an install that lands on a cell which began connecting after its guard is not orderly; SoundExactly shows it can put two connects on the cell.
- PoolState.ConsistentStep: marking a slot dead, settling its streams and freeing its cell is one step.
- MigrateAck.CapabilityOnEveryRun: the bookkeeping of one timeout and the two stores of a renegotiation are one step each; HysteresisRace interleaves them.
- PoolSteps.EvictByDeath: a stream of the victim that a mover already holds is left to that mover, and its fate is not stated.
- Meltdown.Detector.OnSlotDeath: the counter increment and the cooldown test are one step; MeltdownRace interleaves them.
- TeardownBudget.TeardownWithinBudget: assumes a fixed rotation threshold, at most one deferral of at most 30 s (the 150 s catastrophic backoff is outside the budget in the code as well) and graceful drain on.
- Keepalive.SilenceBound: writes take no time, and a failed write counts as not eligible.
- DrainScan.SnapshotDrainStreams: the map and the flags do not change during a scan; the negative-age telemetry counter is not modelled.
- Counters are unbounded integers; 64-bit clock arithmetic and the 32-bit width of the stream counter are not modelled beyond the scans' sentinel.
- Pooled buffers of the builders, the flat data and stream close builders as methods, and aliasing of returned slices.
- Pending-CONNECT counting, scheduling of preemptive migrations, the migrate barrier poll, the retargeting limit of healing, reserve backoff, the phantom-counter confirmation (it is one of the findings of the drain watchdog).
- That a 6 MiB window keeps the 512-entry channel from overflowing: it depends on the chunk size.
- Legacy rotation, which is off when graceful drain is on.
- Handshake, HTTP, TLS, encryption, sessions, the server, the downlink reassembler, the age adapter, routing, configuration, logging, statistics: I/O, libraries, or only easy members.
