/** The two scans a drain makes over the stream map: the activity snapshot and the all-idle test.

    A scan visits every entry once in no particular order, so the methods below pick entries freely
    and their contracts do not mention an order.  Clock values are nanoseconds and may regress. */
module DrainScan {
  import opened SlotTypes
  import opened Streams

  datatype Snapshot = Snapshot(total: nat, idle: nat, active: nat, maxAgeMs: int, minAgeMs: int)

  const MILLIS_IN_NANOS: int := 1_000_000
  const IDLE_THRESHOLD_MS: int := 30_000

  /** Division truncating toward zero. */
  function Quo(a: int, b: int): int
    requires b > 0
  {
    if a >= 0 then a / b else -((-a) / b)
  }

  function AgeMs(e: Entry, now: int): (ms: int)
    ensures ms >= 0
    ensures now >= e.lastWrite ==> ms * 1_000_000 <= now - e.lastWrite < (ms + 1) * 1_000_000
    ensures now <= e.lastWrite ==> ms == 0
  {
    var ms := Quo(now - e.lastWrite, MILLIS_IN_NANOS);
    if ms < 0 then 0 else ms
  }

  predicate CountsIdle(e: Entry, now: int) {
    AgeMs(e, now) >= IDLE_THRESHOLD_MS || e.migrating
  }

  // ---------------------------------------------------------------- what the scans mean

  ghost function AttachedOf(m: map<StreamId, Entry>, slotIdx: int, ids: set<StreamId>): set<StreamId> {
    set id | id in ids && id in m && m[id].slotIdx == slotIdx
  }

  ghost function Attached(m: map<StreamId, Entry>, slotIdx: int): set<StreamId> {
    AttachedOf(m, slotIdx, m.Keys)
  }

  ghost function IdleOf(m: map<StreamId, Entry>, now: int, ids: set<StreamId>): set<StreamId> {
    set id | id in ids && id in m && CountsIdle(m[id], now)
  }

  /** Bounds that are attained, over the entries of ids; zero when there are none. */
  ghost predicate AgesOf(m: map<StreamId, Entry>, now: int, ids: set<StreamId>, most: int, least: int) {
    && (forall id | id in ids && id in m :: least <= AgeMs(m[id], now) <= most)
    && (if ids == {} then most == least == 0
        else (exists id :: id in ids && id in m && AgeMs(m[id], now) == most)
             && (exists id :: id in ids && id in m && AgeMs(m[id], now) == least))
  }

  ghost predicate SnapshotOf(m: map<StreamId, Entry>, now: int, ids: set<StreamId>, s: Snapshot) {
    && s.total == |ids|
    && s.idle == |IdleOf(m, now, ids)|
    && s.active == |ids - IdleOf(m, now, ids)|
    && AgesOf(m, now, ids, s.maxAgeMs, s.minAgeMs)
  }

  /** Every stream attached to the slot has been silent for the threshold or is moving off, and there
      is at least one. */
  ghost predicate AllIdle(m: map<StreamId, Entry>, slotIdx: int, threshold: int, now: int) {
    && Attached(m, slotIdx) != {}
    && forall id | id in Attached(m, slotIdx) :: m[id].migrating || now - m[id].lastWrite >= threshold
  }

  // ---------------------------------------------------------------- the snapshot

  /** One attached entry goes into the running snapshot. */
  function Take(s: Snapshot, e: Entry, now: int): Snapshot {
    var total, age := s.total + 1, AgeMs(e, now);
    Snapshot(total,
             if CountsIdle(e, now) then s.idle + 1 else s.idle,
             if CountsIdle(e, now) then s.active else s.active + 1,
             if total == 1 || age > s.maxAgeMs then age else s.maxAgeMs,
             if total == 1 || age < s.minAgeMs then age else s.minAgeMs)
  }

  lemma TakeCounts(m: map<StreamId, Entry>, now: int, ids: set<StreamId>, id: StreamId)
    requires id in m && id !in ids
    ensures |ids + {id}| == |ids| + 1
    ensures |IdleOf(m, now, ids + {id})| == |IdleOf(m, now, ids)| + if CountsIdle(m[id], now) then 1 else 0
    ensures |(ids + {id}) - IdleOf(m, now, ids + {id})|
            == |ids - IdleOf(m, now, ids)| + if CountsIdle(m[id], now) then 0 else 1
  {
    var before, after := IdleOf(m, now, ids), IdleOf(m, now, ids + {id});
    if CountsIdle(m[id], now) {
      assert after == before + {id};
      assert (ids + {id}) - after == ids - before;
    } else {
      assert after == before;
      assert (ids + {id}) - after == (ids - before) + {id};
    }
  }

  /** The running snapshot once all but the entries of todo have been visited. */
  ghost predicate Visited(m: map<StreamId, Entry>, slotIdx: int, now: int, todo: set<StreamId>, s: Snapshot) {
    SnapshotOf(m, now, AttachedOf(m, slotIdx, m.Keys - todo), s)
  }

  lemma Visit(m: map<StreamId, Entry>, slotIdx: int, now: int, todo: set<StreamId>, id: StreamId, s: Snapshot)
    requires id in m && id in todo && Visited(m, slotIdx, now, todo, s)
    ensures Visited(m, slotIdx, now, todo - {id}, if m[id].slotIdx == slotIdx then Take(s, m[id], now) else s)
  {
    var ids := AttachedOf(m, slotIdx, m.Keys - todo);
    if m[id].slotIdx != slotIdx {
      assert AttachedOf(m, slotIdx, m.Keys - (todo - {id})) == ids;
    } else {
      assert AttachedOf(m, slotIdx, m.Keys - (todo - {id})) == ids + {id};
      TakeCounts(m, now, ids, id);
    }
  }

  lemma VisitedAll(m: map<StreamId, Entry>, slotIdx: int, now: int, s: Snapshot)
    requires Visited(m, slotIdx, now, {}, s)
    ensures SnapshotOf(m, now, Attached(m, slotIdx), s)
  {
    assert m.Keys - {} == m.Keys;
  }

  method SnapshotDrainStreams(m: map<StreamId, Entry>, slotIdx: int, now: int) returns (s: Snapshot)
    ensures SnapshotOf(m, now, Attached(m, slotIdx), s)
  {
    s := Snapshot(0, 0, 0, 0, 0);
    var todo := m.Keys;
    while todo != {}
      invariant todo <= m.Keys
      invariant Visited(m, slotIdx, now, todo, s)
      decreases todo
    {
      var id :| id in todo;
      Visit(m, slotIdx, now, todo, id, s);
      if m[id].slotIdx == slotIdx {
        s := Take(s, m[id], now);
      }
      todo := todo - {id};
    }
    VisitedAll(m, slotIdx, now, s);
  }

  // ---------------------------------------------------------------- the idle test

  method AllStreamsIdle(m: map<StreamId, Entry>, slotIdx: int, threshold: int, now: int) returns (r: bool)
    ensures r <==> AllIdle(m, slotIdx, threshold, now)
  {
    var found := false;
    var todo := m.Keys;
    while todo != {}
      invariant todo <= m.Keys
      invariant found <==> exists id :: id in m && id !in todo && m[id].slotIdx == slotIdx
      invariant forall id | id in m && id !in todo && m[id].slotIdx == slotIdx ::
                  m[id].migrating || now - m[id].lastWrite >= threshold
      decreases todo
    {
      var id :| id in todo;
      todo := todo - {id};
      if m[id].slotIdx == slotIdx {
        found := true;
        if !m[id].migrating {
          var age := now - m[id].lastWrite;
          if age < threshold {
            assert id in Attached(m, slotIdx);
            return false;
          }
        }
      }
    }
    if found {
      var id :| id in m && m[id].slotIdx == slotIdx;
      assert id in Attached(m, slotIdx);
    }
    return found;
  }

  // ---------------------------------------------------------------- the two agree

  /** Rounding to milliseconds, the clamp and a regressed clock do not move an entry across 30 s. */
  lemma SameVerdict(e: Entry, now: int)
    ensures CountsIdle(e, now) <==> e.migrating || now - e.lastWrite >= 30_000_000_000
  {
  }

  /** For any map, clock and migrating flags, the idle test at 30 s succeeds exactly when the snapshot
      has streams and none active; the snapshot's counts add up and its ages are ordered. */
  lemma ScansAgree(m: map<StreamId, Entry>, slotIdx: int, now: int, s: Snapshot)
    requires SnapshotOf(m, now, Attached(m, slotIdx), s)
    ensures AllIdle(m, slotIdx, 30_000_000_000, now) <==> s.total > 0 && s.active == 0
    ensures s.total == s.idle + s.active
    ensures 0 <= s.minAgeMs <= s.maxAgeMs
  {
    var ids := Attached(m, slotIdx);
    var idle := IdleOf(m, now, ids);
    assert idle + (ids - idle) == ids;
    forall id | id in ids
      ensures id in idle <==> m[id].migrating || now - m[id].lastWrite >= 30_000_000_000
    {
      SameVerdict(m[id], now);
    }
    if s.active == 0 {
      assert ids - idle == {};
    } else {
      var id :| id in ids - idle;
    }
  }

  /** The two methods side by side. */
  method BothScans(m: map<StreamId, Entry>, slotIdx: int, now: int) returns (idle: bool, s: Snapshot)
    ensures idle <==> s.total > 0 && s.active == 0
    ensures s.total == s.idle + s.active && 0 <= s.minAgeMs <= s.maxAgeMs
    ensures SnapshotOf(m, now, Attached(m, slotIdx), s)
  {
    s := SnapshotDrainStreams(m, slotIdx, now);
    idle := AllStreamsIdle(m, slotIdx, IDLE_THRESHOLD_MS * MILLIS_IN_NANOS, now);
    ScansAgree(m, slotIdx, now, s);
  }
}
