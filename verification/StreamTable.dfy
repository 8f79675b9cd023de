/** Stream registration and the allocation of stream identifiers from a wrapping 16-bit counter. */
module StreamTable {
  import opened Streams

  const MAX_CLIENT_STREAMS: nat := 4096
  const ATTEMPTS: nat := 65535

  /** The counter's successor: 16-bit increment, with zero skipped. */
  function Succ(c: StreamId): (r: StreamId)
    ensures r != 0
  {
    var n := (c + 1) % 0x1_0000;
    if n == 0 then 1 else n
  }

  /** The k-th identifier tried after counter value c. */
  function Tried(c: StreamId, k: nat): (r: StreamId)
    ensures k > 0 ==> r != 0
  {
    if k == 0 then c else Succ(Tried(c, k - 1))
  }

  /** Closed form: the trials walk round the 65535 non-zero identifiers. */
  lemma {:induction false} TriedIsRotation(c: StreamId, k: nat)
    requires 0 < k <= ATTEMPTS
    ensures Tried(c, k) == if c + k <= 65535 then c + k else c + k - 65535
  {
    if k > 1 {
      TriedIsRotation(c, k - 1);
    }
  }

  /** Every non-zero identifier comes up within one round. */
  lemma RoundCoversAll(c: StreamId, id: StreamId) returns (k: nat)
    requires id != 0
    ensures 0 < k <= ATTEMPTS && Tried(c, k) == id
  {
    k := if id > c then id - c else id - c + 65535;
    TriedIsRotation(c, k);
  }

  /** Pigeonhole: if a whole round found only used identifiers, all 65535 are in use. */
  lemma RoundNeedsAll(c: StreamId, used: set<StreamId>)
    requires forall k | 0 < k <= ATTEMPTS :: Tried(c, k) in used
    ensures |used| >= 65535
  {
    var all := Ids(65535);
    forall id | id in all
      ensures id in used
    {
      var k := RoundCoversAll(c, id);
    }
    assert used == all + (used - all);
  }

  /** The identifiers 1..n. */
  ghost function Ids(n: nat): (s: set<StreamId>)
    requires n <= 65535
    ensures |s| == n && forall id :: id in s <==> 0 < id <= n
  {
    if n == 0 then {} else var last: StreamId := n; Ids(n - 1) + {last}
  }

  class StreamTable {
    var counter: StreamId
    var chans: set<StreamId>        // flat channels
    var frameChans: set<StreamId>   // seq-tagged channels

    /** What every sequence of registrations and removals keeps. */
    ghost predicate Valid()
      reads this
    {
      |chans| <= MAX_CLIENT_STREAMS && |frameChans| <= MAX_CLIENT_STREAMS
    }

    constructor ()
      ensures Valid() && chans == {} && frameChans == {}
    {
      counter, chans, frameChans := 0, {}, {};
    }

    /** Fails at the limit of flat channels. */
    method RegisterStream(id: StreamId) returns (ok: bool)
      requires Valid()
      modifies this`chans
      ensures Valid()
      ensures ok == (|old(chans)| < 4096)
      ensures chans == if ok then old(chans) + {id} else old(chans)
    {
      if |chans| >= MAX_CLIENT_STREAMS {
        return false;
      }
      chans := chans + {id};
      return true;
    }

    /** Fails at the limit of channels of both kinds together. */
    method RegisterStreamSeq(id: StreamId) returns (ok: bool)
      requires Valid()
      modifies this`frameChans
      ensures Valid()
      ensures ok == (|chans| + |old(frameChans)| < 4096)
      ensures frameChans == if ok then old(frameChans) + {id} else old(frameChans)
    {
      if |chans| + |frameChans| >= MAX_CLIENT_STREAMS {
        return false;
      }
      frameChans := frameChans + {id};
      return true;
    }

    method UnregisterStream(id: StreamId)
      requires Valid()
      modifies this`chans, this`frameChans
      ensures Valid()
      ensures chans == old(chans) - {id} && frameChans == old(frameChans) - {id}
    {
      chans := chans - {id};
      frameChans := frameChans - {id};
    }

    /** Allocates the first identifier after the counter, in wrapping order, that neither table
        uses; `fellBack` says that the loop ran out, which never happens. */
    method NextStreamID() returns (id: StreamId, fellBack: bool, ghost k: nat)
      requires Valid()
      modifies this`counter
      ensures !fellBack
      ensures id != 0 && id !in chans && id !in frameChans && counter == id
      ensures 0 < k <= ATTEMPTS && id == Tried(old(counter), k)
      ensures forall j | 0 < j < k :: Tried(old(counter), j) in chans + frameChans
    {
      var i := 0;
      var found := false;
      k := 0;
      while i < ATTEMPTS && !found
        invariant 0 <= i <= ATTEMPTS && k == i
        invariant counter == Tried(old(counter), i)
        invariant !found ==> forall j | 0 < j <= i :: Tried(old(counter), j) in chans + frameChans
        invariant found ==> i > 0 && counter !in chans && counter !in frameChans
                            && forall j | 0 < j < i :: Tried(old(counter), j) in chans + frameChans
      {
        var n := (counter + 1) % 0x1_0000;
        counter := if n == 0 then 1 else n;
        found := counter !in chans && counter !in frameChans;
        i := i + 1;
        k := i;
      }
      assert found by {
        FreeIdExists(old(counter), chans, frameChans);
      }
      return counter, !found, k;
    }
  }

  /** Within the registration limits some trial of one round is free. */
  lemma FreeIdExists(c: StreamId, chans: set<StreamId>, frameChans: set<StreamId>)
    requires |chans| <= MAX_CLIENT_STREAMS && |frameChans| <= MAX_CLIENT_STREAMS
    ensures exists k :: 0 < k <= ATTEMPTS && Tried(c, k) !in chans + frameChans
  {
    if forall k | 0 < k <= ATTEMPTS :: Tried(c, k) in chans + frameChans {
      RoundNeedsAll(c, chans + frameChans);
    }
  }
}
