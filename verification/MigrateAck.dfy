/** Awaiting the answer to a MIGRATE or RESUME: one reply channel per send, a table of pending
    channels by stream, and the race between the reply and the timeout.

    Registering a channel, removing a table entry, putting a value into a channel and reading it are
    separate steps, for any number of sends and replies in any interleaving, also several sends of
    one stream.  The bookkeeping of one outcome (counter and timeout streak) is one step. */
module MigrateAck {
  import opened Counting
  import opened Options
  import opened Streams

  datatype Verdict = Ok | Fail

  /** A send, from the registration of its channel to its result. */
  datatype Send =
    | Registered(id: StreamId)     // channel in the table, frame not yet enqueued
    | Waiting(id: StreamId)        // frame enqueued, attempt counted
    | TimedOut(id: StreamId)       // timer fired, table entry was already gone
    | Finished                     // returned

  /** A reply channel: its buffer, and how many values it ever received. */
  datatype Chan = Chan(buffer: seq<Verdict>, received: nat)

  datatype State = State(
    sends: map<nat, Send>,            // by send number, which also names its channel
    chans: map<nat, Chan>,
    pending: map<StreamId, nat>,      // stream -> channel awaiting its reply
    resolving: map<nat, nat>,         // replies that removed an entry and hold its channel
    tally: Tally,
    hysteresis: Hysteresis)

  datatype Tally = Tally(attempts: nat, oks: nat, fails: nat, timeouts: nat)

  const THRESHOLD: nat := 3

  datatype Event = Timeout | Reply | Renegotiate

  datatype Hysteresis = Hysteresis(streak: nat, capable: bool, drops: nat)

  /** What one event does to the streak, the capability and the drop counter. */
  function React(h: Hysteresis, e: Event): Hysteresis {
    match e
    case Timeout =>
      Hysteresis(h.streak + 1,
                 if h.streak + 1 == THRESHOLD then false else h.capable,
                 if h.streak + 1 == THRESHOLD && h.capable then h.drops + 1 else h.drops)
    case Reply => h.(streak := 0)
    case Renegotiate => h.(streak := 0, capable := true)
  }

  datatype Action =
    | Register(k: nat, id: StreamId)          // make the channel, store it in the table
    | EnqueueFails(k: nat)                    // CompareAndDelete, no attempt counted
    | Enqueued(k: nat)
    | ReplyArrives(r: nat, id: StreamId)      // resolver: LoadAndDelete
    | Deliver(r: nat, v: Verdict)             // resolver: channel send
    | Receive(k: nat)                         // awaiter reads its channel
    | TimerFires(k: nat)                      // awaiter: LoadAndDelete
    | GiveUp(k: nat)                          // the buffer was still empty
    | Renegotiated                            // a slot negotiated migration: hysteresis reset

  function NoteTimeout(s: State): State {
    s.(tally := s.tally.(timeouts := s.tally.timeouts + 1), hysteresis := React(s.hysteresis, Timeout))
  }

  /** A FAIL is an answer too: it ends the streak of timeouts. */
  function NoteReply(s: State, v: Verdict): State {
    s.(tally := if v == Ok then s.tally.(oks := s.tally.oks + 1) else s.tally.(fails := s.tally.fails + 1),
       hysteresis := React(s.hysteresis, Reply))
  }

  function Finish(s: State, k: nat): State {
    s.(sends := s.sends[k := Finished])
  }

  ghost predicate Next(s: State, a: Action, s': State) {
    match a
    case Register(k, id) =>
      k !in s.sends && k !in s.chans
      && s' == s.(sends := s.sends[k := Registered(id)], chans := s.chans[k := Chan([], 0)],
                  pending := s.pending[id := k])
    case EnqueueFails(k) =>
      k in s.sends && s.sends[k].Registered?
      && s' == Finish(s, k).(pending := if s.sends[k].id in s.pending && s.pending[s.sends[k].id] == k
                                        then s.pending - {s.sends[k].id} else s.pending)
    case Enqueued(k) =>
      k in s.sends && s.sends[k].Registered?
      && s' == s.(sends := s.sends[k := Waiting(s.sends[k].id)], tally := s.tally.(attempts := s.tally.attempts + 1))
    case ReplyArrives(r, id) =>
      r !in s.resolving && id in s.pending
      && s' == s.(pending := s.pending - {id}, resolving := s.resolving[r := s.pending[id]])
    case Deliver(r, v) =>
      r in s.resolving && s.resolving[r] in s.chans
      && (var c := s.chans[s.resolving[r]];
          s' == s.(chans := s.chans[s.resolving[r] := Chan(c.buffer + [v], c.received + 1)],
                     resolving := s.resolving - {r}))
    case Receive(k) =>
      k in s.sends && (s.sends[k].Waiting? || s.sends[k].TimedOut?) && k in s.chans && s.chans[k].buffer != []
      && s' == Finish(NoteReply(s, s.chans[k].buffer[0]), k)
               .(chans := s.chans[k := s.chans[k].(buffer := s.chans[k].buffer[1..])])
    case TimerFires(k) =>
      k in s.sends && s.sends[k].Waiting?
      && s' == (if s.sends[k].id in s.pending
                then Finish(NoteTimeout(s), k).(pending := s.pending - {s.sends[k].id})
                else s.(sends := s.sends[k := TimedOut(s.sends[k].id)]))
    case GiveUp(k) =>
      k in s.sends && s.sends[k].TimedOut? && k in s.chans && s.chans[k].buffer == []
      && s' == Finish(NoteTimeout(s), k)
    case Renegotiated => s' == s.(hysteresis := React(s.hysteresis, Renegotiate))
  }

  function Still(): Send -> bool {
    (w: Send) => w.Waiting? || w.TimedOut?
  }

  function Is(c: nat): nat -> bool {
    (x: nat) => x == c
  }

  /** Every way channel c can still come to receive a value, plus the values it has received. */
  ghost function Claims(s: State, c: nat): nat {
    Count(s.pending, Is(c)) + Count(s.resolving, Is(c)) + if c in s.chans then s.chans[c].received else 0
  }

  ghost predicate Accounted(s: State) {
    s.tally.attempts == s.tally.oks + s.tally.fails + s.tally.timeouts + Count(s.sends, Still())
  }

  ghost predicate Inv(s: State) {
    && Accounted(s)
    && (forall c :: Claims(s, c) <= 1)
    && (forall c | c in s.chans :: |s.chans[c].buffer| <= s.chans[c].received)
    && (forall k | k in s.sends :: k in s.chans)
    && (forall id | id in s.pending :: s.pending[id] in s.chans)
    && (forall r | r in s.resolving :: s.resolving[r] in s.chans)
  }

  ghost predicate Initial(s: State) {
    && s.sends == map[] && s.chans == map[] && s.pending == map[] && s.resolving == map[]
    && s.tally == Tally(0, 0, 0, 0) && s.hysteresis.streak == s.hysteresis.drops == 0
  }

  ghost predicate Run(states: seq<State>, acts: seq<Action>) {
    && |states| == |acts| + 1
    && Initial(states[0])
    && forall n | 0 <= n < |acts| :: Next(states[n], acts[n], states[n + 1])
  }

  predicate BySender(a: Action) {
    !a.ReplyArrives? && !a.Deliver? && !a.Renegotiated?
  }

  lemma AttemptsStep(s: State, a: Action, s': State)
    requires Inv(s) && Next(s, a, s')
    ensures Accounted(s')
  {
    if BySender(a) {
      assert s'.sends == s.sends[a.k := s'.sends[a.k]];
      CountStore(s.sends, a.k, s'.sends[a.k], Still());
    }
  }

  /** A freshly made channel is in nobody's hands. */
  lemma NewChannelUnclaimed(s: State, k: nat)
    requires Inv(s) && k !in s.chans
    ensures Count(s.pending, Is(k)) == 0 && Count(s.resolving, Is(k)) == 0
  {
  }

  /** No step creates a second claim on a channel. */
  lemma ClaimsStep(s: State, a: Action, s': State, c: nat)
    requires Inv(s) && Next(s, a, s')
    ensures Claims(s', c) <= 1
  {
    assert Claims(s, c) <= 1;
    match a
    case Register(k, id) =>
      NewChannelUnclaimed(s, k);
      CountStore(s.pending, id, k, Is(c));
    case EnqueueFails(k) => CountDelete(s.pending, s.sends[k].id, Is(c));
    case ReplyArrives(r, id) =>
      CountDelete(s.pending, id, Is(c));
      CountStore(s.resolving, r, s.pending[id], Is(c));
    case Deliver(r, _) => CountDelete(s.resolving, r, Is(c));
    case TimerFires(k) => CountDelete(s.pending, s.sends[k].id, Is(c));
    case _ =>
  }

  lemma ShapeStep(s: State, a: Action, s': State)
    requires Inv(s) && Next(s, a, s')
    ensures forall c | c in s'.chans :: |s'.chans[c].buffer| <= s'.chans[c].received
    ensures forall k | k in s'.sends :: k in s'.chans
    ensures forall id | id in s'.pending :: s'.pending[id] in s'.chans
    ensures forall r | r in s'.resolving :: s'.resolving[r] in s'.chans
  {
  }

  lemma {:induction false} RunKeepsInv(states: seq<State>, acts: seq<Action>, n: nat)
    requires Run(states, acts) && n < |states|
    ensures Inv(states[n])
  {
    var s' := states[n];
    if n == 0 {
      CountZero(s'.sends, Still());
      forall c
        ensures Claims(s', c) <= 1
      {
        CountZero(s'.pending, Is(c));
        CountZero(s'.resolving, Is(c));
      }
    } else {
      var s, a := states[n - 1], acts[n - 1];
      RunKeepsInv(states, acts, n - 1);
      AttemptsStep(s, a, s');
      ShapeStep(s, a, s');
      forall c
        ensures Claims(s', c) <= 1
      {
        ClaimsStep(s, a, s', c);
      }
    }
  }

  /** Under every interleaving of sends, replies and timeouts: a channel never receives a second
      value, a resolver about to deliver finds the channel empty (its one-place buffer cannot
      block it), and every attempt is accounted for as OK, FAIL, timeout or still waiting. */
  lemma OneReplyPerSend(states: seq<State>, acts: seq<Action>, n: nat)
    requires Run(states, acts) && n < |states|
    ensures var s := states[n];
            && (forall c | c in s.chans :: s.chans[c].received <= 1)
            && (forall r | r in s.resolving :: s.resolving[r] in s.chans && s.chans[s.resolving[r]] == Chan([], 0))
            && s.tally.attempts == s.tally.oks + s.tally.fails + s.tally.timeouts + Count(s.sends, Still())
  {
    var s := states[n];
    RunKeepsInv(states, acts, n);
    forall c | c in s.chans
      ensures s.chans[c].received <= 1
    {
      assert Claims(s, c) <= 1;
    }
    forall r | r in s.resolving
      ensures s.resolving[r] in s.chans && s.chans[s.resolving[r]] == Chan([], 0)
    {
      var c := s.resolving[r];
      assert Claims(s, c) <= 1;
      CountZero(s.resolving, Is(c));
      assert Is(c)(s.resolving[r]);
    }
  }

  // ---------------------------------------------------------------- replies and the table

  /** The verdict v lies unread in the channel. */
  function Unread(v: Verdict): Chan -> bool {
    (c: Chan) => c.buffer == [v]
  }

  /** How often v was delivered. */
  function Delivered(acts: seq<Action>, v: Verdict): nat {
    if acts == [] then 0
    else Delivered(acts[..|acts| - 1], v)
         + if acts[|acts| - 1].Deliver? && acts[|acts| - 1].v == v then 1 else 0
  }

  function Tallied(t: Tally, v: Verdict): nat {
    if v == Ok then t.oks else t.fails
  }

  lemma VerdictStep(s: State, a: Action, s': State, v: Verdict)
    requires Inv(s) && Next(s, a, s')
    ensures Tallied(s'.tally, v) + Count(s'.chans, Unread(v))
            == Tallied(s.tally, v) + Count(s.chans, Unread(v)) + Hit(a.Deliver? && a.v == v)
  {
    match a
    case Register(k, _) => CountStore(s.chans, k, Chan([], 0), Unread(v));
    case Deliver(r, w) =>
      var c := s.resolving[r];
      CountZero(s.resolving, Is(c));
      assert Is(c)(s.resolving[r]) && Claims(s, c) <= 1;
      assert s.chans[c].buffer == [];
      assert s'.chans[c].buffer == [w];
      CountStore(s.chans, c, s'.chans[c], Unread(v));
    case Receive(k) =>
      assert Claims(s, k) <= 1;
      assert s.chans[k].buffer == [s.chans[k].buffer[0]];
      CountStore(s.chans, k, s'.chans[k], Unread(v));
    case _ =>
  }

  /** No verdict is lost, invented or turned into the other one: at every moment the OKs (and the
      FAILs) delivered so far are those counted and those still unread in their channel. */
  lemma {:induction false} VerdictsConserved(states: seq<State>, acts: seq<Action>, n: nat, v: Verdict)
    requires Run(states, acts) && n <= |acts|
    ensures Delivered(acts[..n], v) == Tallied(states[n].tally, v) + Count(states[n].chans, Unread(v))
  {
    if n == 0 {
      CountZero(states[0].chans, Unread(v));
    } else {
      VerdictsConserved(states, acts, n - 1, v);
      RunKeepsInv(states, acts, n - 1);
      VerdictStep(states[n - 1], acts[n - 1], states[n], v);
      assert acts[..n][..n - 1] == acts[..n - 1];
    }
  }

  /** Every entry of the table belongs to a send of that stream that has not ended. */
  ghost predicate NoStaleEntry(s: State) {
    forall id | id in s.pending ::
      && s.pending[id] in s.sends
      && (s.sends[s.pending[id]] == Registered(id) || s.sends[s.pending[id]] == Waiting(id))
  }

  lemma NoStaleStep(s: State, a: Action, s': State)
    requires Inv(s) && NoStaleEntry(s) && Next(s, a, s')
    ensures NoStaleEntry(s')
  {
    if a.Receive? {
      assert Claims(s, a.k) <= 1;
      CountZero(s.pending, Is(a.k));
      assert forall id | id in s.pending :: !Is(a.k)(s.pending[id]);
    }
  }

  /** On every run no outcome of a send, be it a failed enqueue, a reply or a timeout, leaves its
      channel behind in the table. */
  lemma {:induction false} TableIsClean(states: seq<State>, acts: seq<Action>, n: nat)
    requires Run(states, acts) && n < |states|
    ensures NoStaleEntry(states[n])
  {
    if n == 0 {
    } else {
      TableIsClean(states, acts, n - 1);
      RunKeepsInv(states, acts, n - 1);
      NoStaleStep(states[n - 1], acts[n - 1], states[n]);
    }
  }

  /** The newest send of the stream, if there was any. */
  function Newest(acts: seq<Action>, id: StreamId): Option<nat> {
    if acts == [] then None
    else
      match acts[|acts| - 1]
      case Register(k, x) => if x == id then Some(k) else Newest(acts[..|acts| - 1], id)
      case _ => Newest(acts[..|acts| - 1], id)
  }

  lemma PendingStep(s: State, a: Action, s': State, id: StreamId)
    requires Next(s, a, s') && id in s'.pending
    ensures a.Register? && a.id == id ==> s'.pending[id] == a.k
    ensures !(a.Register? && a.id == id) ==> id in s.pending && s.pending[id] == s'.pending[id]
  {
  }

  /** A reply goes to the newest send of its stream, or to none. */
  lemma {:induction false} NewestIsPending(states: seq<State>, acts: seq<Action>, n: nat, id: StreamId)
    requires Run(states, acts) && n <= |acts| && id in states[n].pending
    ensures Newest(acts[..n], id) == Some(states[n].pending[id])
  {
    if n > 0 {
      var a := acts[n - 1];
      PendingStep(states[n - 1], a, states[n], id);
      assert acts[..n][..n - 1] == acts[..n - 1] && acts[..n][n - 1] == a;
      if !(a.Register? && a.id == id) {
        NewestIsPending(states, acts, n - 1, id);
      }
    }
  }

  /** A timer that fires takes the stream's entry, whoever's it is, and then the send has timed out at
      once; without an entry the send first looks into its channel, and times out only if it finds
      nothing there. */
  lemma TimeoutExactly(s: State, a: Action, s': State)
    requires Next(s, a, s')
    ensures s'.tally.timeouts == s.tally.timeouts + 1 <==>
            a.GiveUp? || (a.TimerFires? && s.sends[a.k].id in s.pending)
    ensures s'.tally.timeouts != s.tally.timeouts ==> s'.sends[a.k] == Finished && s'.tally.oks == s.tally.oks
    ensures a.TimerFires? ==> s'.pending == s.pending - {s.sends[a.k].id}
    ensures a.GiveUp? ==> s.chans[a.k].buffer == []
  {
  }

  /** A send whose timer fired while its reply was on the way always gets to an end: with the reply if
      it has come, whatever the timer said, and with a timeout if it has not. */
  lemma TimedOutEnds(s: State, k: nat)
    requires Inv(s) && k in s.sends && s.sends[k].TimedOut?
    ensures (exists s' :: Next(s, Receive(k), s')) <==> s.chans[k].buffer != []
    ensures (exists s' :: Next(s, GiveUp(k), s')) <==> s.chans[k].buffer == []
  {
    if s.chans[k].buffer == [] {
      assert Next(s, GiveUp(k), Finish(NoteTimeout(s), k));
    } else {
      var s' := Finish(NoteReply(s, s.chans[k].buffer[0]), k)
                .(chans := s.chans[k := s.chans[k].(buffer := s.chans[k].buffer[1..])]);
      assert Next(s, Receive(k), s');
    }
  }

  // ---------------------------------------------------------------- timeout hysteresis

  function Fold(h: Hysteresis, es: seq<Event>): Hysteresis {
    if es == [] then h else React(Fold(h, es[..|es| - 1]), es[|es| - 1])
  }

  /** Where the current renegotiation epoch starts: just after the last renegotiation. */
  function EpochStart(es: seq<Event>): (n: nat)
    ensures n <= |es|
    ensures n > 0 ==> es[n - 1] == Renegotiate
    ensures forall i | n <= i < |es| :: es[i] != Renegotiate
  {
    if es == [] then 0
    else if es[|es| - 1] == Renegotiate then |es|
    else EpochStart(es[..|es| - 1])
  }

  ghost predicate ThreeFrom(es: seq<Event>, i: nat) {
    i + 3 <= |es| && es[i] == es[i + 1] == es[i + 2] == Timeout
  }

  ghost predicate ThreeInARow(es: seq<Event>) {
    exists i :: ThreeFrom(es, i)
  }

  /** The streak counter is the length of the run of timeouts at the end. */
  ghost predicate EndsWith(es: seq<Event>, n: nat) {
    && n <= |es|
    && (forall i | |es| - n <= i < |es| :: es[i] == Timeout)
    && (n < |es| ==> es[|es| - n - 1] != Timeout)
  }

  lemma ThreeExtends(es: seq<Event>, e: Event, n: nat)
    requires EndsWith(es, n)
    ensures ThreeInARow(es + [e]) <==> ThreeInARow(es) || (e == Timeout && n >= 2)
  {
    var fs := es + [e];
    if i: nat :| ThreeFrom(fs, i) {
      if i + 3 <= |es| {
        assert ThreeFrom(es, i);
      } else {
        assert es[|es| - 1] == es[|es| - 2] == Timeout;
      }
    }
    if i: nat :| ThreeFrom(es, i) {
      assert ThreeFrom(fs, i);
    }
    if e == Timeout && n >= 2 {
      assert ThreeFrom(fs, |es| - 2);
    }
  }

  /** The capability over one epoch: from a fresh streak, it survives exactly the event sequences
      without three timeouts in a row, and it is dropped, and the drop counted, exactly once. */
  lemma {:induction false} EpochMeaning(h: Hysteresis, es: seq<Event>)
    requires h.streak == 0 && forall i | 0 <= i < |es| :: es[i] != Renegotiate
    ensures EndsWith(es, Fold(h, es).streak)
    ensures Fold(h, es).capable <==> h.capable && !ThreeInARow(es)
    ensures Fold(h, es).drops == h.drops + Hit(h.capable && ThreeInARow(es))
  {
    if es == [] {
    } else {
      var p, e := es[..|es| - 1], es[|es| - 1];
      assert es == p + [e];
      EpochMeaning(h, p);
      ThreeExtends(p, e, Fold(h, p).streak);
      if Fold(h, p).streak >= 3 {
        assert ThreeFrom(p, |p| - 3);
      }
    }
  }

  lemma {:induction false} FoldAppend(h: Hysteresis, es: seq<Event>, fs: seq<Event>)
    ensures Fold(h, es + fs) == Fold(Fold(h, es), fs)
  {
    if fs == [] {
      assert es + fs == es;
    } else {
      var gs := es + fs;
      assert gs[..|gs| - 1] == es + fs[..|fs| - 1];
      FoldAppend(h, es, fs[..|fs| - 1]);
    }
  }

  /** An epoch starts with the capability up, no streak, and no drop counted. */
  lemma EpochOpens(h: Hysteresis, es: seq<Event>)
    requires h.streak == 0
    ensures var n := EpochStart(es);
            var before := Fold(h, es[..n]);
            && before.streak == 0
            && (n > 0 ==> before.capable && before.drops == Fold(h, es[..n - 1]).drops)
  {
    var n := EpochStart(es);
    if n > 0 {
      assert es[..n][..n - 1] == es[..n - 1] && es[..n][n - 1] == Renegotiate;
    }
  }

  /** For every event history: within the current epoch the capability is lost exactly at a third
      consecutive timeout, its loss is counted exactly once, and only a renegotiation brings it
      back. */
  lemma HysteresisMeaning(h: Hysteresis, es: seq<Event>)
    requires h.streak == 0
    ensures var n := EpochStart(es);
            var before := Fold(h, es[..n]);
            var now := Fold(h, es);
            && (n > 0 ==> before.capable && before.drops == Fold(h, es[..n - 1]).drops)
            && (now.capable <==> before.capable && !ThreeInARow(es[n..]))
            && now.drops == before.drops + Hit(before.capable && ThreeInARow(es[n..]))
  {
    var n := EpochStart(es);
    EpochOpens(h, es);
    assert es == es[..n] + es[n..];
    FoldAppend(h, es[..n], es[n..]);
    EpochMeaning(Fold(h, es[..n]), es[n..]);
  }

  /** The hysteresis event a step causes, if any. */
  function EventsOf(s: State, a: Action): seq<Event> {
    match a
    case Receive(k) => [Reply]
    case TimerFires(k) => if k in s.sends && s.sends[k].Waiting? && s.sends[k].id in s.pending then [Timeout] else []
    case GiveUp(k) => [Timeout]
    case Renegotiated => [Renegotiate]
    case _ => []
  }

  ghost function Trace(states: seq<State>, acts: seq<Action>, n: nat): seq<Event>
    requires n <= |acts| && |states| == |acts| + 1
  {
    if n == 0 then [] else Trace(states, acts, n - 1) + EventsOf(states[n - 1], acts[n - 1])
  }

  lemma StepFolds(s: State, a: Action, s': State)
    requires Next(s, a, s')
    ensures s'.hysteresis == Fold(s.hysteresis, EventsOf(s, a))
  {
  }

  /** The pool's hysteresis fields are the fold of what happened: the meaning above is theirs. */
  lemma {:induction false} RunFolds(states: seq<State>, acts: seq<Action>, n: nat)
    requires Run(states, acts) && n <= |acts|
    ensures states[n].hysteresis == Fold(states[0].hysteresis, Trace(states, acts, n))
  {
    if n == 0 {
    } else {
      RunFolds(states, acts, n - 1);
      StepFolds(states[n - 1], acts[n - 1], states[n]);
      FoldAppend(states[0].hysteresis, Trace(states, acts, n - 1), EventsOf(states[n - 1], acts[n - 1]));
    }
  }

  function Occurrences(es: seq<Event>, e: Event): nat {
    if es == [] then 0 else Occurrences(es[..|es| - 1], e) + if es[|es| - 1] == e then 1 else 0
  }

  lemma OccurrencesAppend(es: seq<Event>, fs: seq<Event>, e: Event)
    requires |fs| <= 1
    ensures Occurrences(es + fs, e) == Occurrences(es, e) + if fs == [e] then 1 else 0
  {
    if fs == [] {
      assert es + fs == es;
    } else {
      assert (es + fs)[..|es|] == es;
    }
  }

  /** The counters move with the step's event. */
  predicate CountsEvent(t: Tally, t': Tally, fs: seq<Event>) {
    && |fs| <= 1
    && t'.timeouts == t.timeouts + (if fs == [Timeout] then 1 else 0)
    && t'.oks + t'.fails == t.oks + t.fails + (if fs == [Reply] then 1 else 0)
  }

  predicate CountsHistory(t: Tally, es: seq<Event>) {
    t.timeouts == Occurrences(es, Timeout) && t.oks + t.fails == Occurrences(es, Reply)
  }

  lemma StepCounts(s: State, a: Action, s': State)
    requires Next(s, a, s')
    ensures CountsEvent(s.tally, s'.tally, EventsOf(s, a))
  {
  }

  lemma CountsOn(t: Tally, t': Tally, es: seq<Event>, fs: seq<Event>)
    requires CountsHistory(t, es) && CountsEvent(t, t', fs)
    ensures CountsHistory(t', es + fs)
  {
    OccurrencesAppend(es, fs, Timeout);
    OccurrencesAppend(es, fs, Reply);
  }

  lemma {:induction false} CountsAddUp(states: seq<State>, acts: seq<Action>, n: nat)
    requires Run(states, acts) && n <= |acts|
    ensures CountsHistory(states[n].tally, Trace(states, acts, n))
  {
    if n > 0 {
      var s, a, s' := states[n - 1], acts[n - 1], states[n];
      CountsAddUp(states, acts, n - 1);
      StepCounts(s, a, s');
      CountsOn(s.tally, s'.tally, Trace(states, acts, n - 1), EventsOf(s, a));
    }
  }

  /** The counters are the history: each timeout and each reply is counted and noted once. */
  lemma TallyIsTrace(states: seq<State>, acts: seq<Action>, n: nat)
    requires Run(states, acts) && n <= |acts|
    ensures states[n].tally.timeouts == Occurrences(Trace(states, acts, n), Timeout)
    ensures states[n].tally.oks + states[n].tally.fails == Occurrences(Trace(states, acts, n), Reply)
  {
    CountsAddUp(states, acts, n);
  }

  /** On every run: the capability is up exactly when it was up at the start of the current epoch
      and the epoch has not seen three timeouts in a row; at most one drop is counted per epoch. */
  lemma CapabilityOnEveryRun(states: seq<State>, acts: seq<Action>, n: nat)
    requires Run(states, acts) && n <= |acts|
    ensures var es := Trace(states, acts, n);
            var b := EpochStart(es);
            var before := Fold(states[0].hysteresis, es[..b]);
            && (b > 0 ==> before.capable && before.drops == Fold(states[0].hysteresis, es[..b - 1]).drops)
            && (states[n].hysteresis.capable <==> before.capable && !ThreeInARow(es[b..]))
            && states[n].hysteresis.drops == before.drops + Hit(before.capable && ThreeInARow(es[b..]))
  {
    RunFolds(states, acts, n);
    HysteresisMeaning(states[0].hysteresis, Trace(states, acts, n));
  }
}
