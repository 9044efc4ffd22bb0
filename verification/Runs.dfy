// Whole-run facts of the session protocol: they hold after any run, of any length, of any number of
// interleaved calls.

module Runs {
  import opened Errors
  import opened Provenance
  import opened Sink
  import opened Protocol
  import opened Invariants

  /** A server whose sink has not been used yet. */
  ghost predicate Starting(sink: SinkState) {
    InOrder(sink) && sink.sent == [] && sink.waiting == []
  }

  lemma {:induction false} RunKeepsInv(cfg: Config, s: State, steps: seq<Step>)
    requires Inv(cfg, s) && ValidRun(cfg, s, steps)
    ensures Inv(cfg, After(cfg, s, steps))
    decreases |steps|
  {
    if steps != [] {
      InvKept(cfg, s, steps[0]);
      RunKeepsInv(cfg, Next(cfg, s, steps[0]), steps[1..]);
    }
  }

  /** In every state of every run the invariant holds. */
  lemma ReachableInv(cfg: Config, sink: SinkState, steps: seq<Step>)
    requires Starting(sink) && ValidRun(cfg, Initial(sink), steps)
    ensures Inv(cfg, After(cfg, Initial(sink), steps))
  {
    InitialInv(cfg, sink);
    RunKeepsInv(cfg, Initial(sink), steps);
  }

  // ----- conservation

  /** For every session, and over every interleaving: the packets ever queued are those counted by the
      registry (live, or as reported by the finalize that drained the session), those whose call is
      between queuing and counting, those whose call then failed on an unknown session, and those
      whose call was dropped in between. */
  lemma Conservation(cfg: Config, sink: SinkState, steps: seq<Step>, sid: Text)
    requires Starting(sink) && ValidRun(cfg, Initial(sink), steps)
    ensures var s := After(cfg, Initial(sink), steps);
            var uncounted := Tally(cfg, s.streams, OfSession(sid), {InFlight})
                             + Tally(cfg, s.streams, OfSession(sid), {Orphaned})
                             + Tally(cfg, s.streams, OfSession(sid), {Abandoned});
            var queued := PacketsOf(s.sink.sent, OfSession(sid));
            (sid in s.sessions ==> queued == s.sessions[sid].receivedCount + uncounted)
            && (forall k: nat :: ReportFor(s.finals, k, sid) ==> queued == s.finals[k].pc.count.value + uncounted)
            && (sid in s.issued ==> sid in s.sessions || exists k: nat :: ReportFor(s.finals, k, sid))
            && (sid !in s.issued ==> queued == uncounted)
  {
    ReachableInv(cfg, sink, steps);
    var s := After(cfg, Initial(sink), steps);
    TallySplit(cfg, s.streams, OfSession(sid));
    assert PacketsOf(s.sink.sent, OfSession(sid)) == Tally(cfg, s.streams, OfSession(sid), QUEUED);
    assert Tally(cfg, s.streams, OfSession(sid), {Acked}) == Credit(s, sid);
  }

  /** No packet is queued twice for one call or without a call: every packet was sent as often as
      there are calls that admitted it and went past their send. */
  lemma ExactlyOncePerCall(cfg: Config, sink: SinkState, steps: seq<Step>, t: TaggedPrimitive)
    requires Starting(sink) && ValidRun(cfg, Initial(sink), steps)
    ensures var s := After(cfg, Initial(sink), steps);
            PacketsOf(s.sink.sent, OfPacket(t)) == Tally(cfg, s.streams, OfPacket(t), QUEUED)
  {
    ReachableInv(cfg, sink, steps);
  }

  // ----- what finalize reports

  lemma {:induction false} RunSplits(cfg: Config, s: State, past: seq<Step>, future: seq<Step>)
    requires ValidRun(cfg, s, past + future)
    ensures ValidRun(cfg, s, past) && ValidRun(cfg, After(cfg, s, past), future)
    ensures After(cfg, s, past + future) == After(cfg, After(cfg, s, past), future)
    decreases |past|
  {
    if past == [] {
      assert past + future == future;
    } else {
      assert (past + future)[1..] == past[1..] + future;
      RunSplits(cfg, Next(cfg, s, past[0]), past[1..], future);
    }
  }

  lemma {:induction false} ReportPersists(cfg: Config, s: State, steps: seq<Step>, k: nat)
    requires ValidRun(cfg, s, steps) && k < |s.finals| && s.finals[k].pc.Reported?
    ensures k < |After(cfg, s, steps).finals| && After(cfg, s, steps).finals[k] == s.finals[k]
    decreases |steps|
  {
    if steps != [] {
      ReportStays(cfg, s, steps[0], k);
      ReportPersists(cfg, Next(cfg, s, steps[0]), steps[1..], k);
    }
  }

  lemma ReportStays(cfg: Config, s: State, step: Step, k: nat)
    requires Enabled(s, step) && k < |s.finals| && s.finals[k].pc.Reported?
    ensures k < |Next(cfg, s, step).finals| && Next(cfg, s, step).finals[k] == s.finals[k]
  {
  }

  /** The count a finalize reports is the number of stream calls on its session that return true in
      the whole run: before the report, and in whatever follows it. */
  lemma FinalizeCountsAllAcks(cfg: Config, sink: SinkState, past: seq<Step>, future: seq<Step>, k: nat)
    requires Starting(sink) && ValidRun(cfg, Initial(sink), past + future)
    ensures ValidRun(cfg, Initial(sink), past)
    ensures var now, later := After(cfg, Initial(sink), past), After(cfg, Initial(sink), past + future);
            k < |now.finals| && Success(now.finals[k]) ==>
              Tally(cfg, later.streams, OfSession(now.finals[k].session), {Acked}) == now.finals[k].pc.count.value
  {
    RunSplits(cfg, Initial(sink), past, future);
    ReachableInv(cfg, sink, past + future);
    var now := After(cfg, Initial(sink), past);
    if k < |now.finals| && Success(now.finals[k]) {
      ReportPersists(cfg, now, future, k);
      var later := After(cfg, now, future);
      var sid := now.finals[k].session;
      assert Tally(cfg, later.streams, OfSession(sid), {Acked}) == Credit(later, sid);
    }
  }

  /** At the moment of the drain, the count is the number of packets queued for the session exactly when
      no call on it is between queuing and counting, was orphaned, or was dropped in between. */
  lemma ReportIsPacketCountExactly(cfg: Config, sink: SinkState, steps: seq<Step>, k: nat)
    requires Starting(sink) && ValidRun(cfg, Initial(sink), steps)
    requires var s := After(cfg, Initial(sink), steps);
             Enabled(s, FinalizeDrains(k)) && s.finals[k].session in s.sessions
    ensures var s := After(cfg, Initial(sink), steps);
            var sid, after := s.finals[k].session, Next(cfg, s, FinalizeDrains(k));
            Success(after.finals[k])
            && (after.finals[k].pc.count.value == PacketsOf(s.sink.sent, OfSession(sid))
                <==> forall i :: 0 <= i < |s.streams| && Names(cfg, s.streams[i].message, OfSession(sid)) ==>
                       PhaseOf(s.streams[i].pc) !in UNCOUNTED)
  {
    ReachableInv(cfg, sink, steps);
    var s := After(cfg, Initial(sink), steps);
    var key := OfSession(s.finals[k].session);
    assert PacketsOf(s.sink.sent, key) == Tally(cfg, s.streams, key, QUEUED);
    assert Tally(cfg, s.streams, key, {Acked}) == Credit(s, s.finals[k].session);
    TallySplit(cfg, s.streams, key);
    TallyZeroExactly(cfg, s.streams, key, UNCOUNTED);
  }

  /** How a finalize can end: a request that cannot be read fails with that error and drains nothing; one
      that names a session reports it, if it is not dropped, or fails on an unknown session. */
  lemma FinalizeOutcomes(cfg: Config, sink: SinkState, steps: seq<Step>, k: nat)
    requires Starting(sink) && ValidRun(cfg, Initial(sink), steps)
    requires k < |After(cfg, Initial(sink), steps).finals|
    ensures var s := After(cfg, Initial(sink), steps);
            var f := s.finals[k];
            match f.request
            case Null => !Success(f)
            case Malformed => f.pc == Reported(Err(Rpc))
            case To(sid) =>
              if cfg.utf8(sid) then
                f.session == sid
                && (f.pc.Reported? ==> f.pc.count == Err(Internal(UnknownSession)) || (Success(f) && sid in s.issued))
              else
                f.pc == Reported(Err(Internal(BadText)))
  {
    ReachableInv(cfg, sink, steps);
    assert FinalOk(cfg, After(cfg, Initial(sink), steps).finals[k]);
  }

  /** A session is reported at most once, and is gone from the table afterwards for good. */
  lemma OneReportPerSession(cfg: Config, sink: SinkState, steps: seq<Step>, j: nat, k: nat)
    requires Starting(sink) && ValidRun(cfg, Initial(sink), steps)
    ensures var s := After(cfg, Initial(sink), steps);
            (j < k < |s.finals| && Success(s.finals[j]) && Success(s.finals[k]) ==>
               s.finals[j].session != s.finals[k].session)
            && (k < |s.finals| && Success(s.finals[k]) ==> s.finals[k].session !in s.sessions)
  {
    ReachableInv(cfg, sink, steps);
  }

  /** No two handshakes are ever assigned the same session. */
  lemma SessionsAreDistinct(cfg: Config, sink: SinkState, steps: seq<Step>, j: nat, k: nat)
    requires Starting(sink) && ValidRun(cfg, Initial(sink), steps)
    ensures var s := After(cfg, Initial(sink), steps);
            j < k < |s.handshakes| && Assigned(s.handshakes[j]) && Assigned(s.handshakes[k]) ==>
              AssignedTo(s.handshakes[j]) != AssignedTo(s.handshakes[k])
  {
    ReachableInv(cfg, sink, steps);
  }

  /** The ids issued are exactly the sessions that handshakes were assigned. The reply states what was
      decided about the card, and while the session lives the table holds it. */
  lemma SessionsAreHandshakes(cfg: Config, sink: SinkState, steps: seq<Step>, sid: Text)
    requires Starting(sink) && ValidRun(cfg, Initial(sink), steps)
    ensures var s := After(cfg, Initial(sink), steps);
            (sid in s.issued <==> exists k: nat :: AssignedAt(s.handshakes, k, sid))
            && (forall k: nat :: AssignedAt(s.handshakes, k, sid) ==>
                  var d, r := cfg.decide(s.handshakes[k].card), s.handshakes[k].pc.reply.value;
                  d.Proceed? && r.status == d.status && r.adapter == d.adapter
                  && (sid in s.sessions ==> EntryOf(d, s.sessions[sid])))
  {
    ReachableInv(cfg, sink, steps);
    var s := After(cfg, Initial(sink), steps);
    forall k: nat | AssignedAt(s.handshakes, k, sid)
      ensures DecisionOk(cfg, s.handshakes[k]) && sid in s.issued
    {
    }
  }

  // ----- the sink

  lemma {:induction false} TallyPositive(cfg: Config, streams: seq<StreamCall>, i: nat, key: Key, phases: set<Phase>)
    requires i < |streams|
    ensures Tally(cfg, streams, key, phases) >= Hit(cfg, streams[i], key, phases)
    decreases |streams|
  {
    if i < |streams| - 1 {
      TallyPositive(cfg, streams[..|streams| - 1], i, key, phases);
    }
  }

  lemma {:induction false} TallyWitness(cfg: Config, streams: seq<StreamCall>, key: Key, phases: set<Phase>)
    returns (i: nat)
    requires Tally(cfg, streams, key, phases) > 0
    ensures i < |streams| && Hit(cfg, streams[i], key, phases) == 1
    decreases |streams|
  {
    i := |streams| - 1;
    if Hit(cfg, streams[i], key, phases) == 0 {
      i := TallyWitness(cfg, streams[..i], key, phases);
    }
  }

  lemma {:induction false} PacketsPositive(packets: seq<TaggedPrimitive>, t: TaggedPrimitive)
    ensures PacketsOf(packets, OfPacket(t)) > 0 <==> t in packets
  {
    if packets != [] {
      var n := |packets| - 1;
      PacketsPositive(packets[..n], t);
      assert packets == packets[..n] + [packets[n]];
    }
  }

  /** Packets delivered, then packets buffered, are the completed sends in order while the receiver
      lives; the buffer respects the capacity; and a packet was sent exactly if some call admitted it
      and went past its send. */
  lemma SinkSafety(cfg: Config, sink: SinkState, steps: seq<Step>, t: TaggedPrimitive)
    requires Starting(sink) && ValidRun(cfg, Initial(sink), steps)
    ensures var s := After(cfg, Initial(sink), steps);
            (s.sink.receiverAlive ==> s.sink.sent == s.sink.delivered + s.sink.buffer)
            && |s.sink.buffer| <= s.sink.capacity
            && (t in s.sink.sent <==> exists i :: SentBy(cfg, s.streams, i, t))
  {
    ReachableInv(cfg, sink, steps);
    var s := After(cfg, Initial(sink), steps);
    assert PacketsOf(s.sink.sent, OfPacket(t)) == Tally(cfg, s.streams, OfPacket(t), QUEUED);
    PacketsPositive(s.sink.sent, t);
    if t in s.sink.sent {
      var i := TallyWitness(cfg, s.streams, OfPacket(t), QUEUED);
      assert SentBy(cfg, s.streams, i, t);
    }
    if i :| SentBy(cfg, s.streams, i, t) {
      TallyPositive(cfg, s.streams, i, OfPacket(t), QUEUED);
    }
  }

  /** A true acknowledgement is kept: while the receiver lives, the packet of every call that returned
      true has been delivered or is in the buffer. */
  lemma AcknowledgedIsNotLost(cfg: Config, sink: SinkState, steps: seq<Step>, i: nat)
    requires Starting(sink) && ValidRun(cfg, Initial(sink), steps)
    ensures var s := After(cfg, Initial(sink), steps);
            i < |s.streams| && s.streams[i].pc == Returned(Ok(true)) ==>
              cfg.admit(s.streams[i].message).Admitted?
              && (s.sink.receiverAlive ==> cfg.admit(s.streams[i].message).tagged in s.sink.delivered + s.sink.buffer)
  {
    ReachableInv(cfg, sink, steps);
    var s := After(cfg, Initial(sink), steps);
    if i < |s.streams| && s.streams[i].pc == Returned(Ok(true)) {
      assert CallOk(cfg, s.streams[i]);
      var t := cfg.admit(s.streams[i].message).tagged;
      assert SentBy(cfg, s.streams, i, t);
      SinkSafety(cfg, sink, steps, t);
    }
  }

  // ----- progress

  /** The sections a stream call still has to run; joining the line of waiting senders is one. */
  function Remaining(s: State, i: nat): nat
    requires i < |s.streams|
  {
    match s.streams[i].pc
    case Received => 4
    case Sending(_, _) => if s.sink.receiverAlive && i !in s.sink.waiting then 3 else 2
    case Counting(_) => 1
    case Returned(_) => 0
    case Dropped(_) => 0
  }

  /** A step runs one section of the call it moves and leaves every other call as it was. */
  lemma SectionsRunOnce(cfg: Config, s: State, step: Step, i: nat)
    requires Enabled(s, step) && i < |s.streams|
    ensures i < |Next(cfg, s, step).streams|
    ensures var s' := Next(cfg, s, step);
            if Moved(s, step) == Some(i) then Remaining(s', i) < Remaining(s, i)
            else s'.streams[i] == s.streams[i] && Remaining(s', i) <= Remaining(s, i)
  {
    StreamsAfter(cfg, s, step);
    if Moved(s, step).Some? && Moved(s, step) != Some(i) {
      WithoutKeeps(s.sink.waiting, Moved(s, step).value, i);
    }
  }

  /** While the receiver lives, no step moves a waiting sender back in line. */
  lemma NobodyIsOvertaken(cfg: Config, s: State, step: Step, i: nat)
    requires WaitingOk(s) && Enabled(s, step) && Moved(s, step) != Some(i) && i in s.sink.waiting
    ensures Next(cfg, s, step).sink.receiverAlive ==>
              i in Next(cfg, s, step).sink.waiting
              && Place(Next(cfg, s, step).sink.waiting, i) <= Place(s.sink.waiting, i)
  {
    var m := Moved(s, step);
    if m.Some? {
      WithoutKeeps(s.sink.waiting, m.value, i);
      PlaceAfterJoining(s.sink.waiting, m.value, i);
      if m.value in s.sink.waiting {
        PlaceAfterLeaving(s.sink.waiting, m.value, i);
      } else {
        LeavingAbsent(s.sink.waiting, m.value);
      }
    }
  }

  /** One step that brings a sender closer to its place: the receiver takes a packet, or, with an empty
      buffer, the first in line sends. */
  function ServingStep(s: State): Step
    requires s.sink.buffer == [] ==> s.sink.waiting != []
  {
    if s.sink.buffer != [] then ReceiverTakes else StreamSends(s.sink.waiting[0])
  }

  lemma ServingHelps(cfg: Config, s: State, i: nat)
    requires Inv(cfg, s) && s.sink.capacity > 0 && i < |s.streams|
    requires s.streams[i].pc.Sending? && s.sink.receiverAlive && !MaySend(s.sink, i)
    ensures s.sink.buffer == [] ==> s.sink.waiting != []
    ensures Enabled(s, ServingStep(s))
    ensures var s' := Next(cfg, s, ServingStep(s));
            s'.sink.receiverAlive && s'.sink.capacity == s.sink.capacity && |s'.streams| == |s.streams|
            && s'.streams[i] == s.streams[i] && Backlog(s', i) < Backlog(s, i)
  {
    var waiting := s.sink.waiting;
    if s.sink.buffer == [] {
      assert Place(waiting, i) > 0;
      assert waiting[0] in waiting && Place(waiting, waiting[0]) == 0;
      assert Without(waiting, waiting[0]) == waiting[1..];
    }
  }

  /** What has to happen before a sender gets its place: each packet in the buffer taken, and each sender
      ahead of it sending and its packet taken. */
  function Backlog(s: State, i: nat): nat {
    |s.sink.buffer| + 2 * Place(s.sink.waiting, i)
  }

  /** The step that ends a call's send. */
  function SendEnds(s: State, i: nat): Step {
    if s.sink.receiverAlive then StreamSends(i) else StreamFindsSinkClosed(i)
  }

  /** Every suspended send gets its place, or learns that the sink is closed, once the receiver and the
      senders ahead of it have run as many steps as its backlog says. */
  lemma EverySendIsServed(cfg: Config, s: State, i: nat) returns (steps: seq<Step>)
    requires Inv(cfg, s) && s.sink.capacity > 0 && i < |s.streams| && s.streams[i].pc.Sending?
    ensures ValidRun(cfg, s, steps) && |steps| <= Backlog(s, i)
    ensures forall step :: step in steps ==> step.ReceiverTakes? || step.StreamSends?
    ensures var s' := After(cfg, s, steps);
            i < |s'.streams| && s'.streams[i] == s.streams[i] && Enabled(s', SendEnds(s', i))
    decreases Backlog(s, i)
  {
    if !s.sink.receiverAlive || MaySend(s.sink, i) {
      steps := [];
    } else {
      ServingHelps(cfg, s, i);
      var step := ServingStep(s);
      InvKept(cfg, s, step);
      var rest := EverySendIsServed(cfg, Next(cfg, s, step), i);
      Then(cfg, s, step, rest);
      steps := [step] + rest;
    }
  }

  lemma CanReturnFromSending(cfg: Config, s: State, i: nat) returns (steps: seq<Step>)
    requires Inv(cfg, s) && s.sink.capacity > 0 && i < |s.streams| && s.streams[i].pc.Sending?
    ensures ValidRun(cfg, s, steps) && i < |After(cfg, s, steps).streams|
    ensures After(cfg, s, steps).streams[i].pc.Returned?
  {
    var served := EverySendIsServed(cfg, s, i);
    var s1 := After(cfg, s, served);
    var rest := CanReturnFromPlace(cfg, s1, i);
    Joined(cfg, s, served, rest);
    steps := served + rest;
  }

  lemma CanReturnFromPlace(cfg: Config, s: State, i: nat) returns (steps: seq<Step>)
    requires i < |s.streams| && Enabled(s, SendEnds(s, i))
    ensures ValidRun(cfg, s, steps) && i < |After(cfg, s, steps).streams|
    ensures After(cfg, s, steps).streams[i].pc.Returned?
  {
    var next := Next(cfg, s, SendEnds(s, i));
    if s.sink.receiverAlive {
      Then(cfg, next, StreamCounts(i), []);
      Twice(cfg, s, StreamSends(i), StreamCounts(i), []);
      steps := [StreamSends(i), StreamCounts(i)] + [];
    } else {
      Then(cfg, s, StreamFindsSinkClosed(i), []);
      steps := [StreamFindsSinkClosed(i)] + [];
    }
  }

  lemma CanReturnFromArrival(cfg: Config, s: State, i: nat) returns (steps: seq<Step>)
    requires Inv(cfg, s) && s.sink.capacity > 0 && i < |s.streams| && s.streams[i].pc.Received?
    ensures ValidRun(cfg, s, steps) && i < |After(cfg, s, steps).streams|
    ensures After(cfg, s, steps).streams[i].pc.Returned?
  {
    var next := Next(cfg, s, StreamValidates(i));
    InvKept(cfg, s, StreamValidates(i));
    var rest := [];
    if next.streams[i].pc.Sending? {
      rest := CanReturnFromSending(cfg, next, i);
    }
    Then(cfg, s, StreamValidates(i), rest);
    steps := [StreamValidates(i)] + rest;
  }

  /** From every reachable state the run can go on so that a given stream call returns, unless its caller
      went away: no interleaving leaves a call stuck. */
  lemma EveryCallCanReturn(cfg: Config, s: State, i: nat) returns (steps: seq<Step>)
    requires Inv(cfg, s) && s.sink.capacity > 0 && i < |s.streams| && !s.streams[i].pc.Dropped?
    ensures ValidRun(cfg, s, steps) && i < |After(cfg, s, steps).streams|
    ensures After(cfg, s, steps).streams[i].pc.Returned?
  {
    match s.streams[i].pc {
      case Returned(_) =>
        steps := [];
      case Counting(_) =>
        Then(cfg, s, StreamCounts(i), []);
        steps := [StreamCounts(i)] + [];
      case Sending(_, _) =>
        steps := CanReturnFromSending(cfg, s, i);
      case Received =>
        steps := CanReturnFromArrival(cfg, s, i);
    }
  }

  lemma {:induction false} CapacityIsConstant(cfg: Config, s: State, steps: seq<Step>)
    requires ValidRun(cfg, s, steps)
    ensures After(cfg, s, steps).sink.capacity == s.sink.capacity
    decreases |steps|
  {
    if steps != [] {
      CapacityIsConstant(cfg, Next(cfg, s, steps[0]), steps[1..]);
    }
  }

  /** So from a fresh server, whatever has happened, every call not dropped can still return. */
  lemma NoStreamIsStuck(cfg: Config, sink: SinkState, past: seq<Step>, i: nat) returns (future: seq<Step>)
    requires Starting(sink) && sink.capacity > 0 && ValidRun(cfg, Initial(sink), past)
    requires i < |After(cfg, Initial(sink), past).streams|
    requires !After(cfg, Initial(sink), past).streams[i].pc.Dropped?
    ensures ValidRun(cfg, Initial(sink), past + future)
    ensures var s := After(cfg, Initial(sink), past + future);
            i < |s.streams| && s.streams[i].pc.Returned?
  {
    ReachableInv(cfg, sink, past);
    CapacityIsConstant(cfg, Initial(sink), past);
    future := EveryCallCanReturn(cfg, After(cfg, Initial(sink), past), i);
    Joined(cfg, Initial(sink), past, future);
  }

  // ----- a server whose receiver is gone from the start

  lemma {:induction false} ClosedStaysUnused(cfg: Config, s: State, steps: seq<Step>)
    requires ValidRun(cfg, s, steps) && !s.sink.receiverAlive && s.sink.sent == []
    ensures After(cfg, s, steps).sink.sent == []
    decreases |steps|
  {
    if steps != [] {
      ClosedStaysUnused(cfg, Next(cfg, s, steps[0]), steps[1..]);
    }
  }

  /** With the receiver dropped before the first call, no stream call ever returns true, every live
      count stays 0 and every finalize that succeeds reports 0. */
  lemma ClosedSinkAcceptsNothing(cfg: Config, capacity: nat, steps: seq<Step>)
    requires ValidRun(cfg, Initial(Closed(Fresh(capacity))), steps)
    ensures var s := After(cfg, Initial(Closed(Fresh(capacity))), steps);
            (forall i :: 0 <= i < |s.streams| ==> s.streams[i].pc != Returned(Ok(true)))
            && (forall sid :: sid in s.sessions ==> s.sessions[sid].receivedCount == 0)
            && (forall k :: 0 <= k < |s.finals| && Success(s.finals[k]) ==> s.finals[k].pc.count.value == 0)
  {
    var sink := Closed(Fresh(capacity));
    var s := After(cfg, Initial(sink), steps);
    ReachableInv(cfg, sink, steps);
    ClosedStaysUnused(cfg, Initial(sink), steps);
    forall key ensures Tally(cfg, s.streams, key, {Acked}) == 0 {
      TallySplit(cfg, s.streams, key);
      assert PacketsOf(s.sink.sent, key) == Tally(cfg, s.streams, key, QUEUED);
    }
    forall i | 0 <= i < |s.streams| ensures s.streams[i].pc != Returned(Ok(true)) {
      if s.streams[i].pc == Returned(Ok(true)) {
        assert CallOk(cfg, s.streams[i]);
        var key := OfPacket(cfg.admit(s.streams[i].message).tagged);
        TallyPositive(cfg, s.streams, i, key, {Acked});
      }
    }
    forall sid ensures Credit(s, sid) == 0 {
      assert Tally(cfg, s.streams, OfSession(sid), {Acked}) == Credit(s, sid);
    }
    forall sid | sid in s.sessions ensures s.sessions[sid].receivedCount == 0 {
      assert Credit(s, sid) == 0;
    }
    forall k | 0 <= k < |s.finals| && Success(s.finals[k]) ensures s.finals[k].pc.count.value == 0 {
      assert Credit(s, s.finals[k].session) == 0;
    }
  }
}
