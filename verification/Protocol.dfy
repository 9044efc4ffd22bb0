// The session protocol as interleaved atomic steps: the handlers of src/rpc/stream.rs,
// src/rpc/handshake.rs and `finalize` (src/rpc/mod.rs:215-235), cut at their await points.
//
// Any number of calls are in flight. Every call is in one local state, and a step advances one call
// by one uninterrupted section, moves the receiver, or drops a call that is suspended. The model is
// generic in what the first section of a handler decides; module Server supplies the real decisions.

module Protocol {
  import opened Errors
  import opened Wire
  import opened Codec
  import opened Provenance
  import opened Registry
  import opened Sink
  import Adapter

  // ----- local states of the calls

  /** The decision of a stream call before its first await: fail on an unreadable request or on the tag,
      acknowledge with false, or go on to queue the tagged packet. */
  datatype Admission = Unreadable | Refused | Mismatch | Admitted(tagged: TaggedPrimitive)

  datatype StreamPc =
    | Received
    | Sending(tagged: TaggedPrimitive, session: Text) // suspended in `sink.send`
    | Counting(session: Text)                         // queued, waiting for the registry lock
    | Returned(outcome: Result<bool>)
    | Dropped(queued: bool)                           // the caller went away

  datatype StreamCall = StreamCall(caller: nat, message: Pointer<PacketMessage>, pc: StreamPc)

  datatype HandshakeStatus = Accepted | Rejected | NeedsAdapter

  datatype HandshakeReply =
    HandshakeReply(status: HandshakeStatus, session: Text, adapter: Adapter.AdapterVariant, reason: Text)

  /** The decision of `handshake::handle` before it takes the lock. */
  datatype Decision =
    | Fail(error: AptpError)
    | Reject(reason: Text)
    | Proceed(status: HandshakeStatus, adapter: Adapter.AdapterVariant, peer: Text)

  datatype HandshakePc =
    | Arrived
    | Opening(status: HandshakeStatus, adapter: Adapter.AdapterVariant, peer: Text)
    | Replied(reply: Result<HandshakeReply>)
    | HandshakeDropped

  datatype HandshakeCall = HandshakeCall(caller: nat, card: Pointer<CardMessage>, pc: HandshakePc)

  datatype FinalizePc = Waiting | Reported(count: Result<nat>) | FinalizeDropped

  datatype FinalizeCall = FinalizeCall(caller: nat, request: Pointer<Text>, session: Text, pc: FinalizePc)

  // ----- the global state

  /** `issued` and `drained` are history: every id handed out, and the count reported for every
      drained session. */
  datatype State = State(
    sessions: Sessions,
    sink: SinkState,
    streams: seq<StreamCall>,
    handshakes: seq<HandshakeCall>,
    finals: seq<FinalizeCall>,
    issued: set<Text>,
    drained: map<Text, nat>)

  datatype Config = Decisions(
    admit: Pointer<PacketMessage> -> Admission,
    decide: Pointer<CardMessage> -> Decision,
    utf8: Text -> bool)

  function Initial(sink: SinkState): State {
    State(map[], sink, [], [], [], {}, map[])
  }

  datatype Step =
    | StreamArrives(caller: nat, message: Pointer<PacketMessage>)
    | StreamValidates(i: nat)
    | StreamSends(i: nat)
    | StreamWaits(i: nat)
    | StreamFindsSinkClosed(i: nat)
    | StreamCounts(i: nat)
    | StreamIsDropped(i: nat)
    | HandshakeArrives(caller: nat, card: Pointer<CardMessage>)
    | HandshakeDecides(i: nat)
    | HandshakeOpens(i: nat, id: Text, now: u64)
    | HandshakeIsDropped(i: nat)
    | FinalizeArrives(caller: nat, request: Pointer<Text>)
    | FinalizeDrains(i: nat)
    | FinalizeIsDropped(i: nat)
    | ReceiverTakes
    | ReceiverIsDropped

  /** A UUID text is never empty and never drawn twice. */
  predicate Enabled(s: State, step: Step) {
    match step
    case StreamArrives(_, _) => true
    case StreamValidates(i) => i < |s.streams| && s.streams[i].pc.Received?
    case StreamSends(i) => i < |s.streams| && s.streams[i].pc.Sending? && MaySend(s.sink, i)
    case StreamWaits(i) =>
      i < |s.streams| && s.streams[i].pc.Sending? && s.sink.receiverAlive && !MaySend(s.sink, i)
      && i !in s.sink.waiting
    case StreamFindsSinkClosed(i) => i < |s.streams| && s.streams[i].pc.Sending? && !s.sink.receiverAlive
    case StreamCounts(i) => i < |s.streams| && s.streams[i].pc.Counting?
    case StreamIsDropped(i) => i < |s.streams| && !s.streams[i].pc.Returned? && !s.streams[i].pc.Dropped?
    case HandshakeArrives(_, _) => true
    case HandshakeDecides(i) => i < |s.handshakes| && s.handshakes[i].pc.Arrived?
    case HandshakeOpens(i, id, _) =>
      i < |s.handshakes| && s.handshakes[i].pc.Opening? && id !in s.issued && id != []
    case HandshakeIsDropped(i) =>
      i < |s.handshakes| && (s.handshakes[i].pc.Arrived? || s.handshakes[i].pc.Opening?)
    case FinalizeArrives(_, _) => true
    case FinalizeDrains(i) => i < |s.finals| && s.finals[i].pc.Waiting?
    case FinalizeIsDropped(i) => i < |s.finals| && s.finals[i].pc.Waiting?
    case ReceiverTakes => s.sink.receiverAlive && s.sink.buffer != []
    case ReceiverIsDropped => s.sink.receiverAlive
  }

  function SetStream(s: State, i: nat, pc: StreamPc): State
    requires i < |s.streams|
  {
    s.(streams := s.streams[i := s.streams[i].(pc := pc)])
  }

  function SetHandshake(s: State, i: nat, pc: HandshakePc): State
    requires i < |s.handshakes|
  {
    s.(handshakes := s.handshakes[i := s.handshakes[i].(pc := pc)])
  }

  function SetFinal(s: State, i: nat, pc: FinalizePc): State
    requires i < |s.finals|
  {
    s.(finals := s.finals[i := s.finals[i].(pc := pc)])
  }

  /** Where the first section of `stream::handle` leaves the call. */
  function Validated(a: Admission): StreamPc {
    match a
    case Unreadable => Returned(Err(Rpc))
    case Refused => Returned(Ok(false))
    case Mismatch => Returned(Err(ProvenanceMismatch))
    case Admitted(t) => Sending(t, t.payload.metadata.sessionId)
  }

  /** Where the first section of `handshake::handle` leaves the call: a rejection carries an empty
      session id. */
  function Decided(d: Decision): HandshakePc {
    match d
    case Fail(e) => Replied(Err(e))
    case Reject(reason) => Replied(Ok(HandshakeReply(Rejected, [], Adapter.Identity, reason)))
    case Proceed(status, adapter, peer) => Opening(status, adapter, peer)
  }

  /** Where the first section of `finalize` leaves the call: a session text that cannot be read ends it. */
  function Asked(cfg: Config, caller: nat, request: Pointer<Text>): FinalizeCall {
    match TextOf(cfg.utf8, request)
    case Ok(session) => FinalizeCall(caller, request, session, Waiting)
    case Err(e) => FinalizeCall(caller, request, [], Reported(Err(e)))
  }

  function Next(cfg: Config, s: State, step: Step): State
    requires Enabled(s, step)
  {
    match step
    case StreamArrives(caller, message) =>
      s.(streams := s.streams + [StreamCall(caller, message, Received)])
    case StreamValidates(i) =>
      SetStream(s, i, Validated(cfg.admit(s.streams[i].message)))
    case StreamSends(i) =>
      var pc := s.streams[i].pc;
      SetStream(s, i, Counting(pc.session)).(sink := Pushed(s.sink, i, pc.tagged))
    case StreamWaits(i) =>
      s.(sink := Waits(s.sink, i))
    case StreamFindsSinkClosed(i) =>
      SetStream(s, i, Returned(Err(Internal(SinkClosed))))
    case StreamCounts(i) =>
      (match Incremented(s.sessions, s.streams[i].pc.session)
       case Ok(sessions) => SetStream(s, i, Returned(Ok(true))).(sessions := sessions)
       case Err(e) => SetStream(s, i, Returned(Err(e))))
    case StreamIsDropped(i) =>
      SetStream(s, i, Dropped(s.streams[i].pc.Counting?)).(sink := GivenUp(s.sink, i))
    case HandshakeArrives(caller, card) =>
      s.(handshakes := s.handshakes + [HandshakeCall(caller, card, Arrived)])
    case HandshakeDecides(i) =>
      SetHandshake(s, i, Decided(cfg.decide(s.handshakes[i].card)))
    case HandshakeOpens(i, id, now) =>
      var pc := s.handshakes[i].pc;
      SetHandshake(s, i, Replied(Ok(HandshakeReply(pc.status, id, pc.adapter, []))))
        .(sessions := Opened(s.sessions, id, pc.peer, Some(pc.adapter), now), issued := s.issued + {id})
    case HandshakeIsDropped(i) =>
      SetHandshake(s, i, HandshakeDropped)
    case FinalizeArrives(caller, request) =>
      s.(finals := s.finals + [Asked(cfg, caller, request)])
    case FinalizeDrains(i) =>
      var session := s.finals[i].session;
      (match Drained(s.sessions, session)
       case Ok((sessions, count)) =>
         SetFinal(s, i, Reported(Ok(count))).(sessions := sessions, drained := s.drained[session := count])
       case Err(e) => SetFinal(s, i, Reported(Err(e))))
    case FinalizeIsDropped(i) =>
      SetFinal(s, i, FinalizeDropped)
    case ReceiverTakes =>
      s.(sink := Popped(s.sink))
    case ReceiverIsDropped =>
      s.(sink := Closed(s.sink))
  }

  // ----- runs

  predicate ValidRun(cfg: Config, s: State, steps: seq<Step>)
    decreases |steps|
  {
    steps == [] || (Enabled(s, steps[0]) && ValidRun(cfg, Next(cfg, s, steps[0]), steps[1..]))
  }

  function After(cfg: Config, s: State, steps: seq<Step>): State
    requires ValidRun(cfg, s, steps)
    decreases |steps|
  {
    if steps == [] then s else After(cfg, Next(cfg, s, steps[0]), steps[1..])
  }

  lemma Then(cfg: Config, s: State, step: Step, rest: seq<Step>)
    requires Enabled(s, step) && ValidRun(cfg, Next(cfg, s, step), rest)
    ensures ValidRun(cfg, s, [step] + rest)
    ensures After(cfg, s, [step] + rest) == After(cfg, Next(cfg, s, step), rest)
  {
    assert ([step] + rest)[1..] == rest;
  }

  lemma Twice(cfg: Config, s: State, first: Step, second: Step, rest: seq<Step>)
    requires Enabled(s, first) && Enabled(Next(cfg, s, first), second)
    requires ValidRun(cfg, Next(cfg, Next(cfg, s, first), second), rest)
    ensures ValidRun(cfg, s, [first, second] + rest)
    ensures After(cfg, s, [first, second] + rest) == After(cfg, Next(cfg, Next(cfg, s, first), second), rest)
  {
    Then(cfg, Next(cfg, s, first), second, rest);
    Then(cfg, s, first, [second] + rest);
    assert [first, second] + rest == [first] + ([second] + rest);
  }

  lemma {:induction false} Joined(cfg: Config, s: State, first: seq<Step>, second: seq<Step>)
    requires ValidRun(cfg, s, first) && ValidRun(cfg, After(cfg, s, first), second)
    ensures ValidRun(cfg, s, first + second)
    ensures After(cfg, s, first + second) == After(cfg, After(cfg, s, first), second)
    decreases |first|
  {
    if first == [] {
      assert first + second == second;
    } else {
      assert (first + second)[1..] == first[1..] + second;
      Joined(cfg, Next(cfg, s, first[0]), first[1..], second);
    }
  }

  // ----- counting calls and packets of a session

  /** How far a stream call has come, as far as its packet is concerned. */
  datatype Phase =
    | Unqueued  // not queued, and may still be
    | InFlight  // queued, not yet counted
    | Acked     // queued, counted, returned true
    | Orphaned  // queued, then failed on an unknown session
    | Abandoned // queued, then dropped before it was counted
    | Ended     // over without queuing

  function PhaseOf(pc: StreamPc): Phase {
    match pc
    case Received => Unqueued
    case Sending(_, _) => Unqueued
    case Counting(_) => InFlight
    case Returned(Ok(true)) => Acked
    case Returned(Ok(false)) => Ended
    case Returned(Err(e)) => if e == Internal(UnknownSession) then Orphaned else Ended
    case Dropped(queued) => if queued then Abandoned else Ended
  }

  function SessionOf(t: TaggedPrimitive): Text {
    t.payload.metadata.sessionId
  }

  /** What calls and packets are counted by: their session, or the very packet. */
  datatype Key = OfSession(sid: Text) | OfPacket(packet: TaggedPrimitive)

  predicate Matches(t: TaggedPrimitive, key: Key) {
    match key
    case OfSession(sid) => SessionOf(t) == sid
    case OfPacket(packet) => t == packet
  }

  /** The call carries a packet that the server admits and that matches the key. */
  predicate Names(cfg: Config, message: Pointer<PacketMessage>, key: Key) {
    var a := cfg.admit(message);
    a.Admitted? && Matches(a.tagged, key)
  }

  function Hit(cfg: Config, call: StreamCall, key: Key, phases: set<Phase>): nat {
    if PhaseOf(call.pc) in phases && Names(cfg, call.message, key) then 1 else 0
  }

  /** The number of calls that match the key and are in one of the phases. */
  function Tally(cfg: Config, streams: seq<StreamCall>, key: Key, phases: set<Phase>): nat {
    if streams == [] then
      0
    else
      var n := |streams| - 1;
      Tally(cfg, streams[..n], key, phases) + Hit(cfg, streams[n], key, phases)
  }

  /** The phases of a call whose packet has been queued. */
  const QUEUED: set<Phase> := {InFlight, Acked, Orphaned, Abandoned}

  /** Those of them that the registry has not counted. */
  const UNCOUNTED: set<Phase> := {InFlight, Orphaned, Abandoned}

  /** The number of packets in a list that match the key. */
  function PacketsOf(packets: seq<TaggedPrimitive>, key: Key): nat {
    if packets == [] then
      0
    else
      var n := |packets| - 1;
      PacketsOf(packets[..n], key) + (if Matches(packets[n], key) then 1 else 0)
  }

  /** What the registry has credited to a session: the live count, or the count it was drained with. */
  function Credit(s: State, sid: Text): nat {
    if sid in s.sessions then s.sessions[sid].receivedCount
    else if sid in s.drained then s.drained[sid]
    else 0
  }

  lemma {:induction false} TallyUpdate(
    cfg: Config, streams: seq<StreamCall>, i: nat, pc: StreamPc, key: Key, phases: set<Phase>)
    requires i < |streams|
    ensures Tally(cfg, streams[i := streams[i].(pc := pc)], key, phases) + Hit(cfg, streams[i], key, phases)
         == Tally(cfg, streams, key, phases) + Hit(cfg, streams[i].(pc := pc), key, phases)
    decreases |streams|
  {
    var n := |streams| - 1;
    var updated := streams[i := streams[i].(pc := pc)];
    if i == n {
      assert updated[..n] == streams[..n];
    } else {
      assert updated[..n] == streams[..n][i := streams[i].(pc := pc)] && updated[n] == streams[n];
      TallyUpdate(cfg, streams[..n], i, pc, key, phases);
    }
  }

  lemma TallyAppend(cfg: Config, streams: seq<StreamCall>, call: StreamCall, key: Key, phases: set<Phase>)
    ensures Tally(cfg, streams + [call], key, phases) == Tally(cfg, streams, key, phases) + Hit(cfg, call, key, phases)
  {
    assert (streams + [call])[..|streams|] == streams;
  }

  lemma {:induction false} TallySplit(cfg: Config, streams: seq<StreamCall>, key: Key)
    ensures Tally(cfg, streams, key, QUEUED)
         == Tally(cfg, streams, key, {Acked}) + Tally(cfg, streams, key, UNCOUNTED)
    ensures Tally(cfg, streams, key, UNCOUNTED)
         == Tally(cfg, streams, key, {InFlight}) + Tally(cfg, streams, key, {Orphaned})
            + Tally(cfg, streams, key, {Abandoned})
  {
    if streams != [] {
      TallySplit(cfg, streams[..|streams| - 1], key);
    }
  }

  lemma {:induction false} TallyZeroExactly(cfg: Config, streams: seq<StreamCall>, key: Key, phases: set<Phase>)
    ensures Tally(cfg, streams, key, phases) == 0
       <==> forall i :: 0 <= i < |streams| ==> Hit(cfg, streams[i], key, phases) == 0
  {
    if streams != [] {
      var n := |streams| - 1;
      TallyZeroExactly(cfg, streams[..n], key, phases);
      assert forall i :: 0 <= i < n ==> streams[..n][i] == streams[i];
    }
  }

  lemma PacketsAppend(packets: seq<TaggedPrimitive>, t: TaggedPrimitive, key: Key)
    ensures PacketsOf(packets + [t], key) == PacketsOf(packets, key) + (if Matches(t, key) then 1 else 0)
  {
    assert (packets + [t])[..|packets|] == packets;
  }
}
