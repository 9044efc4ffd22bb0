// One client at work on a shared server (src/transport/client.rs:68-173 against module Protocol).
//
// The client calls one method at a time and labels its packets with its own session. Between any two
// of its moves every other caller, the receiver and the scheduler may take any number of steps.

module ClientRun {
  import opened Errors
  import opened Primitives
  import opened Provenance
  import opened Codec
  import opened Replies
  import opened Sink
  import opened Protocol
  import opened Invariants
  import Runs
  import Server
  import Wire

  /** What the client is waiting for, as the index of its call. */
  datatype Pending =
    | Idle
    | Greeting(i: nat)
    | Streaming(i: nat, packet: PrimitivePacket)
    | Finalizing(i: nat)
    | Finished(i: nat, result: Result<nat>)

  /** `session` is the client's field; `owned` remembers the assigned session after `finalize` took it;
      `acked` lists the packets for which `send_primitive` returned true, in the order of the calls. */
  datatype World = World(
    server: State,
    session: Option<Text>,
    owned: Option<Text>,
    pending: Pending,
    acked: seq<PrimitivePacket>)

  function Start(sink: SinkState): World {
    World(Initial(sink), None, None, Idle, [])
  }

  datatype Move =
    | Elsewhere(step: Step)
    | Greet(card: AgentCard)
    | Greeted
    | Send(packet: PrimitivePacket)
    | Acknowledged
    | Finish
    | Completed

  predicate Arrival(step: Step) {
    step.StreamArrives? || step.HandshakeArrives? || step.FinalizeArrives?
  }

  predicate CanMove(me: nat, w: World, move: Move) {
    match move
    case Elsewhere(step) => Enabled(w.server, step) && (Arrival(step) ==> step.caller != me)
    case Greet(card) => w.pending.Idle? && w.owned.None?
    case Greeted =>
      w.pending.Greeting? && w.pending.i < |w.server.handshakes| && w.server.handshakes[w.pending.i].pc.Replied?
    case Send(packet) =>
      w.pending.Idle? && w.session.Some? && ListsFit(packet) && packet.metadata.sessionId == w.session.value
    case Acknowledged =>
      w.pending.Streaming? && w.pending.i < |w.server.streams| && w.server.streams[w.pending.i].pc.Returned?
    case Finish => w.pending.Idle? && w.session.Some?
    case Completed =>
      w.pending.Finalizing? && w.pending.i < |w.server.finals| && w.server.finals[w.pending.i].pc.Reported?
  }

  /** The client's session after the outcome of its handshake. */
  function Learned(cfg: Config, session: Option<Text>, reply: Result<HandshakeReply>): Option<Text> {
    if reply.Err? then
      session
    else
      match Answer(cfg.utf8, Wire.To(ReplyMessageOf(reply.value)))
      case Ok(id) => Some(id)
      case Err(_) => session
  }

  function Applied(cfg: Config, me: nat, w: World, move: Move): World
    requires CanMove(me, w, move)
  {
    match move
    case Elsewhere(step) =>
      w.(server := Next(cfg, w.server, step))
    case Greet(card) =>
      w.(server := Next(cfg, w.server, HandshakeArrives(me, Wire.To(CardMessageOf(card)))),
         pending := Greeting(|w.server.handshakes|))
    case Greeted =>
      var session := Learned(cfg, w.session, w.server.handshakes[w.pending.i].pc.reply);
      w.(session := session, owned := session, pending := Idle)
    case Send(packet) =>
      w.(server := Next(cfg, w.server, StreamArrives(me, Wire.To(MessageOf(packet)))),
         pending := Streaming(|w.server.streams|, packet))
    case Acknowledged =>
      var outcome := w.server.streams[w.pending.i].pc.outcome;
      w.(pending := Idle, acked := if outcome == Ok(true) then w.acked + [w.pending.packet] else w.acked)
    case Finish =>
      w.(server := Next(cfg, w.server, FinalizeArrives(me, Wire.To(w.session.value))),
         session := None, pending := Finalizing(|w.server.finals|))
    case Completed =>
      w.(pending := Finished(w.pending.i, w.server.finals[w.pending.i].pc.count))
  }

  predicate ValidMoves(cfg: Config, me: nat, w: World, moves: seq<Move>)
    decreases |moves|
  {
    moves == [] || (CanMove(me, w, moves[0]) && ValidMoves(cfg, me, Applied(cfg, me, w, moves[0]), moves[1..]))
  }

  function AfterMoves(cfg: Config, me: nat, w: World, moves: seq<Move>): World
    requires ValidMoves(cfg, me, w, moves)
    decreases |moves|
  {
    if moves == [] then w else AfterMoves(cfg, me, Applied(cfg, me, w, moves[0]), moves[1..])
  }

  /** The session a finalize request names, if it can be read. */
  function Requested(cfg: Config, request: Wire.Pointer<Text>): Text {
    match TextOf(cfg.utf8, request)
    case Ok(session) => session
    case Err(_) => []
  }

  /** No other caller streams to session `sid` or finalizes it. */
  ghost predicate Private(cfg: Config, sid: Text, move: Move) {
    match move
    case Elsewhere(StreamArrives(_, m)) => !Names(cfg, m, OfSession(sid))
    case Elsewhere(FinalizeArrives(_, request)) => Requested(cfg, request) != sid
    case _ => true
  }

  /** Messages built from a packet are admitted, if at all, as that packet. */
  ghost predicate Faithful(cfg: Config) {
    forall p :: cfg.admit(Wire.To(MessageOf(p))).Admitted? ==> cfg.admit(Wire.To(MessageOf(p))).tagged.payload == p
  }

  /** The packets of session `sid` in a list, in its order. */
  function PayloadsFor(packets: seq<TaggedPrimitive>, sid: Text): seq<PrimitivePacket> {
    if packets == [] then
      []
    else
      var n := |packets| - 1;
      PayloadsFor(packets[..n], sid) + if SessionOf(packets[n]) == sid then [packets[n].payload] else []
  }

  lemma PayloadsAppend(packets: seq<TaggedPrimitive>, t: TaggedPrimitive, sid: Text)
    ensures PayloadsFor(packets + [t], sid)
         == PayloadsFor(packets, sid) + if SessionOf(t) == sid then [t.payload] else []
  {
    assert (packets + [t])[..|packets|] == packets;
  }

  lemma {:induction false} PayloadsCount(packets: seq<TaggedPrimitive>, sid: Text)
    ensures |PayloadsFor(packets, sid)| == PacketsOf(packets, OfSession(sid))
  {
    if packets != [] {
      PayloadsCount(packets[..|packets| - 1], sid);
    }
  }

  // ----- the invariant, for one session

  ghost predicate Untouched(cfg: Config, w: World, sid: Text) {
    (forall i :: 0 <= i < |w.server.streams| ==> !Names(cfg, w.server.streams[i].message, OfSession(sid)))
    && forall k :: 0 <= k < |w.server.finals| ==> w.server.finals[k].session != sid
  }

  /** A call on the session is over, counted if it was queued, or it is the one the client waits for. */
  ghost predicate Settled(cfg: Config, w: World, sid: Text, i: nat)
    requires i < |w.server.streams|
  {
    Names(cfg, w.server.streams[i].message, OfSession(sid)) ==>
      var phase := PhaseOf(w.server.streams[i].pc);
      phase == Acked || phase == Ended || (w.pending.Streaming? && w.pending.i == i && phase != Orphaned)
  }

  ghost predicate StreamsMine(cfg: Config, w: World, sid: Text) {
    forall i :: 0 <= i < |w.server.streams| ==> Settled(cfg, w, sid, i)
  }

  /** The packet of the awaited call, once it is in the sink. */
  function Unread(w: World): seq<PrimitivePacket> {
    if w.pending.Streaming? && w.pending.i < |w.server.streams|
       && PhaseOf(w.server.streams[w.pending.i].pc) in QUEUED
    then [w.pending.packet] else []
  }

  /** The packets of the session in the sink are those acknowledged, in order, and the unread one. */
  ghost predicate PacketsMine(w: World, sid: Text) {
    PayloadsFor(w.server.sink.sent, sid) == w.acked + Unread(w)
  }

  ghost predicate FinalsMine(w: World, sid: Text) {
    forall k :: 0 <= k < |w.server.finals| && w.server.finals[k].session == sid ==>
      (w.pending.Finalizing? || w.pending.Finished?) && w.pending.i == k
      && (w.server.finals[k].pc.Reported? ==> w.server.finals[k].pc.count.Ok?)
  }

  ghost predicate PendingOk(cfg: Config, w: World) {
    (w.session.Some? ==> w.owned == w.session)
    && (w.owned.Some? ==> cfg.utf8(w.owned.value))
    && match w.pending
       case Idle => w.session == w.owned
       case Greeting(i) => w.session == None && w.owned == None && i < |w.server.handshakes|
       case Streaming(i, p) =>
         w.owned.Some? && w.session == w.owned && i < |w.server.streams|
         && w.server.streams[i].message == Wire.To(MessageOf(p)) && p.metadata.sessionId == w.owned.value
       case Finalizing(k) => w.owned.Some? && k < |w.server.finals| && w.server.finals[k].session == w.owned.value
       case Finished(k, r) =>
         w.owned.Some? && k < |w.server.finals| && w.server.finals[k].session == w.owned.value
         && w.server.finals[k].pc == Reported(r)
  }

  ghost predicate OwnedOk(cfg: Config, w: World, sid: Text) {
    if w.owned == Some(sid) then
      sid in w.server.issued && StreamsMine(cfg, w, sid) && PacketsMine(w, sid) && FinalsMine(w, sid)
    else
      Untouched(cfg, w, sid) && (w.owned.None? ==> w.acked == [])
  }

  ghost predicate WorldInv(cfg: Config, w: World, sid: Text) {
    Inv(cfg, w.server) && PendingOk(cfg, w) && OwnedOk(cfg, w, sid)
  }

  // ----- moves of the others

  /** A session that was issued and that no finalize of the client has drained is in the table. */
  lemma StillLive(w: World, sid: Text)
    requires TableOk(w.server) && ReportsOk(w.server) && sid in w.server.issued && FinalsMine(w, sid)
    requires forall k :: 0 <= k < |w.server.finals| && w.server.finals[k].session == sid ==>
               !w.server.finals[k].pc.Reported?
    ensures sid in w.server.sessions
  {
    assert forall k: nat :: !ReportFor(w.server.finals, k, sid);
  }

  lemma SettledAfterMove(cfg: Config, w: World, step: Step, sid: Text, i: nat)
    requires Enabled(w.server, step) && Moved(w.server, step) == Some(i)
    requires CallsOk(cfg, w.server) && Settled(cfg, w, sid, i)
    requires w.pending.Streaming? ==> sid in w.server.sessions
    ensures i < |Next(cfg, w.server, step).streams|
    ensures Settled(cfg, w.(server := Next(cfg, w.server, step)), sid, i)
  {
    StreamsAfter(cfg, w.server, step);
    PhaseMoves(cfg, w.server, step);
    assert CallOk(cfg, w.server.streams[i]);
  }

  lemma StreamsMineElsewhere(cfg: Config, w: World, step: Step, sid: Text)
    requires Enabled(w.server, step) && CallsOk(cfg, w.server) && StreamsMine(cfg, w, sid)
    requires w.pending.Streaming? ==> sid in w.server.sessions
    requires Private(cfg, sid, Elsewhere(step))
    ensures StreamsMine(cfg, w.(server := Next(cfg, w.server, step)), sid)
  {
    StreamsAfter(cfg, w.server, step);
    var w' := w.(server := Next(cfg, w.server, step));
    forall i | 0 <= i < |w'.server.streams| ensures Settled(cfg, w', sid, i) {
      if Moved(w.server, step) == Some(i) {
        SettledAfterMove(cfg, w, step, sid, i);
      } else if i < |w.server.streams| {
        assert Settled(cfg, w, sid, i);
      }
    }
  }

  lemma UnreadUnchanged(cfg: Config, w: World, step: Step)
    requires Enabled(w.server, step) && !step.StreamSends? && PendingOk(cfg, w)
    ensures Unread(w.(server := Next(cfg, w.server, step))) == Unread(w)
    ensures Next(cfg, w.server, step).sink.sent == w.server.sink.sent
  {
    StreamsAfter(cfg, w.server, step);
    if Moved(w.server, step).Some? {
      PhaseMoves(cfg, w.server, step);
    }
  }

  /** The packet that call `i` is about to send belongs to the session exactly if it is the awaited one. */
  lemma SendsAwaited(cfg: Config, w: World, i: nat, sid: Text)
    requires i < |w.server.streams| && w.server.streams[i].pc.Sending? && PendingOk(cfg, w) && Faithful(cfg)
    requires CallOk(cfg, w.server.streams[i]) && w.owned == Some(sid) && Settled(cfg, w, sid, i)
    ensures var t := w.server.streams[i].pc.tagged;
            (SessionOf(t) == sid <==> w.pending.Streaming? && w.pending.i == i)
            && (SessionOf(t) == sid ==> t.payload == w.pending.packet)
  {
  }

  lemma UnreadAfterSend(cfg: Config, w: World, i: nat)
    requires Enabled(w.server, StreamSends(i))
    ensures var after := Unread(w.(server := Next(cfg, w.server, StreamSends(i))));
            if w.pending.Streaming? && w.pending.i == i then Unread(w) == [] && after == [w.pending.packet]
            else after == Unread(w)
  {
  }

  lemma PacketsMineBySending(cfg: Config, w: World, i: nat, sid: Text)
    requires Enabled(w.server, StreamSends(i)) && CallsOk(cfg, w.server) && PendingOk(cfg, w)
    requires w.owned == Some(sid) && StreamsMine(cfg, w, sid) && PacketsMine(w, sid) && Faithful(cfg)
    ensures PacketsMine(w.(server := Next(cfg, w.server, StreamSends(i))), sid)
  {
    assert CallOk(cfg, w.server.streams[i]) && Settled(cfg, w, sid, i);
    SendsAwaited(cfg, w, i, sid);
    SendAppends(cfg, w.server, i);
    UnreadAfterSend(cfg, w, i);
    PayloadsAppend(w.server.sink.sent, w.server.streams[i].pc.tagged, sid);
  }

  lemma PacketsMineElsewhere(cfg: Config, w: World, step: Step, sid: Text)
    requires Enabled(w.server, step) && CallsOk(cfg, w.server) && PendingOk(cfg, w)
    requires w.owned == Some(sid) && StreamsMine(cfg, w, sid) && PacketsMine(w, sid) && Faithful(cfg)
    ensures PacketsMine(w.(server := Next(cfg, w.server, step)), sid)
  {
    if step.StreamSends? {
      PacketsMineBySending(cfg, w, step.i, sid);
    } else {
      UnreadUnchanged(cfg, w, step);
    }
  }

  lemma FinalsMineAfterDrain(cfg: Config, w: World, i: nat, sid: Text)
    requires TableOk(w.server) && ReportsOk(w.server) && sid in w.server.issued && FinalsMine(w, sid)
    requires Enabled(w.server, FinalizeDrains(i))
    ensures FinalsMine(w.(server := Next(cfg, w.server, FinalizeDrains(i))), sid)
  {
    if w.server.finals[i].session == sid {
      StillLive(w, sid);
    }
  }

  lemma FinalsMineElsewhere(cfg: Config, w: World, step: Step, sid: Text)
    requires FinalsMine(w, sid) && Enabled(w.server, step) && !step.FinalizeDrains?
    requires Private(cfg, sid, Elsewhere(step))
    ensures FinalsMine(w.(server := Next(cfg, w.server, step)), sid)
  {
  }

  /** Calls stay where they are, with what they asked for and, once reported, what they were told. */
  ghost predicate Persists(s: State, s': State) {
    |s.streams| <= |s'.streams| && |s.handshakes| <= |s'.handshakes| && |s.finals| <= |s'.finals|
    && (forall i :: 0 <= i < |s.streams| ==> s'.streams[i].message == s.streams[i].message)
    && (forall k :: 0 <= k < |s.finals| ==>
          s'.finals[k].session == s.finals[k].session
          && (s.finals[k].pc.Reported? ==> s'.finals[k].pc == s.finals[k].pc))
  }

  lemma StepPersists(cfg: Config, s: State, step: Step)
    requires Enabled(s, step)
    ensures Persists(s, Next(cfg, s, step))
  {
    StreamsAfter(cfg, s, step);
  }

  lemma PendingKept(cfg: Config, w: World, s': State)
    requires PendingOk(cfg, w) && Persists(w.server, s')
    ensures PendingOk(cfg, w.(server := s'))
  {
  }

  lemma PendingElsewhere(cfg: Config, w: World, step: Step)
    requires PendingOk(cfg, w) && Enabled(w.server, step)
    ensures PendingOk(cfg, w.(server := Next(cfg, w.server, step)))
  {
    StepPersists(cfg, w.server, step);
    PendingKept(cfg, w, Next(cfg, w.server, step));
  }

  lemma UntouchedElsewhere(cfg: Config, w: World, step: Step, sid: Text)
    requires Untouched(cfg, w, sid) && Enabled(w.server, step) && Private(cfg, sid, Elsewhere(step))
    ensures Untouched(cfg, w.(server := Next(cfg, w.server, step)), sid)
  {
    StreamsAfter(cfg, w.server, step);
  }

  lemma OwnedElsewhere(cfg: Config, w: World, step: Step, sid: Text)
    requires Inv(cfg, w.server) && PendingOk(cfg, w) && OwnedOk(cfg, w, sid) && w.owned == Some(sid)
    requires Enabled(w.server, step) && Private(cfg, sid, Elsewhere(step)) && Faithful(cfg)
    ensures OwnedOk(cfg, w.(server := Next(cfg, w.server, step)), sid)
  {
    if w.pending.Streaming? {
      StillLive(w, sid);
    }
    StreamsMineElsewhere(cfg, w, step, sid);
    PacketsMineElsewhere(cfg, w, step, sid);
    if step.FinalizeDrains? {
      FinalsMineAfterDrain(cfg, w, step.i, sid);
    } else {
      FinalsMineElsewhere(cfg, w, step, sid);
    }
  }

  lemma ElsewhereKeeps(cfg: Config, me: nat, w: World, step: Step, sid: Text)
    requires WorldInv(cfg, w, sid) && CanMove(me, w, Elsewhere(step)) && Private(cfg, sid, Elsewhere(step))
    requires Faithful(cfg)
    ensures WorldInv(cfg, Applied(cfg, me, w, Elsewhere(step)), sid)
  {
    InvKept(cfg, w.server, step);
    PendingElsewhere(cfg, w, step);
    if w.owned == Some(sid) {
      OwnedElsewhere(cfg, w, step, sid);
    } else {
      UntouchedElsewhere(cfg, w, step, sid);
    }
  }

  // ----- moves of the client

  lemma GreetKeeps(cfg: Config, me: nat, w: World, card: AgentCard, sid: Text)
    requires WorldInv(cfg, w, sid) && CanMove(me, w, Greet(card))
    ensures WorldInv(cfg, Applied(cfg, me, w, Greet(card)), sid)
  {
    InvKept(cfg, w.server, HandshakeArrives(me, Wire.To(CardMessageOf(card))));
  }

  /** On a session that no call names there is no packet. */
  lemma UntouchedHasNoPackets(cfg: Config, w: World, sid: Text)
    requires Inv(cfg, w.server) && Untouched(cfg, w, sid)
    ensures PayloadsFor(w.server.sink.sent, sid) == []
  {
    PayloadsCount(w.server.sink.sent, sid);
    TallyZeroExactly(cfg, w.server.streams, OfSession(sid), QUEUED);
    assert PacketsOf(w.server.sink.sent, OfSession(sid)) == Tally(cfg, w.server.streams, OfSession(sid), QUEUED);
  }

  /** What a client learns from its handshake is a session issued to that handshake. */
  lemma LearnedIsIssued(cfg: Config, s: State, i: nat, id: Text)
    requires Inv(cfg, s) && i < |s.handshakes| && s.handshakes[i].pc.Replied?
    requires Learned(cfg, None, s.handshakes[i].pc.reply) == Some(id)
    ensures id in s.issued && cfg.utf8(id)
  {
    var h := s.handshakes[i];
    AnswerExactly(cfg.utf8, h.pc.reply.value);
    assert DecisionOk(cfg, h);
    assert Assigned(h);
  }

  lemma LearnsSession(cfg: Config, w: World, session: Option<Text>, sid: Text)
    requires PendingOk(cfg, w) && OwnedOk(cfg, w, sid) && w.pending.Greeting?
    requires session.Some? ==> session.value in w.server.issued && cfg.utf8(session.value)
    requires PayloadsFor(w.server.sink.sent, sid) == [] || !Untouched(cfg, w, sid)
    ensures var w' := w.(session := session, owned := session, pending := Idle);
            PendingOk(cfg, w') && OwnedOk(cfg, w', sid)
  {
  }

  lemma GreetedKeeps(cfg: Config, me: nat, w: World, sid: Text)
    requires WorldInv(cfg, w, sid) && CanMove(me, w, Greeted)
    ensures WorldInv(cfg, Applied(cfg, me, w, Greeted), sid)
  {
    var session := Learned(cfg, None, w.server.handshakes[w.pending.i].pc.reply);
    if session.Some? {
      LearnedIsIssued(cfg, w.server, w.pending.i, session.value);
    }
    UntouchedHasNoPackets(cfg, w, sid);
    LearnsSession(cfg, w, session, sid);
  }

  lemma SendKeepsOwned(cfg: Config, me: nat, w: World, packet: PrimitivePacket, sid: Text)
    requires PendingOk(cfg, w) && OwnedOk(cfg, w, sid) && CanMove(me, w, Send(packet)) && Faithful(cfg)
    ensures PendingOk(cfg, Applied(cfg, me, w, Send(packet))) && OwnedOk(cfg, Applied(cfg, me, w, Send(packet)), sid)
  {
    var w' := Applied(cfg, me, w, Send(packet));
    if w.owned == Some(sid) {
      forall i | 0 <= i < |w'.server.streams| ensures Settled(cfg, w', sid, i) {
        assert i < |w.server.streams| ==> Settled(cfg, w, sid, i);
      }
    }
  }

  lemma SendKeeps(cfg: Config, me: nat, w: World, packet: PrimitivePacket, sid: Text)
    requires WorldInv(cfg, w, sid) && CanMove(me, w, Send(packet)) && Faithful(cfg)
    ensures WorldInv(cfg, Applied(cfg, me, w, Send(packet)), sid)
  {
    InvKept(cfg, w.server, StreamArrives(me, Wire.To(MessageOf(packet))));
    SendKeepsOwned(cfg, me, w, packet, sid);
  }

  /** Once the awaited call has returned, it is settled like all others. */
  lemma ReturnedIsSettled(cfg: Config, w: World, acked: seq<PrimitivePacket>, sid: Text)
    requires CallsOk(cfg, w.server) && StreamsMine(cfg, w, sid)
    requires w.pending.Streaming? && w.pending.i < |w.server.streams| && w.server.streams[w.pending.i].pc.Returned?
    ensures StreamsMine(cfg, w.(pending := Idle, acked := acked), sid)
  {
    var w' := w.(pending := Idle, acked := acked);
    forall i | 0 <= i < |w.server.streams| ensures Settled(cfg, w', sid, i) {
      assert Settled(cfg, w, sid, i) && CallOk(cfg, w.server.streams[i]);
    }
  }

  lemma ReturnedIsRead(cfg: Config, w: World, sid: Text)
    requires CallsOk(cfg, w.server) && StreamsMine(cfg, w, sid) && PendingOk(cfg, w) && PacketsMine(w, sid)
    requires w.owned == Some(sid) && Faithful(cfg)
    requires w.pending.Streaming? && w.server.streams[w.pending.i].pc.Returned?
    ensures var outcome := w.server.streams[w.pending.i].pc.outcome;
            var acked := if outcome == Ok(true) then w.acked + [w.pending.packet] else w.acked;
            PacketsMine(w.(pending := Idle, acked := acked), sid)
  {
    assert Settled(cfg, w, sid, w.pending.i) && CallOk(cfg, w.server.streams[w.pending.i]);
  }

  lemma AcknowledgedKeeps(cfg: Config, me: nat, w: World, sid: Text)
    requires WorldInv(cfg, w, sid) && CanMove(me, w, Acknowledged) && Faithful(cfg)
    ensures WorldInv(cfg, Applied(cfg, me, w, Acknowledged), sid)
  {
    if w.owned == Some(sid) {
      ReturnedIsSettled(cfg, w, Applied(cfg, me, w, Acknowledged).acked, sid);
      ReturnedIsRead(cfg, w, sid);
    }
  }

  lemma FinishKeepsOwned(cfg: Config, me: nat, w: World, sid: Text)
    requires PendingOk(cfg, w) && OwnedOk(cfg, w, sid) && CanMove(me, w, Finish)
    ensures PendingOk(cfg, Applied(cfg, me, w, Finish)) && OwnedOk(cfg, Applied(cfg, me, w, Finish), sid)
  {
    var w' := Applied(cfg, me, w, Finish);
    if w.owned == Some(sid) {
      forall i | 0 <= i < |w'.server.streams| ensures Settled(cfg, w', sid, i) {
        assert Settled(cfg, w, sid, i);
      }
    }
  }

  lemma FinishKeeps(cfg: Config, me: nat, w: World, sid: Text)
    requires WorldInv(cfg, w, sid) && CanMove(me, w, Finish)
    ensures WorldInv(cfg, Applied(cfg, me, w, Finish), sid)
  {
    InvKept(cfg, w.server, FinalizeArrives(me, Wire.To(w.session.value)));
    FinishKeepsOwned(cfg, me, w, sid);
  }

  lemma CompletedKeeps(cfg: Config, me: nat, w: World, sid: Text)
    requires WorldInv(cfg, w, sid) && CanMove(me, w, Completed)
    ensures WorldInv(cfg, Applied(cfg, me, w, Completed), sid)
  {
    var w' := Applied(cfg, me, w, Completed);
    if w.owned == Some(sid) {
      forall i | 0 <= i < |w'.server.streams| ensures Settled(cfg, w', sid, i) {
        assert Settled(cfg, w, sid, i);
      }
    }
  }

  lemma MoveKeeps(cfg: Config, me: nat, w: World, move: Move, sid: Text)
    requires WorldInv(cfg, w, sid) && CanMove(me, w, move) && Private(cfg, sid, move) && Faithful(cfg)
    ensures WorldInv(cfg, Applied(cfg, me, w, move), sid)
  {
    match move
    case Elsewhere(step) => ElsewhereKeeps(cfg, me, w, step, sid);
    case Greet(card) => GreetKeeps(cfg, me, w, card, sid);
    case Greeted => GreetedKeeps(cfg, me, w, sid);
    case Send(packet) => SendKeeps(cfg, me, w, packet, sid);
    case Acknowledged => AcknowledgedKeeps(cfg, me, w, sid);
    case Finish => FinishKeeps(cfg, me, w, sid);
    case Completed => CompletedKeeps(cfg, me, w, sid);
  }

  lemma {:induction false} MovesKeep(cfg: Config, me: nat, w: World, moves: seq<Move>, sid: Text)
    requires WorldInv(cfg, w, sid) && ValidMoves(cfg, me, w, moves) && Faithful(cfg)
    requires forall m :: m in moves ==> Private(cfg, sid, m)
    ensures WorldInv(cfg, AfterMoves(cfg, me, w, moves), sid)
    decreases |moves|
  {
    if moves != [] {
      assert moves[0] in moves;
      MoveKeeps(cfg, me, w, moves[0], sid);
      MovesKeep(cfg, me, Applied(cfg, me, w, moves[0]), moves[1..], sid);
    }
  }

  lemma ServerIsFaithful(env: Server.Env)
    ensures Faithful(Server.ServerConfig(env))
  {
    var cfg := Server.ServerConfig(env);
    forall p | cfg.admit(Wire.To(MessageOf(p))).Admitted?
      ensures cfg.admit(Wire.To(MessageOf(p))).tagged.payload == p
    {
      Server.BuiltPacketKeepsItsSession(env, p);
    }
  }

  lemma WorldInvAfter(env: Server.Env, me: nat, sink: SinkState, moves: seq<Move>, sid: Text)
    requires Runs.Starting(sink) && ValidMoves(Server.ServerConfig(env), me, Start(sink), moves)
    requires forall m :: m in moves ==> Private(Server.ServerConfig(env), sid, m)
    ensures WorldInv(Server.ServerConfig(env), AfterMoves(Server.ServerConfig(env), me, Start(sink), moves), sid)
  {
    ServerIsFaithful(env);
    InitialInv(Server.ServerConfig(env), sink);
    MovesKeep(Server.ServerConfig(env), me, Start(sink), moves, sid);
  }

  /** Between two calls of such a client, the packets of its session that reached the sink are exactly
      those it got a true acknowledgement for, in the order it sent them. */
  lemma AcknowledgedAreTheSent(env: Server.Env, me: nat, sink: SinkState, moves: seq<Move>, sid: Text)
    requires Runs.Starting(sink) && ValidMoves(Server.ServerConfig(env), me, Start(sink), moves)
    requires forall m :: m in moves ==> Private(Server.ServerConfig(env), sid, m)
    ensures var w := AfterMoves(Server.ServerConfig(env), me, Start(sink), moves);
            w.owned == Some(sid) && !w.pending.Streaming? ==> PayloadsFor(w.server.sink.sent, sid) == w.acked
  {
    WorldInvAfter(env, me, sink, moves, sid);
  }

  /** With no call of the client under way, none of its packets is queued without being counted. */
  lemma AllCounted(cfg: Config, w: World, sid: Text)
    requires WorldInv(cfg, w, sid) && w.owned == Some(sid) && !w.pending.Streaming?
    ensures Tally(cfg, w.server.streams, OfSession(sid), UNCOUNTED) == 0
    ensures Credit(w.server, sid) == |w.acked| == PacketsOf(w.server.sink.sent, OfSession(sid))
  {
    var streams, key := w.server.streams, OfSession(sid);
    forall i | 0 <= i < |streams| ensures Hit(cfg, streams[i], key, UNCOUNTED) == 0 {
      assert Settled(cfg, w, sid, i);
    }
    TallyZeroExactly(cfg, streams, key, UNCOUNTED);
    TallySplit(cfg, streams, key);
    PayloadsCount(w.server.sink.sent, sid);
    assert PacketsOf(w.server.sink.sent, key) == Tally(cfg, streams, key, QUEUED);
    assert Tally(cfg, streams, key, {Acked}) == Credit(w.server, sid);
  }

  /** A client that labels its packets with its own session, on which no one else streams or
      finalizes, gets back from `finalize` exactly its number of true acknowledgements, and that is the
      number of its packets that reached the sink, however its calls are interleaved with everything
      else. */
  lemma ClientIsPaidBack(env: Server.Env, me: nat, sink: SinkState, moves: seq<Move>, sid: Text)
    requires Runs.Starting(sink) && ValidMoves(Server.ServerConfig(env), me, Start(sink), moves)
    requires forall m :: m in moves ==> Private(Server.ServerConfig(env), sid, m)
    ensures var w := AfterMoves(Server.ServerConfig(env), me, Start(sink), moves);
            w.owned == Some(sid) && w.pending.Finished? ==>
              w.pending.result == Ok(|w.acked|) && PacketsOf(w.server.sink.sent, OfSession(sid)) == |w.acked|
  {
    var w := AfterMoves(Server.ServerConfig(env), me, Start(sink), moves);
    WorldInvAfter(env, me, sink, moves, sid);
    if w.owned == Some(sid) && w.pending.Finished? {
      AllCounted(Server.ServerConfig(env), w, sid);
    }
  }
}
