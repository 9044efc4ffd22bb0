// The RPC server (src/rpc/mod.rs, src/rpc/stream.rs, src/rpc/handshake.rs): the decisions its handlers
// make, and an object whose uninterrupted sections are the steps of module Protocol.

module Server {
  import opened Errors
  import opened Primitives
  import opened Wire
  import opened Codec
  import opened Provenance
  import opened Registry
  import opened Sink
  import opened Protocol
  import opened Invariants
  import opened Replies
  import Adapter
  import opened Vectors
  import Gate
  import Probe
  import Runs

  /** The configuration of a server and what it takes from its surroundings: UTF-8 validity, the digest,
      the reals behind float bit patterns, and the square root. */
  datatype Env = Env(
    utf8: Text -> bool,
    digest: seq<byte> -> seq<byte>,
    value: F32 -> real,
    sqrt: real -> real,
    firewall: Gate.NeuralFirewall,
    localHidden: u32,
    passthrough: bool)

  /** The first section of `stream::handle`. */
  function Admit(env: Env, request: Pointer<PacketMessage>): Admission {
    match Get(request, EMPTY_MESSAGE)
    case Err(_) => Unreadable
    case Ok(m) => AdmitMessage(env, m)
  }

  function AdmitMessage(env: Env, m: PacketMessage): Admission {
    match PacketFromMessage(env.utf8, m)
    case Err(_) => Refused
    case Ok(packet) =>
      if Gate.Validate(env.sqrt, env.firewall, Decoded(env.value, packet.payload)).Err? then
        Refused
      else
        var tagged := Tag(env.digest, packet, 1.0);
        if !VerifyProvenance(env.digest, tagged) then Mismatch else Admitted(tagged)
  }

  /** The part of `handshake` before the lock. */
  function Decide(env: Env, request: Pointer<CardMessage>): Decision {
    match Get(request, EMPTY_CARD)
    case Err(e) => Fail(e)
    case Ok(m) => DecideCard(env, m)
  }

  const EMPTY_CARD := CardMessage(Null, 0, Null, Null, Null)

  function DecideCard(env: Env, m: CardMessage): Decision {
    match CardOf(env.utf8, m)
    case Err(e) => Fail(e)
    case Ok(card) =>
      if card.aptpVersion != APTP_VERSION then
        Reject(MismatchText(card.aptpVersion, APTP_VERSION))
      else if env.localHidden == card.hiddenSize then
        Proceed(Accepted, Adapter.Identity, card.agentId)
      else if !env.passthrough then
        Proceed(NeedsAdapter, Adapter.LinearProjection, card.agentId)
      else
        Proceed(Accepted, Adapter.Identity, card.agentId)
  }

  function ServerConfig(env: Env): Config {
    Decisions(m => Admit(env, m), c => Decide(env, c), env.utf8)
  }

  class AptpRpcServer {
    const env: Env
    const registry: SessionRegistry
    const sink: PacketSink
    var streams: seq<StreamCall>
    var handshakes: seq<HandshakeCall>
    var finals: seq<FinalizeCall>
    ghost var drained: map<Text, nat>

    ghost function View(): State
      reads this, registry, sink
    {
      State(registry.sessions, sink.View(), streams, handshakes, finals, registry.issued, drained)
    }

    ghost predicate Valid()
      reads this, registry, sink
    {
      registry.Valid() && sink.Valid()
    }

    /** `AptpRpcServer::new`: the firewall is built first, and may fail; the receiver is a local of the
        function and is dropped on return. A channel of no capacity panics. */
    static method New(
      surroundings: Env, l2NormMax: real, cosineSimMin: real, probeFile: Option<Option<seq<Probe.ProbeLine>>>,
      sinkBuffer: nat)
      returns (r: Result<AptpRpcServer>)
      ensures var firewall := Gate.New(surroundings.sqrt, l2NormMax, cosineSimMin, probeFile);
              match r
              case Ok(server) =>
                firewall.Ok? && 0 < sinkBuffer
                && fresh(server) && fresh(server.registry) && fresh(server.sink)
                && server.env == surroundings.(firewall := firewall.value)
                && server.Valid() && server.View() == Initial(Closed(Fresh(sinkBuffer)))
              case Err(e) => if firewall.Err? then e == firewall.error else sinkBuffer == 0 && e == Panicked
    {
      var firewall :- Gate.New(surroundings.sqrt, l2NormMax, cosineSimMin, probeFile);
      if sinkBuffer == 0 {
        return Err(Panicked);
      }
      var server := new AptpRpcServer.FromFields(surroundings.(firewall := firewall), sinkBuffer);
      server.sink.DropReceiver();
      return Ok(server);
    }

    /** A server assembled from its public fields by an owner who keeps the receiver. */
    constructor FromFields(env: Env, sinkBuffer: nat)
      requires 0 < sinkBuffer
      ensures Valid() && View() == Initial(Fresh(sinkBuffer)) && this.env == env
      ensures fresh(registry) && fresh(sink)
    {
      this.env := env;
      registry := new SessionRegistry();
      sink := new PacketSink(sinkBuffer);
      streams, handshakes, finals, drained := [], [], [], map[];
    }

    method AcceptStream(caller: nat, request: Pointer<PacketMessage>) returns (i: nat)
      requires Valid()
      modifies this`streams
      ensures Valid() && View() == Next(ServerConfig(env), old(View()), StreamArrives(caller, request))
      ensures i == |old(streams)|
    {
      i := |streams|;
      streams := streams + [StreamCall(caller, request, Received)];
    }

    method AcceptHandshake(caller: nat, card: Pointer<CardMessage>) returns (i: nat)
      requires Valid()
      modifies this`handshakes
      ensures Valid() && View() == Next(ServerConfig(env), old(View()), HandshakeArrives(caller, card))
      ensures i == |old(handshakes)|
    {
      i := |handshakes|;
      handshakes := handshakes + [HandshakeCall(caller, card, Arrived)];
    }

    /** The arrival of a `finalize` and its section up to the await on the registry lock. */
    method AcceptFinalize(caller: nat, request: Pointer<Text>) returns (i: nat)
      requires Valid()
      modifies this`finals
      ensures Valid() && View() == Next(ServerConfig(env), old(View()), FinalizeArrives(caller, request))
      ensures i == |old(finals)|
    {
      i := |finals|;
      var session := TextOf(env.utf8, request);
      if session.Err? {
        finals := finals + [FinalizeCall(caller, request, [], Reported(Err(session.error)))];
      } else {
        finals := finals + [FinalizeCall(caller, request, session.value, Waiting)];
      }
    }

    /** From the start of `stream::handle` to the await in `sink.send`. */
    method HandleUntilSend(i: nat)
      requires Valid() && Enabled(View(), StreamValidates(i))
      modifies this`streams
      ensures Valid() && View() == Next(ServerConfig(env), old(View()), StreamValidates(i))
    {
      var call := streams[i];
      var read := Get(call.message, EMPTY_MESSAGE);
      if read.Err? {
        streams := streams[i := call.(pc := Returned(Err(read.error)))];
        return;
      }
      var pc := Returned(Ok(false));
      var decoded := PacketFromMessage(env.utf8, read.value);
      if decoded.Ok? {
        var packet := decoded.value;
        var session := packet.metadata.sessionId;
        var checked := Gate.Validate(env.sqrt, env.firewall, Decoded(env.value, packet.payload));
        if checked.Ok? {
          var hash := ComputeProvenanceHash(env.digest, packet);
          var tagged := TaggedPrimitive(hash, 1.0, packet);
          if !VerifyProvenance(env.digest, tagged) {
            pc := Returned(Err(ProvenanceMismatch));
          } else {
            pc := Sending(tagged, session);
          }
        }
      }
      streams := streams[i := call.(pc := pc)];
    }

    /** One poll of the await in `sink.send`. */
    method PollSend(i: nat) returns (done: bool)
      requires Valid() && i < |streams| && streams[i].pc.Sending?
      modifies this`streams, sink
      ensures Valid()
      ensures done <==> Enabled(old(View()), StreamSends(i)) || Enabled(old(View()), StreamFindsSinkClosed(i))
      ensures Enabled(old(View()), StreamSends(i)) ==> View() == Next(ServerConfig(env), old(View()), StreamSends(i))
      ensures Enabled(old(View()), StreamFindsSinkClosed(i)) ==>
        View() == Next(ServerConfig(env), old(View()), StreamFindsSinkClosed(i))
      ensures Enabled(old(View()), StreamWaits(i)) ==> View() == Next(ServerConfig(env), old(View()), StreamWaits(i))
      ensures !done && !Enabled(old(View()), StreamWaits(i)) ==> View() == old(View())
    {
      var call := streams[i];
      var poll := sink.PollSend(i, call.pc.tagged);
      match poll {
        case Pending =>
          done := false;
        case Ready(Err(e)) =>
          streams := streams[i := call.(pc := Returned(Err(e)))];
          done := true;
        case Ready(Ok(_)) =>
          streams := streams[i := call.(pc := Counting(call.pc.session))];
          done := true;
      }
    }

    /** With the registry lock held: count the packet and return. */
    method CountAndReturn(i: nat)
      requires Valid() && Enabled(View(), StreamCounts(i))
      modifies this`streams, registry
      ensures Valid() && View() == Next(ServerConfig(env), old(View()), StreamCounts(i))
    {
      var call := streams[i];
      var r := registry.Increment(call.pc.session);
      streams := streams[i := call.(pc := if r.Ok? then Returned(Ok(true)) else Returned(Err(r.error)))];
    }

    /** From the start of `handshake` to the await on the registry lock. */
    method DecideHandshake(i: nat)
      requires Valid() && Enabled(View(), HandshakeDecides(i))
      modifies this`handshakes
      ensures Valid() && View() == Next(ServerConfig(env), old(View()), HandshakeDecides(i))
    {
      var call := handshakes[i];
      var pc;
      var card := Get(call.card, EMPTY_CARD);
      var read := Err(Rpc);
      if card.Ok? {
        read := CardFromMessage(env.utf8, card.value);
      }
      if read.Err? {
        pc := Replied(Err(read.error));
      } else if read.value.aptpVersion != APTP_VERSION {
        var reason := MismatchText(read.value.aptpVersion, APTP_VERSION);
        pc := Replied(Ok(HandshakeReply(Rejected, [], Adapter.Identity, reason)));
      } else {
        var status, adapter := Accepted, Adapter.Identity;
        if env.localHidden != read.value.hiddenSize && !env.passthrough {
          status, adapter := NeedsAdapter, Adapter.LinearProjection;
        }
        pc := Opening(status, adapter, read.value.agentId);
      }
      handshakes := handshakes[i := call.(pc := pc)];
    }

    /** With the registry lock held: open the session and reply. */
    method OpenSession(i: nat, id: Text, now: u64)
      requires Valid() && Enabled(View(), HandshakeOpens(i, id, now))
      modifies this`handshakes, registry
      ensures Valid() && View() == Next(ServerConfig(env), old(View()), HandshakeOpens(i, id, now))
    {
      var call := handshakes[i];
      var session := registry.Open(id, call.pc.peer, Some(call.pc.adapter), now);
      var reply := HandshakeReply(call.pc.status, session, call.pc.adapter, []);
      handshakes := handshakes[i := call.(pc := Replied(Ok(reply)))];
    }

    /** With the registry lock held: drain the session and report. */
    method DrainSession(i: nat)
      requires Valid() && Enabled(View(), FinalizeDrains(i))
      modifies this`finals, this`drained, registry
      ensures Valid() && View() == Next(ServerConfig(env), old(View()), FinalizeDrains(i))
    {
      var call := finals[i];
      var r := registry.Drain(call.session);
      if r.Ok? {
        drained := drained[call.session := r.value];
      }
      finals := finals[i := call.(pc := Reported(r))];
    }

    /** The caller of a stream call goes away while the call is suspended. */
    method DropStreamCall(i: nat)
      requires Valid() && Enabled(View(), StreamIsDropped(i))
      modifies this`streams, sink
      ensures Valid() && View() == Next(ServerConfig(env), old(View()), StreamIsDropped(i))
    {
      var call := streams[i];
      sink.GiveUp(i);
      streams := streams[i := call.(pc := Dropped(call.pc.Counting?))];
    }

    method DropHandshakeCall(i: nat)
      requires Valid() && Enabled(View(), HandshakeIsDropped(i))
      modifies this`handshakes
      ensures Valid() && View() == Next(ServerConfig(env), old(View()), HandshakeIsDropped(i))
    {
      handshakes := handshakes[i := handshakes[i].(pc := HandshakeDropped)];
    }

    method DropFinalizeCall(i: nat)
      requires Valid() && Enabled(View(), FinalizeIsDropped(i))
      modifies this`finals
      ensures Valid() && View() == Next(ServerConfig(env), old(View()), FinalizeIsDropped(i))
    {
      finals := finals[i := finals[i].(pc := FinalizeDropped)];
    }

    /** The owner of the receiver takes a packet. */
    method TakePacket() returns (t: TaggedPrimitive)
      requires Valid() && Enabled(View(), ReceiverTakes)
      modifies sink
      ensures Valid() && View() == Next(ServerConfig(env), old(View()), ReceiverTakes)
      ensures t == old(sink.buffer)[0]
    {
      var first := sink.Receive();
      t := first.value;
    }

    /** The owner of the receiver drops it. */
    method DropReceiver()
      requires Valid() && Enabled(View(), ReceiverIsDropped)
      modifies sink
      ensures Valid() && View() == Next(ServerConfig(env), old(View()), ReceiverIsDropped)
    {
      sink.DropReceiver();
    }
  }

  // ----- what the decisions guarantee

  /** The vector of reals behind a list of bit patterns passes the firewall. */
  ghost predicate ListPasses(env: Env, list: seq<F32>) {
    forall v: Vector | |v| == |list| && (forall i :: 0 <= i < |v| ==> v[i] == env.value(list[i])) ::
      Norm(env.sqrt, v) <= env.firewall.l2NormMax
      && (env.firewall.probe.Some? ==>
            Probe.CosineSimilarity(env.sqrt, env.firewall.probe.value, v) >= env.firewall.cosineSimMin)
  }

  /** Every list of the payload passes: of a KV cache the keys and the values. */
  ghost predicate PayloadPasses(env: Env, payload: PrimitivePayload<F32>) {
    match payload
    case HiddenState(state) => ListPasses(env, state)
    case LatentThought(thought) => ListPasses(env, thought)
    case KvCachePayload(kv) => ListPasses(env, kv.keys) && ListPasses(env, kv.values)
  }

  lemma ListPassesExactly(env: Env, list: seq<F32>)
    ensures ListPasses(env, list) <==> Gate.CheckVector(env.sqrt, env.firewall, MapSeq(env.value, list)).Ok?
  {
    var w := MapSeq(env.value, list);
    forall v: Vector | |v| == |list| && (forall i :: 0 <= i < |v| ==> v[i] == env.value(list[i])) ensures v == w {
    }
  }

  lemma PayloadPassesExactly(env: Env, payload: PrimitivePayload<F32>)
    ensures PayloadPasses(env, payload)
       <==> Gate.Validate(env.sqrt, env.firewall, Decoded(env.value, payload)).Ok?
  {
    match payload
    case HiddenState(state) => ListPassesExactly(env, state);
    case LatentThought(thought) => ListPassesExactly(env, thought);
    case KvCachePayload(kv) =>
      ListPassesExactly(env, kv.keys);
      ListPassesExactly(env, kv.values);
  }

  /** A packet is admitted exactly if its request can be read, it decodes and each of its lists passes the
      firewall; it is then tagged with a hash that verifies, and the branch that rejects a mismatching
      hash is dead. */
  lemma AdmittedExactly(env: Env, request: Pointer<PacketMessage>)
    ensures var a, m := Admit(env, request), Get(request, EMPTY_MESSAGE);
            var p := if m.Ok? then PacketFromMessage(env.utf8, m.value) else Err(Rpc);
            a != Mismatch && (a == Unreadable <==> m.Err?)
            && (a.Admitted? <==> p.Ok? && PayloadPasses(env, p.value.payload))
            && (a.Admitted? ==> a.tagged.payload == p.value && VerifyProvenance(env.digest, a.tagged))
  {
    var m := Get(request, EMPTY_MESSAGE);
    if m.Ok? && PacketFromMessage(env.utf8, m.value).Ok? {
      PayloadPassesExactly(env, PacketFromMessage(env.utf8, m.value).value.payload);
    }
  }

  /** Over any run of a server: every packet that reached the sink carries a verifying tag, and each of
      its lists is within the norm and, with a probe, close enough to the centroid. */
  lemma EverySentPacketIsSound(env: Env, sink: SinkState, steps: seq<Step>, t: TaggedPrimitive)
    requires Runs.Starting(sink) && ValidRun(ServerConfig(env), Initial(sink), steps)
    requires t in After(ServerConfig(env), Initial(sink), steps).sink.sent
    ensures VerifyProvenance(env.digest, t) && PayloadPasses(env, t.payload.payload)
  {
    Runs.SinkSafety(ServerConfig(env), sink, steps, t);
    var streams := After(ServerConfig(env), Initial(sink), steps).streams;
    var i: nat :| SentBy(ServerConfig(env), streams, i, t);
    AdmittedExactly(env, streams[i].message);
  }

  /** In no run does a call fail on its tag. */
  lemma ProvenanceNeverFails(env: Env, sink: SinkState, steps: seq<Step>, i: nat)
    requires Runs.Starting(sink) && ValidRun(ServerConfig(env), Initial(sink), steps)
    requires i < |After(ServerConfig(env), Initial(sink), steps).streams|
    ensures After(ServerConfig(env), Initial(sink), steps).streams[i].pc != Returned(Err(ProvenanceMismatch))
  {
    Runs.ReachableInv(ServerConfig(env), sink, steps);
    var call := After(ServerConfig(env), Initial(sink), steps).streams[i];
    assert CallOk(ServerConfig(env), call);
    AdmittedExactly(env, call.message);
  }

  /** A server made by `new` acknowledges nothing and reports 0, whatever is called on it. */
  lemma NewServerAcceptsNothing(env: Env, sinkBuffer: nat, steps: seq<Step>)
    requires ValidRun(ServerConfig(env), Initial(Closed(Fresh(sinkBuffer))), steps)
    ensures var s := After(ServerConfig(env), Initial(Closed(Fresh(sinkBuffer))), steps);
            (forall i :: 0 <= i < |s.streams| ==> s.streams[i].pc != Returned(Ok(true)))
            && (forall k :: 0 <= k < |s.finals| && Success(s.finals[k]) ==> s.finals[k].pc.count.value == 0)
  {
    Runs.ClosedSinkAcceptsNothing(ServerConfig(env), sinkBuffer, steps);
  }

  /** The packet a client builds is admitted exactly if its strings are UTF-8 and it passes the firewall,
      and then as that packet, so under the session named in its metadata. */
  lemma BuiltPacketKeepsItsSession(env: Env, p: PrimitivePacket)
    ensures var a := Admit(env, To(MessageOf(p)));
            (a.Admitted? <==> StringsValid(env.utf8, p) && PayloadPasses(env, p.payload))
            && (a.Admitted? ==> a == Admitted(Tag(env.digest, p, 1.0)))
  {
    PacketRoundTrip(env.utf8, p);
    AdmittedExactly(env, To(MessageOf(p)));
  }

  // ----- what handshakes reply

  /** What the server decides about the card a client sends: rejected exactly for another version, with a
      reason that names both versions, and asked for a projection exactly if the hidden sizes differ and
      passthrough is off. */
  lemma SentCardDecidedExactly(env: Env, c: AgentCard)
    requires CardStringsValid(env.utf8, c)
    ensures var d := Decide(env, To(CardMessageOf(c)));
            (d.Reject? <==> c.aptpVersion != APTP_VERSION)
            && (d.Reject? ==> NamedVersions(d.reason) == Some((c.aptpVersion, APTP_VERSION)))
            && (d == Proceed(NeedsAdapter, Adapter.LinearProjection, c.agentId)
                <==> c.aptpVersion == APTP_VERSION && c.hiddenSize != env.localHidden && !env.passthrough)
            && (d == Proceed(Accepted, Adapter.Identity, c.agentId)
                <==> c.aptpVersion == APTP_VERSION && (c.hiddenSize == env.localHidden || env.passthrough))
  {
    CardRoundTrip(env.utf8, c);
    MismatchNamesVersions(c.aptpVersion, APTP_VERSION);
  }

  /** In every run, a handshake answered with a session has one the server issued to it alone; a
      rejection names none; and a projection is asked for exactly with the status that needs one. */
  lemma HandshakeReplies(env: Env, sink: SinkState, steps: seq<Step>, k: nat)
    requires Runs.Starting(sink) && ValidRun(ServerConfig(env), Initial(sink), steps)
    ensures var s := After(ServerConfig(env), Initial(sink), steps);
            k < |s.handshakes| && s.handshakes[k].pc.Replied? && s.handshakes[k].pc.reply.Ok? ==>
              var r := s.handshakes[k].pc.reply.value;
              (r.status != Rejected <==> r.session in s.issued)
              && (r.adapter == Adapter.LinearProjection <==> r.status == NeedsAdapter)
              && (forall j :: AssignedAt(s.handshakes, j, r.session) ==> j == k)
  {
    Runs.ReachableInv(ServerConfig(env), sink, steps);
    var s := After(ServerConfig(env), Initial(sink), steps);
    if k < |s.handshakes| {
      assert DecisionOk(ServerConfig(env), s.handshakes[k]);
    }
  }

  /** In every run, a session opened for a card that a client sent is of this version, and while it
      lives it belongs to the agent named on the card, with the adapter the hidden sizes call for. */
  lemma SessionOfSentCard(env: Env, sink: SinkState, steps: seq<Step>, k: nat, c: AgentCard)
    requires Runs.Starting(sink) && ValidRun(ServerConfig(env), Initial(sink), steps)
    requires CardStringsValid(env.utf8, c)
    ensures var s := After(ServerConfig(env), Initial(sink), steps);
            k < |s.handshakes| && s.handshakes[k].card == To(CardMessageOf(c)) && Assigned(s.handshakes[k]) ==>
              var sid := AssignedTo(s.handshakes[k]);
              c.aptpVersion == APTP_VERSION
              && (sid in s.sessions ==>
                    s.sessions[sid].peerAgentId == c.agentId
                    && s.sessions[sid].adapter
                       == Some(if c.hiddenSize == env.localHidden || env.passthrough then Adapter.Identity
                               else Adapter.LinearProjection))
  {
    var s := After(ServerConfig(env), Initial(sink), steps);
    Runs.ReachableInv(ServerConfig(env), sink, steps);
    SentCardDecidedExactly(env, c);
    if k < |s.handshakes| && s.handshakes[k].card == To(CardMessageOf(c)) && Assigned(s.handshakes[k]) {
      Runs.SessionsAreHandshakes(ServerConfig(env), sink, steps, AssignedTo(s.handshakes[k]));
      assert AssignedAt(s.handshakes, k, AssignedTo(s.handshakes[k]));
    }
  }
}
