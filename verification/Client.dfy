// The client object (src/transport/client.rs), each call cut at the await of the reply.

module Client {
  import opened Errors
  import opened Primitives
  import opened Wire
  import opened Codec
  import opened Protocol
  import opened Replies

  class AptpClient {
    var sessionId: Option<Text>
    var sequenceCounter: nat

    constructor ()
      ensures sessionId == None && sequenceCounter == 0
    {
      sessionId := None;
      sequenceCounter := 0;
    }

    /** `handshake` up to the await: the card message. */
    method HandshakeRequest(card: AgentCard) returns (r: Result<CardMessage>)
      ensures r == if |card.capabilities| < U32_LIMIT then Ok(CardMessageOf(card)) else Err(Panicked)
    {
      var m := CardMessage(Null, 0, Null, Null, Null);
      m := m.(agentId := To(card.agentId));
      m := m.(aptpVersion := card.aptpVersion);
      m := m.(publicKey := To([]));
      var inv := InvariantsMessage(0, 0, 0, 0, Null);
      inv := inv.(hiddenSize := card.hiddenSize);
      inv := inv.(numLayers := card.numLayers);
      inv := inv.(numHeads := card.numHeads);
      inv := inv.(vocabSize := card.vocabSize);
      inv := inv.(modelFamily := To(card.modelFamily));
      m := m.(invariants := To(inv));
      var caps :- FillList(Null, TextPointers(card.capabilities));
      m := m.(capabilities := To(caps));
      return Ok(m);
    }

    /** `handshake` after the await: a session that can be read and is no rejection is stored. */
    method HandshakeReply(utf8: Text -> bool, result: Pointer<ReplyMessage>) returns (r: Result<Text>)
      modifies this`sessionId
      ensures r == Answer(utf8, result)
      ensures sessionId == if r.Ok? then Some(r.value) else old(sessionId)
    {
      var m :- Get(result, ReplyMessage(0, Null, 0, Null));
      var status := StatusOf(m.status);
      if status.None? {
        return Err(Internal(BadStatus));
      }
      var session :- TextOf(utf8, m.assignedSession);
      if status.value == Rejected {
        var reason :- Get(m.rejectionReason, []);
        if !utf8(reason) {
          reason := UNKNOWN_REASON;
        }
        return Err(AptpError.HandshakeRejected(reason));
      }
      sessionId := Some(session);
      return Ok(session);
    }

    /** `send_primitive` up to the await. The session on the wire is the packet's own; the counter
        counts the attempts and goes nowhere. */
    method SendRequest(packet: PrimitivePacket) returns (r: Result<PacketMessage>)
      modifies this`sequenceCounter
      ensures r == if sessionId.None? then Err(Internal(HandshakeNotCompleted))
                   else if ListsFit(packet) then Ok(MessageOf(packet))
                   else Err(Panicked)
      ensures sequenceCounter == old(sequenceCounter) + (if sessionId.Some? then 1 else 0)
    {
      if sessionId.None? {
        return Err(Internal(HandshakeNotCompleted));
      }
      sequenceCounter := sequenceCounter + 1;
      r := BuildPacket(packet);
    }

    /** The request builder of `send_primitive`. */
    method BuildPacket(packet: PrimitivePacket) returns (r: Result<PacketMessage>)
      ensures r == if ListsFit(packet) then Ok(MessageOf(packet)) else Err(Panicked)
    {
      var p := EMPTY_MESSAGE;
      p := p.(version := packet.version);
      p := p.(senderId := To(packet.senderId));
      p := p.(modelFingerprint := To(packet.modelFingerprint));
      p := p.(layerIndex := packet.layerIndex);
      match packet.payload {
        case HiddenState(v) =>
          var list :- FillList(0, v);
          p := p.(tag := HIDDEN_STATE_TAG, slot := To(FloatList(list)));
        case LatentThought(v) =>
          var list :- FillList(0, v);
          p := p.(tag := LATENT_THOUGHT_TAG, slot := To(FloatList(list)));
        case KvCachePayload(kv) =>
          var builder := KvMessage(kv.layerIdx, Null, Null, Null);
          var keys :- FillList(0, kv.keys);
          builder := builder.(keys := To(keys));
          var values :- FillList(0, kv.values);
          builder := builder.(values := To(values));
          var dims :- FillList(0, kv.shape.dims);
          builder := builder.(shape := To(ShapeMessage(To(dims))));
          p := p.(tag := KV_CACHE_TAG, slot := To(KvStruct(builder)));
      }
      var dims :- FillList(0, packet.shape.dims);
      p := p.(shape := To(ShapeMessage(To(dims))));
      var meta := MetadataMessage(packet.metadata.timestampNs, 0, Null, Null);
      meta := meta.(sequenceId := packet.metadata.sequenceId);
      meta := meta.(sessionId := To(packet.metadata.sessionId));
      meta := meta.(compressionAlg := To(packet.metadata.compressionAlg));
      p := p.(metadata := To(meta));
      return Ok(p);
    }

    /** `finalize` up to the await: the session is taken out of the client. */
    method FinalizeRequest() returns (r: Result<Text>)
      modifies this`sessionId
      ensures r == if old(sessionId).None? then Err(Internal(NoActiveSession)) else Ok(old(sessionId).value)
      ensures sessionId == None
    {
      if sessionId.None? {
        return Err(Internal(NoActiveSession));
      }
      r := Ok(sessionId.value);
      sessionId := None;
    }
  }
}
