// From the backend to the server: the packet made from a snapshot (src/backend/llama.rs:287-324), sent by
// a client (src/transport/client.rs:115-164), as the server takes it in (src/rpc/stream.rs:15-54).

module Delivery {
  import opened Errors
  import opened Primitives
  import opened Wire
  import opened Codec
  import opened Protocol
  import opened Backend
  import opened Server
  import ClientRun

  /** A packet made from a snapshot for a session is admitted exactly if its texts are UTF-8 and its lists
      pass the firewall. It is then counted under that session and no other, and carries the sender,
      fingerprint, layer index, sequence id and time it was made with. */
  lemma SnapshotArrives(
    env: Env, snapshot: Snapshot, hiddenSize: u32, fingerprint: seq<byte>, senderId: Text, sessionId: Text,
    sequenceId: u64, layerIndex: u16, now: u64, sid: Text)
    ensures var p := SnapshotToPacket(
              snapshot, hiddenSize, fingerprint, senderId, sessionId, sequenceId, layerIndex, now);
            var message := To(MessageOf(p));
            var a := Admit(env, message);
            (a.Admitted? <==>
               env.utf8(senderId) && env.utf8(sessionId) && env.utf8(Ascii("none")) && PayloadPasses(env, p.payload))
            && (a.Admitted? ==>
                  Validated(a) == Sending(a.tagged, sessionId)
                  && (Names(ServerConfig(env), message, OfSession(sid)) <==> sid == sessionId)
                  && var q := a.tagged.payload;
                     q.senderId == senderId && q.modelFingerprint == fingerprint && q.layerIndex == layerIndex
                     && q.version == APTP_VERSION
                     && q.metadata == Metadata(now, sequenceId, sessionId, Ascii("none")))
  {
    var p := SnapshotToPacket(
      snapshot, hiddenSize, fingerprint, senderId, sessionId, sequenceId, layerIndex, now);
    BuiltPacketKeepsItsSession(env, p);
  }

  /** An idle client may send such a packet exactly if the packet was made for the client's own session and
      its lists fit a message. */
  lemma ClientMaySendSnapshot(
    me: nat, w: ClientRun.World, snapshot: Snapshot, hiddenSize: u32, fingerprint: seq<byte>, senderId: Text,
    sessionId: Text, sequenceId: u64, layerIndex: u16, now: u64)
    requires w.pending.Idle?
    ensures var p := SnapshotToPacket(
              snapshot, hiddenSize, fingerprint, senderId, sessionId, sequenceId, layerIndex, now);
            ClientRun.CanMove(me, w, ClientRun.Send(p)) <==> w.session == Some(sessionId) && ListsFit(p)
  {
  }
}
