// Runs that show which of the simpler laws do not hold.

module Witnesses {
  import opened Errors
  import opened Primitives
  import opened Wire
  import opened Provenance
  import opened Codec
  import Server
  import opened Sink
  import opened Protocol
  import opened Invariants

  /** A live session `sid` and a call on it whose packet is queued but not yet counted. */
  ghost predicate QueuedUncounted(s: State, sid: Text) {
    |s.streams| == 1 && s.streams[0].pc == Counting(sid) && sid in s.sessions && s.sessions[sid].receivedCount == 0
    && s.finals == []
  }

  lemma FinalizeOvertakes(cfg: Config, s: State, sid: Text) returns (steps: seq<Step>)
    requires QueuedUncounted(s, sid) && cfg.utf8(sid)
    ensures ValidRun(cfg, s, steps)
    ensures var e := After(cfg, s, steps);
            |e.finals| == 1 && e.finals[0].session == sid && e.finals[0].pc == Reported(Ok(0))
            && e.streams == s.streams[0 := s.streams[0].(pc := Returned(Err(Internal(UnknownSession))))]
            && e.sink == s.sink
  {
    var a, b, c := FinalizeArrives(0, To(sid)), FinalizeDrains(0), StreamCounts(0);
    var s1 := Next(cfg, s, a);
    var s2 := Next(cfg, s1, b);
    var s3 := Next(cfg, s2, c);
    Then(cfg, s2, c, []);
    Twice(cfg, s, a, b, [c]);
    steps := [a, b] + [c];
    assert s3 == After(cfg, s, steps);
  }

  /** A live session and nothing else. */
  ghost predicate JustOpened(s: State, sid: Text) {
    s.streams == [] && s.finals == [] && sid in s.sessions && s.sessions[sid].receivedCount == 0
  }

  lemma OpenOne(cfg: Config, capacity: nat, card: Pointer<CardMessage>, sid: Text) returns (steps: seq<Step>)
    requires cfg.decide(card).Proceed? && sid != []
    ensures ValidRun(cfg, Initial(Fresh(capacity)), steps)
    ensures var e := After(cfg, Initial(Fresh(capacity)), steps);
            JustOpened(e, sid) && e.sink == Fresh(capacity)
  {
    var s0 := Initial(Fresh(capacity));
    var a, b, c := HandshakeArrives(0, card), HandshakeDecides(0), HandshakeOpens(0, sid, 0);
    var s2 := Next(cfg, Next(cfg, s0, a), b);
    Then(cfg, s2, c, []);
    Twice(cfg, s0, a, b, [c]);
    steps := [a, b] + [c];
  }

  lemma QueueOne(cfg: Config, s: State, m: Pointer<PacketMessage>, t: TaggedPrimitive) returns (steps: seq<Step>)
    requires JustOpened(s, SessionOf(t)) && cfg.admit(m) == Admitted(t)
    requires s.sink.receiverAlive && s.sink.waiting == [] && |s.sink.buffer| < s.sink.capacity
    ensures ValidRun(cfg, s, steps)
    ensures var e := After(cfg, s, steps);
            QueuedUncounted(e, SessionOf(t)) && e.sink.sent == s.sink.sent + [t]
            && e.streams == [StreamCall(0, m, Counting(SessionOf(t)))]
  {
    var d, e, f := StreamArrives(0, m), StreamValidates(0), StreamSends(0);
    var s1 := Next(cfg, s, d);
    assert s1.streams == [StreamCall(0, m, Received)];
    Then(cfg, Next(cfg, s1, e), f, []);
    Twice(cfg, s, d, e, [f]);
    steps := [d, e] + [f];
  }

  /** The end of such a run: one packet in the sink, its call told that the session is unknown, and a
      report of 0 for that session. */
  ghost predicate Missed(s: State, m: Pointer<PacketMessage>, t: TaggedPrimitive) {
    s.sink.sent == [t]
    && s.streams == [StreamCall(0, m, Returned(Err(Internal(UnknownSession))))]
    && |s.finals| == 1 && s.finals[0].session == SessionOf(t) && s.finals[0].pc == Reported(Ok(0))
  }

  lemma MissingRun(
    cfg: Config, capacity: nat, card: Pointer<CardMessage>, m: Pointer<PacketMessage>, t: TaggedPrimitive)
    returns (steps: seq<Step>)
    requires 0 < capacity && cfg.decide(card).Proceed? && cfg.admit(m) == Admitted(t)
    requires SessionOf(t) != [] && cfg.utf8(SessionOf(t))
    ensures ValidRun(cfg, Initial(Fresh(capacity)), steps)
    ensures Missed(After(cfg, Initial(Fresh(capacity)), steps), m, t)
  {
    var start := Initial(Fresh(capacity));
    var first := OpenOne(cfg, capacity, card, SessionOf(t));
    var live := After(cfg, start, first);
    var second := QueueOne(cfg, live, m, t);
    var third := FinalizeOvertakes(cfg, After(cfg, live, second), SessionOf(t));
    Joined(cfg, live, second, third);
    Joined(cfg, start, first, second + third);
    steps := first + (second + third);
  }

  lemma MissedCounts(cfg: Config, s: State, m: Pointer<PacketMessage>, t: TaggedPrimitive)
    requires Missed(s, m, t) && cfg.admit(m) == Admitted(t)
    ensures PacketsOf(s.sink.sent, OfSession(SessionOf(t))) == 1
    ensures Tally(cfg, s.streams, OfSession(SessionOf(t)), {Orphaned}) == 1
  {
    PacketsAppend([], t, OfSession(SessionOf(t)));
    assert s.streams == [] + [s.streams[0]];
    TallyAppend(cfg, [], s.streams[0], OfSession(SessionOf(t)), {Orphaned});
  }

  /** Finalize can run between queuing and counting. For every packet that passes the firewall and every
      card of this version there is a run of a server in which finalize reports 0 for the session of
      the packet although the packet is in the sink, and the caller of that packet is told that the
      session is unknown. So the reported count is not the number of packets received; module Runs says
      what it is. */
  lemma ReportCanMissAPacket(env: Server.Env, capacity: nat, c: AgentCard, p: PrimitivePacket)
    returns (steps: seq<Step>)
    requires 0 < capacity && c.aptpVersion == APTP_VERSION && CardStringsValid(env.utf8, c)
    requires StringsValid(env.utf8, p) && p.metadata.sessionId != []
    requires Server.PayloadPasses(env, p.payload)
    ensures ValidRun(Server.ServerConfig(env), Initial(Fresh(capacity)), steps)
    ensures var cfg, t, sid := Server.ServerConfig(env), Tag(env.digest, p, 1.0), p.metadata.sessionId;
            var e := After(cfg, Initial(Fresh(capacity)), steps);
            e.sink.sent == [t]
            && ReportFor(e.finals, 0, sid) && e.finals[0].pc.count.value == 0
            && PacketsOf(e.sink.sent, OfSession(sid)) == 1
            && e.streams == [StreamCall(0, To(MessageOf(p)), Returned(Err(Internal(UnknownSession))))]
            && Tally(cfg, e.streams, OfSession(sid), {Orphaned}) == 1
  {
    var cfg, t := Server.ServerConfig(env), Tag(env.digest, p, 1.0);
    Server.SentCardDecidedExactly(env, c);
    Server.BuiltPacketKeepsItsSession(env, p);
    steps := MissingRun(cfg, capacity, To(CardMessageOf(c)), To(MessageOf(p)), t);
    MissedCounts(cfg, After(cfg, Initial(Fresh(capacity)), steps), To(MessageOf(p)), t);
  }
}
