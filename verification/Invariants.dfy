// What every step of the session protocol keeps.

module Invariants {
  import opened Errors
  import opened Provenance
  import opened Codec
  import opened Registry
  import opened Sink
  import opened Protocol
  import Adapter

  /** The local state of a call fits the decision made on its message. */
  ghost predicate CallOk(cfg: Config, call: StreamCall) {
    var a := cfg.admit(call.message);
    match call.pc
    case Received => true
    case Sending(t, sid) => a == Admitted(t) && sid == SessionOf(t)
    case Counting(sid) => a.Admitted? && sid == SessionOf(a.tagged)
    case Returned(Ok(true)) => a.Admitted?
    case Returned(Ok(false)) => a == Refused
    case Returned(Err(e)) =>
      (e == ProvenanceMismatch && a == Mismatch)
      || (e == Rpc && a == Unreadable)
      || ((e == Internal(SinkClosed) || e == Internal(UnknownSession)) && a.Admitted?)
    case Dropped(queued) => queued ==> a.Admitted?
  }

  ghost predicate CallsOk(cfg: Config, s: State) {
    forall i :: 0 <= i < |s.streams| ==> CallOk(cfg, s.streams[i])
  }

  ghost predicate TableOk(s: State) {
    s.issued == s.sessions.Keys + s.drained.Keys
    && s.sessions.Keys !! s.drained.Keys
    && (forall id :: id in s.sessions ==> s.sessions[id].sessionId == id)
    && [] !in s.issued
  }

  /** Each session has been credited once for every call on it that returned true. */
  ghost predicate CreditOk(cfg: Config, s: State) {
    forall sid :: Tally(cfg, s.streams, OfSession(sid), {Acked}) == Credit(s, sid)
  }

  /** For every session and for every single packet: as many were sent as calls have queued one. */
  ghost predicate QueueOk(cfg: Config, s: State) {
    forall key :: PacketsOf(s.sink.sent, key) == Tally(cfg, s.streams, key, QUEUED)
  }

  /** A finalize acts on the session its request names; one that names none has failed at once, and one
      that names a session can only fail on an unknown one. */
  ghost predicate FinalOk(cfg: Config, f: FinalizeCall) {
    match TextOf(cfg.utf8, f.request)
    case Ok(session) =>
      f.session == session
      && (f.pc.Reported? && f.pc.count.Err? ==> f.pc.count.error == Internal(UnknownSession))
    case Err(e) => f.pc == Reported(Err(e))
  }

  ghost predicate FinalsOk(cfg: Config, s: State) {
    forall k :: 0 <= k < |s.finals| ==> FinalOk(cfg, s.finals[k])
  }

  /** Successful reports are exactly the drained sessions, one each. */
  ghost predicate ReportsOk(s: State) {
    ReportsMatch(s) && ReportsUnique(s) && ReportsCover(s)
  }

  ghost predicate ReportsMatch(s: State) {
    forall k :: 0 <= k < |s.finals| && Success(s.finals[k]) ==>
      s.finals[k].session in s.drained && s.drained[s.finals[k].session] == s.finals[k].pc.count.value
  }

  ghost predicate ReportsUnique(s: State) {
    forall j, k :: 0 <= j < k < |s.finals| && Success(s.finals[j]) && Success(s.finals[k]) ==>
      s.finals[j].session != s.finals[k].session
  }

  ghost predicate ReportsCover(s: State) {
    forall sid :: sid in s.drained ==> exists k :: ReportFor(s.finals, k, sid)
  }

  ghost predicate ReportFor(finals: seq<FinalizeCall>, k: nat, sid: Text) {
    k < |finals| && Success(finals[k]) && finals[k].session == sid
  }

  predicate Success(f: FinalizeCall) {
    f.pc.Reported? && f.pc.count.Ok?
  }

  ghost predicate SentBy(cfg: Config, streams: seq<StreamCall>, i: nat, t: TaggedPrimitive) {
    i < |streams| && PhaseOf(streams[i].pc) in QUEUED && cfg.admit(streams[i].message) == Admitted(t)
  }

  /** Every handshake acts on the decision about its card; the sessions assigned are exactly the issued
      ids, one each; and the table holds what was decided. */
  ghost predicate HandshakesOk(cfg: Config, s: State) {
    DecisionsOk(cfg, s) && AssignedIssued(s) && AssignedUnique(s) && AssignedCover(s) && EntriesOk(cfg, s)
  }

  /** The local state of a handshake fits the decision made on its card. */
  ghost predicate DecisionOk(cfg: Config, h: HandshakeCall) {
    var d := cfg.decide(h.card);
    match h.pc
    case Arrived => true
    case Opening(status, adapter, peer) => d == Proceed(status, adapter, peer)
    case Replied(Ok(r)) =>
      if r.session == [] then d == Reject(r.reason) && r.status == Rejected && r.adapter == Adapter.Identity
      else d.Proceed? && r.status == d.status && r.adapter == d.adapter && r.reason == []
    case Replied(Err(e)) => d == Fail(e)
    case HandshakeDropped => true
  }

  ghost predicate DecisionsOk(cfg: Config, s: State) {
    forall k :: 0 <= k < |s.handshakes| ==> DecisionOk(cfg, s.handshakes[k])
  }

  ghost predicate AssignedIssued(s: State) {
    forall k :: 0 <= k < |s.handshakes| && Assigned(s.handshakes[k]) ==> AssignedTo(s.handshakes[k]) in s.issued
  }

  ghost predicate AssignedCover(s: State) {
    forall id :: id in s.issued ==> exists k :: AssignedAt(s.handshakes, k, id)
  }

  ghost predicate AssignedAt(handshakes: seq<HandshakeCall>, k: nat, id: Text) {
    k < |handshakes| && Assigned(handshakes[k]) && AssignedTo(handshakes[k]) == id
  }

  /** A live session remembers the peer and the adapter of the handshake that opened it. */
  ghost predicate EntriesOk(cfg: Config, s: State) {
    forall k :: 0 <= k < |s.handshakes| && Assigned(s.handshakes[k]) && AssignedTo(s.handshakes[k]) in s.sessions ==>
      EntryOf(cfg.decide(s.handshakes[k].card), s.sessions[AssignedTo(s.handshakes[k])])
  }

  predicate EntryOf(d: Decision, entry: SessionState) {
    d.Proceed? && entry.peerAgentId == d.peer && entry.adapter == Some(d.adapter)
  }

  ghost predicate AssignedUnique(s: State) {
    forall j, k :: 0 <= j < k < |s.handshakes| && Assigned(s.handshakes[j]) && Assigned(s.handshakes[k]) ==>
      AssignedTo(s.handshakes[j]) != AssignedTo(s.handshakes[k])
  }

  predicate Assigned(h: HandshakeCall) {
    h.pc.Replied? && h.pc.reply.Ok? && h.pc.reply.value.session != []
  }

  function AssignedTo(h: HandshakeCall): Text
    requires Assigned(h)
  {
    h.pc.reply.value.session
  }

  /** The senders in line are distinct calls that are still suspended in their send. */
  ghost predicate WaitingOk(s: State) {
    Distinct(s.sink.waiting)
    && forall i :: i in s.sink.waiting ==> i < |s.streams| && s.streams[i].pc.Sending?
  }

  ghost predicate Inv(cfg: Config, s: State) {
    CallsOk(cfg, s) && TableOk(s) && CreditOk(cfg, s) && QueueOk(cfg, s) && ReportsOk(s) && HandshakesOk(cfg, s)
    && InOrder(s.sink) && WaitingOk(s) && FinalsOk(cfg, s)
  }

  lemma InitialInv(cfg: Config, sink: SinkState)
    requires InOrder(sink) && sink.sent == [] && sink.waiting == []
    ensures Inv(cfg, Initial(sink))
  {
    var s := Initial(sink);
    assert CreditOk(cfg, s) by {
      forall sid ensures Tally(cfg, s.streams, OfSession(sid), {Acked}) == Credit(s, sid) {
      }
    }
    assert QueueOk(cfg, s) by {
      forall key ensures PacketsOf(s.sink.sent, key) == Tally(cfg, s.streams, key, QUEUED) {
      }
    }
    assert ReportsOk(s) && HandshakesOk(cfg, s);
  }

  lemma CallsKept(cfg: Config, s: State, step: Step)
    requires CallsOk(cfg, s) && Enabled(s, step)
    ensures CallsOk(cfg, Next(cfg, s, step))
  {
  }

  lemma IdsKept(cfg: Config, s: State, step: Step)
    requires TableOk(s) && Enabled(s, step)
    ensures var s' := Next(cfg, s, step);
            s'.issued == s'.sessions.Keys + s'.drained.Keys && s'.sessions.Keys !! s'.drained.Keys
  {
  }

  lemma EntryIdsKept(cfg: Config, s: State, step: Step)
    requires TableOk(s) && Enabled(s, step)
    ensures var s' := Next(cfg, s, step);
            [] !in s'.issued && forall id :: id in s'.sessions ==> s'.sessions[id].sessionId == id
  {
  }

  lemma TableKept(cfg: Config, s: State, step: Step)
    requires TableOk(s) && Enabled(s, step)
    ensures TableOk(Next(cfg, s, step))
  {
    IdsKept(cfg, s, step);
    EntryIdsKept(cfg, s, step);
  }

  /** The stream call that a step moves. */
  function Moved(s: State, step: Step): Option<nat>
    requires Enabled(s, step)
  {
    match step
    case StreamValidates(i) => Some(i)
    case StreamSends(i) => Some(i)
    case StreamWaits(i) => Some(i)
    case StreamFindsSinkClosed(i) => Some(i)
    case StreamCounts(i) => Some(i)
    case StreamIsDropped(i) => Some(i)
    case _ => None
  }

  /** A step changes the streams by moving one call, by a call arriving, or not at all. */
  lemma StreamsAfter(cfg: Config, s: State, step: Step)
    requires Enabled(s, step)
    ensures var m, streams' := Moved(s, step), Next(cfg, s, step).streams;
            match m
            case Some(i) => |streams'| == |s.streams| && streams' == s.streams[i := s.streams[i].(pc := streams'[i].pc)]
            case None =>
              streams' == if step.StreamArrives? then s.streams + [StreamCall(step.caller, step.message, Received)]
                          else s.streams
  {
  }

  /** So only the call that moves changes a tally of calls that have left the unqueued phase. */
  lemma TalliesAfter(cfg: Config, s: State, step: Step, key: Key, phases: set<Phase>)
    requires Enabled(s, step) && Unqueued !in phases
    ensures var m, streams' := Moved(s, step), Next(cfg, s, step).streams;
            match m
            case Some(i) =>
              |streams'| == |s.streams| && streams'[i].message == s.streams[i].message
              && Tally(cfg, streams', key, phases) + Hit(cfg, s.streams[i], key, phases)
                 == Tally(cfg, s.streams, key, phases) + Hit(cfg, streams'[i], key, phases)
            case None => Tally(cfg, streams', key, phases) == Tally(cfg, s.streams, key, phases)
  {
    StreamsAfter(cfg, s, step);
    var m, streams' := Moved(s, step), Next(cfg, s, step).streams;
    if m.Some? {
      TallyUpdate(cfg, s.streams, m.value, streams'[m.value].pc, key, phases);
    } else if step.StreamArrives? {
      TallyAppend(cfg, s.streams, StreamCall(step.caller, step.message, Received), key, phases);
    }
  }

  /** How the phase of the moving call changes. */
  lemma PhaseMoves(cfg: Config, s: State, step: Step)
    requires Enabled(s, step) && Moved(s, step).Some?
    ensures var i := Moved(s, step).value;
            var before, after := PhaseOf(s.streams[i].pc), PhaseOf(Next(cfg, s, step).streams[i].pc);
            match step
            case StreamSends(_) => before == Unqueued && after == InFlight
            case StreamCounts(_) =>
              before == InFlight && after == if s.streams[i].pc.session in s.sessions then Acked else Orphaned
            case StreamIsDropped(_) =>
              (before == Unqueued && after == Ended) || (before == InFlight && after == Abandoned)
            case _ => before == Unqueued && (after == Unqueued || after == Ended)
  {
  }

  lemma CreditKeptByCounting(cfg: Config, s: State, i: nat, sid: Text)
    requires CallsOk(cfg, s) && CreditOk(cfg, s) && Enabled(s, StreamCounts(i))
    ensures Tally(cfg, Next(cfg, s, StreamCounts(i)).streams, OfSession(sid), {Acked})
         == Credit(Next(cfg, s, StreamCounts(i)), sid)
  {
    TalliesAfter(cfg, s, StreamCounts(i), OfSession(sid), {Acked});
    PhaseMoves(cfg, s, StreamCounts(i));
    assert CallOk(cfg, s.streams[i]);
  }

  lemma AckedUnchanged(cfg: Config, s: State, step: Step, sid: Text)
    requires Enabled(s, step) && !step.StreamCounts?
    ensures Tally(cfg, Next(cfg, s, step).streams, OfSession(sid), {Acked})
         == Tally(cfg, s.streams, OfSession(sid), {Acked})
  {
    TalliesAfter(cfg, s, step, OfSession(sid), {Acked});
    if Moved(s, step).Some? {
      PhaseMoves(cfg, s, step);
    }
  }

  lemma CreditUnchanged(cfg: Config, s: State, step: Step, sid: Text)
    requires TableOk(s) && Enabled(s, step) && !step.StreamCounts?
    ensures Credit(Next(cfg, s, step), sid) == Credit(s, sid)
  {
  }

  lemma CreditKeptFor(cfg: Config, s: State, step: Step, sid: Text)
    requires CallsOk(cfg, s) && TableOk(s) && CreditOk(cfg, s) && Enabled(s, step)
    ensures Tally(cfg, Next(cfg, s, step).streams, OfSession(sid), {Acked}) == Credit(Next(cfg, s, step), sid)
  {
    if step.StreamCounts? {
      CreditKeptByCounting(cfg, s, step.i, sid);
    } else {
      AckedUnchanged(cfg, s, step, sid);
      CreditUnchanged(cfg, s, step, sid);
    }
  }

  lemma CreditKept(cfg: Config, s: State, step: Step)
    requires CallsOk(cfg, s) && TableOk(s) && CreditOk(cfg, s) && Enabled(s, step)
    ensures CreditOk(cfg, Next(cfg, s, step))
  {
    forall sid
      ensures Tally(cfg, Next(cfg, s, step).streams, OfSession(sid), {Acked}) == Credit(Next(cfg, s, step), sid)
    {
      CreditKeptFor(cfg, s, step, sid);
    }
  }

  lemma SendAppends(cfg: Config, s: State, i: nat)
    requires Enabled(s, StreamSends(i))
    ensures Next(cfg, s, StreamSends(i)).sink.sent == s.sink.sent + [s.streams[i].pc.tagged]
  {
  }

  lemma SendingNames(cfg: Config, call: StreamCall, key: Key)
    requires CallOk(cfg, call) && call.pc.Sending?
    ensures Names(cfg, call.message, key) <==> Matches(call.pc.tagged, key)
  {
  }

  lemma SendTally(cfg: Config, s: State, i: nat, key: Key)
    requires Enabled(s, StreamSends(i))
    ensures Tally(cfg, Next(cfg, s, StreamSends(i)).streams, key, QUEUED)
         == Tally(cfg, s.streams, key, QUEUED) + (if Names(cfg, s.streams[i].message, key) then 1 else 0)
  {
    TalliesAfter(cfg, s, StreamSends(i), key, QUEUED);
    PhaseMoves(cfg, s, StreamSends(i));
  }

  lemma QueueKeptBySending(cfg: Config, s: State, i: nat, key: Key)
    requires CallsOk(cfg, s) && QueueOk(cfg, s) && Enabled(s, StreamSends(i))
    ensures PacketsOf(Next(cfg, s, StreamSends(i)).sink.sent, key)
         == Tally(cfg, Next(cfg, s, StreamSends(i)).streams, key, QUEUED)
  {
    assert CallOk(cfg, s.streams[i]);
    SendTally(cfg, s, i, key);
    SendAppends(cfg, s, i);
    SendingNames(cfg, s.streams[i], key);
    PacketsAppend(s.sink.sent, s.streams[i].pc.tagged, key);
  }

  lemma QueuedUnchanged(cfg: Config, s: State, step: Step, key: Key)
    requires Enabled(s, step) && !step.StreamSends?
    ensures Tally(cfg, Next(cfg, s, step).streams, key, QUEUED) == Tally(cfg, s.streams, key, QUEUED)
    ensures Next(cfg, s, step).sink.sent == s.sink.sent
  {
    TalliesAfter(cfg, s, step, key, QUEUED);
    if Moved(s, step).Some? {
      PhaseMoves(cfg, s, step);
    }
  }

  lemma QueueKeptFor(cfg: Config, s: State, step: Step, key: Key)
    requires CallsOk(cfg, s) && QueueOk(cfg, s) && Enabled(s, step)
    ensures PacketsOf(Next(cfg, s, step).sink.sent, key) == Tally(cfg, Next(cfg, s, step).streams, key, QUEUED)
  {
    if step.StreamSends? {
      QueueKeptBySending(cfg, s, step.i, key);
    } else {
      QueuedUnchanged(cfg, s, step, key);
    }
  }

  lemma QueueKept(cfg: Config, s: State, step: Step)
    requires CallsOk(cfg, s) && QueueOk(cfg, s) && Enabled(s, step)
    ensures QueueOk(cfg, Next(cfg, s, step))
  {
    forall key
      ensures PacketsOf(Next(cfg, s, step).sink.sent, key) == Tally(cfg, Next(cfg, s, step).streams, key, QUEUED)
    {
      QueueKeptFor(cfg, s, step, key);
    }
  }

  lemma FinalsKept(cfg: Config, s: State, step: Step)
    requires FinalsOk(cfg, s) && Enabled(s, step)
    ensures FinalsOk(cfg, Next(cfg, s, step))
  {
  }

  lemma MatchKept(cfg: Config, s: State, step: Step)
    requires TableOk(s) && ReportsMatch(s) && Enabled(s, step)
    ensures ReportsMatch(Next(cfg, s, step))
  {
  }

  lemma UniqueKept(cfg: Config, s: State, step: Step)
    requires TableOk(s) && ReportsMatch(s) && ReportsUnique(s) && Enabled(s, step)
    ensures ReportsUnique(Next(cfg, s, step))
  {
  }

  lemma CoverKeptFor(cfg: Config, s: State, step: Step, sid: Text)
    requires ReportsCover(s) && Enabled(s, step) && sid in Next(cfg, s, step).drained
    ensures exists k :: ReportFor(Next(cfg, s, step).finals, k, sid)
  {
    var s' := Next(cfg, s, step);
    if sid in s.drained {
      var k :| ReportFor(s.finals, k, sid);
      assert ReportFor(s'.finals, k, sid);
    } else {
      assert ReportFor(s'.finals, step.i, sid);
    }
  }

  lemma ReportsKept(cfg: Config, s: State, step: Step)
    requires TableOk(s) && ReportsOk(s) && Enabled(s, step)
    ensures ReportsOk(Next(cfg, s, step))
  {
    MatchKept(cfg, s, step);
    UniqueKept(cfg, s, step);
    forall sid | sid in Next(cfg, s, step).drained ensures exists k :: ReportFor(Next(cfg, s, step).finals, k, sid) {
      CoverKeptFor(cfg, s, step, sid);
    }
  }

  lemma OrderKept(cfg: Config, s: State, step: Step)
    requires InOrder(s.sink) && Enabled(s, step)
    ensures InOrder(Next(cfg, s, step).sink)
  {
  }

  lemma WaitingKeptBySend(cfg: Config, s: State, i: nat)
    requires WaitingOk(s) && Enabled(s, StreamSends(i))
    ensures WaitingOk(Next(cfg, s, StreamSends(i)))
  {
    LineWithout(s.sink.waiting, i);
  }

  lemma WaitingKeptByDrop(cfg: Config, s: State, i: nat)
    requires WaitingOk(s) && Enabled(s, StreamIsDropped(i))
    ensures WaitingOk(Next(cfg, s, StreamIsDropped(i)))
  {
    LineWithout(s.sink.waiting, i);
  }

  lemma LineWithout(waiting: seq<nat>, who: nat)
    requires Distinct(waiting)
    ensures Distinct(Without(waiting, who))
    ensures forall x :: x in Without(waiting, who) ==> x in waiting && x != who
  {
    WithoutRemoves(waiting, who);
    forall x | x in Without(waiting, who) ensures x in waiting && x != who {
      WithoutKeeps(waiting, who, x);
    }
  }

  /** Every step keeps the line of waiting senders in good order. */
  lemma WaitingKept(cfg: Config, s: State, step: Step)
    requires InOrder(s.sink) && WaitingOk(s) && Enabled(s, step)
    ensures WaitingOk(Next(cfg, s, step))
  {
    if step.StreamSends? {
      WaitingKeptBySend(cfg, s, step.i);
    } else if step.StreamIsDropped? {
      WaitingKeptByDrop(cfg, s, step.i);
    }
  }

  lemma AssignedIssuedKept(cfg: Config, s: State, step: Step)
    requires AssignedIssued(s) && Enabled(s, step)
    ensures AssignedIssued(Next(cfg, s, step))
  {
  }

  lemma AssignedUniqueKept(cfg: Config, s: State, step: Step)
    requires AssignedIssued(s) && AssignedUnique(s) && Enabled(s, step)
    ensures AssignedUnique(Next(cfg, s, step))
  {
  }

  lemma DecisionsKept(cfg: Config, s: State, step: Step)
    requires DecisionsOk(cfg, s) && Enabled(s, step)
    ensures DecisionsOk(cfg, Next(cfg, s, step))
  {
  }

  lemma AssignedStays(cfg: Config, s: State, step: Step, k: nat, id: Text)
    requires AssignedAt(s.handshakes, k, id) && Enabled(s, step)
    ensures AssignedAt(Next(cfg, s, step).handshakes, k, id)
  {
  }

  lemma AssignedCoverKeptFor(cfg: Config, s: State, step: Step, id: Text)
    requires AssignedCover(s) && Enabled(s, step) && id in Next(cfg, s, step).issued
    ensures exists k :: AssignedAt(Next(cfg, s, step).handshakes, k, id)
  {
    var s' := Next(cfg, s, step);
    if id in s.issued {
      var k :| AssignedAt(s.handshakes, k, id);
      AssignedStays(cfg, s, step, k, id);
    } else {
      assert AssignedAt(s'.handshakes, step.i, id);
    }
  }

  lemma AssignedCoverKept(cfg: Config, s: State, step: Step)
    requires AssignedCover(s) && Enabled(s, step)
    ensures AssignedCover(Next(cfg, s, step))
  {
    forall id | id in Next(cfg, s, step).issued ensures exists k :: AssignedAt(Next(cfg, s, step).handshakes, k, id) {
      AssignedCoverKeptFor(cfg, s, step, id);
    }
  }

  lemma EntriesKept(cfg: Config, s: State, step: Step)
    requires TableOk(s) && DecisionsOk(cfg, s) && AssignedIssued(s) && EntriesOk(cfg, s) && Enabled(s, step)
    ensures EntriesOk(cfg, Next(cfg, s, step))
  {
  }

  /** Every step keeps the handshakes true to their decisions, and the table true to the handshakes. */
  lemma HandshakesKept(cfg: Config, s: State, step: Step)
    requires TableOk(s) && HandshakesOk(cfg, s) && Enabled(s, step)
    ensures HandshakesOk(cfg, Next(cfg, s, step))
  {
    DecisionsKept(cfg, s, step);
    AssignedIssuedKept(cfg, s, step);
    AssignedUniqueKept(cfg, s, step);
    AssignedCoverKept(cfg, s, step);
    EntriesKept(cfg, s, step);
  }

  /** Every step keeps the whole invariant. */
  lemma InvKept(cfg: Config, s: State, step: Step)
    requires Inv(cfg, s) && Enabled(s, step)
    ensures Inv(cfg, Next(cfg, s, step))
  {
    CallsKept(cfg, s, step);
    TableKept(cfg, s, step);
    CreditKept(cfg, s, step);
    QueueKept(cfg, s, step);
    ReportsKept(cfg, s, step);
    HandshakesKept(cfg, s, step);
    OrderKept(cfg, s, step);
    WaitingKept(cfg, s, step);
    FinalsKept(cfg, s, step);
  }
}
