// The bounded packet channel behind `PacketSink` (src/rpc/mod.rs:35-49).

module Sink {
  import opened Errors
  import opened Provenance

  /** The channel: its buffer, the senders that wait for a place in it, in order of arrival, and its
      history: what was ever sent, what the receiver took, and what was thrown away when it went. */
  datatype SinkState = SinkState(
    capacity: nat,
    receiverAlive: bool,
    waiting: seq<nat>,
    buffer: seq<TaggedPrimitive>,
    sent: seq<TaggedPrimitive>,
    delivered: seq<TaggedPrimitive>,
    discarded: seq<TaggedPrimitive>)

  function Fresh(capacity: nat): SinkState {
    SinkState(capacity, true, [], [], [], [], [])
  }

  /** How many senders wait ahead of `who`; one that does not wait would come last. */
  function Place(waiting: seq<nat>, who: nat): nat {
    if waiting == [] || waiting[0] == who then 0 else 1 + Place(waiting[1..], who)
  }

  function Without(waiting: seq<nat>, who: nat): seq<nat> {
    if waiting == [] then []
    else if waiting[0] == who then waiting[1..]
    else [waiting[0]] + Without(waiting[1..], who)
  }

  /** Free places go to the senders in order of arrival: a sender may use one if there are more free
      places than senders ahead of it. A place it was granted stays its own until it sends or goes. */
  predicate MaySend(s: SinkState, who: nat) {
    s.receiverAlive && |s.buffer| + Place(s.waiting, who) < s.capacity
  }

  function Pushed(s: SinkState, who: nat, t: TaggedPrimitive): SinkState {
    s.(waiting := Without(s.waiting, who), buffer := s.buffer + [t], sent := s.sent + [t])
  }

  function Waits(s: SinkState, who: nat): SinkState {
    s.(waiting := s.waiting + [who])
  }

  function GivenUp(s: SinkState, who: nat): SinkState {
    s.(waiting := Without(s.waiting, who))
  }

  function Popped(s: SinkState): SinkState
    requires s.buffer != []
  {
    s.(buffer := s.buffer[1..], delivered := s.delivered + [s.buffer[0]])
  }

  /** Dropping the receiver closes the channel, wakes all senders and drops what the channel holds. */
  function Closed(s: SinkState): SinkState {
    s.(receiverAlive := false, waiting := [], buffer := [], discarded := s.discarded + s.buffer)
  }

  /** The receiver took the packets in the order of the completed sends, none is lost while it lives,
      and the buffer respects the capacity. */
  ghost predicate InOrder(s: SinkState) {
    s.sent == s.delivered + s.buffer + s.discarded
    && |s.buffer| <= s.capacity
    && (s.receiverAlive ==> s.discarded == [])
    && (!s.receiverAlive ==> s.buffer == [] && s.waiting == [])
  }

  // ----- the queue of waiting senders

  lemma {:induction false} WithoutKeeps(waiting: seq<nat>, who: nat, other: nat)
    requires other != who
    ensures other in Without(waiting, who) <==> other in waiting
  {
    if waiting != [] && waiting[0] != who {
      WithoutKeeps(waiting[1..], who, other);
      assert waiting == [waiting[0]] + waiting[1..];
    }
  }

  ghost predicate Distinct(waiting: seq<nat>) {
    forall i, j :: 0 <= i < j < |waiting| ==> waiting[i] != waiting[j]
  }

  lemma {:induction false} WithoutRemoves(waiting: seq<nat>, who: nat)
    requires Distinct(waiting)
    ensures who !in Without(waiting, who) && Distinct(Without(waiting, who))
  {
    if waiting != [] && waiting[0] != who {
      WithoutRemoves(waiting[1..], who);
      var rest := Without(waiting[1..], who);
      forall j | 0 <= j < |rest| ensures rest[j] != waiting[0] {
        if rest[j] == waiting[0] {
          WithoutKeeps(waiting[1..], who, waiting[0]);
        }
      }
    }
  }

  /** When a sender leaves, those behind it move up by one and nobody else moves. */
  lemma {:induction false} PlaceAfterLeaving(waiting: seq<nat>, who: nat, other: nat)
    requires other != who && who in waiting
    ensures Place(Without(waiting, who), other)
         == Place(waiting, other) - (if Place(waiting, who) < Place(waiting, other) then 1 else 0)
  {
    if waiting[0] != who && waiting[0] != other {
      PlaceAfterLeaving(waiting[1..], who, other);
    }
  }

  lemma {:induction false} LeavingAbsent(waiting: seq<nat>, who: nat)
    requires who !in waiting
    ensures Without(waiting, who) == waiting && Place(waiting, who) == |waiting|
  {
    if waiting != [] {
      LeavingAbsent(waiting[1..], who);
    }
  }

  lemma {:induction false} PlaceAfterJoining(waiting: seq<nat>, who: nat, other: nat)
    requires other in waiting || other == who
    ensures Place(waiting + [who], other) == Place(waiting, other)
  {
    if waiting != [] && waiting[0] != other {
      assert (waiting + [who])[1..] == waiting[1..] + [who];
      PlaceAfterJoining(waiting[1..], who, other);
    }
  }

  lemma {:induction false} PlaceInLine(waiting: seq<nat>, j: nat)
    requires Distinct(waiting) && j < |waiting|
    ensures Place(waiting, waiting[j]) == j
  {
    if j > 0 {
      PlaceInLine(waiting[1..], j - 1);
    }
  }

  /** Free places are for the front of the line: the sender at position `j` may send exactly if more than
      `j` places are free, and one that has not joined exactly if there is a place for it beyond all who
      wait. So nobody may send while someone ahead may not. */
  lemma FrontOfLineExactly(s: SinkState, who: nat)
    requires Distinct(s.waiting) && s.receiverAlive
    ensures var free := s.capacity - |s.buffer|;
            (forall j :: 0 <= j < |s.waiting| ==> (MaySend(s, s.waiting[j]) <==> j < free))
            && (who !in s.waiting ==> (MaySend(s, who) <==> |s.waiting| < free))
  {
    forall j | 0 <= j < |s.waiting| ensures MaySend(s, s.waiting[j]) <==> j < s.capacity - |s.buffer| {
      PlaceInLine(s.waiting, j);
    }
    if who !in s.waiting {
      LeavingAbsent(s.waiting, who);
    }
  }

  /** One poll of a pending `send`. */
  datatype Poll = Ready(r: Result<()>) | Pending

  class PacketSink {
    const capacity: nat
    var receiverAlive: bool
    var waiting: seq<nat>
    var buffer: seq<TaggedPrimitive>
    ghost var sent: seq<TaggedPrimitive>
    ghost var delivered: seq<TaggedPrimitive>
    ghost var discarded: seq<TaggedPrimitive>

    ghost function View(): SinkState
      reads this
    {
      SinkState(capacity, receiverAlive, waiting, buffer, sent, delivered, discarded)
    }

    ghost predicate Valid()
      reads this
    {
      0 < capacity && InOrder(View())
    }

    /** The runtime's bounded channel panics on a capacity of 0. */
    constructor (capacity: nat)
      requires 0 < capacity
      ensures Valid() && View() == Fresh(capacity)
    {
      this.capacity := capacity;
      receiverAlive := true;
      waiting := [];
      buffer, sent, delivered, discarded := [], [], [], [];
    }

    /** `send` polled once by the sender `who`: it fails on a closed channel, queues the packet when one
        of the free places is its own, and otherwise waits in line. */
    method PollSend(who: nat, t: TaggedPrimitive) returns (p: Poll)
      requires Valid()
      modifies this
      ensures Valid()
      ensures p == if !old(receiverAlive) then Ready(Err(Internal(SinkClosed)))
                   else if MaySend(old(View()), who) then Ready(Ok(()))
                   else Pending
      ensures View() == if p == Ready(Ok(())) then Pushed(old(View()), who, t)
                        else if p == Pending && who !in old(waiting) then Waits(old(View()), who)
                        else old(View())
    {
      if !receiverAlive {
        return Ready(Err(Internal(SinkClosed)));
      }
      if |buffer| + Place(waiting, who) >= capacity {
        if who !in waiting {
          waiting := waiting + [who];
        }
        return Pending;
      }
      waiting := Without(waiting, who);
      buffer := buffer + [t];
      sent := sent + [t];
      return Ready(Ok(()));
    }

    /** The pending `send` of `who` is dropped; its place in the line, or in the buffer, goes to the next. */
    method GiveUp(who: nat)
      requires Valid()
      modifies this`waiting
      ensures Valid() && View() == GivenUp(old(View()), who)
    {
      waiting := Without(waiting, who);
    }

    method Receive() returns (t: Option<TaggedPrimitive>)
      requires Valid() && receiverAlive
      modifies this
      ensures Valid()
      ensures t == if old(buffer) == [] then None else Some(old(buffer)[0])
      ensures View() == if t.None? then old(View()) else Popped(old(View()))
    {
      if buffer == [] {
        return None;
      }
      t := Some(buffer[0]);
      delivered := delivered + [buffer[0]];
      buffer := buffer[1..];
    }

    method DropReceiver()
      requires Valid()
      modifies this
      ensures Valid() && View() == Closed(old(View()))
    {
      discarded := discarded + buffer;
      receiverAlive := false;
      waiting := [];
      buffer := [];
    }
  }
}
