# APTP: a verified model

APTP lets language-model agents exchange hidden states. An agent shakes hands with a server, streams
packets of numbers under the session it was given, and finalizes the session to learn how many packets
were counted. This project models four parts of it and proves what they keep.

* **The session protocol** (`Registry`, `Sink`, `Protocol`, `Invariants`, `Runs`, `Server`, `Client`,
  `Replies`, `ClientRun`, `Witnesses`). Every handler is cut at its awaits into uninterrupted sections.
  A state machine interleaves the sections of any number of calls with the receiver and with callers
  that go away. The channel serves waiting senders in order of arrival. The classes `SessionRegistry`,
  `PacketSink` and `AptpRpcServer` are the objects whose methods are those steps. The main results hold
  after every run of every length.
* **The numeric pipeline** (`Vectors`, `Xorshift`, `Negotiate`, `Alignment`, `LinearProjection`,
  `NormMatch`, `Adapter`, `Probe`, `Gate`, `Pipeline`), over exact reals, with the generator on 64-bit
  words. The square root is a parameter `sqrt` that satisfies `SquareRoot(sqrt)`: on every non-negative
  argument it is the non-negative root.
* **The packet codec and the provenance tag** (`Primitives`, `Wire`, `Codec`, `Provenance`), bit for bit.
* **The accounting of the llama.cpp backend** (`Backend`, `Delivery`): the decode cursor, layer capture,
  and packets from snapshots on their way to the server. What the C side returns is a parameter.

`Errors` holds the results and machine integers. A Rust panic is the outcome `Err(Panicked)`.

Taken as parameters: the clock, session ids (fresh and not empty), UTF-8 validity, the digest, the reals
behind float bit patterns, the lines of a probe file after parsing, the replies of the C library, and the
caller of a request (a number). The order of the steps is arbitrary.

## Where the code and its documentation differ

The model follows the code.

* `AptpRpcServer::new` keeps no receiver (src/rpc/mod.rs:25), so a server made by it acknowledges no
  packet (`Server.NewServerAcceptsNothing`). `Server.AptpRpcServer.FromFields` is the server whose owner
  keeps the receiver; the struct's fields are public.
* README.md:331 calls `Identity` a no-op. `from_spec` builds a rescaler to norm 1 for it
  (src/adapter/mod.rs:18-20); `Adapter.IdentityIsUnitRescaler` says exactly when that changes nothing.
* README.md:275 calls the answer of `finalize` the received count. A packet is queued before it is counted
  (src/rpc/stream.rs:50-55), so a packet can be in the sink and yet not in the count
  (`Witnesses.ReportCanMissAPacket`). `Runs.ReportIsPacketCountExactly` says exactly when the two agree;
  the answer is always the number of true acknowledgements (`Runs.FinalizeCountsAllAcks`).
* The client puts `packet.metadata.session_id` on the wire, not the session it was assigned
  (src/transport/client.rs:158), and its sequence counter never leaves it. So what a client gets back is
  proved for clients that label their packets with their own session (`ClientRun.ClientIsPaidBack`).
* `as u32` truncates the length of a list before it is filled (src/rpc/mod.rs:206). A negotiation whose
  product of dimensions reaches 2^32 therefore gets no reply (`Alignment.ReplyArrivesExactly`).
* The tag covers a prefix of the payload and none of the values of a KV cache
  (`Provenance.TamperingDetectedExactly`).

## Model

| member | source | states |
|---|---|---|
| Invariants.InvKept | src/rpc/stream.rs:9-59 | every step of every handler, of the receiver and of a vanishing caller keeps the protocol invariant |
| Invariants.CallsKept | src/rpc/stream.rs:15-58 | every step keeps each call's suspended state and outcome consistent with the decision on its message |
| Invariants.TableKept | src/rpc/mod.rs:65-96 | every step keeps: ids issued are exactly those live or drained, never both, and each entry holds its own id |
| Invariants.CreditKept | src/rpc/stream.rs:52-58 | every step keeps: each session is credited, live or in its report, once for every call on it that returned true |
| Invariants.QueueKept | src/rpc/stream.rs:50-55 | every step keeps: for every session and every single packet, as many were sent as calls have queued one |
| Invariants.ReportsKept | src/rpc/mod.rs:229-232 | every step keeps: the successful finalize reports are exactly the drained sessions, one each, with the drained count |
| Invariants.OrderKept | src/rpc/mod.rs:39-48 | every step keeps: sent = delivered + buffered + discarded in order, within the capacity, nothing discarded while the receiver lives |
| Invariants.AssignedUniqueKept | src/rpc/handshake.rs:50-53 | every step keeps the sessions assigned to handshakes distinct |
| Invariants.HandshakesKept | src/rpc/handshake.rs:15-65 | every step keeps: each handshake acts on the decision about its card, assigned sessions are exactly the issued ids, and live entries hold the decided peer and adapter |
| Runs.ReachableInv | src/rpc/stream.rs:9-59 | the invariant holds in every state of every run from a fresh server |
| Runs.Conservation | src/rpc/stream.rs:50-55 | over every interleaving, packets queued for a session = live or reported count + calls between queuing and counting + orphaned + dropped in between |
| Runs.ExactlyOncePerCall | src/rpc/stream.rs:44-50 | a packet is in the history of the sink exactly as often as there are calls that carried it past their send |
| Runs.FinalizeCountsAllAcks | src/rpc/mod.rs:229-232 | the reported count equals the calls on the session that return true in the whole run, including whatever follows the report |
| Runs.FinalizeOutcomes | src/rpc/mod.rs:222-232 | in every run, a finalize whose request cannot be read fails with that error and drains nothing; one that names a session reports it, fails on an unknown one, or has not ended |
| Runs.ReportIsPacketCountExactly | src/rpc/mod.rs:229-232 | the reported count is the number of packets queued for the session if and only if no call on it is in flight, orphaned or dropped after queuing |
| Runs.OneReportPerSession | src/rpc/mod.rs:90-95 | a session is reported at most once and is not live afterwards |
| Runs.SessionsAreDistinct | src/rpc/mod.rs:66-80 | no two handshakes of a run are assigned the same session |
| Runs.SessionsAreHandshakes | src/rpc/handshake.rs:50-65 | an id was issued iff some handshake was assigned it; its reply states the decision on its card, and the live entry holds that decision's peer and adapter |
| Runs.SinkSafety | src/rpc/mod.rs:39-48 | delivered then buffered packets are the completed sends in order, the buffer respects its capacity, and a packet was sent if and only if some call admitted it and passed its send |
| Runs.AcknowledgedIsNotLost | src/rpc/stream.rs:50-58 | while the receiver lives, the packet of every call that returned true is delivered or in the buffer |
| Runs.SectionsRunOnce | src/rpc/stream.rs:9-59 | a step strictly shortens the work left to the call it moves and leaves every other stream call as it was |
| Runs.NobodyIsOvertaken | src/rpc/mod.rs:45-48 | while the receiver lives, no step moves a waiting sender back in line |
| Runs.EverySendIsServed | src/rpc/stream.rs:50 | from every state that keeps the invariant, a suspended send gets its place after at most (packets in the buffer + 2 * senders ahead) steps of the receiver and of senders |
| Runs.NoStreamIsStuck | src/rpc/stream.rs:9-59 | from every reachable state the run can go on so that a given call returns, unless its caller went away |
| Runs.ClosedSinkAcceptsNothing | src/rpc/mod.rs:45-48 | without a receiver no call returns true, live counts stay 0 and every successful report is 0 |
| Witnesses.ReportCanMissAPacket | src/rpc/stream.rs:50-55 | for every packet that passes the firewall and every card of this version there is a run of a server in which finalize reports 0 for the session although the packet is in the sink and its call is told the session is unknown |
| Registry.SessionRegistry.Open | src/rpc/mod.rs:66-80 | a fresh id gets an entry with count 0; all other entries stay |
| Registry.SessionRegistry.Increment | src/rpc/mod.rs:82-88 | adds 1 to the count of a live session only, and fails without change exactly for an unknown one |
| Registry.SessionRegistry.Drain | src/rpc/mod.rs:90-95 | removes a live session and returns its count, and fails without change exactly for an unknown one |
| Sink.PacketSink.constructor | src/rpc/mod.rs:40-43 | an empty channel of the given capacity with a live receiver |
| Sink.FrontOfLineExactly | src/rpc/mod.rs:45-48 | the sender at position j of the line may send iff more than j places are free, and one that has not joined iff there is a place beyond all who wait |
| Sink.PacketSink.PollSend | src/rpc/mod.rs:45-48 | queues the packet when one of the free places is the sender's own, free places going to waiting senders in order of arrival; otherwise joins the line; fails exactly when closed |
| Sink.PacketSink.GiveUp | src/rpc/mod.rs:45-48 | a send dropped while it waits leaves the line, and those behind move up |
| Sink.PacketSink.Receive | src/rpc/mod.rs:40-43 | takes the oldest packet and keeps the rest in order |
| Sink.PacketSink.DropReceiver | src/rpc/mod.rs:25 | closes the channel and discards what it holds |
| Server.AptpRpcServer.New | src/rpc/mod.rs:23-32 | fails with the firewall's error exactly when the firewall cannot be built, panics for a capacity of 0, and else yields a server with an empty table and a sink that is already closed |
| Server.AptpRpcServer.FromFields | src/rpc/mod.rs:15-20 | the server starts with an empty table and a sink with a live receiver |
| Server.AptpRpcServer.AcceptFinalize | src/rpc/mod.rs:215-229 | the arrival of a finalize and its reading of the session text refine the arriving step: an unreadable text ends the call with its error and changes nothing else |
| Server.AptpRpcServer.HandleUntilSend | src/rpc/stream.rs:15-48 | reading the request, decoding, firewall and tag refine the validation step: one call moves, nothing else changes |
| Server.AptpRpcServer.PollSend | src/rpc/stream.rs:50 | a poll of the send refines the sending step, the failing step or the waiting step, and leaves the whole state alone for a sender already in line |
| Server.AptpRpcServer.CountAndReturn | src/rpc/stream.rs:52-58 | the locked increment and the return refine the counting step |
| Server.AptpRpcServer.DecideHandshake | src/rpc/handshake.rs:15-48 | reading the request and the card and the version and dimension branches refine the deciding step |
| Server.AptpRpcServer.OpenSession | src/rpc/handshake.rs:50-65 | the locked open and the reply refine the opening step |
| Server.AptpRpcServer.DrainSession | src/rpc/mod.rs:229-232 | the locked drain and the report refine the draining step |
| Server.AptpRpcServer.DropStreamCall | src/rpc/stream.rs:50-53 | a stream call dropped at one of its awaits gives up its place in the line of senders, or leaves its packet uncounted, and nothing else changes |
| Server.AptpRpcServer.TakePacket | src/rpc/mod.rs:40-43 | the owner of the receiver gets the oldest packet, and the server moves by the receiving step |
| Server.AdmittedExactly | src/rpc/stream.rs:15-48 | a packet is admitted iff its request can be read, it decodes, and each of its own lists (of a KV cache the keys and the values) stands for a vector within the norm and, with a probe, above the cosine threshold; its tag then verifies, and the mismatch branch is dead |
| Server.EverySentPacketIsSound | src/rpc/stream.rs:39-50 | in every run, every packet that reached the sink carries a verifying tag, and each of its own lists stands for a vector within the norm and, with a probe, above the cosine threshold |
| Server.ProvenanceNeverFails | src/rpc/stream.rs:45-48 | in no run does a call fail on its tag |
| Server.NewServerAcceptsNothing | src/rpc/mod.rs:23-31 | a server made by `new` returns true to no call and reports 0 in every successful finalize, in every run |
| Server.BuiltPacketKeepsItsSession | src/transport/client.rs:120-161 | a packet built by a client is admitted iff its strings are UTF-8 and each of its lists passes, and then as that packet with its tag, so under the session in its metadata |
| Server.SentCardDecidedExactly | src/rpc/handshake.rs:15-48 | for every card a client can send: rejected iff the version differs, with a reason from which both versions can be read back; a projection demanded iff hidden sizes differ and passthrough is off; accepted otherwise |
| Server.HandshakeReplies | src/rpc/handshake.rs:26-65 | in every run, a reply names an issued session of its own iff it is no rejection, and the projection adapter iff the status demands one |
| Server.SessionOfSentCard | src/rpc/handshake.rs:34-53 | in every run, a session opened for a card a client sent is of this version, and its live entry names the card's agent and the adapter the hidden sizes call for |
| Client.AptpClient.HandshakeRequest | src/transport/client.rs:69-90 | the card message built field by field stands for the card, or the truncated list length panics |
| Client.AptpClient.HandshakeReply | src/transport/client.rs:92-112 | reads the result in the source's order: an unreadable result, unknown status or bad session text is an error, a rejection reports its reason, and otherwise the session is stored |
| Replies.WriteReply | src/rpc/mod.rs:117-148 | the server fills the result with the status, session, adapter and reason of the reply |
| Replies.AnswerExactly | src/transport/client.rs:92-112 | from the written result the client takes over a session iff the reply is no rejection and the text is UTF-8, and then the assigned one; a rejection arrives with its reason |
| Replies.AcceptsExactly | src/transport/client.rs:92-106 | of all results on the wire the client accepts exactly those with a status of accepted or adapter needed and a readable session text, which it takes over |
| Replies.ReplyRoundTrip | src/rpc/mod.rs:117-148 | the written result, read by the enumerants of the schema, gives back status, session, adapter and reason |
| Replies.MismatchNamesVersions | src/rpc/handshake.rs:16-19 | the reason for a rejection names the remote version and then the local one, as decimal numbers that read back |
| Client.AptpClient.SendRequest | src/transport/client.rs:115-161 | fails without a session; otherwise counts the attempt and builds the message of the packet |
| Client.AptpClient.BuildPacket | src/transport/client.rs:120-161 | builds the same message as `Codec.PacketToMessage` for every packet, and panics for the same ones |
| Client.AptpClient.FinalizeRequest | src/transport/client.rs:166-170 | takes the session out of the client, and fails exactly if there is none |
| ClientRun.MoveKeeps | src/transport/client.rs:68-173 | every move of one client, and every step of anyone else, keeps the joint invariant of client and server for the client's session |
| ClientRun.StillLive | src/transport/client.rs:166-173 | until the client's finalize is answered, its session is in the table |
| ClientRun.AcknowledgedAreTheSent | src/transport/client.rs:115-164 | between the calls of such a client, the packets of its session that reached the sink are exactly those it got a true acknowledgement for, in the order it sent them |
| ClientRun.ClientIsPaidBack | src/transport/client.rs:115-173 | a client that labels packets with its own session, used by nobody else, gets from a finished finalize exactly its number of true acknowledgements, and that is the number of its packets in the history of the sink, in every interleaving |
| Xorshift.ThreeUpdates | src/rpc/negotiate.rs:20-22 | the three shift-xor updates in sequence are one step of the generator |
| Xorshift.StepIsBijection | src/rpc/negotiate.rs:20-22 | the state update is a bijection on 64-bit words, with an explicit inverse |
| Xorshift.StepIsLinear | src/rpc/negotiate.rs:20-22 | the state update distributes over xor |
| Xorshift.StateIsLinear | src/rpc/negotiate.rs:19-22 | so does any number of updates |
| Xorshift.StatesNeverMeet | src/rpc/negotiate.rs:19-22 | two generators agree after the same number of turns only if they started alike |
| Xorshift.ZeroOnlyFromZero | src/rpc/negotiate.rs:17-22 | the state is zero after any number of turns if and only if it started at zero |
| Xorshift.CountersSeparateStarts | src/rpc/negotiate.rs:14-17 | equal clock readings with different counters start the generator differently |
| Negotiate.KaimingCounter.FetchAdd | src/rpc/negotiate.rs:14 | returns the counter and advances it by one, wrapping at 64 bits |
| Negotiate.KaimingUniformWeights | src/rpc/negotiate.rs:6-27 | advances the global counter once and returns the weights of the start state drawn from clock and counter |
| Negotiate.Draw | src/rpc/negotiate.rs:17-26 | the loop computes weight k from the state after k + 1 turns, for every k |
| Negotiate.Turn | src/rpc/negotiate.rs:20-22 | the loop body's three updates in place are one step |
| Negotiate.Handle | src/rpc/negotiate.rs:29-47 | refines the negotiated result, with a weight list drawn, and the counter moved, only for unequal non-zero dimensions |
| Negotiate.NegotiatedWeights | src/rpc/negotiate.rs:35-46 | for all unequal non-zero dimensions negotiation answers source * target weights; each squared, times the source dimension, is at most 3, and is 3 on the negative side iff the generator started at zero |
| Negotiate.NegotiationsDiffer | src/rpc/negotiate.rs:10-24 | two negotiations with one clock reading and different counters differ in every weight |
| Negotiate.UnitsEvenly | src/rpc/negotiate.rs:23 | the 64-bit states are spread evenly over the range of the weights |
| Negotiate.WeightsWithinBound | src/rpc/negotiate.rs:23-24 | every weight lies in [-bound, bound] |
| Negotiate.BoundSquared | src/rpc/negotiate.rs:7 | for a non-zero input dimension the bound is positive and its square times the dimension is 3 |
| Negotiate.ExtremesExactly | src/rpc/negotiate.rs:17-24 | weight k equals -bound iff the generator started at zero, and bound iff k + 1 turns lead to the all-ones state |
| Negotiate.SameClockDifferentWeights | src/rpc/negotiate.rs:10-24 | two calls with the same clock reading and different counters differ in every weight |
| Negotiate.NegotiatedIsAccepted | src/rpc/negotiate.rs:35-46 | for all non-zero dimensions the negotiated variant and weights build an adapter with those dimensions that adapts every vector of the source dimension |
| Negotiate.EqualDimensionsMeanIdentity | src/rpc/negotiate.rs:41-42 | for equal dimensions the negotiated adapter is the one `Identity` builds |
| Alignment.NegotiateAlignment | src/rpc/mod.rs:175-213 | reads the request, then replies with every negotiated weight or panics on the truncated list length; the counter moves exactly when weights are drawn |
| Alignment.ReplyArrivesExactly | src/rpc/mod.rs:181-210 | the reply arrives iff the request can be read and both dimensions are non-zero and equal or with a product below 2^32; it then carries the negotiated variant and every weight, and builds an adapter between the dimensions asked for |
| LinearProjection.Adapt | src/adapter/linear.rs:27-45 | the in-place loop computes the row-by-row product, and fails exactly for a wrong length or too few weights |
| LinearProjection.NewIsSound | src/adapter/linear.rs:11-20 | an accepted weight list has exactly rows times columns entries if and only if that product fits the machine word |
| LinearProjection.NewKeepsWeights | src/adapter/linear.rs:11-20 | a list of the expected length is stored as it came, with its dimensions |
| LinearProjection.ProjectAt | src/adapter/linear.rs:36-42 | component i is the dot product of the weights from i * source_dim on with the input |
| LinearProjection.FitsExactly | src/adapter/linear.rs:37-38 | the rows fit the weights, one after the other, iff rows times columns is at most their number |
| LinearProjection.ProjectIsLinear | src/adapter/linear.rs:34-44 | adapting is linear in the input |
| LinearProjection.ProductAt | src/adapter/linear.rs:36-42 | entry (i, j) of the flattened product is the sum over k of w2[i, k] * w1[k, j], by flat indices |
| LinearProjection.ProjectCompose | src/adapter/linear.rs:34-44 | projecting twice is projecting once with the flattened product |
| Adapter.ProjectionAt | src/adapter/linear.rs:27-45 | component i of what an adapter built by `from_spec` from projection weights answers is the dot product of the weights from i * source_dim on with the input |
| Adapter.IdentityMatrix | src/adapter/linear.rs:52-59 | built from the identity matrix of any size, it returns every input |
| Adapter.ProjectionsCompose | src/adapter/mod.rs:21-23 | two adapters built by `from_spec`, in turn, are the one built from the flattened product of their weights |
| LinearProjection.AdapterComposition | src/adapter/linear.rs:27-45 | adapting by one adapter and then the next is adapting by the single adapter of the product weights, which are as many as its dimensions ask for |
| NormMatch.OutputNorm | src/adapter/norm_match.rs:13-17 | above the floor the output norm is the absolute target norm and the output lies along the input, against it for a negative target; otherwise the input is returned |
| NormMatch.IdempotentExactly | src/adapter/norm_match.rs:13-17 | adapting twice is adapting once iff the input is at most at the floor or the target norm is at least minus the floor |
| NormMatch.UnchangedExactly | src/adapter/norm_match.rs:13-17 | the input is returned unchanged iff its norm is at most the floor or equals the target norm |
| Adapter.IdentityIsUnitRescaler | src/adapter/mod.rs:18-20 | the adapter for `Identity` returns its input iff the norm is 1 or at most the floor |
| Adapter.NormMatchFromSpec | src/adapter/mod.rs:24-27 | the output norm is the size of the only weight, or 1 when there is not exactly one, and a negative weight turns the vector round |
| Probe.Accumulate | src/validation/probe.rs:19-24 | a row is added entry by entry over the common prefix, the first non-empty row fixing the length |
| Probe.Load | src/validation/probe.rs:9-40 | the loading loops compute the normalised column sums, and fail exactly for an unreadable, malformed or row-free file |
| Probe.Normalise | src/validation/probe.rs:33-37 | dividing in place yields the mean scaled to norm 1 unless it is zero |
| Probe.CentroidIsDirection | src/validation/probe.rs:33-37 | the centroid is the direction of the column sums; the row count cancels |
| Probe.LoadedCentroid | src/validation/probe.rs:32-39 | a loaded centroid has norm 1, or is zero exactly when the column sums are, and is the direction of those sums |
| Probe.LoadsExactly | src/validation/probe.rs:10-30 | a file loads iff it can be read, no line is malformed and there is a row |
| Probe.AppendedRow | src/validation/probe.rs:19-25 | the first non-empty row is the sum; a further row adds component by component, missing ones adding nothing and surplus ones ignored |
| Probe.SingleRow | src/validation/probe.rs:16-39 | a file with one row loads the direction of that row |
| Probe.SameDirectionSameProbe | src/validation/probe.rs:16-39 | files whose column sums agree up to a positive factor load the same probe |
| Probe.DuplicatedFile | src/validation/probe.rs:16-39 | repeating the whole file changes nothing, errors included |
| Probe.ExtraEmptyRow | src/validation/probe.rs:16-39 | an empty vector anywhere in a file that loads changes nothing |
| Probe.ReorderedFileExactly | src/validation/probe.rs:16-39 | files with the same rows in another order load the same probe iff their first non-empty rows have the same length |
| Probe.ReorderedFile | src/validation/probe.rs:16-39 | so the order of rows of equal length never matters |
| Probe.CosineRange | src/validation/probe.rs:42-49 | against a loaded centroid the cosine is within [-1, 1] |
| Probe.CosineExactly | src/validation/probe.rs:42-49 | against a loaded non-zero centroid, for vectors of its dimension from the floor on: the cosine is 1 iff the vector is a positive multiple of the centroid, -1 iff a negative one, 0 iff orthogonal |
| Probe.CosineIsAdditive | src/validation/probe.rs:42-49 | the cosine times the norm is additive in the vector, from the floor on |
| Probe.SumsHaveCosineOne | src/validation/probe.rs:32-48 | the column sums of the file a probe was loaded from have cosine 1 |
| Probe.CosineOfScaled | src/validation/probe.rs:42-49 | positive scaling keeps the cosine while both norms are at least the floor |
| Gate.ConfiguredAcceptsExactly | src/validation/gate.rs:16-52 | the firewall `new` builds fails iff the probe does not load, and else accepts a payload iff each of its vectors passes the configured norm and, with a probe path, the configured cosine |
| Gate.RefusalReports | src/validation/gate.rs:25-50 | a refusal is about the first vector that fails, with its norm, and its cosine when the norm was not to blame |
| Gate.IncomparableAcceptedExactly | src/validation/probe.rs:43-48 | a vector of another length or below the floor passes the cosine gate iff the threshold is not positive |
| Gate.AcceptedIsConvex | src/validation/gate.rs:25-52 | without a probe, every weighted mean of two accepted payloads of a kind and size is accepted, KV caches included |
| Gate.ShrunkAcceptedExactly | src/validation/gate.rs:25-38 | an accepted vector shrunk by 0 < k <= 1 stays accepted iff there is no probe, the norm stays at the floor or above, or cosine 0 passes |
| Gate.ExtremeThresholds | src/validation/gate.rs:16-38 | for every firewall `new` builds, a threshold of at most -1 makes the cosine gate idle and one above 1 refuses everything |
| Pipeline.ProjectedEnergy | src/rpc/negotiate.rs:6-27 | an accepted vector projected by any Kaiming weights has squared norm at most 3 * target_dim * l2_norm_max^2, and the projection answers iff the weight count fits the machine word |
| Pipeline.NegotiatedEnergy | src/rpc/negotiate.rs:29-47 | end to end, for all unequal non-zero dimensions: the adapter built from what negotiation answers turns every accepted vector into one of the target dimension with squared norm at most 3 * target_dim * l2_norm_max^2 |
| Pipeline.RescalingKeepsCosine | src/adapter/norm_match.rs:13-17 | matching to a norm of at least the floor keeps the cosine of every vector above it |
| Pipeline.RescaledAcceptedExactly | src/validation/gate.rs:25-38 | the gate accepts a norm-matched vector iff the target norm and the cosine before matching pass |
| Vectors.CauchySchwarz | src/adapter/linear.rs:38-42 | the squared dot product is at most the product of the squared norms, for vectors of any length |
| Vectors.Triangle | src/validation/gate.rs:26 | the norm of a sum is at most the sum of the norms |
| Wire.FillList | src/rpc/mod.rs:206-209 | allocating by the truncated length and setting every index gives back the list iff it is shorter than 2^32, and panics otherwise |
| Codec.PacketToMessage | src/primitives.rs:206-249 | the builder, field by field and list by list, yields the message that stands for the packet, and panics exactly when a list is too long |
| Codec.PacketRoundTrip | src/primitives.rs:145-249 | reading the written message gives back the packet bit for bit in all payload kinds; only a string that is no UTF-8 cannot be read back |
| Codec.ReadExactly | src/primitives.rs:145-204 | a message is read as a packet iff each field, by the schema, stands for the packet's: null for empty, garbage, bad text or an unknown payload kind for none |
| Codec.AcceptedMessageNormalises | src/primitives.rs:145-204 | rewriting any accepted message and reading it again gives the same packet |
| Codec.CardFromMessage | src/primitives.rs:257-285 | the reading loop yields all capabilities in order or the error of the first one that cannot be read |
| Codec.FirstBadText | src/primitives.rs:278-281 | the first unreadable capability decides the error whatever follows |
| Codec.CardRoundTrip | src/primitives.rs:257-285 | an agent card written by the client is read back as it was |
| Codec.CardReadExactly | src/primitives.rs:257-285 | a message is read as a card iff each field stands for the card's; one unreadable capability spoils it |
| Provenance.ComputeProvenanceHash | src/primitives.rs:66-86 | the incremental hasher digests sender, fingerprint and the payload prefix, in this order |
| Provenance.DigestedBytes | src/primitives.rs:71-84 | which byte stands at each offset of what is digested: sender id, fingerprint, then four bytes for each of the first 256 elements or 64 keys |
| Provenance.LowestByteFirst | src/primitives.rs:75-81 | the four bytes of an element are those of its bit pattern, lowest first |
| Provenance.TagsAgreeExactly | src/primitives.rs:66-86 | for an injective digest and equal sender and fingerprint lengths, tags are equal iff sender, fingerprint and hashed prefix are |
| Provenance.TamperingDetectedExactly | src/primitives.rs:95-105 | a fresh tag verifies; after one element changes it fails iff the index is below 256 of a vector or below 64 of the keys |
| Backend.LlamaCppBackend.Infer | src/backend/llama.rs:147-187 | the cursor advances by the batch exactly when the decode returned 0, even if the logits are then missing; the ranges decoded so far tile [0, n_past) iff all fit a signed int; the snapshot or the error is determined |
| Backend.LlamaCppBackend.CaptureHiddenStates | src/backend/llama.rs:200-221 | the loop returns the states of the available layers in order, or the one embedding when it is on and there |
| Backend.DecodesTileExactly | src/backend/llama.rs:147-166 | the ranges of the decodes that returned 0 tile [0, n_past) without gap or overlap iff every cursor and batch handed over fits a signed int |
| Backend.PositionExactly | src/backend/llama.rs:211-217 | the i-th captured layer is at least i, and is i iff every lower layer is available |
| Backend.RequestedLayerExactly | src/backend/llama.rs:299-307 | the packet for index L carries the buffer of layer L iff L is available and either every lower layer is or no higher one is |
| Backend.EmbeddingExactly | src/backend/llama.rs:203-208 | with embeddings on, a returned embedding is all that is captured and goes with every layer index; without one the layers are captured as if embeddings were off |
| Backend.CapturedKvExactly | src/backend/llama.rs:227-253 | a cache is captured iff keys and values are there, as those of the last layer, panics iff there are then no heads, and is shaped one by heads by n_past by the whole head width, counting at most n_past * n_embd elements, all of them iff n_past is 0 or the heads divide n_embd |
| Delivery.SnapshotArrives | src/backend/llama.rs:315-323 | a packet made from a snapshot is admitted iff its texts are UTF-8 and its lists pass, is then counted under the session it was made for and no other, and carries its sender, fingerprint, layer index, sequence id and time |
| Delivery.ClientMaySendSnapshot | src/transport/client.rs:115-161 | an idle client may send such a packet as its own iff it was made for the client's session and its lists fit |

## Left out

- KaimingUniformWeights: over exact reals; rounding, `f32` overflow, NaN and `u64::MAX as f32` (which rounds to 2^64) are not modelled, here or anywhere in the numeric pipeline.
- KaimingUniformWeights: an input dimension of 0 gets the bound 0 instead of infinity; there is then no weight to scale.
- LinearProjection.New: the product of two `usize` wraps as in a release build; a debug build panics there instead. The same holds for the cursor in `Infer`, `ElementCount` and `KaimingUniformWeights`.
- Increment: the count is a natural number; its wrap-around after 2^64 packets, and that of the client's sequence counter, is not modelled.
- Open: that a UUID is never drawn twice is a precondition, and the clock reading is a parameter.
- ClientIsPaidBack: the client is a value beside the server's state, and opens one session; a second session of the same client object is a second client. A packet too large for a message never reaches the wire; the size of a card is not limited there.
- ComputeProvenanceHash: SHA-256 is a parameter, assumed injective only where the lemma says so.
- LowestByteFirst: the source digests the bytes of a float as they stand in memory; the order is that of a little-endian machine.
- PacketToMessage: stops at the message tree. The packed byte format, its own list limit below 2^32, segment allocation and traversal limits belong to the Cap'n Proto library.
- CapturedKvExactly: the pointers and lengths from the C side are parameters, and reading through them is taken to be safe.
- WriteReply: leaves out the server card inside the handshake result, which no modelled code reads. The results of the other calls are a bool and a count, and reading them is taken to succeed.
- HandleUntilSend: an unreadable parameter struct and an unreadable field of it are one case, since both fail the call in the same way.
- TCP, the RPC system, TLS, the async runtime, tracing and the binaries.
- TOML and JSON parsing, file reading and configuration defaults; a probe file enters as its parsed lines.
- UTF-8 itself, which is a predicate on byte strings.
- Model loading, the model fingerprint, the family name and the C shim.
- `fairness_score` beyond being carried along, `fairness_threshold`, `max_frame_bytes` and `connect_timeout_ms`, on which nothing here depends.
