// `negotiate_alignment` (src/rpc/mod.rs:175-213): negotiation, and copying the weights into the reply.

module Alignment {
  import opened Errors
  import opened Vectors
  import opened Wire
  import opened Xorshift
  import opened Negotiate
  import Adapter

  datatype NegotiateRequest =
    NegotiateRequest(sourceDim: u32, targetDim: u32, sourceFamily: Pointer<Text>, targetFamily: Pointer<Text>)

  datatype SpecMessage =
    SpecMessage(adapterType: Adapter.AdapterVariant, sourceDim: u32, targetDim: u32, weights: Vector)

  /** The request as it is read. The family names must be readable and are then ignored; a name that is
      no UTF-8 is no error. */
  function Read(request: Pointer<NegotiateRequest>): Result<NegotiateRequest> {
    var p :- Get(request, NegotiateRequest(0, 0, Null, Null));
    var _ :- Get(p.sourceFamily, []);
    var _ :- Get(p.targetFamily, []);
    Ok(p)
  }

  /** The reply: copying more than 2^32 - 1 weights panics on the truncated list length. */
  function SpecReply(sqrt: real -> real, start: bv64, request: Pointer<NegotiateRequest>): Result<SpecMessage> {
    var p :- Read(request);
    var r :- Negotiated(sqrt, start, p.sourceDim, p.targetDim);
    if |r.1| < U32_LIMIT then Ok(SpecMessage(r.0, p.sourceDim, p.targetDim, r.1)) else Err(Panicked)
  }

  /** Weights are drawn for two unequal non-zero dimensions, even if they then do not fit the reply. */
  predicate Draws(request: Pointer<NegotiateRequest>) {
    var p := Read(request);
    p.Ok? && p.value.sourceDim != 0 && p.value.targetDim != 0 && p.value.sourceDim != p.value.targetDim
  }

  method NegotiateAlignment(
    counter: KaimingCounter, timeSeed: bv64, sqrt: real -> real, request: Pointer<NegotiateRequest>)
    returns (reply: Result<SpecMessage>)
    modifies counter
    ensures reply == SpecReply(sqrt, Start(timeSeed, old(counter.value)), request)
    ensures counter.value == if Draws(request) then old(counter.value) + 1 else old(counter.value)
  {
    var p :- Get(request, NegotiateRequest(0, 0, Null, Null));
    var sourceFamily :- Get(p.sourceFamily, []);
    var targetFamily :- Get(p.targetFamily, []);
    var negotiated :- Negotiate.Handle(counter, timeSeed, sqrt, p.sourceDim, p.targetDim);
    var weights :- FillList(0.0, negotiated.1);
    return Ok(SpecMessage(negotiated.0, p.sourceDim, p.targetDim, weights));
  }

  /** A request that is no pointer to garbage, and whose family names are none either. */
  predicate Readable(request: Pointer<NegotiateRequest>) {
    match request
    case Null => true
    case Malformed => false
    case To(p) => !p.sourceFamily.Malformed? && !p.targetFamily.Malformed?
  }

  /** The dimensions of a request: both 0 if there is none. */
  function Asked(request: Pointer<NegotiateRequest>): (u32, u32) {
    match request
    case To(p) => (p.sourceDim, p.targetDim)
    case _ => (0, 0)
  }

  /** The reply arrives exactly when the request can be read, both dimensions are non-zero and they are
      equal or their product is below 2^32. It then carries what negotiation answered, every weight
      included, under the dimensions asked for, and builds an adapter between them. */
  lemma ReplyArrivesExactly(sqrt: real -> real, start: bv64, request: Pointer<NegotiateRequest>)
    ensures var (source, target) := Asked(request);
            var reply := SpecReply(sqrt, start, request);
            (reply.Ok? <==>
               Readable(request) && source != 0 && target != 0 && (source == target || source * target < U32_LIMIT))
            && (reply.Ok? ==>
                  var spec, local := reply.value, Negotiated(sqrt, start, source, target).value;
                  var a := Adapter.FromSpec(spec.adapterType, spec.sourceDim, spec.targetDim, spec.weights);
                  spec.weights == local.1 && spec.adapterType == local.0
                  && a.Ok? && a.value.SourceDim() == source && a.value.TargetDim() == target)
  {
    var (source, target) := Asked(request);
    ProductOfU32(source, target);
  }
}
