// Cap'n Proto messages as trees (schemas/aptp.capnp). A pointer field is null, malformed or set; a
// list has the length it was allocated with.

module Wire {
  import opened Errors
  import opened Primitives

  datatype Pointer<+T> = Null | Malformed | To(target: T)

  /** Reading a pointer field: null reads as the default, a malformed pointer is an error. */
  function Get<T>(p: Pointer<T>, default: T): Result<T> {
    match p
    case Null => Ok(default)
    case Malformed => Err(Rpc)
    case To(t) => Ok(t)
  }

  datatype ShapeMessage = ShapeMessage(dims: Pointer<seq<u32>>)

  datatype KvMessage = KvMessage(
    layerIdx: u16,
    keys: Pointer<seq<F32>>,
    values: Pointer<seq<F32>>,
    shape: Pointer<ShapeMessage>)

  datatype MetadataMessage =
    MetadataMessage(timestampNs: u64, sequenceId: u64, sessionId: Pointer<Text>, compressionAlg: Pointer<Text>)

  /** What the pointer slot shared by the members of the union can hold. */
  datatype Slot = FloatList(floats: seq<F32>) | KvStruct(kv: KvMessage)

  const HIDDEN_STATE_TAG: u16 := 0
  const KV_CACHE_TAG: u16 := 1
  const LATENT_THOUGHT_TAG: u16 := 2

  datatype PacketMessage = PacketMessage(
    version: u32,
    senderId: Pointer<Text>,
    modelFingerprint: Pointer<seq<byte>>,
    layerIndex: u16,
    tag: u16,
    slot: Pointer<Slot>,
    shape: Pointer<ShapeMessage>,
    metadata: Pointer<MetadataMessage>)

  datatype InvariantsMessage =
    InvariantsMessage(hiddenSize: u32, numLayers: u32, numHeads: u32, vocabSize: u32, modelFamily: Pointer<Text>)

  datatype CardMessage = CardMessage(
    agentId: Pointer<Text>,
    aptpVersion: u32,
    invariants: Pointer<InvariantsMessage>,
    capabilities: Pointer<seq<Pointer<Text>>>,
    publicKey: Pointer<seq<byte>>)

  datatype ReplyMessage = ReplyMessage(
    status: u16,
    assignedSession: Pointer<Text>,
    adapterRequired: u16,
    rejectionReason: Pointer<Text>)

  /** `init_list(v.len() as u32)` followed by `for (i, x) in v { list.set(i as u32, x) }`: a list of
      zeros whose length is the truncated length, filled in order; `set` panics outside it. */
  method FillList<T(0)>(zero: T, v: seq<T>) returns (r: Result<seq<T>>)
    ensures r == if |v| < U32_LIMIT then Ok(v) else Err(Panicked)
  {
    var n := AsU32(|v|);
    var list := new T[n](_ => zero);
    for i := 0 to |v|
      invariant i <= n
      invariant list[..i] == v[..i]
    {
      var at := AsU32(i);
      if at >= n {
        return Err(Panicked);
      }
      list[at] := v[i];
    }
    assert n == |v| && list[..] == list[..n] == v;
    return Ok(list[..]);
  }
}
