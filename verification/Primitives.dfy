// The packet types (src/primitives.rs). Payload elements are generic: the codec and the provenance
// tag see `f32` bit patterns, the firewall sees the reals they stand for.

module Primitives {
  import opened Errors

  type F32 = bv32

  /** The bytes of an ASCII literal. */
  function Ascii(s: string): Text {
    seq(|s|, i requires 0 <= i < |s| => (s[i] as int % 128) as byte)
  }

  const DIGITS: Text := [0x30, 0x31, 0x32, 0x33, 0x34, 0x35, 0x36, 0x37, 0x38, 0x39]

  /** `n` in decimal digits. */
  function Decimal(n: nat): Text {
    if n < 10 then [DIGITS[n]] else Decimal(n / 10) + [DIGITS[n % 10]]
  }

  const APTP_VERSION: u32 := 1

  datatype Shape = Shape(dims: seq<u32>)

  /** `element_count`, as the wrapping product of 64-bit words. */
  function ElementCount(dims: seq<u32>): usize {
    if dims == [] then 1 else (dims[0] * ElementCount(dims[1..])) % U64_LIMIT
  }

  datatype KvCache<F> = KvCache(layerIdx: u16, keys: seq<F>, values: seq<F>, shape: Shape)

  datatype PrimitivePayload<F> =
    | HiddenState(state: seq<F>)
    | KvCachePayload(kv: KvCache<F>)
    | LatentThought(thought: seq<F>)

  datatype Metadata = Metadata(timestampNs: u64, sequenceId: u64, sessionId: Text, compressionAlg: Text)

  datatype PrimitivePacket = PrimitivePacket(
    version: u32,
    senderId: Text,
    modelFingerprint: seq<byte>,
    layerIndex: u16,
    payload: PrimitivePayload<F32>,
    shape: Shape,
    metadata: Metadata)

  datatype AgentCard = AgentCard(
    agentId: Text,
    aptpVersion: u32,
    hiddenSize: u32,
    numLayers: u32,
    numHeads: u32,
    vocabSize: u32,
    modelFamily: Text,
    capabilities: seq<Text>)

  function MapSeq<A, B>(f: A -> B, s: seq<A>): (r: seq<B>)
    ensures |r| == |s|
  {
    seq(|s|, i requires 0 <= i < |s| => f(s[i]))
  }

  /** The payload of reals behind a payload of bit patterns. */
  function Decoded(value: F32 -> real, payload: PrimitivePayload<F32>): PrimitivePayload<real> {
    match payload
    case HiddenState(v) => HiddenState(MapSeq(value, v))
    case KvCachePayload(kv) =>
      KvCachePayload(KvCache(kv.layerIdx, MapSeq(value, kv.keys), MapSeq(value, kv.values), kv.shape))
    case LatentThought(v) => LatentThought(MapSeq(value, v))
  }
}
