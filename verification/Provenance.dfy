// The provenance tag (src/primitives.rs:66-105). The digest is a parameter.

module Provenance {
  import opened Errors
  import opened Primitives

  const VECTOR_PREFIX: nat := 256
  const KEYS_PREFIX: nat := 64

  /** The incremental hasher: it digests the concatenation of everything it was fed. */
  class Hasher {
    var absorbed: seq<byte>

    constructor ()
      ensures absorbed == []
    {
      absorbed := [];
    }

    method Update(bytes: seq<byte>)
      modifies this
      ensures absorbed == old(absorbed) + bytes
    {
      absorbed := absorbed + bytes;
    }
  }

  function Min(a: nat, b: nat): nat {
    if a < b then a else b
  }

  /** The payload elements that enter the hash. */
  function HashedPrefix(payload: PrimitivePayload<F32>): seq<F32> {
    match payload
    case HiddenState(v) => v[..Min(|v|, VECTOR_PREFIX)]
    case LatentThought(v) => v[..Min(|v|, VECTOR_PREFIX)]
    case KvCachePayload(kv) => kv.keys[..Min(|kv.keys|, KEYS_PREFIX)]
  }

  /** The four bytes of a float, in little-endian order. */
  function FloatBytes(f: F32): (b: seq<byte>)
    ensures |b| == 4
  {
    [(f & 0xFF) as byte, ((f >> 8) & 0xFF) as byte, ((f >> 16) & 0xFF) as byte, (f >> 24) as byte]
  }

  function Bytes(v: seq<F32>): (b: seq<byte>)
    ensures |b| == 4 * |v|
  {
    if v == [] then [] else FloatBytes(v[0]) + Bytes(v[1..])
  }

  function HashInput(p: PrimitivePacket): seq<byte> {
    p.senderId + p.modelFingerprint + Bytes(HashedPrefix(p.payload))
  }

  function ProvenanceHash(digest: seq<byte> -> seq<byte>, p: PrimitivePacket): seq<byte> {
    digest(HashInput(p))
  }

  method ComputeProvenanceHash(digest: seq<byte> -> seq<byte>, p: PrimitivePacket) returns (hash: seq<byte>)
    ensures hash == ProvenanceHash(digest, p)
  {
    var h := new Hasher();
    h.Update(p.senderId);
    h.Update(p.modelFingerprint);
    h.Update(Bytes(HashedPrefix(p.payload)));
    assert [] + p.senderId == p.senderId;
    hash := digest(h.absorbed);
  }

  datatype TaggedPrimitive = TaggedPrimitive(provenanceHash: seq<byte>, fairnessScore: real, payload: PrimitivePacket)

  function Tag(digest: seq<byte> -> seq<byte>, p: PrimitivePacket, fairnessScore: real): TaggedPrimitive {
    TaggedPrimitive(ProvenanceHash(digest, p), fairnessScore, p)
  }

  predicate VerifyProvenance(digest: seq<byte> -> seq<byte>, t: TaggedPrimitive) {
    ProvenanceHash(digest, t.payload) == t.provenanceHash
  }

  // ----- what the tag binds

  ghost predicate Injective(digest: seq<byte> -> seq<byte>) {
    forall a, b :: digest(a) == digest(b) ==> a == b
  }

  lemma FloatBytesInjective(f: F32, g: F32)
    requires FloatBytes(f) == FloatBytes(g)
    ensures f == g
  {
    var b, c := FloatBytes(f), FloatBytes(g);
    assert b[0] == c[0] && b[1] == c[1] && b[2] == c[2] && b[3] == c[3];
  }

  lemma {:induction false} BytesInjective(v: seq<F32>, w: seq<F32>)
    requires Bytes(v) == Bytes(w)
    ensures v == w
  {
    assert |v| == |w|;
    if v != [] {
      assert Bytes(v)[..4] == FloatBytes(v[0]) && Bytes(w)[..4] == FloatBytes(w[0]);
      assert Bytes(v)[4..] == Bytes(v[1..]) && Bytes(w)[4..] == Bytes(w[1..]);
      FloatBytesInjective(v[0], w[0]);
      BytesInjective(v[1..], w[1..]);
      assert v == [v[0]] + v[1..] && w == [w[0]] + w[1..];
    }
  }

  /** A float is digested with its lowest byte first. */
  lemma LowestByteFirst(f: F32)
    ensures var b := FloatBytes(f);
            f == (b[0] as F32) | (b[1] as F32 << 8) | (b[2] as F32 << 16) | (b[3] as F32 << 24)
  {
  }

  lemma {:induction false} BytesAt(v: seq<F32>, i: nat, j: nat)
    requires i < |v| && j < 4
    ensures Bytes(v)[4 * i + j] == FloatBytes(v[i])[j]
  {
    var head, tail := FloatBytes(v[0]), Bytes(v[1..]);
    if i > 0 {
      BytesAt(v[1..], i - 1, j);
      assert (head + tail)[4 * i + j] == tail[4 * (i - 1) + j];
    }
  }

  /** Byte by byte: first the sender id, then the fingerprint, then four bytes for each of the first 256
      elements of a vector or of the first 64 keys. */
  lemma DigestedBytes(p: PrimitivePacket, k: nat)
    ensures var s, f := |p.senderId|, |p.modelFingerprint|;
            var covered := match p.payload
                           case HiddenState(v) => if |v| < 256 then v else v[..256]
                           case LatentThought(v) => if |v| < 256 then v else v[..256]
                           case KvCachePayload(kv) => if |kv.keys| < 64 then kv.keys else kv.keys[..64];
            |HashInput(p)| == s + f + 4 * |covered|
            && (k < s ==> HashInput(p)[k] == p.senderId[k])
            && (s <= k < s + f ==> HashInput(p)[k] == p.modelFingerprint[k - s])
            && forall i, j :: 0 <= i < |covered| && 0 <= j < 4 && k == s + f + 4 * i + j ==>
                 HashInput(p)[k] == FloatBytes(covered[i])[j]
  {
    var v := HashedPrefix(p.payload);
    var at := |p.senderId| + |p.modelFingerprint|;
    forall i, j | 0 <= i < |v| && 0 <= j < 4 && k == at + 4 * i + j
      ensures HashInput(p)[k] == FloatBytes(v[i])[j]
    {
      BytesAt(v, i, j);
      assert HashInput(p)[k] == Bytes(v)[k - at];
    }
  }

  /** For equal lengths of sender id and fingerprint, equal tags mean equal sender, fingerprint and
      hashed prefix, and nothing else. */
  lemma TagsAgreeExactly(digest: seq<byte> -> seq<byte>, p: PrimitivePacket, q: PrimitivePacket)
    requires Injective(digest)
    requires |p.senderId| == |q.senderId| && |p.modelFingerprint| == |q.modelFingerprint|
    ensures ProvenanceHash(digest, p) == ProvenanceHash(digest, q)
       <==> p.senderId == q.senderId && p.modelFingerprint == q.modelFingerprint
            && HashedPrefix(p.payload) == HashedPrefix(q.payload)
  {
    if ProvenanceHash(digest, p) == ProvenanceHash(digest, q) {
      var a, b := HashInput(p), HashInput(q);
      assert a == b;
      var i, j := |p.senderId|, |p.senderId| + |p.modelFingerprint|;
      assert a[..i] == p.senderId && b[..i] == q.senderId;
      assert a[i..j] == p.modelFingerprint && b[i..j] == q.modelFingerprint;
      assert a[j..] == Bytes(HashedPrefix(p.payload)) && b[j..] == Bytes(HashedPrefix(q.payload));
      BytesInjective(HashedPrefix(p.payload), HashedPrefix(q.payload));
    }
  }

  /** The place of one payload element. */
  datatype Element = InVector(i: nat) | InKeys(i: nat) | InValues(i: nat)

  predicate HasElement(payload: PrimitivePayload<F32>, e: Element) {
    match (payload, e)
    case (HiddenState(v), InVector(i)) => i < |v|
    case (LatentThought(v), InVector(i)) => i < |v|
    case (KvCachePayload(kv), InKeys(i)) => i < |kv.keys|
    case (KvCachePayload(kv), InValues(i)) => i < |kv.values|
    case _ => false
  }

  function ElementAt(payload: PrimitivePayload<F32>, e: Element): F32
    requires HasElement(payload, e)
  {
    match payload
    case HiddenState(v) => v[e.i]
    case LatentThought(v) => v[e.i]
    case KvCachePayload(kv) => if e.InKeys? then kv.keys[e.i] else kv.values[e.i]
  }

  function Replaced(payload: PrimitivePayload<F32>, e: Element, x: F32): PrimitivePayload<F32>
    requires HasElement(payload, e)
  {
    match payload
    case HiddenState(v) => HiddenState(v[e.i := x])
    case LatentThought(v) => LatentThought(v[e.i := x])
    case KvCachePayload(kv) =>
      if e.InKeys? then KvCachePayload(kv.(keys := kv.keys[e.i := x]))
      else KvCachePayload(kv.(values := kv.values[e.i := x]))
  }

  /** The elements the tag covers: 256 of a vector, 64 of the keys, none of the values. */
  predicate Covered(e: Element) {
    match e
    case InVector(i) => i < VECTOR_PREFIX
    case InKeys(i) => i < KEYS_PREFIX
    case InValues(_) => false
  }

  lemma PrefixOfReplaced(payload: PrimitivePayload<F32>, e: Element, x: F32)
    requires HasElement(payload, e) && ElementAt(payload, e) != x
    ensures HashedPrefix(Replaced(payload, e, x)) == HashedPrefix(payload) <==> !Covered(e)
  {
    var before, after := HashedPrefix(payload), HashedPrefix(Replaced(payload, e, x));
    if Covered(e) {
      assert before[e.i] == ElementAt(payload, e) && after[e.i] == x;
    }
  }

  /** After one element of a freshly tagged packet is replaced by a different bit pattern,
      verification fails exactly when the tag covers that element. */
  lemma TamperingDetectedExactly(digest: seq<byte> -> seq<byte>, p: PrimitivePacket, score: real, e: Element, x: F32)
    requires Injective(digest) && HasElement(p.payload, e) && ElementAt(p.payload, e) != x
    ensures var t := Tag(digest, p, score);
            VerifyProvenance(digest, t)
            && (VerifyProvenance(digest, t.(payload := p.(payload := Replaced(p.payload, e, x)))) <==> !Covered(e))
  {
    var q := p.(payload := Replaced(p.payload, e, x));
    TagsAgreeExactly(digest, q, p);
    PrefixOfReplaced(p.payload, e, x);
  }
}
