// Accounting in the llama.cpp backend (src/backend/llama.rs). What the C side returns is a parameter.

module Backend {
  import opened Errors
  import opened Primitives

  const I32_LIMIT: nat := 0x8000_0000

  /** `x as c_int`. */
  function AsI32(x: nat): int {
    var y := x % U32_LIMIT;
    if y < I32_LIMIT then y else y - U32_LIMIT
  }

  // ----- the decode cursor

  /** A decode the C side was asked for: where it starts and how many tokens it covers. */
  datatype Decode = Decode(start: int, len: int)

  /** The cursor after successful decodes of the given sizes: a wrapping 32-bit sum. */
  function Cursor(counts: seq<u32>): u32 {
    if counts == [] then
      0
    else
      (Cursor(counts[..|counts| - 1]) + counts[|counts| - 1]) % U32_LIMIT
  }

  /** The ranges handed to those decodes, through casts to a signed int. */
  function Ranges(counts: seq<u32>): (r: seq<Decode>)
    ensures |r| == |counts|
  {
    if counts == [] then
      []
    else
      var init, last := counts[..|counts| - 1], counts[|counts| - 1];
      Ranges(init) + [Decode(AsI32(Cursor(init)), AsI32(last))]
  }

  /** The ranges follow one another without gap or overlap from 0 to `end`. */
  predicate Tile(ranges: seq<Decode>, end: int) {
    if ranges == [] then
      end == 0
    else
      var last := ranges[|ranges| - 1];
      last.len >= 0 && last.start + last.len == end && Tile(ranges[..|ranges| - 1], last.start)
  }

  /** Before every decode the cursor and the number of new tokens fit a signed int. */
  predicate FitsInt(counts: seq<u32>) {
    forall i :: 0 <= i < |counts| ==> Cursor(counts[..i]) < I32_LIMIT && counts[i] < I32_LIMIT
  }

  lemma {:induction false} TileEndsAfterZero(ranges: seq<Decode>, end: int)
    requires Tile(ranges, end)
    ensures end >= 0
  {
    if ranges != [] {
      TileEndsAfterZero(ranges[..|ranges| - 1], ranges[|ranges| - 1].start);
    }
  }

  lemma FitsIntSnoc(counts: seq<u32>)
    requires counts != []
    ensures var init, last := counts[..|counts| - 1], counts[|counts| - 1];
            FitsInt(counts) <==> FitsInt(init) && Cursor(init) < I32_LIMIT && last < I32_LIMIT
  {
    var init := counts[..|counts| - 1];
    assert forall i :: 0 <= i < |init| ==> init[..i] == counts[..i] && init[i] == counts[i];
  }

  /** The ranges of the decodes that returned 0 tile [0, n_past) exactly as long as every cursor and
      every batch handed to the C side fits its signed int. */
  lemma {:induction false} DecodesTileExactly(counts: seq<u32>)
    ensures Tile(Ranges(counts), Cursor(counts)) <==> FitsInt(counts)
  {
    if counts != [] {
      var init, last := counts[..|counts| - 1], counts[|counts| - 1];
      FitsIntSnoc(counts);
      DecodesTileExactly(init);
      OneMoreDecode(Ranges(init), Cursor(init), last);
      assert Ranges(counts) == Ranges(init) + [Decode(AsI32(Cursor(init)), AsI32(last))];
      assert Cursor(counts) == (Cursor(init) + last) % U32_LIMIT;
    }
  }

  lemma AsI32OfU32(x: u32)
    ensures AsI32(x) == if x < I32_LIMIT then x else x - U32_LIMIT
  {
  }

  lemma SumWraps(a: u32, b: u32)
    ensures (a + b) % U32_LIMIT == if a + b < U32_LIMIT then a + b else a + b - U32_LIMIT
  {
  }

  lemma OneMoreDecode(ranges: seq<Decode>, cursor: u32, last: u32)
    ensures Tile(ranges + [Decode(AsI32(cursor), AsI32(last))], (cursor + last) % U32_LIMIT)
       <==> Tile(ranges, cursor) && cursor < I32_LIMIT && last < I32_LIMIT
  {
    AsI32OfU32(cursor);
    AsI32OfU32(last);
    SumWraps(cursor, last);
    var all := ranges + [Decode(AsI32(cursor), AsI32(last))];
    assert all[..|all| - 1] == ranges;
    if Tile(ranges, AsI32(cursor)) {
      TileEndsAfterZero(ranges, AsI32(cursor));
    }
  }

  // ----- one inference

  /** A pointer returned by the C side together with the length it reported. */
  datatype Raw = NullPointer | Buffer(data: seq<F32>)

  predicate Available(r: Raw) {
    r.Buffer? && r.data != []
  }

  datatype Replies = Replies(
    decode: int,
    logits: Option<seq<F32>>,
    embedding: Option<seq<F32>>,
    hidden: nat -> Raw,
    keys: Raw,
    values: Raw)

  datatype Snapshot = Snapshot(
    nPast: u32,
    logits: seq<F32>,
    hiddenStates: seq<seq<F32>>,
    kvCacheLayer: Option<KvCache<F32>>)

  /** The layers below `n` with a hidden state, in order. */
  function AvailableLayers(hidden: nat -> Raw, n: nat): seq<nat> {
    if n == 0 then []
    else AvailableLayers(hidden, n - 1) + (if Available(hidden(n - 1)) then [n - 1] else [])
  }

  function StateOf(r: Raw): seq<F32> {
    match r
    case NullPointer => []
    case Buffer(data) => data
  }

  function StatesOf(hidden: nat -> Raw, layers: seq<nat>): (r: seq<seq<F32>>)
    ensures |r| == |layers|
  {
    seq(|layers|, i requires 0 <= i < |layers| => StateOf(hidden(layers[i])))
  }

  /** The loop bound `n_layer as c_int`; a negative one runs no iteration. */
  function LayerCount(nLayer: u32): nat {
    if AsI32(nLayer) < 0 then 0 else AsI32(nLayer)
  }

  function Captured(embeddingsOn: bool, nLayer: u32, replies: Replies): seq<seq<F32>> {
    if embeddingsOn && replies.embedding.Some? then
      [replies.embedding.value]
    else
      StatesOf(replies.hidden, AvailableLayers(replies.hidden, LayerCount(nLayer)))
  }

  function PredOrZero(n: u32): u32 {
    if n == 0 then 0 else n - 1
  }

  /** The division by `n_head` panics for 0, but only once keys and values are there. */
  function CapturedKv(nLayer: u32, nHead: u32, nEmbd: u32, nPast: u32, replies: Replies): Result<Option<KvCache<F32>>> {
    if !Available(replies.keys) || !Available(replies.values) then
      Ok(None)
    else if nHead == 0 then
      Err(Panicked)
    else
      Ok(Some(KvCache(PredOrZero(nLayer) % 0x1_0000, replies.keys.data, replies.values.data,
        Shape([1, nHead, nPast, nEmbd / nHead]))))
  }

  lemma CastTwice(n: nat)
    ensures AsI32(AsU32(n)) == AsI32(n)
  {
  }

  lemma AddCast(a: u32, n: nat)
    ensures (a + AsU32(n)) % U32_LIMIT == (a + n) % U32_LIMIT
  {
    var q := n / U32_LIMIT;
    assert n == q * U32_LIMIT + AsU32(n);
    Remainder(a + AsU32(n), q);
  }

  lemma {:induction false} Remainder(a: nat, q: nat)
    ensures (a + q * U32_LIMIT) % U32_LIMIT == a % U32_LIMIT
  {
    if q > 0 {
      Remainder(a, q - 1);
      assert (a + (q - 1) * U32_LIMIT + U32_LIMIT) % U32_LIMIT == (a + (q - 1) * U32_LIMIT) % U32_LIMIT;
    }
  }

  /** A successful decode of `n` tokens, on the history. */
  lemma DecodeAdvances(counts: seq<u32>, nPast: u32, n: nat)
    requires nPast == Cursor(counts)
    ensures var after := counts + [AsU32(n)];
            Cursor(after) == (nPast + AsU32(n)) % U32_LIMIT == (nPast + n) % U32_LIMIT
            && Ranges(after) == Ranges(counts) + [Decode(AsI32(nPast), AsI32(n))]
            && (Tile(Ranges(after), Cursor(after)) <==> FitsInt(after))
  {
    var after := counts + [AsU32(n)];
    assert after[..|after| - 1] == counts;
    CastTwice(n);
    AddCast(nPast, n);
    DecodesTileExactly(after);
  }

  class LlamaCppBackend {
    const nEmbd: u32
    const nLayer: u32
    const nHead: u32
    const embeddingsOn: bool
    var nPast: u32
    ghost var counts: seq<u32>     // the batch sizes of the decodes that returned 0
    ghost var decoded: seq<Decode> // and the ranges they were asked for

    ghost predicate Valid()
      reads this
    {
      nPast == Cursor(counts) && decoded == Ranges(counts)
    }

    constructor (nEmbd: u32, nLayer: u32, nHead: u32, embeddingsOn: bool)
      ensures Valid() && nPast == 0 && counts == []
      ensures this.nEmbd == nEmbd && this.nLayer == nLayer && this.nHead == nHead && this.embeddingsOn == embeddingsOn
    {
      this.nEmbd, this.nLayer, this.nHead, this.embeddingsOn := nEmbd, nLayer, nHead, embeddingsOn;
      nPast, counts, decoded := 0, [], [];
    }

    /** The cursor moves on every decode that returned 0, even if what follows fails. */
    method Infer(tokens: seq<int>, replies: Replies) returns (r: Result<Snapshot>)
      requires Valid()
      modifies this
      ensures Valid()
      ensures counts == if replies.decode == 0 then old(counts) + [AsU32(|tokens|)] else old(counts)
      ensures replies.decode == 0 ==>
        nPast == (old(nPast) + |tokens|) % U32_LIMIT
        && decoded == old(decoded) + [Decode(AsI32(old(nPast)), AsI32(|tokens|))]
      ensures Tile(decoded, nPast) <==> FitsInt(counts)
      ensures r == if replies.decode != 0 then Err(Internal(DecodeFailed))
                   else if replies.logits.None? then Err(Internal(LogitsMissing))
                   else match CapturedKv(nLayer, nHead, nEmbd, nPast, replies)
                        case Err(e) => Err(e)
                        case Ok(kv) =>
                          Ok(Snapshot(nPast, replies.logits.value, Captured(embeddingsOn, nLayer, replies), kv))
    {
      ghost var range := Decode(AsI32(nPast), AsI32(|tokens|));
      DecodesTileExactly(counts);
      if replies.decode != 0 {
        return Err(Internal(DecodeFailed));
      }
      DecodeAdvances(counts, nPast, |tokens|);
      nPast := (nPast + AsU32(|tokens|)) % U32_LIMIT;
      counts := counts + [AsU32(|tokens|)];
      decoded := decoded + [range];
      if replies.logits.None? {
        return Err(Internal(LogitsMissing));
      }
      var hiddenStates := CaptureHiddenStates(replies);
      var kv :- CapturedKv(nLayer, nHead, nEmbd, nPast, replies);
      return Ok(Snapshot(nPast, replies.logits.value, hiddenStates, kv));
    }

    method CaptureHiddenStates(replies: Replies) returns (states: seq<seq<F32>>)
      ensures states == Captured(embeddingsOn, nLayer, replies)
    {
      if embeddingsOn && replies.embedding.Some? {
        return [replies.embedding.value];
      }
      states := [];
      for layer := 0 to LayerCount(nLayer)
        invariant states == StatesOf(replies.hidden, AvailableLayers(replies.hidden, layer))
      {
        var raw := replies.hidden(layer);
        if Available(raw) {
          states := states + [raw.data];
        }
      }
    }
  }

  // ----- which layer a packet carries

  /** `AvailableLayers` lists exactly the available layers, in increasing order. */
  lemma {:induction false} AvailableLayersSorted(hidden: nat -> Raw, n: nat)
    ensures var a := AvailableLayers(hidden, n);
            (forall l: nat :: l in a <==> l < n && Available(hidden(l)))
            && (forall i, j :: 0 <= i < j < |a| ==> a[i] < a[j])
  {
    if n > 0 {
      AvailableLayersSorted(hidden, n - 1);
      var a, b := AvailableLayers(hidden, n), AvailableLayers(hidden, n - 1);
      assert forall l: nat :: l in a <==> l in b || (l == n - 1 && Available(hidden(l)));
      assert forall i :: 0 <= i < |b| ==> b[i] in b;
    }
  }

  /** The position of an available layer counts the available layers below it. */
  lemma {:induction false} PositionExactly(hidden: nat -> Raw, n: nat, i: nat)
    requires i < |AvailableLayers(hidden, n)|
    ensures var a := AvailableLayers(hidden, n);
            i <= a[i] && (a[i] == i <==> forall l :: 0 <= l < a[i] ==> Available(hidden(l)))
  {
    AvailableLayersSorted(hidden, n);
    var a := AvailableLayers(hidden, n);
    if i > 0 {
      PositionExactly(hidden, n, i - 1);
      if a[i] == i {
        assert a[i - 1] == i - 1;
      }
      if forall l :: 0 <= l < a[i] ==> Available(hidden(l)) {
        assert a[i] in a && Available(hidden(a[i] - 1));
        assert a[i] - 1 in a;
        var j :| 0 <= j < |a| && a[j] == a[i] - 1;
        assert j == i - 1;
      }
    } else if a[0] > 0 && Available(hidden(0)) {
      assert 0 in a;
    }
  }

  /** `snapshot_to_packet`, up to the clock reading. */
  function SnapshotToPacket(
    snapshot: Snapshot, hiddenSize: u32, fingerprint: seq<byte>, senderId: Text, sessionId: Text,
    sequenceId: u64, layerIndex: u16, now: u64): PrimitivePacket
  {
    var payload :=
      if snapshot.kvCacheLayer.Some? then KvCachePayload(snapshot.kvCacheLayer.value)
      else if snapshot.hiddenStates != [] then
        var idx := if layerIndex < |snapshot.hiddenStates| - 1 then layerIndex else |snapshot.hiddenStates| - 1;
        HiddenState(snapshot.hiddenStates[idx])
      else LatentThought(snapshot.logits);
    var dims :=
      match payload
      case HiddenState(_) => [1, 1, hiddenSize]
      case LatentThought(_) => [1, hiddenSize]
      case KvCachePayload(kv) => kv.shape.dims;
    PrimitivePacket(APTP_VERSION, senderId, fingerprint, layerIndex, payload, Shape(dims),
      Metadata(now, sequenceId, sessionId, NONE_TEXT))
  }

  const NONE_TEXT: Text := Ascii("none")

  /** A packet carries the KV cache exactly if there is one, the logits exactly if there is neither a cache
      nor a hidden state, and a captured hidden state otherwise; its shape is the cache's own, or counts
      as many elements as the hidden size. */
  lemma SnapshotPayloadExactly(
    snapshot: Snapshot, hiddenSize: u32, fingerprint: seq<byte>, senderId: Text, sessionId: Text,
    sequenceId: u64, layerIndex: u16, now: u64)
    ensures var p := SnapshotToPacket(
              snapshot, hiddenSize, fingerprint, senderId, sessionId, sequenceId, layerIndex, now);
            (p.payload.KvCachePayload? <==> snapshot.kvCacheLayer.Some?)
            && (p.payload.LatentThought? <==> snapshot.kvCacheLayer.None? && snapshot.hiddenStates == [])
            && (p.payload.KvCachePayload? ==>
                  snapshot.kvCacheLayer == Some(p.payload.kv) && p.shape == p.payload.kv.shape)
            && (p.payload.LatentThought? ==> p.payload.thought == snapshot.logits)
            && (p.payload.HiddenState? ==> p.payload.state in snapshot.hiddenStates)
            && (!p.payload.KvCachePayload? ==> ElementCount(p.shape.dims) == hiddenSize)
            && (p.payload.HiddenState? ==> |p.shape.dims| == 3) && (p.payload.LatentThought? ==> |p.shape.dims| == 2)
  {
    CountBehindOnes(hiddenSize);
  }

  lemma CountBehindOnes(n: u32)
    ensures ElementCount([1, n]) == n && ElementCount([1, 1, n]) == n
  {
    assert [1, 1, n][1..] == [1, n] && [1, n][1..] == [n] && [n][1..] == [];
    assert ElementCount([n]) == n;
  }

  /** The layer whose vector a packet with the given index carries, without a KV cache. */
  function CarriedLayer(available: seq<nat>, layerIndex: u16): nat
    requires available != []
  {
    available[if layerIndex < |available| - 1 then layerIndex else |available| - 1]
  }

  /** Without a KV cache and embeddings the packet carries the vector of `CarriedLayer`, and that is
      the requested layer exactly when the layer is available and either every lower layer is, or no
      higher one. */
  lemma RequestedLayerExactly(
    nLayer: u32, nPast: u32, logits: seq<F32>, replies: Replies, hiddenSize: u32, fingerprint: seq<byte>,
    senderId: Text, sessionId: Text, sequenceId: u64, layerIndex: u16, now: u64)
    requires AvailableLayers(replies.hidden, LayerCount(nLayer)) != []
    ensures var n := LayerCount(nLayer);
            var layer := CarriedLayer(AvailableLayers(replies.hidden, n), layerIndex);
            var snapshot := Snapshot(nPast, logits, Captured(false, nLayer, replies), None);
            var payload := SnapshotToPacket(
              snapshot, hiddenSize, fingerprint, senderId, sessionId, sequenceId, layerIndex, now).payload;
            payload.HiddenState? && replies.hidden(layer) == Buffer(payload.state)
            && (layer == layerIndex
                <==> layerIndex < n && Available(replies.hidden(layerIndex))
                     && ((forall l :: 0 <= l < layerIndex ==> Available(replies.hidden(l)))
                         || (forall l :: layerIndex < l < n ==> !Available(replies.hidden(l)))))
  {
    var n := LayerCount(nLayer);
    var a := AvailableLayers(replies.hidden, n);
    CarriedLayerExactly(replies.hidden, n, layerIndex);
    AvailableLayersSorted(replies.hidden, n);
    assert CarriedLayer(a, layerIndex) in a;
  }

  /** With embeddings on, and one returned, that embedding is all that is captured, and every layer index
      gets it; without one the layers are captured as if embeddings were off. */
  lemma EmbeddingExactly(
    nLayer: u32, nPast: u32, logits: seq<F32>, replies: Replies, hiddenSize: u32, fingerprint: seq<byte>,
    senderId: Text, sessionId: Text, sequenceId: u64, layerIndex: u16, now: u64)
    ensures var snapshot := Snapshot(nPast, logits, Captured(true, nLayer, replies), None);
            var payload := SnapshotToPacket(
              snapshot, hiddenSize, fingerprint, senderId, sessionId, sequenceId, layerIndex, now).payload;
            (replies.embedding.Some? ==> payload == HiddenState(replies.embedding.value))
            && (replies.embedding.None? ==> Captured(true, nLayer, replies) == Captured(false, nLayer, replies))
  {
  }

  lemma CarriedLayerExactly(hidden: nat -> Raw, n: nat, layerIndex: u16)
    requires AvailableLayers(hidden, n) != []
    ensures CarriedLayer(AvailableLayers(hidden, n), layerIndex) == layerIndex
       <==> layerIndex < n && Available(hidden(layerIndex))
            && ((forall l :: 0 <= l < layerIndex ==> Available(hidden(l)))
                || (forall l :: layerIndex < l < n ==> !Available(hidden(l))))
  {
    var a := AvailableLayers(hidden, n);
    AvailableLayersSorted(hidden, n);
    var idx := if layerIndex < |a| - 1 then layerIndex else |a| - 1;
    PositionExactly(hidden, n, idx);
    if layerIndex in a {
      var i :| 0 <= i < |a| && a[i] == layerIndex;
      PositionExactly(hidden, n, i);
      if i != |a| - 1 {
        assert a[i] < a[|a| - 1] && a[|a| - 1] in a;
      }
    }
  }

  // ----- the shape of a captured KV cache

  lemma QuotientProduct(n: nat, d: nat)
    requires d > 0
    ensures d * (n / d) <= n < d * (n / d) + d && (d * (n / d) == n <==> n % d == 0)
  {
    assert n == d * (n / d) + n % d;
  }

  /** A KV cache is captured exactly if keys and values are both there, and holds them as those of the last
      layer, in one batch of heads by tokens by whole head widths; without heads the capture panics
      instead. Its shape never claims more than `n_past * n_embd` elements, and all of them exactly when
      nothing was decoded yet or the heads divide the embedding evenly. In particular the 64-bit product
      never wraps for such a shape. */
  lemma CapturedKvExactly(nLayer: u32, nHead: u32, nEmbd: u32, nPast: u32, replies: Replies)
    ensures var kv := CapturedKv(nLayer, nHead, nEmbd, nPast, replies);
            var present := Available(replies.keys) && Available(replies.values);
            (kv == Ok(None) <==> !present) && (kv == Err(Panicked) <==> present && nHead == 0)
            && (kv.Ok? && kv.value.Some? ==>
                  kv.value.value.keys == replies.keys.data && kv.value.value.values == replies.values.data
                  && (0 < nLayer <= 0x1_0000 ==> kv.value.value.layerIdx + 1 == nLayer)
                  && |kv.value.value.shape.dims| == 4 && kv.value.value.shape.dims[..3] == [1, nHead, nPast]
                  && (var width := kv.value.value.shape.dims[3];
                      nHead * width <= nEmbd < nHead * width + nHead)
                  && var count := ElementCount(kv.value.value.shape.dims);
                     count <= nPast * nEmbd && (count == nPast * nEmbd <==> nPast == 0 || nEmbd % nHead == 0))
  {
    var kv := CapturedKv(nLayer, nHead, nEmbd, nPast, replies);
    if kv.Ok? && kv.value.Some? {
      var h := nEmbd / nHead;
      QuotientProduct(nEmbd, nHead);
      CountOfFour(nHead, nPast, h, nHead * h, nPast * (nHead * h));
      ScaledOrder(nPast, nHead * h, nEmbd);
    }
  }

  lemma CountCons(d: u32, rest: seq<u32>, product: usize)
    requires product == d * ElementCount(rest)
    ensures ElementCount([d] + rest) == product
  {
    assert ([d] + rest)[1..] == rest;
  }

  lemma Regroup(a: nat, b: nat, c: nat)
    ensures a * (b * c) == b * (a * c)
  {
  }

  lemma CountOfFour(a: u32, b: u32, c: u32, ac: u32, product: nat)
    requires ac == a * c && product == b * ac
    ensures ElementCount([1, a, b, c]) == product
  {
    ProductOfU32(b, c);
    ProductOfU32(b, ac);
    Regroup(a, b, c);
    CountCons(c, [], c);
    CountCons(b, [c], b * c);
    CountCons(a, [b, c], product);
    CountCons(1, [a, b, c], product);
    assert [c] + [] == [c] && [b] + [c] == [b, c] && [a] + [b, c] == [a, b, c] && [1] + [a, b, c] == [1, a, b, c];
  }

  lemma ScaledOrder(k: nat, x: nat, y: nat)
    requires x <= y
    ensures k * x <= k * y && (k * x == k * y <==> k == 0 || x == y)
  {
    assert k * y - k * x == k * (y - x);
    if k > 0 && x < y {
      assert k * (y - x) > 0;
    }
  }
}
