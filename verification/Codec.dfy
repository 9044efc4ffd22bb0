// Packets and agent cards to and from messages (src/primitives.rs:145-285).

module Codec {
  import opened Errors
  import opened Primitives
  import opened Wire

  // ----- reading

  /** `to_str` on a text: the bytes must be UTF-8. */
  function ToStr(utf8: Text -> bool, t: Text): Result<Text> {
    if utf8(t) then Ok(t) else Err(Internal(BadText))
  }

  function TextOf(utf8: Text -> bool, p: Pointer<Text>): Result<Text> {
    var t :- Get(p, []);
    ToStr(utf8, t)
  }

  function ShapeFromMessage(m: ShapeMessage): Result<Shape> {
    var dims :- Get(m.dims, []);
    Ok(Shape(dims))
  }

  function FloatsOf(slot: Pointer<Slot>): Result<seq<F32>> {
    var s :- Get(slot, FloatList([]));
    if s.FloatList? then Ok(s.floats) else Err(Rpc)
  }

  function KvOf(slot: Pointer<Slot>): Result<KvCache<F32>> {
    var s :- Get(slot, KvStruct(KvMessage(0, Null, Null, Null)));
    if !s.KvStruct? then
      Err(Rpc)
    else
      var keys :- Get(s.kv.keys, []);
      var values :- Get(s.kv.values, []);
      var shapeMessage :- Get(s.kv.shape, ShapeMessage(Null));
      var shape :- ShapeFromMessage(shapeMessage);
      Ok(KvCache(s.kv.layerIdx, keys, values, shape))
  }

  function PayloadOf(tag: u16, slot: Pointer<Slot>): Result<PrimitivePayload<F32>> {
    if tag == HIDDEN_STATE_TAG then
      var v :- FloatsOf(slot);
      Ok(HiddenState(v))
    else if tag == KV_CACHE_TAG then
      var kv :- KvOf(slot);
      Ok(KvCachePayload(kv))
    else if tag == LATENT_THOUGHT_TAG then
      var v :- FloatsOf(slot);
      Ok(LatentThought(v))
    else
      Err(AptpError.NotInSchema)
  }

  function PacketFromMessage(utf8: Text -> bool, m: PacketMessage): Result<PrimitivePacket> {
    var senderId :- TextOf(utf8, m.senderId);
    var modelFingerprint :- Get(m.modelFingerprint, []);
    var payload :- PayloadOf(m.tag, m.slot);
    var shapeMessage :- Get(m.shape, ShapeMessage(Null));
    var shape :- ShapeFromMessage(shapeMessage);
    var meta :- Get(m.metadata, MetadataMessage(0, 0, Null, Null));
    var sessionId :- TextOf(utf8, meta.sessionId);
    var compressionAlg :- TextOf(utf8, meta.compressionAlg);
    var metadata := Metadata(meta.timestampNs, meta.sequenceId, sessionId, compressionAlg);
    Ok(PrimitivePacket(m.version, senderId, modelFingerprint, m.layerIndex, payload, shape, metadata))
  }

  // ----- writing

  /** Every list and data field fits a Cap'n Proto list length. */
  predicate ListsFit(p: PrimitivePacket) {
    |p.shape.dims| < U32_LIMIT
    && match p.payload
       case HiddenState(v) => |v| < U32_LIMIT
       case LatentThought(v) => |v| < U32_LIMIT
       case KvCachePayload(kv) =>
         |kv.keys| < U32_LIMIT && |kv.values| < U32_LIMIT && |kv.shape.dims| < U32_LIMIT
  }

  function SlotOf(payload: PrimitivePayload<F32>): (u16, Slot) {
    match payload
    case HiddenState(v) => (HIDDEN_STATE_TAG, FloatList(v))
    case LatentThought(v) => (LATENT_THOUGHT_TAG, FloatList(v))
    case KvCachePayload(kv) =>
      (KV_CACHE_TAG, KvStruct(KvMessage(kv.layerIdx, To(kv.keys), To(kv.values), To(ShapeMessage(To(kv.shape.dims))))))
  }

  /** The message that stands for a packet. */
  function MessageOf(p: PrimitivePacket): PacketMessage {
    var (tag, slot) := SlotOf(p.payload);
    PacketMessage(
      p.version, To(p.senderId), To(p.modelFingerprint), p.layerIndex, tag, To(slot),
      To(ShapeMessage(To(p.shape.dims))),
      To(MetadataMessage(p.metadata.timestampNs, p.metadata.sequenceId,
        To(p.metadata.sessionId), To(p.metadata.compressionAlg))))
  }

  const EMPTY_MESSAGE := PacketMessage(0, Null, Null, 0, HIDDEN_STATE_TAG, Null, Null, Null)

  /** The message building of `packet_to_bytes`. */
  method PacketToMessage(p: PrimitivePacket) returns (r: Result<PacketMessage>)
    ensures r == if ListsFit(p) then Ok(MessageOf(p)) else Err(Panicked)
  {
    var root := EMPTY_MESSAGE;
    root := root.(version := p.version);
    root := root.(senderId := To(p.senderId));
    root := root.(modelFingerprint := To(p.modelFingerprint));
    root := root.(layerIndex := p.layerIndex);
    match p.payload {
      case HiddenState(v) =>
        var list :- FillList(0, v);
        root := root.(tag := HIDDEN_STATE_TAG, slot := To(FloatList(list)));
      case LatentThought(v) =>
        var list :- FillList(0, v);
        root := root.(tag := LATENT_THOUGHT_TAG, slot := To(FloatList(list)));
      case KvCachePayload(kv) =>
        var builder := KvMessage(kv.layerIdx, Null, Null, Null);
        var keys :- FillList(0, kv.keys);
        builder := builder.(keys := To(keys));
        var values :- FillList(0, kv.values);
        builder := builder.(values := To(values));
        var dims :- FillList(0, kv.shape.dims);
        builder := builder.(shape := To(ShapeMessage(To(dims))));
        root := root.(tag := KV_CACHE_TAG, slot := To(KvStruct(builder)));
    }
    var dims :- FillList(0, p.shape.dims);
    root := root.(shape := To(ShapeMessage(To(dims))));
    var meta := MetadataMessage(p.metadata.timestampNs, 0, Null, Null);
    meta := meta.(sequenceId := p.metadata.sequenceId);
    meta := meta.(sessionId := To(p.metadata.sessionId));
    meta := meta.(compressionAlg := To(p.metadata.compressionAlg));
    root := root.(metadata := To(meta));
    return Ok(root);
  }

  // ----- round trips

  /** Every `String` of the packet is UTF-8, as Rust's type demands. */
  predicate StringsValid(utf8: Text -> bool, p: PrimitivePacket) {
    utf8(p.senderId) && utf8(p.metadata.sessionId) && utf8(p.metadata.compressionAlg)
  }

  /** Reading a written packet gives it back bit for bit, in all three payload kinds; what cannot be
      read back is exactly a packet with a string that is not UTF-8, which Rust rules out. */
  lemma PacketRoundTrip(utf8: Text -> bool, p: PrimitivePacket)
    ensures PacketFromMessage(utf8, MessageOf(p)) == if StringsValid(utf8, p) then Ok(p) else Err(Internal(BadText))
  {
  }

  /** Whatever message is accepted, writing the packet it was read as and reading that again changes
      nothing: reading is a retraction onto the packets with valid strings. */
  lemma AcceptedMessageNormalises(utf8: Text -> bool, m: PacketMessage)
    requires PacketFromMessage(utf8, m).Ok?
    ensures var p := PacketFromMessage(utf8, m).value;
            StringsValid(utf8, p) && PacketFromMessage(utf8, MessageOf(p)) == Ok(p)
  {
    var p := PacketFromMessage(utf8, m).value;
    assert StringsValid(utf8, p);
    PacketRoundTrip(utf8, p);
  }

  // ----- which messages are read, and as what

  ghost predicate Reads<T>(p: Pointer<T>, default: T, value: T) {
    p == To(value) || (p == Null && value == default)
  }

  ghost predicate ReadsText(utf8: Text -> bool, p: Pointer<Text>, value: Text) {
    Reads(p, [], value) && utf8(value)
  }

  ghost predicate ReadsShape(p: Pointer<ShapeMessage>, value: Shape) {
    match p
    case Null => value.dims == []
    case Malformed => false
    case To(m) => Reads(m.dims, [], value.dims)
  }

  ghost predicate ReadsPayload(tag: u16, slot: Pointer<Slot>, value: PrimitivePayload<F32>) {
    match value
    case HiddenState(v) => tag == 0 && Reads(slot, FloatList([]), FloatList(v))
    case KvCachePayload(kv) =>
      tag == 1
      && (match slot
          case To(KvStruct(m)) =>
            kv.layerIdx == m.layerIdx && Reads(m.keys, [], kv.keys) && Reads(m.values, [], kv.values)
            && ReadsShape(m.shape, kv.shape)
          case Null => kv == KvCache(0, [], [], Shape([]))
          case _ => false)
    case LatentThought(v) => tag == 2 && Reads(slot, FloatList([]), FloatList(v))
  }

  ghost predicate ReadsMetadata(utf8: Text -> bool, p: Pointer<MetadataMessage>, value: Metadata) {
    match p
    case Null => value == Metadata(0, 0, [], []) && utf8([])
    case Malformed => false
    case To(m) =>
      value.timestampNs == m.timestampNs && value.sequenceId == m.sequenceId
      && ReadsText(utf8, m.sessionId, value.sessionId) && ReadsText(utf8, m.compressionAlg, value.compressionAlg)
  }

  /** A message is read as a packet exactly if each field, by the schema, stands for the packet's: a null
      pointer for an empty value, a pointer to garbage, text that is no UTF-8 or an unknown kind of payload
      for none. */
  lemma ReadExactly(utf8: Text -> bool, m: PacketMessage, p: PrimitivePacket)
    ensures PacketFromMessage(utf8, m) == Ok(p)
       <==> m.version == p.version && ReadsText(utf8, m.senderId, p.senderId)
            && Reads(m.modelFingerprint, [], p.modelFingerprint) && m.layerIndex == p.layerIndex
            && ReadsPayload(m.tag, m.slot, p.payload) && ReadsShape(m.shape, p.shape)
            && ReadsMetadata(utf8, m.metadata, p.metadata)
  {
    PayloadReadExactly(m.tag, m.slot, p.payload);
  }

  lemma PayloadReadExactly(tag: u16, slot: Pointer<Slot>, value: PrimitivePayload<F32>)
    ensures PayloadOf(tag, slot) == Ok(value) <==> ReadsPayload(tag, slot, value)
  {
  }

  // ----- agent cards

  function TextsOf(utf8: Text -> bool, list: seq<Pointer<Text>>): Result<seq<Text>> {
    if list == [] then
      Ok([])
    else
      var init :- TextsOf(utf8, list[..|list| - 1]);
      var last :- TextOf(utf8, list[|list| - 1]);
      Ok(init + [last])
  }

  function CardOf(utf8: Text -> bool, m: CardMessage): Result<AgentCard> {
    var inv :- Get(m.invariants, InvariantsMessage(0, 0, 0, 0, Null));
    var agentId :- TextOf(utf8, m.agentId);
    var modelFamily :- TextOf(utf8, inv.modelFamily);
    var list :- Get(m.capabilities, []);
    var capabilities :- TextsOf(utf8, list);
    Ok(AgentCard(
      agentId, m.aptpVersion, inv.hiddenSize, inv.numLayers, inv.numHeads, inv.vocabSize, modelFamily, capabilities))
  }

  method CardFromMessage(utf8: Text -> bool, m: CardMessage) returns (r: Result<AgentCard>)
    ensures r == CardOf(utf8, m)
  {
    var inv :- Get(m.invariants, InvariantsMessage(0, 0, 0, 0, Null));
    var agentId :- TextOf(utf8, m.agentId);
    var modelFamily :- TextOf(utf8, inv.modelFamily);
    var list :- Get(m.capabilities, []);
    var caps: seq<Text> := [];
    for i := 0 to |list|
      invariant TextsOf(utf8, list[..i]) == Ok(caps)
    {
      assert list[..i + 1][..i] == list[..i];
      var t := TextOf(utf8, list[i]);
      if t.Err? {
        FirstBadText(utf8, list, i);
        return Err(t.error);
      }
      caps := caps + [t.value];
    }
    assert list[..|list|] == list;
    return Ok(AgentCard(
      agentId, m.aptpVersion, inv.hiddenSize, inv.numLayers, inv.numHeads, inv.vocabSize, modelFamily, caps));
  }

  /** The first text that cannot be read decides the error. */
  lemma {:induction false} FirstBadText(utf8: Text -> bool, list: seq<Pointer<Text>>, i: nat)
    requires i < |list| && TextsOf(utf8, list[..i]).Ok? && TextOf(utf8, list[i]).Err?
    ensures TextsOf(utf8, list) == Err(TextOf(utf8, list[i]).error)
    decreases |list|
  {
    var init := list[..|list| - 1];
    if i == |list| - 1 {
      assert init == list[..i];
    } else {
      assert init[..i] == list[..i];
      FirstBadText(utf8, init, i);
    }
  }

  function TextPointers(texts: seq<Text>): (r: seq<Pointer<Text>>)
    ensures |r| == |texts|
  {
    seq(|texts|, i requires 0 <= i < |texts| => To(texts[i]))
  }

  /** The message that stands for a card; the public key is always empty. */
  function CardMessageOf(c: AgentCard): CardMessage {
    CardMessage(
      To(c.agentId), c.aptpVersion,
      To(InvariantsMessage(c.hiddenSize, c.numLayers, c.numHeads, c.vocabSize, To(c.modelFamily))),
      To(TextPointers(c.capabilities)), To([]))
  }

  predicate CardStringsValid(utf8: Text -> bool, c: AgentCard) {
    utf8(c.agentId) && utf8(c.modelFamily) && forall t :: t in c.capabilities ==> utf8(t)
  }

  lemma {:induction false} TextsRoundTrip(utf8: Text -> bool, texts: seq<Text>)
    requires forall t :: t in texts ==> utf8(t)
    ensures TextsOf(utf8, TextPointers(texts)) == Ok(texts)
  {
    if texts != [] {
      var init := texts[..|texts| - 1];
      assert TextPointers(texts)[..|texts| - 1] == TextPointers(init);
      TextsRoundTrip(utf8, init);
      assert texts == init + [texts[|texts| - 1]];
      assert texts[|texts| - 1] in texts;
    }
  }

  lemma {:induction false} TextsReadExactly(utf8: Text -> bool, list: seq<Pointer<Text>>, texts: seq<Text>)
    ensures TextsOf(utf8, list) == Ok(texts)
       <==> |list| == |texts| && forall i :: 0 <= i < |list| ==> ReadsText(utf8, list[i], texts[i])
  {
    if list != [] && texts != [] {
      var n := |list| - 1;
      TextsReadExactly(utf8, list[..n], texts[..|texts| - 1]);
      assert texts == texts[..|texts| - 1] + [texts[|texts| - 1]];
      if |list| == |texts| && ReadsText(utf8, list[n], texts[n]) && TextsOf(utf8, list[..n]) == Ok(texts[..n]) {
        forall i | 0 <= i < |list| ensures ReadsText(utf8, list[i], texts[i]) {
          assert i < n ==> list[..n][i] == list[i] && texts[..n][i] == texts[i];
        }
      }
    }
  }

  ghost predicate ReadsInvariants(utf8: Text -> bool, p: Pointer<InvariantsMessage>, c: AgentCard) {
    match p
    case Null =>
      c.hiddenSize == c.numLayers == c.numHeads == c.vocabSize == 0 && c.modelFamily == [] && utf8([])
    case Malformed => false
    case To(m) =>
      c.hiddenSize == m.hiddenSize && c.numLayers == m.numLayers && c.numHeads == m.numHeads
      && c.vocabSize == m.vocabSize && ReadsText(utf8, m.modelFamily, c.modelFamily)
  }

  ghost predicate ReadsTexts(utf8: Text -> bool, p: Pointer<seq<Pointer<Text>>>, texts: seq<Text>) {
    match p
    case Null => texts == []
    case Malformed => false
    case To(list) => |list| == |texts| && forall i :: 0 <= i < |list| ==> ReadsText(utf8, list[i], texts[i])
  }

  /** A message is read as a card exactly if each field stands for the card's; one capability that cannot
      be read spoils the card. The public key is not looked at. */
  lemma CardReadExactly(utf8: Text -> bool, m: CardMessage, c: AgentCard)
    ensures CardOf(utf8, m) == Ok(c)
       <==> ReadsText(utf8, m.agentId, c.agentId) && m.aptpVersion == c.aptpVersion
            && ReadsInvariants(utf8, m.invariants, c) && ReadsTexts(utf8, m.capabilities, c.capabilities)
  {
    if m.capabilities.To? {
      TextsReadExactly(utf8, m.capabilities.target, c.capabilities);
    }
  }

  lemma CardRoundTrip(utf8: Text -> bool, c: AgentCard)
    requires CardStringsValid(utf8, c)
    ensures CardOf(utf8, CardMessageOf(c)) == Ok(c)
  {
    TextsRoundTrip(utf8, c.capabilities);
  }
}
