/** Packets on the wire: optional headers, two checksums, compression and encryption. */
module PacketCodec {
  import opened Common
  import opened WireLe
  import opened Fields
  import Fnv

  type Priority = x: int | 0 <= x < 4

  const MAGIC: U16 := 0x1337
  const VERSION: Byte := 1
  const FIRST_USER_TYPE: U16 := 100
  const MAX_DECOMPRESSED: nat := 67108864

  /** `scalar` is the bits of the payload union, which for a packet with data are its address. */
  datatype Outgoing = Outgoing(channel: Channel, reliable: bool, encrypted: bool, compressed: bool, priority: Priority,
                               kind: U16, payload: Bytes, scalar: U64)

  datatype Incoming = Incoming(channel: Channel, reliable: bool, encrypted: bool, compressed: bool, priority: Priority,
                               kind: U16, seqNum: U32, ackNum: U32, data: Bytes)

  /** LZ4 and the authenticated cipher, of which only the inverse laws are known. */
  datatype Primitives = Primitives(
    lz4: Bytes -> Option<Bytes>, unlz4: (Bytes, nat) -> Option<Bytes>,
    encrypt: (Bytes, Bytes) -> Option<Bytes>, decrypt: (Bytes, Bytes) -> Option<Bytes>)

  ghost predicate InversePairs(p: Primitives) {
    && (forall d :: p.lz4(d).Some? ==> p.unlz4(p.lz4(d).value, |d|) == Some(d))
    && (forall d, aad :: p.encrypt(d, aad).Some? ==> p.decrypt(p.encrypt(d, aad).value, aad) == Some(d))
  }

  predicate IsSystemMessage(kind: U16) { kind < FIRST_USER_TYPE }

  /** A typed packet on the channel its type belongs to. */
  predicate WellFormed(o: Outgoing) { o.kind != 0 && (IsSystemMessage(o.kind) <==> o.channel.Control?) }

  // ----- Headers -----

  /** magic, checksum, total size, version, flags, type, alignment, padding, channel, timestamp. */
  const HEADER: seq<nat> := [2, 2, 4, 1, 1, 2, 2, 1, 1, 4]
  const HEADER_SIZE: nat := 20
  /** compressed size, original size, checksum, flags, three bytes of padding. */
  const COMPRESSED: seq<nat> := [4, 4, 4, 1, 1, 1, 1]
  const AAD: seq<nat> := [2, 1, 1, 4, 4]

  function ChannelId(c: Channel): Byte { if c.Control? then 0 else 1 }

  function Bit(b: bool): nat { if b then 1 else 0 }

  function FlagByte(reliable: bool, encrypted: bool, compressed: bool, priority: Priority): Byte {
    Bit(reliable) + 2 * Bit(encrypted) + 4 * Bit(compressed) + 16 * priority
  }

  function HeaderFields(o: Outgoing, compressed: bool, total: nat, stamp: U32, checksum: nat): (vs: seq<nat>)
    ensures |vs| == |HEADER|
  {
    [MAGIC, checksum, total, VERSION, FlagByte(o.reliable, o.encrypted, compressed, o.priority), o.kind, 0, 0,
     ChannelId(o.channel), stamp]
  }

  /** The header checksum: sixteen bits, over the header with a zero in its place. */
  function HeaderChecksum(header: Bytes): U16
    requires |header| >= HEADER_SIZE
  {
    Fnv.Checksum(header[..2] + [0, 0] + header[4..HEADER_SIZE]) % U16_SIZE
  }

  function SequenceField(o: Outgoing, q: U32): U32 { if o.reliable then q else 0 }

  function AckField(o: Outgoing): U32 { if o.reliable && o.kind == ACKNOWLEDGEMENT then o.scalar % U32_SIZE else 0 }

  /** Associated data: what the cipher authenticates beside the payload. */
  function AssociatedData(kind: U16, channel: Byte, flags: Byte, seqNum: U32, ackNum: U32): (aad: Bytes)
    ensures |aad| == 12
  {
    assert Offset(AAD, 3) == Offset(AAD, 2) + 1 && Offset(AAD, 2) == Offset(AAD, 1) + 1 && Offset(AAD, 1) == 2;
    Pack([kind, channel, flags, seqNum, ackNum], AAD, 5)
  }

  // ----- Building -----

  /** Compress: an empty payload is left alone; otherwise the library decides. */
  function Squeeze(p: Primitives, o: Outgoing): Option<Bytes> {
    if o.compressed && |o.payload| > 0 && p.lz4(o.payload).Some? && |p.lz4(o.payload).value| < |o.payload|
    then p.lz4(o.payload) else None
  }

  /** The compressed flag as sent: dropped when compression fails or does not help, kept on an empty payload. */
  predicate SentCompressed(p: Primitives, o: Outgoing) { o.compressed && (|o.payload| == 0 || Squeeze(p, o).Some?) }

  function Squeezed(p: Primitives, o: Outgoing): Bytes {
    if Squeeze(p, o).Some? then Squeeze(p, o).value else o.payload
  }

  function SenderAad(p: Primitives, o: Outgoing, q: U32): Bytes {
    AssociatedData(o.kind, ChannelId(o.channel), FlagByte(o.reliable, o.encrypted, SentCompressed(p, o), o.priority),
                   SequenceField(o, q), AckField(o))
  }

  /** The payload as sent, if encryption succeeds. */
  function Body(p: Primitives, hasKeys: bool, o: Outgoing, q: U32): Option<Bytes> {
    if !o.encrypted then Some(Squeezed(p, o))
    else if !hasKeys then None
    else
      var e := p.encrypt(Squeezed(p, o), SenderAad(p, o, q));
      if e.None? || |e.value| >= U32_SIZE then None else e
  }

  function ReliableHeader(o: Outgoing, q: U32): Bytes {
    if o.reliable then Store(q, 4) + Store(AckField(o), 4) else []
  }

  function PayloadHeader(p: Primitives, o: Outgoing, body: Bytes): (h: Bytes) {
    var sum := Fnv.Checksum(body);
    if SentCompressed(p, o) then Pack([|body|, |o.payload|, sum, 1, 0, 0, 0], COMPRESSED, 7) else Store(sum, 4)
  }

  function HeadersSize(o: Outgoing, compressed: bool): nat {
    HEADER_SIZE + (if o.reliable then 8 else 0) + if compressed then 16 else 4
  }

  function FixedHeader(o: Outgoing, compressed: bool, total: nat, stamp: U32, checksum: nat): Bytes {
    Pack(HeaderFields(o, compressed, total, stamp, checksum), HEADER, 10)
  }

  /** BuildPacket: nothing if encryption fails or the sizes overflow. */
  function Build(p: Primitives, hasKeys: bool, o: Outgoing, q: U32, stamp: U32): Option<Bytes> {
    HeaderOffsets();
    var body := Body(p, hasKeys, o, q);
    if body.None? || HeadersSize(o, SentCompressed(p, o)) + |body.value| >= U32_SIZE then None
    else
      var z := SentCompressed(p, o);
      var total := HeadersSize(o, z) + |body.value|;
      var checksum := HeaderChecksum(FixedHeader(o, z, total, stamp, 0));
      Some(FixedHeader(o, z, total, stamp, checksum) + ReliableHeader(o, q)
           + PayloadHeader(p, o, body.value) + body.value)
  }

  lemma HeaderOffsets()
    ensures Offset(HEADER, 1) == 2 && Offset(HEADER, 2) == 4 && Offset(HEADER, 3) == 8 && Offset(HEADER, 4) == 9
    ensures Offset(HEADER, 5) == 10 && Offset(HEADER, 6) == 12 && Offset(HEADER, 7) == 14 && Offset(HEADER, 8) == 15
    ensures Offset(HEADER, 9) == 16 && Offset(HEADER, 10) == HEADER_SIZE
    ensures Offset(COMPRESSED, 1) == 4 && Offset(COMPRESSED, 2) == 8 && Offset(COMPRESSED, 3) == 12
    ensures Offset(COMPRESSED, 4) == 13
    ensures Offset(COMPRESSED, 7) == 16
  {
    assert Offset(COMPRESSED, 5) == 14 && Offset(COMPRESSED, 6) == 15;
  }

  // ----- Unpacking -----

  predicate Flag(flags: nat, bit: nat)
    requires bit > 0
  {
    flags / bit % 2 == 1
  }

  /** ValidatePacketHeader and the channel rule. */
  predicate ValidHeader(h: seq<nat>, size: nat)
    requires |h| == |HEADER|
  {
    && h[0] == MAGIC && h[3] == VERSION && h[2] == size && h[4] < 64 && !Flag(h[4], 8) && h[8] <= 1 && h[5] != 0
    && (h[5] < FIRST_USER_TYPE <==> h[8] == 0)
  }

  /** Decompress, with its size limit. */
  function Expand(p: Primitives, data: Bytes, originalSize: nat): Option<Bytes> {
    if originalSize > MAX_DECOMPRESSED then None
    else if |data| == 0 && originalSize == 0 then Some([])
    else
      var d := p.unlz4(data, originalSize);
      if d.Some? && |d.value| != originalSize then None else d
  }

  /** Where the payload header starts, and where the payload does. */
  function AfterReliable(flags: nat): nat { HEADER_SIZE + if Flag(flags, 1) then 8 else 0 }
  function PayloadOffset(flags: nat): nat { AfterReliable(flags) + if Flag(flags, 4) then 16 else 4 }

  /** The payload checksum and sizes agree with what follows. */
  predicate PayloadOk(b: Bytes, flags: nat)
    requires PayloadOffset(flags) <= |b|
  {
    var at, body := AfterReliable(flags), b[PayloadOffset(flags)..];
    if Flag(flags, 4)
    then b[at + 12] <= 1 && Load(b[at..at + 4]) == |body| && Load(b[at + 8..at + 12]) == Fnv.Checksum(body)
    else Load(b[at..at + 4]) == Fnv.Checksum(body)
  }

  /** Decrypt, then decompress. */
  function OpenBody(p: Primitives, hasKeys: bool, flags: nat, aad: Bytes, originalSize: nat,
                    body: Bytes): Option<Bytes> {
    var plain := if !Flag(flags, 2) then Some(body) else if hasKeys then p.decrypt(body, aad) else None;
    if plain.None? then None
    else if Flag(flags, 4) then Expand(p, plain.value, originalSize) else plain
  }

  function Accepts(b: Bytes): (flags: Option<nat>)
    ensures flags.Some? ==> |b| >= HEADER_SIZE && flags.value < 64 && PayloadOffset(flags.value) <= |b|
    ensures flags.Some? ==> ValidHeader(Unpack(b, HEADER, 10), |b|) && flags.value == Unpack(b, HEADER, 10)[4]
    ensures flags.Some? ==> forall i | 0 <= i < 10 :: Unpack(b, HEADER, 10)[i] < Pow256(HEADER[i])
  {
    HeaderOffsets();
    if |b| < HEADER_SIZE then None
    else
      UnpackFits(b, HEADER, 10);
      var h := Unpack(b, HEADER, 10);
      if !ValidHeader(h, |b|) || h[1] != HeaderChecksum(b) then None
      else if PayloadOffset(h[4]) > |b| || !PayloadOk(b, h[4]) then None
      else Some(h[4])
  }

  function U32At(b: Bytes, at: nat): U32
    requires at + 4 <= |b|
  {
    StoreLoad(b[at..at + 4]);
    Widths();
    Load(b[at..at + 4])
  }

  /** The receiver recomputes the flags it authenticates from the bits it read. */
  function ReceiverAad(kind: U16, channel: Byte, f: nat, seqNum: U32, ackNum: U32): Bytes
    requires f < 64
  {
    AssociatedData(kind, channel, FlagByte(Flag(f, 1), Flag(f, 2), Flag(f, 4), f / 16), seqNum, ackNum)
  }

  /** UnpackPacket. */
  function UnpackPacket(p: Primitives, hasKeys: bool, b: Bytes): Option<Incoming> {
    var flags := Accepts(b);
    if flags.None? then None
    else
      Widths();
      var f, h := flags.value, Unpack(b, HEADER, 10);
      var seqNum := if Flag(f, 1) then U32At(b, HEADER_SIZE) else 0;
      var ackNum := if Flag(f, 1) then U32At(b, HEADER_SIZE + 4) else 0;
      var originalSize := if Flag(f, 4) then U32At(b, AfterReliable(f) + 4) else 0;
      assert h[5] < Pow256(HEADER[5]);
      var data := OpenBody(p, hasKeys, f, ReceiverAad(h[5], h[8], f, seqNum, ackNum), originalSize,
                           b[PayloadOffset(f)..]);
      if data.None? then None
      else Some(Incoming(if h[8] == 0 then Control else Data, Flag(f, 1), Flag(f, 2), Flag(f, 4), f / 16, h[5], seqNum,
                         ackNum, data.value))
  }
}
