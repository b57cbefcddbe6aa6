/** The bytes on the wire, written out: which bytes a receiver accepts as a packet and what it reads from them, what a
    sender puts at the end of one, and the bytes of a file chunk. */
module WireFormat {
  import opened Common
  import opened WireLe
  import opened Fields
  import opened PacketCodec
  import PacketTheorems
  import TransferChunks
  import Fnv

  // ----- Numbers, least significant byte first -----

  function Two(b: Bytes, at: nat): int
    requires at + 2 <= |b|
  {
    b[at] as int + 256 * (b[at + 1] as int)
  }

  function Four(b: Bytes, at: nat): int
    requires at + 4 <= |b|
  {
    Two(b, at) + 65536 * Two(b, at + 2)
  }

  lemma LoadOne(d: Bytes)
    requires |d| == 1
    ensures Load(d) == d[0] as int
  {
    assert Load(d) == d[0] + 256 * Load(d[1..]) && d[1..] == [];
  }

  lemma LoadNext(d: Bytes)
    requires d != []
    ensures Load(d) == d[0] as int + 256 * Load(d[1..])
  {
  }

  lemma LoadTwo(b: Bytes, at: nat)
    requires at + 2 <= |b|
    ensures Load(b[at..at + 2]) == Two(b, at)
  {
    var d := b[at..at + 2];
    LoadNext(d);
    LoadOne(d[1..]);
  }

  lemma LoadFour(b: Bytes, at: nat)
    requires at + 4 <= |b|
    ensures Load(b[at..at + 4]) == Four(b, at)
  {
    var d := b[at..at + 4];
    LoadNext(d);
    LoadNext(d[1..]);
    assert d[1..][1..] == b[at + 2..at + 4];
    LoadTwo(b, at + 2);
  }

  // ----- What a receiver accepts -----

  /** Twenty bytes: magic, checksum, total size, version, flags, type, two and one unused, channel, time stamp. */
  predicate HeaderBytes(b: Bytes)
    requires |b| >= 20
  {
    && b[0] == 0x37 && b[1] == 0x13 && Two(b, 2) == Fnv.Checksum(b[..2] + [0, 0] + b[4..20]) % 65536
    && Four(b, 4) == |b| && b[8] == 1 && b[9] < 64 && b[9] / 8 % 2 == 0
    && Two(b, 10) != 0 && b[15] <= 1 && (Two(b, 10) < 100 <==> b[15] == 0)
  }

  /** Two numbers follow if the packet is reliable. */
  function Numbers(b: Bytes): nat
    requires |b| >= 20
  {
    if b[9] % 2 == 1 then 28 else 20
  }

  predicate IsCompressed(b: Bytes)
    requires |b| >= 20
  {
    b[9] / 4 % 2 == 1
  }

  /** Then the checksum of the rest, or the size of the rest, the original size, the checksum, a flag and padding. */
  predicate PayloadBytes(b: Bytes)
    requires |b| >= 20
  {
    var at := Numbers(b);
    if IsCompressed(b)
    then
      && at + 16 <= |b| && Four(b, at) == |b| - at - 16 && b[at + 12] <= 1
      && Four(b, at + 8) == Fnv.Checksum(b[at + 16..])
    else
      at + 4 <= |b| && Four(b, at) == Fnv.Checksum(b[at + 4..])
  }

  lemma FirstReads(b: Bytes)
    requires |b| >= 20
    ensures Offset(HEADER, 10) == 20
    ensures var h := Unpack(b, HEADER, 10); h[0] == Two(b, 0) && h[1] == Two(b, 2) && h[2] == Four(b, 4)
  {
    HeaderOffsets();
    FieldReads(b, 0);
    FieldReads(b, 1);
    FieldReads(b, 2);
    LoadTwo(b, 0);
    LoadTwo(b, 2);
    LoadFour(b, 4);
  }

  lemma LaterReads(b: Bytes)
    requires |b| >= 20
    ensures Offset(HEADER, 10) == 20
    ensures var h := Unpack(b, HEADER, 10); h[3] == b[8] && h[4] == b[9] && h[5] == Two(b, 10) && h[8] == b[15]
  {
    HeaderOffsets();
    FieldReads(b, 3);
    FieldReads(b, 4);
    FieldReads(b, 5);
    FieldReads(b, 8);
    LoadOne(b[8..9]);
    LoadOne(b[9..10]);
    LoadTwo(b, 10);
    LoadOne(b[15..16]);
  }

  lemma HeaderReads(b: Bytes)
    requires |b| >= 20
    ensures Offset(HEADER, 10) == 20
    ensures var h := Unpack(b, HEADER, 10);
            && h[0] == Two(b, 0) && h[1] == Two(b, 2) && h[2] == Four(b, 4) && h[3] == b[8] && h[4] == b[9]
            && h[5] == Two(b, 10) && h[8] == b[15]
  {
    FirstReads(b);
    LaterReads(b);
  }

  lemma FieldReads(b: Bytes, i: nat)
    requires i < 10 && |b| >= Offset(HEADER, 10)
    ensures Offset(HEADER, i) <= Offset(HEADER, i + 1) <= |b|
    ensures Unpack(b, HEADER, 10)[i] == Load(b[Offset(HEADER, i)..Offset(HEADER, i + 1)])
  {
    OffsetMonotone(HEADER, i, i + 1);
    UnpackAt(b, HEADER, 10, i);
  }

  lemma MagicIs(b: Bytes)
    requires |b| >= 20
    ensures Two(b, 0) == 0x1337 <==> b[0] == 0x37 && b[1] == 0x13
  {
  }

  lemma HeaderIff(b: Bytes)
    requires |b| >= 20
    ensures var h := Unpack(b, HEADER, 10); ValidHeader(h, |b|) && h[1] == HeaderChecksum(b) <==> HeaderBytes(b)
  {
    HeaderReads(b);
    MagicIs(b);
  }

  lemma PayloadIff(b: Bytes, f: nat)
    requires |b| >= 20 && f == b[9] && f < 64
    ensures AfterReliable(f) == Numbers(b) && (Flag(f, 4) <==> IsCompressed(b))
    ensures PayloadOffset(f) <= |b| && PayloadOk(b, f) <==> PayloadBytes(b)
  {
    var at := Numbers(b);
    if PayloadOffset(f) <= |b| {
      LoadFour(b, at);
      if IsCompressed(b) { LoadFour(b, at + 8); }
    }
  }

  /** A receiver accepts exactly these bytes. */
  lemma AcceptedExactly(b: Bytes)
    ensures Accepts(b).Some? <==> |b| >= 20 && HeaderBytes(b) && PayloadBytes(b)
    ensures Accepts(b).Some? ==> Accepts(b).value == b[9]
  {
    if |b| >= 20 {
      HeaderReads(b);
      HeaderIff(b);
      if HeaderBytes(b) { PayloadIff(b, b[9]); }
    }
  }

  /** What it reads from them: type, channel, the flag bits and the numbers; and of a packet neither encrypted nor
      compressed the payload itself. */
  lemma ReadExactly(p: Primitives, keys: bool, b: Bytes, i: Incoming)
    requires UnpackPacket(p, keys, b) == Some(i)
    ensures |b| >= 20 && HeaderBytes(b) && PayloadBytes(b)
    ensures i.kind == Two(b, 10) && i.channel == (if b[15] == 0 then Control else Data)
    ensures i.reliable == (b[9] % 2 == 1) && i.encrypted == (b[9] / 2 % 2 == 1) && i.compressed == (b[9] / 4 % 2 == 1)
    ensures i.priority == b[9] / 16
    ensures i.seqNum == (if i.reliable then Four(b, 20) else 0) && i.ackNum == if i.reliable then Four(b, 24) else 0
    ensures !i.encrypted && !i.compressed ==> i.data == b[Numbers(b) + 4..]
    ensures i.compressed ==> |i.data| == Four(b, Numbers(b) + 4) <= 67108864
  {
    AcceptedExactly(b);
    HeaderReads(b);
    PayloadIff(b, b[9]);
    if i.reliable {
      LoadFour(b, 20);
      LoadFour(b, 24);
    }
    if i.compressed { LoadFour(b, Numbers(b) + 4); }
  }

  // ----- What a sender puts there -----

  function TwoBytes(v: int): Bytes
    requires 0 <= v < 65536
  {
    [v % 256, v / 256]
  }

  function FourBytes(v: int): Bytes
    requires 0 <= v < 0x1_0000_0000
  {
    [v % 256, v / 256 % 256, v / 65536 % 256, v / 16777216]
  }

  lemma StoreNext(v: nat, n: nat)
    ensures Store(v, n + 1) == [v % 256] + Store(v / 256, n)
  {
  }

  lemma StoreTwo(v: nat)
    requires v < 65536
    ensures Store(v, 2) == TwoBytes(v)
  {
    StoreNext(v, 1);
    StoreNext(v / 256, 0);
  }

  lemma StoreFour(v: nat)
    requires v < 0x1_0000_0000
    ensures Store(v, 4) == FourBytes(v)
  {
    StoreNext(v, 3);
    StoreNext(v / 256, 2);
    StoreNext(v / 256 / 256, 1);
    StoreNext(v / 256 / 256 / 256, 0);
    assert v / 256 / 256 == v / 65536 && v / 65536 / 256 == v / 16777216;
  }

  lemma StoreOne(v: Byte)
    ensures Store(v, 1) == [v]
  {
    StoreNext(v, 0);
  }

  /** The data the cipher authenticates beside the payload: type, channel, flags and both numbers. */
  lemma AuthenticatedBytes(kind: U16, channel: Byte, flags: Byte, seqNum: U32, ackNum: U32)
    ensures AssociatedData(kind, channel, flags, seqNum, ackNum)
            == TwoBytes(kind) + [channel, flags] + FourBytes(seqNum) + FourBytes(ackNum)
  {
    var vs := [kind, channel, flags, seqNum, ackNum];
    assert Pack(vs, AAD, 1) == [] + Store(kind, 2);
    assert Pack(vs, AAD, 2) == Pack(vs, AAD, 1) + Store(channel, 1);
    assert Pack(vs, AAD, 3) == Pack(vs, AAD, 2) + Store(flags, 1);
    assert Pack(vs, AAD, 4) == Pack(vs, AAD, 3) + Store(seqNum, 4);
    StoreTwo(kind);
    StoreOne(channel);
    StoreOne(flags);
    StoreFour(seqNum);
    StoreFour(ackNum);
  }

  /** The acknowledgement number of a packet: of a reliable acknowledgement what it carries, of any other none. */
  function AckNumber(o: Outgoing): int { if o.reliable && o.kind == 1 then o.scalar % 0x1_0000_0000 else 0 }

  /** What a sender authenticates. */
  lemma SenderAuthenticates(p: Primitives, o: Outgoing, q: U32)
    ensures SenderAad(p, o, q)
            == TwoBytes(o.kind)
               + [if o.channel.Control? then 0 else 1,
                  FlagByte(o.reliable, o.encrypted, SentCompressed(p, o), o.priority)]
               + FourBytes(if o.reliable then q else 0) + FourBytes(AckNumber(o))
  {
    var flags := FlagByte(o.reliable, o.encrypted, SentCompressed(p, o), o.priority);
    AuthenticatedBytes(o.kind, ChannelId(o.channel), flags, SequenceField(o, q), AckField(o));
  }

  /** The library compresses the payload to fewer bytes. */
  predicate Shrinks(p: Primitives, d: Bytes) { d != [] && p.lz4(d).Some? && |p.lz4(d).value| < |d| }

  /** The payload as it is before encryption. */
  function Plain(p: Primitives, o: Outgoing): Bytes {
    if o.compressed && Shrinks(p, o.payload) then p.lz4(o.payload).value else o.payload
  }

  /** The payload as it is sent. */
  function Sealed(p: Primitives, o: Outgoing, q: U32): Option<Bytes> {
    if o.encrypted then p.encrypt(Plain(p, o), SenderAad(p, o, q)) else Some(Plain(p, o))
  }

  lemma BodyIs(p: Primitives, keys: bool, o: Outgoing, q: U32)
    ensures Body(p, keys, o, q)
            == var d := Sealed(p, o, q);
               if o.encrypted && (!keys || (d.Some? && |d.value| >= 0x1_0000_0000)) then None else d
  {
  }

  /** The fixed header of a built packet, field by field. */
  lemma BuiltHeader(p: Primitives, keys: bool, o: Outgoing, q: U32, stamp: U32, b: Bytes)
    requires |o.payload| < 0x1_0000_0000 && Build(p, keys, o, q, stamp) == Some(b)
    ensures |b| >= 20 && Two(b, 0) == 0x1337 && b[8] == 1 && Four(b, 16) == stamp
    ensures b[9] == FlagByte(o.reliable, o.encrypted, SentCompressed(p, o), o.priority)
  {
    var header, body, sum := PacketTheorems.BuiltLayout(p, keys, o, q, stamp, b);
    PacketTheorems.HeaderOfLayout(p, o, q, stamp, b, header, body, sum);
    HeaderReads(b);
    FieldReads(b, 9);
    HeaderOffsets();
    LoadFour(b, 16);
  }

  lemma BuiltBytes(p: Primitives, keys: bool, o: Outgoing, q: U32, stamp: U32, b: Bytes)
    requires |o.payload| < 0x1_0000_0000 && Build(p, keys, o, q, stamp) == Some(b)
    ensures |b| >= 20 && b[0] == 0x37 && b[1] == 0x13 && b[8] == 1 && Four(b, 16) == stamp
    ensures IsCompressed(b) == SentCompressed(p, o)
    ensures var size := HeadersSize(o, SentCompressed(p, o));
            && Body(p, keys, o, q).Some? && |b| == size + |Body(p, keys, o, q).value|
            && b[size..] == Body(p, keys, o, q).value
  {
    var header, body, sum := PacketTheorems.BuiltLayout(p, keys, o, q, stamp, b);
    BuiltHeader(p, keys, o, q, stamp, b);
    MagicIs(b);
    PacketTheorems.BodyIsLast(p, o, q, body, header, b);
    PacketTheorems.PartOffsets(o, SentCompressed(p, o));
    PacketTheorems.FlagsRoundTrip(o.reliable, o.encrypted, SentCompressed(p, o), o.priority);
  }

  /** The two numbers of a reliable packet. */
  lemma BuiltNumbers(p: Primitives, keys: bool, o: Outgoing, q: U32, stamp: U32, b: Bytes)
    requires |o.payload| < 0x1_0000_0000 && Build(p, keys, o, q, stamp) == Some(b) && o.reliable
    ensures |b| >= 28 && Four(b, 20) == q && Four(b, 24) == AckNumber(o)
  {
    var header, body, sum := PacketTheorems.BuiltLayout(p, keys, o, q, stamp, b);
    PacketTheorems.ReliableFieldsRead(p, o, q, body, header, b);
    LoadFour(b, 20);
    LoadFour(b, 24);
  }

  /** A packet is built if and only if encryption, where asked for, has keys and succeeds, and the whole stays below
      2^32 bytes.  It ends with the payload: compressed if that was asked for and helps, then encrypted if that was
      asked for; and it says so. */
  lemma BuiltExactly(p: Primitives, keys: bool, o: Outgoing, q: U32, stamp: U32)
    requires |o.payload| < 0x1_0000_0000
    ensures var z := o.compressed && (o.payload == [] || Shrinks(p, o.payload));
            var size := 20 + (if o.reliable then 8 else 0) + if z then 16 else 4;
            && (Build(p, keys, o, q, stamp).Some? <==>
                && (o.encrypted ==> keys) && Sealed(p, o, q).Some? && size + |Sealed(p, o, q).value| < 0x1_0000_0000)
            && (Build(p, keys, o, q, stamp).Some? ==>
                  var b := Build(p, keys, o, q, stamp).value;
                  && |b| == size + |Sealed(p, o, q).value| && b[size..] == Sealed(p, o, q).value
                  && b[0] == 0x37 && b[1] == 0x13 && b[8] == 1 && IsCompressed(b) == z && Four(b, 16) == stamp
                  && (o.reliable ==> Four(b, 20) == q && Four(b, 24) == AckNumber(o)))
  {
    BodyIs(p, keys, o, q);
    if Build(p, keys, o, q, stamp).Some? {
      var b := Build(p, keys, o, q, stamp).value;
      BuiltBytes(p, keys, o, q, stamp, b);
      if o.reliable { BuiltNumbers(p, keys, o, q, stamp, b); }
    }
  }

  // ----- File chunks -----

  function EightBytes(v: int): Bytes
    requires 0 <= v < 0x1_0000_0000_0000_0000
  {
    FourBytes(v % 0x1_0000_0000) + FourBytes(v / 0x1_0000_0000)
  }

  lemma Joined(a: Bytes, b: Bytes, v: nat)
    requires |a| == |b| == 4 && v == Load(a) + 0x1_0000_0000 * Load(b)
    ensures Store(v, 8) == a + b
  {
    LoadTogether(a, b);
    StoreLoad(a + b);
  }

  /** Storing is storing the low part and then the high part. */
  lemma StoreEight(v: U64)
    ensures Store(v, 8) == EightBytes(v)
  {
    var low, high := v % 0x1_0000_0000, v / 0x1_0000_0000;
    Widths();
    StoreFour(low);
    StoreFour(high);
    LoadStore(low, 4);
    LoadStore(high, 4);
    Joined(Store(low, 4), Store(high, 4), v);
  }

  lemma LoadTogether(a: Bytes, b: Bytes)
    requires |a| == 4
    ensures Load(a + b) == Load(a) + 0x1_0000_0000 * Load(b)
  {
    LoadStep(a, b);
    LoadStep(a[1..], b);
    LoadStep(a[2..], b);
    LoadStep(a[3..], b);
    assert a[4..] == [] && [] + b == b;
  }

  lemma LoadStep(a: Bytes, b: Bytes)
    requires a != []
    ensures Load(a + b) == a[0] as int + 256 * Load(a[1..] + b) && Load(a) == a[0] as int + 256 * Load(a[1..])
  {
    assert (a + b)[1..] == a[1..] + b;
  }

  lemma FirstFields(c: TransferChunks.TransferChunk)
    ensures var vs, ws := TransferChunks.Header(c), TransferChunks.WIDTHS;
            Pack(vs, ws, 6) == Store(vs[0], 4) + Store(vs[1], 1) + Store(vs[2], 1) + Store(vs[3], 8) + Store(vs[4], 8)
                               + Store(vs[5], 4)
  {
    var vs, ws := TransferChunks.Header(c), TransferChunks.WIDTHS;
    assert Pack(vs, ws, 1) == [] + Store(vs[0], 4) == Store(vs[0], 4);
    assert Pack(vs, ws, 2) == Pack(vs, ws, 1) + Store(vs[1], 1);
    assert Pack(vs, ws, 3) == Pack(vs, ws, 2) + Store(vs[2], 1);
    assert Pack(vs, ws, 4) == Pack(vs, ws, 3) + Store(vs[3], 8);
    assert Pack(vs, ws, 5) == Pack(vs, ws, 4) + Store(vs[4], 8);
  }

  lemma LastFields(c: TransferChunks.TransferChunk)
    ensures var vs, ws := TransferChunks.Header(c), TransferChunks.WIDTHS;
            Pack(vs, ws, 12) == Pack(vs, ws, 6) + Store(vs[6], 4) + Store(vs[7], 4) + Store(vs[8], 4) + Store(vs[9], 4)
                                + Store(vs[10], 4) + Store(vs[11], 2)
  {
    var vs, ws := TransferChunks.Header(c), TransferChunks.WIDTHS;
    assert Pack(vs, ws, 7) == Pack(vs, ws, 6) + Store(vs[6], 4);
    assert Pack(vs, ws, 8) == Pack(vs, ws, 7) + Store(vs[7], 4);
    assert Pack(vs, ws, 9) == Pack(vs, ws, 8) + Store(vs[8], 4);
    assert Pack(vs, ws, 10) == Pack(vs, ws, 9) + Store(vs[9], 4);
    assert Pack(vs, ws, 11) == Pack(vs, ws, 10) + Store(vs[10], 4);
  }

  function ChunkFlags(c: TransferChunks.TransferChunk): Byte {
    (if c.hasFileName then 1 else 0) + if c.isLastChunk then 2 else 0
  }

  lemma Preamble(magic: U32, flags: Byte)
    requires magic == 0x5A465452
    ensures Store(magic, 4) + Store(1, 1) + Store(flags, 1) == [0x52, 0x54, 0x46, 0x5A, 1, flags]
  {
    StoreFour(magic);
    StoreOne(1);
    StoreOne(flags);
  }

  lemma FirstBytes(c: TransferChunks.TransferChunk)
    ensures Pack(TransferChunks.Header(c), TransferChunks.WIDTHS, 6)
            == [0x52, 0x54, 0x46, 0x5A, 1, ChunkFlags(c)] + EightBytes(c.transferId) + EightBytes(c.fileSize)
               + FourBytes(c.chunkSize)
  {
    FirstFields(c);
    Preamble(TransferChunks.MAGIC, ChunkFlags(c));
    StoreEight(c.transferId);
    StoreEight(c.fileSize);
    StoreFour(c.chunkSize);
  }

  lemma LastBytes(c: TransferChunks.TransferChunk)
    requires |c.data| < 0x1_0000_0000 && |c.fileName| < 65536
    ensures Pack(TransferChunks.Header(c), TransferChunks.WIDTHS, 12)
            == Pack(TransferChunks.Header(c), TransferChunks.WIDTHS, 6) + FourBytes(c.chunkIndex)
               + FourBytes(c.totalChunks) + FourBytes(|c.data|) + FourBytes(c.chunkChecksum) + FourBytes(c.fileChecksum)
               + TwoBytes(|c.fileName|)
  {
    LastFields(c);
    StoreFour(c.chunkIndex);
    StoreFour(c.totalChunks);
    StoreFour(|c.data|);
    StoreFour(c.chunkChecksum);
    StoreFour(c.fileChecksum);
    StoreTwo(|c.fileName|);
  }

  /** The bytes of a chunk: "RTFZ", version, flags, identifier, file size, chunk size, index, total, data size, both
      checksums, name size, name, data. */
  lemma ChunkBytes(c: TransferChunks.TransferChunk)
    requires |c.data| < 0x1_0000_0000 && |c.fileName| < 65536
    ensures TransferChunks.Encode(c)
            == [0x52, 0x54, 0x46, 0x5A, 1, ChunkFlags(c)] + EightBytes(c.transferId) + EightBytes(c.fileSize)
               + FourBytes(c.chunkSize) + FourBytes(c.chunkIndex) + FourBytes(c.totalChunks) + FourBytes(|c.data|)
               + FourBytes(c.chunkChecksum) + FourBytes(c.fileChecksum) + TwoBytes(|c.fileName|) + c.fileName + c.data
  {
    FirstBytes(c);
    LastBytes(c);
  }
}
