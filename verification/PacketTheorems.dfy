/** Building and unpacking a packet are inverse, and damage is noticed. */
module PacketTheorems {
  import opened Common
  import opened WireLe
  import opened Fields
  import opened PacketCodec
  import Fnv

  lemma FlagsRoundTrip(reliable: bool, encrypted: bool, compressed: bool, priority: Priority)
    ensures var f := FlagByte(reliable, encrypted, compressed, priority);
            && f < 64 && Flag(f, 1) == reliable && Flag(f, 2) == encrypted && Flag(f, 4) == compressed && !Flag(f, 8)
            && f / 16 == priority
  {
    var low := Bit(reliable) + 2 * Bit(encrypted) + 4 * Bit(compressed);
    var f := low + 16 * priority;
    assert f / 16 == priority && f / 8 == 2 * priority && f / 4 == 4 * priority + Bit(compressed);
    assert f / 2 == 8 * priority + 2 * Bit(compressed) + Bit(encrypted);
  }

  /** Both sides compute the same associated data. */
  lemma AssociatedDataAgrees(p: Primitives, o: Outgoing, q: U32)
    ensures var f := FlagByte(o.reliable, o.encrypted, SentCompressed(p, o), o.priority);
            && f < 64
            && SenderAad(p, o, q) == ReceiverAad(o.kind, ChannelId(o.channel), f, SequenceField(o, q), AckField(o))
  {
    FlagsRoundTrip(o.reliable, o.encrypted, SentCompressed(p, o), o.priority);
  }

  // ----- The fixed header -----

  lemma HeaderFieldsFit(o: Outgoing, z: bool, total: nat, stamp: U32, checksum: U16)
    requires total < U32_SIZE
    ensures Fits(HeaderFields(o, z, total, stamp, checksum), HEADER)
  {
    Widths();
    assert Pow256(1) == 256 * Pow256(0);
  }

  /** Storing the checksum does not change the checksum. */
  lemma ChecksumIgnoresItself(o: Outgoing, z: bool, total: nat, stamp: U32, checksum: U16, rest: Bytes)
    ensures |FixedHeader(o, z, total, stamp, 0)| == |FixedHeader(o, z, total, stamp, checksum)| == HEADER_SIZE
    ensures HeaderChecksum(FixedHeader(o, z, total, stamp, checksum) + rest)
              == HeaderChecksum(FixedHeader(o, z, total, stamp, 0))
  {
    HeaderOffsets();
    var vs := HeaderFields(o, z, total, stamp, 0);
    assert vs[1 := checksum] == HeaderFields(o, z, total, stamp, checksum);
    PackPatched(vs, HEADER, 10, 1, checksum);
    var a, b := FixedHeader(o, z, total, stamp, 0), FixedHeader(o, z, total, stamp, checksum);
    assert (b + rest)[..2] == b[..2] && (b + rest)[4..HEADER_SIZE] == b[4..];
    assert a[4..HEADER_SIZE] == a[4..];
  }

  // ----- The payload header -----

  lemma CompressedUnpacks(size: U32, original: U32, sum: U32)
    ensures var vs := [size, original, sum, 1, 0, 0, 0];
            var h := Pack(vs, COMPRESSED, 7);
            |h| == 16 == Offset(COMPRESSED, 7) && Unpack(h, COMPRESSED, 7) == vs
  {
    HeaderOffsets();
    Widths();
    assert Pow256(1) == 256 * Pow256(0);
    var vs := [size, original, sum, 1, 0, 0, 0];
    var h := Pack(vs, COMPRESSED, 7);
    UnpackPack(vs, COMPRESSED, 7, []);
    assert h + [] == h && vs[..7] == vs;
  }

  lemma CompressedFields(size: U32, original: U32, sum: U32)
    ensures var h := Pack([size, original, sum, 1, 0, 0, 0], COMPRESSED, 7);
            |h| == 16 && Load(h[..4]) == size && Load(h[4..8]) == original && Load(h[8..12]) == sum && h[12] == 1
  {
    HeaderOffsets();
    CompressedUnpacks(size, original, sum);
    var h := Pack([size, original, sum, 1, 0, 0, 0], COMPRESSED, 7);
    UnpackAt(h, COMPRESSED, 7, 0);
    UnpackAt(h, COMPRESSED, 7, 1);
    UnpackAt(h, COMPRESSED, 7, 2);
    UnpackAt(h, COMPRESSED, 7, 3);
    assert h[12..13] == [h[12]] && Load([h[12]]) == h[12] + 256 * Load([]);
  }

  lemma SliceOfSlice(b: Bytes, lo: nat, hi: nat, i: nat, j: nat)
    requires lo <= hi <= |b| && i <= j <= hi - lo
    ensures b[lo..hi][i..j] == b[lo + i..lo + j]
  {
    assert forall k | 0 <= k < j - i :: b[lo..hi][i..j][k] == b[lo + i..lo + j][k];
  }

  /** The four parts of a packet, with the sizes they have. */
  ghost predicate Layout(p: Primitives, o: Outgoing, q: U32, body: Bytes, header: Bytes, b: Bytes) {
    && |header| == HEADER_SIZE && b == header + ReliableHeader(o, q) + PayloadHeader(p, o, body) + body
  }

  lemma FourParts(a: Bytes, r: Bytes, h: Bytes, body: Bytes)
    ensures var b := a + r + h + body;
            && |b| == |a| + |r| + |h| + |body| && b == a + (r + h + body)
            && b[|a|..|a| + |r|] == r && b[|a| + |r|..|a| + |r| + |h|] == h && b[|a| + |r| + |h|..] == body
  {
  }

  lemma PartSizes(p: Primitives, o: Outgoing, q: U32, body: Bytes)
    ensures |ReliableHeader(o, q)| == if o.reliable then 8 else 0
    ensures |PayloadHeader(p, o, body)| == if SentCompressed(p, o) then 16 else 4
  {
    HeaderOffsets();
  }

  /** Where the flags say the parts are. */
  lemma PartOffsets(o: Outgoing, z: bool)
    ensures var f := FlagByte(o.reliable, o.encrypted, z, o.priority);
            AfterReliable(f) == HEADER_SIZE + (if o.reliable then 8 else 0) && PayloadOffset(f) == HeadersSize(o, z)
  {
    FlagsRoundTrip(o.reliable, o.encrypted, z, o.priority);
  }

  lemma BodyIsLast(p: Primitives, o: Outgoing, q: U32, body: Bytes, header: Bytes, b: Bytes)
    requires Layout(p, o, q, body, header, b)
    ensures var f := FlagByte(o.reliable, o.encrypted, SentCompressed(p, o), o.priority);
            && PayloadOffset(f) <= |b| && b[PayloadOffset(f)..] == body
            && b[AfterReliable(f)..PayloadOffset(f)] == PayloadHeader(p, o, body)
            && (o.reliable ==> b[HEADER_SIZE..HEADER_SIZE + 8] == ReliableHeader(o, q))
            && |b| == HeadersSize(o, SentCompressed(p, o)) + |body|
  {
    FourParts(header, ReliableHeader(o, q), PayloadHeader(p, o, body), body);
    PartSizes(p, o, q, body);
    PartOffsets(o, SentCompressed(p, o));
  }

  lemma PayloadChecksOut(p: Primitives, o: Outgoing, q: U32, body: Bytes, header: Bytes, b: Bytes)
    requires Layout(p, o, q, body, header, b) && |body| < U32_SIZE && |o.payload| < U32_SIZE
    ensures var f := FlagByte(o.reliable, o.encrypted, SentCompressed(p, o), o.priority);
            && PayloadOffset(f) <= |b| && PayloadOk(b, f)
            && (Flag(f, 4) ==> U32At(b, AfterReliable(f) + 4) == |o.payload|)
  {
    BodyIsLast(p, o, q, body, header, b);
    FlagsRoundTrip(o.reliable, o.encrypted, SentCompressed(p, o), o.priority);
    var f := FlagByte(o.reliable, o.encrypted, SentCompressed(p, o), o.priority);
    var at, sum := AfterReliable(f), Fnv.Checksum(body);
    var h := b[at..PayloadOffset(f)];
    if SentCompressed(p, o) {
      CompressedFields(|body|, |o.payload|, sum);
      SliceOfSlice(b, at, PayloadOffset(f), 0, 4);
      SliceOfSlice(b, at, PayloadOffset(f), 4, 8);
      SliceOfSlice(b, at, PayloadOffset(f), 8, 12);
      assert b[at + 12] == h[12];
    } else {
      Widths();
      LoadStore(sum, 4);
      assert b[at..at + 4] == h;
    }
  }

  lemma ReliableFieldsRead(p: Primitives, o: Outgoing, q: U32, body: Bytes, header: Bytes, b: Bytes)
    requires Layout(p, o, q, body, header, b) && |body| < U32_SIZE && |o.payload| < U32_SIZE && o.reliable
    ensures |b| >= HEADER_SIZE + 8 && U32At(b, HEADER_SIZE) == q && U32At(b, HEADER_SIZE + 4) == AckField(o)
  {
    BodyIsLast(p, o, q, body, header, b);
    Widths();
    LoadStore(q, 4);
    LoadStore(AckField(o), 4);
    var r := b[HEADER_SIZE..HEADER_SIZE + 8];
    assert b[HEADER_SIZE..HEADER_SIZE + 4] == r[..4] && b[HEADER_SIZE + 4..HEADER_SIZE + 8] == r[4..];
    assert r[..4] == Store(q, 4) && r[4..] == Store(AckField(o), 4);
  }

  // ----- Acceptance -----

  /** The fixed header of a built packet reads back, checksum included. */
  lemma HeaderReadsBack(o: Outgoing, z: bool, total: nat, stamp: U32, rest: Bytes)
    requires total < U32_SIZE && |FixedHeader(o, z, total, stamp, 0)| == HEADER_SIZE
    ensures var sum := HeaderChecksum(FixedHeader(o, z, total, stamp, 0));
            var b := FixedHeader(o, z, total, stamp, sum) + rest;
            && Offset(HEADER, 10) == HEADER_SIZE <= |b| && HeaderChecksum(b) == sum
            && Unpack(b, HEADER, 10) == HeaderFields(o, z, total, stamp, sum)
  {
    HeaderOffsets();
    var sum := HeaderChecksum(FixedHeader(o, z, total, stamp, 0));
    ChecksumIgnoresItself(o, z, total, stamp, sum, rest);
    HeaderFieldsFit(o, z, total, stamp, sum);
    var vs := HeaderFields(o, z, total, stamp, sum);
    UnpackPack(vs, HEADER, 10, rest);
    assert vs[..10] == vs;
  }

  lemma ValidWhenWellFormed(o: Outgoing, z: bool, total: nat, stamp: U32, sum: U16)
    ensures ValidHeader(HeaderFields(o, z, total, stamp, sum), total) <==> WellFormed(o)
  {
    FlagsRoundTrip(o.reliable, o.encrypted, z, o.priority);
  }

  lemma AcceptsWhen(b: Bytes, h: seq<nat>)
    requires |b| >= HEADER_SIZE == Offset(HEADER, 10) && h == Unpack(b, HEADER, 10) && h[1] == HeaderChecksum(b)
    requires PayloadOffset(h[4]) <= |b| && PayloadOk(b, h[4])
    ensures Accepts(b) == if ValidHeader(h, |b|) then Some(h[4]) else None
  {
  }

  /** What a built packet looks like. */
  lemma BuiltLayout(p: Primitives, hasKeys: bool, o: Outgoing, q: U32, stamp: U32, b: Bytes)
    returns (header: Bytes, body: Bytes, sum: U16)
    requires |o.payload| < U32_SIZE && Build(p, hasKeys, o, q, stamp) == Some(b)
    ensures Body(p, hasKeys, o, q) == Some(body) && |body| < U32_SIZE && Layout(p, o, q, body, header, b)
    ensures |b| < U32_SIZE && header == FixedHeader(o, SentCompressed(p, o), |b|, stamp, sum)
    ensures |FixedHeader(o, SentCompressed(p, o), |b|, stamp, 0)| == HEADER_SIZE
    ensures sum == HeaderChecksum(FixedHeader(o, SentCompressed(p, o), |b|, stamp, 0))
  {
    HeaderOffsets();
    var z := SentCompressed(p, o);
    body := Body(p, hasKeys, o, q).value;
    var total := HeadersSize(o, z) + |body|;
    sum := HeaderChecksum(FixedHeader(o, z, total, stamp, 0));
    header := FixedHeader(o, z, total, stamp, sum);
    BodyIsLast(p, o, q, body, header, b);
  }

  lemma HeaderOfLayout(p: Primitives, o: Outgoing, q: U32, stamp: U32, b: Bytes, header: Bytes, body: Bytes, sum: U16)
    requires Layout(p, o, q, body, header, b) && |b| < U32_SIZE
    requires header == FixedHeader(o, SentCompressed(p, o), |b|, stamp, sum)
    requires |FixedHeader(o, SentCompressed(p, o), |b|, stamp, 0)| == HEADER_SIZE
    requires sum == HeaderChecksum(FixedHeader(o, SentCompressed(p, o), |b|, stamp, 0))
    ensures Offset(HEADER, 10) == HEADER_SIZE <= |b| && HeaderChecksum(b) == sum
    ensures Unpack(b, HEADER, 10) == HeaderFields(o, SentCompressed(p, o), |b|, stamp, sum)
  {
    var rest := ReliableHeader(o, q) + PayloadHeader(p, o, body) + body;
    FourParts(header, ReliableHeader(o, q), PayloadHeader(p, o, body), body);
    HeaderReadsBack(o, SentCompressed(p, o), |b|, stamp, rest);
  }

  /** A built packet is accepted exactly when its type is valid and on the right channel. */
  lemma BuiltIsAccepted(p: Primitives, hasKeys: bool, o: Outgoing, q: U32, stamp: U32, b: Bytes)
    returns (header: Bytes, body: Bytes)
    requires |o.payload| < U32_SIZE && Build(p, hasKeys, o, q, stamp) == Some(b)
    ensures Body(p, hasKeys, o, q) == Some(body) && |body| < U32_SIZE && Layout(p, o, q, body, header, b)
    ensures Accepts(b)
              == if WellFormed(o) then Some(FlagByte(o.reliable, o.encrypted, SentCompressed(p, o), o.priority))
                 else None
    ensures Offset(HEADER, 10) <= |b| && Unpack(b, HEADER, 10)[5] == o.kind
    ensures Unpack(b, HEADER, 10)[8] == ChannelId(o.channel)
  {
    var sum;
    header, body, sum := BuiltLayout(p, hasKeys, o, q, stamp, b);
    LayoutIsAccepted(p, o, q, stamp, b, header, body, sum);
  }

  lemma LayoutIsAccepted(p: Primitives, o: Outgoing, q: U32, stamp: U32, b: Bytes, header: Bytes, body: Bytes, sum: U16)
    requires |o.payload| < U32_SIZE && |body| < U32_SIZE && Layout(p, o, q, body, header, b) && |b| < U32_SIZE
    requires header == FixedHeader(o, SentCompressed(p, o), |b|, stamp, sum)
    requires |FixedHeader(o, SentCompressed(p, o), |b|, stamp, 0)| == HEADER_SIZE
    requires sum == HeaderChecksum(FixedHeader(o, SentCompressed(p, o), |b|, stamp, 0))
    ensures Accepts(b)
              == if WellFormed(o) then Some(FlagByte(o.reliable, o.encrypted, SentCompressed(p, o), o.priority))
                 else None
    ensures Offset(HEADER, 10) <= |b| && Unpack(b, HEADER, 10)[5] == o.kind
    ensures Unpack(b, HEADER, 10)[8] == ChannelId(o.channel)
  {
    var h := HeaderFields(o, SentCompressed(p, o), |b|, stamp, sum);
    HeaderOfLayout(p, o, q, stamp, b, header, body, sum);
    ValidWhenWellFormed(o, SentCompressed(p, o), |b|, stamp, sum);
    PayloadChecksOut(p, o, q, body, header, b);
    AcceptsWhen(b, h);
  }

  // ----- The round trip -----

  /** Decompression refuses what the sender was willing to compress when it is over the limit. */
  predicate Expandable(p: Primitives, o: Outgoing) { Squeeze(p, o).Some? ==> |o.payload| <= 67108864 }

  lemma SqueezedExpands(p: Primitives, o: Outgoing)
    requires InversePairs(p) && SentCompressed(p, o)
    ensures Expand(p, Squeezed(p, o), |o.payload|) == if Expandable(p, o) then Some(o.payload) else None
  {
    if Squeeze(p, o).Some? { assert p.unlz4(p.lz4(o.payload).value, |o.payload|) == Some(o.payload); }
  }

  lemma BodyOpens(p: Primitives, senderKeys: bool, receiverKeys: bool, o: Outgoing, q: U32, originalSize: nat,
                  body: Bytes)
    requires InversePairs(p) && Body(p, senderKeys, o, q) == Some(body)
    requires (SentCompressed(p, o) ==> originalSize == |o.payload|)
    ensures var f := FlagByte(o.reliable, o.encrypted, SentCompressed(p, o), o.priority);
            OpenBody(p, receiverKeys, f, SenderAad(p, o, q), originalSize, body)
              == if (o.encrypted ==> receiverKeys) && Expandable(p, o) then Some(o.payload) else None
  {
    FlagsRoundTrip(o.reliable, o.encrypted, SentCompressed(p, o), o.priority);
    if SentCompressed(p, o) { SqueezedExpands(p, o); }
    if o.encrypted {
      assert p.decrypt(p.encrypt(Squeezed(p, o), SenderAad(p, o, q)).value, SenderAad(p, o, q)) == Some(Squeezed(p, o));
    }
  }

  /** What the receiver makes of a packet it accepts. */
  lemma UnpackAccepted(p: Primitives, keys: bool, b: Bytes, o: Outgoing, q: U32, z: bool, originalSize: nat)
    requires Accepts(b) == Some(FlagByte(o.reliable, o.encrypted, z, o.priority))
    requires Unpack(b, HEADER, 10)[5] == o.kind && Unpack(b, HEADER, 10)[8] == ChannelId(o.channel)
    requires var f := FlagByte(o.reliable, o.encrypted, z, o.priority);
             && f < 64 && Flag(f, 1) == o.reliable && Flag(f, 2) == o.encrypted && Flag(f, 4) == z
             && f / 16 == o.priority
             && (o.reliable ==> U32At(b, HEADER_SIZE) == q && U32At(b, HEADER_SIZE + 4) == AckField(o))
             && originalSize == (if z then U32At(b, AfterReliable(f) + 4) else 0)
    ensures var f := FlagByte(o.reliable, o.encrypted, z, o.priority);
            var data := OpenBody(p, keys, f,
                                 ReceiverAad(o.kind, ChannelId(o.channel), f, SequenceField(o, q), AckField(o)),
                                 originalSize, b[PayloadOffset(f)..]);
            UnpackPacket(p, keys, b)
              == if data.None? then None
                 else Some(Incoming(o.channel, o.reliable, o.encrypted, z, o.priority, o.kind, SequenceField(o, q),
                                    AckField(o), data.value))
  {
  }

  /** Every packet that builds unpacks to the same type, channel, reliability, priority, numbers and
      payload, exactly when it is well formed, the receiver has keys if it is encrypted, and what was
      compressed is within the decompression limit; otherwise it is rejected. */
  lemma RoundTrip(p: Primitives, senderKeys: bool, receiverKeys: bool, o: Outgoing, q: U32, stamp: U32, b: Bytes)
    requires InversePairs(p) && |o.payload| < U32_SIZE && Build(p, senderKeys, o, q, stamp) == Some(b)
    ensures UnpackPacket(p, receiverKeys, b)
              == if WellFormed(o) && (o.encrypted ==> receiverKeys) && Expandable(p, o)
                 then Some(Incoming(o.channel, o.reliable, o.encrypted, SentCompressed(p, o), o.priority, o.kind,
                                    SequenceField(o, q), AckField(o), o.payload))
                 else None
  {
    var header, body := BuiltIsAccepted(p, senderKeys, o, q, stamp, b);
    if WellFormed(o) {
      var z := SentCompressed(p, o);
      var f := FlagByte(o.reliable, o.encrypted, z, o.priority);
      FlagsRoundTrip(o.reliable, o.encrypted, z, o.priority);
      BodyIsLast(p, o, q, body, header, b);
      PayloadChecksOut(p, o, q, body, header, b);
      if o.reliable { ReliableFieldsRead(p, o, q, body, header, b); }
      var originalSize := if z then U32At(b, AfterReliable(f) + 4) else 0;
      UnpackAccepted(p, receiverKeys, b, o, q, z, originalSize);
      AssociatedDataAgrees(p, o, q);
      BodyOpens(p, senderKeys, receiverKeys, o, q, originalSize, body);
    }
  }

  /** Building again the packet that building left behind gives the same bytes. */
  lemma RebuildIsSame(p: Primitives, keys: bool, o: Outgoing, q: U32, stamp: U32)
    ensures Build(p, keys, o.(compressed := SentCompressed(p, o)), q, stamp) == Build(p, keys, o, q, stamp)
  {
    var o' := o.(compressed := SentCompressed(p, o));
    if SentCompressed(p, o) == o.compressed {
      assert o' == o;
    } else {
      assert Squeeze(p, o) == None && !SentCompressed(p, o');
      RebuildPlain(p, keys, o, o', q, stamp);
    }
  }

  lemma SameFixedHeader(o: Outgoing, total: nat, stamp: U32, sum: nat)
    ensures FixedHeader(o.(compressed := false), false, total, stamp, sum) == FixedHeader(o, false, total, stamp, sum)
  {
    assert HeaderFields(o.(compressed := false), false, total, stamp, sum) == HeaderFields(o, false, total, stamp, sum);
  }

  lemma SameBody(p: Primitives, keys: bool, o: Outgoing, o': Outgoing, q: U32)
    requires o' == o.(compressed := false) && Squeeze(p, o) == None && !SentCompressed(p, o) && !SentCompressed(p, o')
    ensures Body(p, keys, o', q) == Body(p, keys, o, q) && ReliableHeader(o', q) == ReliableHeader(o, q)
    ensures forall body: Bytes :: PayloadHeader(p, o', body) == PayloadHeader(p, o, body)
  {
    assert Squeezed(p, o') == Squeezed(p, o) && SenderAad(p, o', q) == SenderAad(p, o, q);
  }

  lemma RebuildPlain(p: Primitives, keys: bool, o: Outgoing, o': Outgoing, q: U32, stamp: U32)
    requires o' == o.(compressed := false) && Squeeze(p, o) == None && !SentCompressed(p, o) && !SentCompressed(p, o')
    ensures Build(p, keys, o', q, stamp) == Build(p, keys, o, q, stamp)
  {
    SameBody(p, keys, o, o', q);
    if Body(p, keys, o, q).Some? {
      HeaderOffsets();
      var total := HeadersSize(o, false) + |Body(p, keys, o, q).value|;
      SameFixedHeader(o, total, stamp, 0);
      SameFixedHeader(o, total, stamp, HeaderChecksum(FixedHeader(o, false, total, stamp, 0)));
    }
  }

  // ----- Beyond the decompression limit -----

  /** A compressor that knows only runs of zeros. */
  function ZeroRuns(): Primitives {
    Primitives(d => if d != [] && d == Zeros(|d|) then Some([]) else None, (c, n) => Some(Zeros(n)), (d, aad) => None,
               (c, aad) => None)
  }

  function ZeroPacket(n: nat): Outgoing { Outgoing(Data, false, false, true, 0, FIRST_USER_TYPE, Zeros(n), 0) }

  lemma ZeroRunsInvert()
    ensures InversePairs(ZeroRuns())
  {
  }

  lemma ZeroPacketBuilds(n: nat, keys: bool)
    requires 0 < n
    ensures Squeeze(ZeroRuns(), ZeroPacket(n)) == Some([]) && Build(ZeroRuns(), keys, ZeroPacket(n), 0, 0).Some?
  {
    assert Squeeze(ZeroRuns(), ZeroPacket(n)) == Some([]);
    assert Body(ZeroRuns(), keys, ZeroPacket(n), 0) == Some([]);
  }

  /** A packet that is well formed, compresses and builds, and is rejected for its size alone. */
  lemma OversizedIsRejected(n: nat, keys: bool) returns (b: Bytes)
    requires 67108864 < n < U32_SIZE
    ensures InversePairs(ZeroRuns()) && WellFormed(ZeroPacket(n))
    ensures Build(ZeroRuns(), keys, ZeroPacket(n), 0, 0) == Some(b) && UnpackPacket(ZeroRuns(), keys, b) == None
  {
    ZeroRunsInvert();
    ZeroPacketBuilds(n, keys);
    b := Build(ZeroRuns(), keys, ZeroPacket(n), 0, 0).value;
    assert !Expandable(ZeroRuns(), ZeroPacket(n));
    RoundTrip(ZeroRuns(), keys, keys, ZeroPacket(n), 0, 0, b);
  }

  // ----- Damage -----

  /** Where the payload checksum stands. */
  function ChecksumAt(flags: nat): nat { AfterReliable(flags) + if Flag(flags, 4) then 8 else 0 }

  lemma LoadDiffers(a: Bytes, b: Bytes)
    requires |a| == |b| && a != b
    ensures Load(a) != Load(b)
  {
    StoreLoad(a);
    StoreLoad(b);
  }

  lemma DamagedHeader(b: Bytes, k: nat, x: Byte)
    requires Accepts(b).Some? && k < HEADER_SIZE && b[k] != x
    ensures Accepts(b[k := x]) == None
  {
    HeaderOffsets();
    var c := b[k := x];
    UnpackAt(b, HEADER, 10, 1);
    UnpackAt(c, HEADER, 10, 1);
    var copy := b[..2] + [0, 0] + b[4..HEADER_SIZE];
    if 2 <= k < 4 {
      assert c[..2] + [0, 0] + c[4..HEADER_SIZE] == copy;
      assert b[2..4][k - 2] != c[2..4][k - 2];
      LoadDiffers(b[2..4], c[2..4]);
    } else {
      assert c[2..4] == b[2..4];
      assert c[..2] + [0, 0] + c[4..HEADER_SIZE] == copy[k := x];
      Fnv.LowSubstitutionDetected(copy, k, x, Fnv.OFFSET);
    }
  }

  lemma SameHeader(b: Bytes, k: nat, x: Byte)
    requires HEADER_SIZE <= k < |b|
    ensures Offset(HEADER, 10) == HEADER_SIZE && Unpack(b[k := x], HEADER, 10) == Unpack(b, HEADER, 10)
  {
    HeaderOffsets();
    UnpackFrame(b, b[k := x], HEADER, 10);
  }

  lemma DamagedPayload(b: Bytes, f: nat, k: nat, x: Byte)
    requires Accepts(b) == Some(f) && PayloadOffset(f) <= k < |b| && b[k] != x
    ensures Accepts(b[k := x]) == None
  {
    SameHeader(b, k, x);
    var c, n := b[k := x], PayloadOffset(f);
    var at := ChecksumAt(f);
    assert c[n..] == b[n..][k - n := x] && c[at..at + 4] == b[at..at + 4];
    Fnv.SubstitutionDetected(b[n..], k - n, x, Fnv.OFFSET);
  }

  lemma DamagedChecksum(b: Bytes, f: nat, k: nat, x: Byte)
    requires Accepts(b) == Some(f) && ChecksumAt(f) <= k < ChecksumAt(f) + 4 && b[k] != x
    ensures Accepts(b[k := x]) == None
  {
    SameHeader(b, k, x);
    var c, n, at := b[k := x], PayloadOffset(f), ChecksumAt(f);
    assert c[n..] == b[n..];
    assert b[at..at + 4][k - at] != c[at..at + 4][k - at];
    LoadDiffers(b[at..at + 4], c[at..at + 4]);
  }

  lemma DamagedSize(b: Bytes, f: nat, k: nat, x: Byte)
    requires Accepts(b) == Some(f) && Flag(f, 4) && AfterReliable(f) <= k < AfterReliable(f) + 4 && b[k] != x
    ensures Accepts(b[k := x]) == None
  {
    SameHeader(b, k, x);
    var c, n, at := b[k := x], PayloadOffset(f), AfterReliable(f);
    assert c[n..] == b[n..];
    assert b[at..at + 4][k - at] != c[at..at + 4][k - at];
    LoadDiffers(b[at..at + 4], c[at..at + 4]);
  }

  /** What no check covers: the sequence and acknowledgement numbers, and of a compressed packet the original size,
      the low bit of the compression flags and the padding. */
  predicate Unprotected(f: nat, k: nat, x: Byte) {
    || (Flag(f, 1) && HEADER_SIZE <= k < HEADER_SIZE + 8)
    || (Flag(f, 4) && var at := AfterReliable(f);
                      at + 4 <= k < at + 8 || (k == at + 12 && x <= 1) || at + 13 <= k < at + 16)
  }

  lemma UnnoticedDamage(b: Bytes, f: nat, k: nat, x: Byte)
    requires Accepts(b) == Some(f) && k < |b| && Unprotected(f, k, x)
    ensures Accepts(b[k := x]) == Some(f)
  {
    SameHeader(b, k, x);
    var c, n, at := b[k := x], PayloadOffset(f), AfterReliable(f);
    assert HEADER_SIZE <= k < n;
    assert c[n..] == b[n..] && c[..4] == b[..4] && c[4..HEADER_SIZE] == b[4..HEADER_SIZE];
    assert c[..2] == b[..2];
    assert c[ChecksumAt(f)..ChecksumAt(f) + 4] == b[ChecksumAt(f)..ChecksumAt(f) + 4];
    assert Flag(f, 4) ==> c[at..at + 4] == b[at..at + 4];
  }

  lemma DamagedFlags(b: Bytes, f: nat, x: Byte)
    requires Accepts(b) == Some(f) && Flag(f, 4) && x > 1
    ensures Accepts(b[AfterReliable(f) + 12 := x]) == None
  {
    SameHeader(b, AfterReliable(f) + 12, x);
  }

  /** A packet with one byte changed passes the checks exactly when that byte is unprotected.  A plain packet, neither
      encrypted nor compressed, is then unpacked exactly when the byte is one of its two numbers. */
  lemma DamageIsRejected(p: Primitives, keys: bool, b: Bytes, k: nat, x: Byte)
    requires Accepts(b).Some? && k < |b| && b[k] != x
    ensures Accepts(b[k := x]) == if Unprotected(Accepts(b).value, k, x) then Accepts(b) else None
    ensures !Unprotected(Accepts(b).value, k, x) ==> UnpackPacket(p, keys, b[k := x]) == None
    ensures var f := Accepts(b).value;
            !Flag(f, 2) && !Flag(f, 4) ==>
              (UnpackPacket(p, keys, b[k := x]).Some? <==> Flag(f, 1) && HEADER_SIZE <= k < HEADER_SIZE + 8)
  {
    var f := Accepts(b).value;
    if Unprotected(f, k, x) {
      UnnoticedDamage(b, f, k, x);
    } else if k < HEADER_SIZE {
      DamagedHeader(b, k, x);
    } else if PayloadOffset(f) <= k {
      DamagedPayload(b, f, k, x);
    } else if ChecksumAt(f) <= k < ChecksumAt(f) + 4 {
      DamagedChecksum(b, f, k, x);
    } else if k == AfterReliable(f) + 12 {
      DamagedFlags(b, f, x);
    } else {
      DamagedSize(b, f, k, x);
    }
  }
}
