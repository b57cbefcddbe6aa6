/** The packet builder and unpacker as they work: a buffer filled in place, an offset that moves. */
module PacketBuffers {
  import opened Common
  import opened WireLe
  import opened Fields
  import opened PacketCodec
  import Fnv

  /** Copies `d` into a buffer filled up to `at`. */
  method Put(a: array<Byte>, at: nat, d: Bytes)
    requires at + |d| <= a.Length
    modifies a
    ensures a[..at + |d|] == old(a[..at]) + d
  {
    PutOver(a, at, d);
    assert a[..at + |d|] == a[..][..at + |d|];
  }

  /** Copies `d` into the buffer. */
  method PutOver(a: array<Byte>, at: nat, d: Bytes)
    requires at + |d| <= a.Length
    modifies a
    ensures a[..] == Patch(old(a[..]), at, d)
  {
    for i := 0 to |d|
      invariant a[..at] == old(a[..at]) && a[at..at + i] == d[..i] && a[at + |d|..] == old(a[at + |d|..])
    {
      a[at + i] := d[i];
      assert a[at..at + i + 1] == a[at..at + i] + [d[i]];
    }
    assert a[..] == a[..at] + a[at..at + |d|] + a[at + |d|..];
  }

  /** The fixed header, with a zero for its checksum. */
  method FillFixedHeader(a: array<Byte>, o: Outgoing, z: bool, total: nat, stamp: U32)
    requires a.Length >= HEADER_SIZE
    modifies a
    ensures a[..HEADER_SIZE] == FixedHeader(o, z, total, stamp, 0)
  {
    HeaderOffsets();
    ghost var vs := HeaderFields(o, z, total, stamp, 0);
    Put(a, 0, Store(MAGIC, 2));
    assert a[..2] == Pack(vs, HEADER, 1) by { assert Pack(vs, HEADER, 0) == []; }
    Put(a, 2, Store(0, 2));
    assert a[..4] == Pack(vs, HEADER, 2);
    Put(a, 4, Store(total, 4));
    assert a[..8] == Pack(vs, HEADER, 3);
    Put(a, 8, Store(VERSION, 1));
    assert a[..9] == Pack(vs, HEADER, 4);
    Put(a, 9, Store(FlagByte(o.reliable, o.encrypted, z, o.priority), 1));
    assert a[..10] == Pack(vs, HEADER, 5);
    Put(a, 10, Store(o.kind, 2));
    assert a[..12] == Pack(vs, HEADER, 6);
    Put(a, 12, Store(0, 2));
    assert a[..14] == Pack(vs, HEADER, 7);
    Put(a, 14, Store(0, 1));
    assert a[..15] == Pack(vs, HEADER, 8);
    Put(a, 15, Store(ChannelId(o.channel), 1));
    assert a[..16] == Pack(vs, HEADER, 9);
    Put(a, 16, Store(stamp, 4));
  }

  /** The payload header with the checksum `sum`. */
  function PayloadHeaderWith(z: bool, size: nat, original: nat, sum: nat): Bytes {
    if z then Pack([size, original, sum, 1, 0, 0, 0], COMPRESSED, 7) else Store(sum, 4)
  }

  method FillPayloadHeader(a: array<Byte>, at: nat, z: bool, size: nat, original: nat)
    requires at + (if z then 16 else 4) <= a.Length
    modifies a
    ensures |PayloadHeaderWith(z, size, original, 0)| == if z then 16 else 4
    ensures a[..at + |PayloadHeaderWith(z, size, original, 0)|]
              == old(a[..at]) + PayloadHeaderWith(z, size, original, 0)
  {
    HeaderOffsets();
    if z {
      FillCompressedHeader(a, at, size, original);
    } else {
      Put(a, at, Store(0, 4));
    }
  }

  method FillCompressedHeader(a: array<Byte>, at: nat, size: nat, original: nat)
    requires at + 16 <= a.Length
    modifies a
    ensures a[..at + 16] == old(a[..at]) + Pack([size, original, 0, 1, 0, 0, 0], COMPRESSED, 7)
  {
    HeaderOffsets();
    ghost var before, vs := a[..at], [size, original, 0, 1, 0, 0, 0];
    assert a[..at] == before + Pack(vs, COMPRESSED, 0);
    PutField(a, at, size, 4, before, vs, 0);
    PutField(a, at + 4, original, 4, before, vs, 1);
    PutField(a, at + 8, 0, 4, before, vs, 2);
    PutField(a, at + 12, 1, 1, before, vs, 3);
    PutField(a, at + 13, 0, 1, before, vs, 4);
    PutField(a, at + 14, 0, 1, before, vs, 5);
    PutField(a, at + 15, 0, 1, before, vs, 6);
  }

  /** Field `i` of a compressed payload header, after the fields before it. */
  method PutField(a: array<Byte>, at: nat, v: nat, n: nat, ghost before: Bytes, ghost vs: seq<nat>, ghost i: nat)
    requires at + n <= a.Length && i < 7 == |vs| && v == vs[i] && n == COMPRESSED[i]
    requires a[..at] == before + Pack(vs, COMPRESSED, i)
    modifies a
    ensures a[..at + n] == before + Pack(vs, COMPRESSED, i + 1)
  {
    Put(a, at, Store(v, n));
    assert Pack(vs, COMPRESSED, i + 1) == Pack(vs, COMPRESSED, i) + Store(v, n);
  }

  method FillPacketHeader(a: array<Byte>, o: Outgoing, z: bool, size: nat, original: nat, q: U32, stamp: U32)
    requires a.Length >= HeadersSize(o, z)
    modifies a
    ensures a[..HeadersSize(o, z)]
              == FixedHeader(o, z, a.Length, stamp, 0) + ReliableHeader(o, q) + PayloadHeaderWith(z, size, original, 0)
  {
    FillFixedHeader(a, o, z, a.Length, stamp);
    ghost var fixed := a[..HEADER_SIZE];
    var at := HEADER_SIZE;
    if o.reliable {
      Put(a, at, Store(q, 4));
      var ack := if o.kind == ACKNOWLEDGEMENT then o.scalar % U32_SIZE else 0;
      Put(a, at + 4, Store(ack, 4));
      at := at + 8;
      assert fixed + Store(q, 4) + Store(ack, 4) == fixed + (Store(q, 4) + Store(ack, 4));
    }
    assert a[..at] == fixed + ReliableHeader(o, q);
    FillPayloadHeader(a, at, z, size, original);
  }

  /** Where the payload checksum is stored, relative to the payload header. */
  function ChecksumSlot(z: bool): nat { if z then 8 else 0 }

  lemma PatchPayloadChecksum(z: bool, size: nat, original: nat, sum: nat)
    ensures var h := PayloadHeaderWith(z, size, original, 0);
            && ChecksumSlot(z) + 4 <= |h|
            && Patch(h, ChecksumSlot(z), Store(sum, 4)) == PayloadHeaderWith(z, size, original, sum)
  {
    HeaderOffsets();
    var vs := [size, original, 0, 1, 0, 0, 0];
    PatchField(vs, COMPRESSED, 7, 2, sum);
    assert vs[2 := sum] == [size, original, sum, 1, 0, 0, 0];
  }

  lemma PatchHeaderChecksum(o: Outgoing, z: bool, total: nat, stamp: U32, sum: nat)
    ensures var h := FixedHeader(o, z, total, stamp, 0);
            |h| == HEADER_SIZE && Patch(h, 2, Store(sum, 2)) == FixedHeader(o, z, total, stamp, sum)
  {
    HeaderOffsets();
    var vs := HeaderFields(o, z, total, stamp, 0);
    PatchField(vs, HEADER, 10, 1, sum);
    assert vs[1 := sum] == HeaderFields(o, z, total, stamp, sum);
  }

  /** Checksums what follows the payload header `h` into its slot. */
  method StorePayloadChecksum(a: array<Byte>, at: nat, start: nat, slot: nat, ghost front: Bytes, ghost h: Bytes,
                              ghost body: Bytes)
    requires |front| == at && start == at + |h| && slot + 4 <= |h| && a[..] == front + h + body
    modifies a
    ensures a[..] == front + Patch(h, slot, Store(Fnv.Checksum(body), 4)) + body
  {
    assert a.Length == |a[..]| == at + |h| + |body| by { Suffix(front, h, body); }
    var wire := a[start..];
    assert wire == body by { Suffix(front, h, body); assert wire == a[..][start..]; }
    var sum := Fnv.UpdateChecksum(wire, Fnv.OFFSET);
    PutOver(a, at + slot, Store(sum, 4));
    PatchMiddle(front, h, body, slot, Store(sum, 4));
  }

  lemma Suffix(front: Bytes, h: Bytes, body: Bytes)
    ensures |front + h + body| == |front| + |h| + |body| && (front + h + body)[|front| + |h|..] == body
  {
  }

  /** Checksums the fixed header, with zero for the checksum, into itself. */
  method StoreHeaderChecksum(a: array<Byte>, ghost fixed: Bytes, ghost rest: Bytes)
    requires |fixed| == HEADER_SIZE && a[..] == fixed + rest
    modifies a
    ensures a[..] == Patch(fixed, 2, Store(HeaderChecksum(fixed), 2)) + rest
  {
    assert a.Length == |fixed + rest|;
    var copy := a[..2] + [0, 0] + a[4..HEADER_SIZE];
    assert a[..2] == fixed[..2] && a[4..HEADER_SIZE] == fixed[4..HEADER_SIZE];
    var full := Fnv.UpdateChecksum(copy, Fnv.OFFSET);
    assert full % U16_SIZE == HeaderChecksum(fixed);
    PatchMiddle([], fixed, rest, 2, Store(full % U16_SIZE, 2));
    assert [] + fixed + rest == fixed + rest;
    PutOver(a, 2, Store(full % U16_SIZE, 2));
    assert [] + Patch(fixed, 2, Store(full % U16_SIZE, 2)) + rest == Patch(fixed, 2, Store(full % U16_SIZE, 2)) + rest;
  }

  lemma Regroup(f: Bytes, r: Bytes, h: Bytes, body: Bytes)
    ensures f + r + h + body == f + (r + h + body)
  {
  }

  /** A packet whose fixed header is complete. */
  function Assembled(o: Outgoing, z: bool, body: Bytes, original: nat, q: U32, stamp: U32): Bytes {
    HeaderOffsets();
    var total := HeadersSize(o, z) + |body|;
    FixedHeader(o, z, total, stamp, HeaderChecksum(FixedHeader(o, z, total, stamp, 0)))
      + (ReliableHeader(o, q) + PayloadHeaderWith(z, |body|, original, Fnv.Checksum(body)) + body)
  }

  lemma AssembledIs(o: Outgoing, z: bool, body: Bytes, original: nat, q: U32, stamp: U32)
    ensures var total := HeadersSize(o, z) + |body|;
            var fixed, h := FixedHeader(o, z, total, stamp, 0), PayloadHeaderWith(z, |body|, original, 0);
            && |fixed| == HEADER_SIZE && |h| == (if z then 16 else 4)
            && Assembled(o, z, body, original, q, stamp)
               == Patch(fixed, 2, Store(HeaderChecksum(fixed), 2))
                  + (ReliableHeader(o, q) + Patch(h, ChecksumSlot(z), Store(Fnv.Checksum(body), 4)) + body)
  {
    HeaderOffsets();
    var total := HeadersSize(o, z) + |body|;
    PatchHeaderChecksum(o, z, total, stamp, 0);
    PatchHeaderChecksum(o, z, total, stamp, HeaderChecksum(FixedHeader(o, z, total, stamp, 0)));
    PatchPayloadChecksum(z, |body|, original, Fnv.Checksum(body));
  }

  /** Headers, payload, checksums. */
  method AssemblePacket(o: Outgoing, z: bool, body: Bytes, original: nat, q: U32, stamp: U32) returns (a: array<Byte>)
    ensures fresh(a) && a[..] == Assembled(o, z, body, original, q, stamp)
  {
    var headers := HeadersSize(o, z);
    a := new Byte[headers + |body|];
    FillPacketHeader(a, o, z, |body|, original, q, stamp);
    Put(a, headers, body);
    assert a[..a.Length] == a[..];
    ghost var fixed, r := FixedHeader(o, z, a.Length, stamp, 0), ReliableHeader(o, q);
    ghost var h := PayloadHeaderWith(z, |body|, original, 0);
    AssembledIs(o, z, body, original, q, stamp);
    Finish(a, if o.reliable then 8 else 0, headers, ChecksumSlot(z), fixed, r, h, body);
  }

  method Finish(a: array<Byte>, reliable: nat, start: nat, slot: nat, ghost fixed: Bytes, ghost r: Bytes,
                ghost h: Bytes, ghost body: Bytes)
    requires |fixed| == HEADER_SIZE && |r| == reliable && start == HEADER_SIZE + reliable + |h| && slot + 4 <= |h|
    requires a[..] == fixed + r + h + body
    modifies a
    ensures a[..] == Patch(fixed, 2, Store(HeaderChecksum(fixed), 2))
                     + (r + Patch(h, slot, Store(Fnv.Checksum(body), 4)) + body)
  {
    StorePayloadChecksum(a, HEADER_SIZE + reliable, start, slot, fixed + r, h, body);
    Regroup(fixed, r, Patch(h, slot, Store(Fnv.Checksum(body), 4)), body);
    StoreHeaderChecksum(a, fixed, r + Patch(h, slot, Store(Fnv.Checksum(body), 4)) + body);
  }

  /** Compression is tried first and abandoned if it fails or does not help. */
  method CompressPayload(p: Primitives, o: Outgoing) returns (z: bool, payload: Bytes)
    ensures z == SentCompressed(p, o) && payload == Squeezed(p, o)
  {
    z, payload := o.compressed, o.payload;
    if o.compressed && |o.payload| > 0 {
      var c := p.lz4(o.payload);
      if c.None? {
        z := false;
      } else if |c.value| >= |o.payload| {
        z := false;
      } else {
        payload := c.value;
      }
    }
  }

  method EncryptPayloadIfNeeded(p: Primitives, hasKeys: bool, o: Outgoing, q: U32, z: bool, payload: Bytes)
    returns (body: Option<Bytes>)
    requires z == SentCompressed(p, o) && payload == Squeezed(p, o)
    ensures body == Body(p, hasKeys, o, q)
  {
    if !o.encrypted {
      return Some(payload);
    }
    if !hasKeys {
      return None;
    }
    var flags := FlagByte(o.reliable, o.encrypted, z, o.priority);
    var sequence := if o.reliable then q else 0;
    var acknowledgement := if o.reliable && o.kind == ACKNOWLEDGEMENT then o.scalar % U32_SIZE else 0;
    body := p.encrypt(payload, AssociatedData(o.kind, ChannelId(o.channel), flags, sequence, acknowledgement));
    if body.Some? && |body.value| > 0xFFFF_FFFF {
      body := None;
    }
  }

  /** Building also records in the packet whether it went out compressed. */
  method BuildPacket(p: Primitives, hasKeys: bool, o: Outgoing, q: U32, stamp: U32)
    returns (packet: array?<Byte>, o': Outgoing)
    ensures packet == null <==> Build(p, hasKeys, o, q, stamp) == None
    ensures packet != null ==> fresh(packet) && Build(p, hasKeys, o, q, stamp) == Some(packet[..])
    ensures o' == o.(compressed := SentCompressed(p, o))
  {
    var z, payload := CompressPayload(p, o);
    o' := o.(compressed := z);
    var body := EncryptPayloadIfNeeded(p, hasKeys, o, q, z, payload);
    if body.None? {
      return null, o';
    }
    var headers := HeadersSize(o, z);
    if headers + |body.value| > 0xFFFF_FFFF {
      return null, o';
    }
    packet := AssemblePacket(o, z, body.value, |o.payload|, q, stamp);
    BuildIs(p, hasKeys, o, q, stamp, body.value);
  }

  lemma BuildIs(p: Primitives, hasKeys: bool, o: Outgoing, q: U32, stamp: U32, body: Bytes)
    requires Body(p, hasKeys, o, q) == Some(body) && HeadersSize(o, SentCompressed(p, o)) + |body| < U32_SIZE
    ensures Build(p, hasKeys, o, q, stamp) == Some(Assembled(o, SentCompressed(p, o), body, |o.payload|, q, stamp))
  {
    HeaderOffsets();
    var z, total := SentCompressed(p, o), HeadersSize(o, SentCompressed(p, o)) + |body|;
    var f := FixedHeader(o, z, total, stamp, HeaderChecksum(FixedHeader(o, z, total, stamp, 0)));
    Regroup(f, ReliableHeader(o, q), PayloadHeader(p, o, body), body);
  }

  // ----- Unpacking -----

  /** The checks up to the payload, with the offset moving past each optional header. */
  method ReadHeaders(b: Bytes) returns (flags: Option<nat>, seqNum: U32, ackNum: U32, original: U32, offset: nat)
    ensures flags == Accepts(b)
    ensures flags.Some? ==> var f := flags.value;
              && offset == PayloadOffset(f) && seqNum == (if Flag(f, 1) then U32At(b, HEADER_SIZE) else 0)
              && ackNum == (if Flag(f, 1) then U32At(b, HEADER_SIZE + 4) else 0)
              && original == (if Flag(f, 4) then U32At(b, AfterReliable(f) + 4) else 0)
  {
    flags, seqNum, ackNum, original, offset := None, 0, 0, 0, 0;
    if |b| < HEADER_SIZE { return; }
    HeaderOffsets();
    var h := Unpack(b, HEADER, 10);
    if !ValidHeader(h, |b|) { return; }
    if h[1] != HeaderChecksum(b) { return; }
    var f := h[4];
    offset := HEADER_SIZE;
    if Flag(f, 1) {
      if offset + 8 > |b| { return; }
      seqNum, ackNum := U32At(b, offset), U32At(b, offset + 4);
      offset := offset + 8;
    }
    var expected, size := 0, 0;
    if Flag(f, 4) {
      if offset + 16 > |b| { return; }
      if b[offset + 12] > 1 { return; }
      size, original, expected := U32At(b, offset), U32At(b, offset + 4), U32At(b, offset + 8);
      offset := offset + 16;
    } else {
      if offset + 4 > |b| { return; }
      expected := U32At(b, offset);
      offset := offset + 4;
    }
    if Flag(f, 4) && size != |b| - offset { return; }
    var sum := Fnv.UpdateChecksum(b[offset..], Fnv.OFFSET);
    if sum != expected { return; }
    flags := Some(f);
  }

  method UnpackBuffer(p: Primitives, hasKeys: bool, b: Bytes) returns (r: Option<Incoming>)
    ensures r == UnpackPacket(p, hasKeys, b)
  {
    var flags, seqNum, ackNum, original, offset := ReadHeaders(b);
    if flags.None? { return None; }
    var f, h := flags.value, Unpack(b, HEADER, 10);
    Widths();
    assert h[5] < Pow256(HEADER[5]);
    var payload := b[offset..];
    if Flag(f, 2) {
      if !hasKeys { return None; }
      var plain := p.decrypt(payload, ReceiverAad(h[5], h[8], f, seqNum, ackNum));
      if plain.None? { return None; }
      payload := plain.value;
    }
    if Flag(f, 4) {
      var d := Expand(p, payload, original);
      if d.None? { return None; }
      payload := d.value;
    }
    return Some(Incoming(if h[8] == 0 then Control else Data, Flag(f, 1), Flag(f, 2), Flag(f, 4), f / 16, h[5], seqNum,
                         ackNum, payload));
  }
}
