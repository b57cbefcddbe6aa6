/** Cutting a file into chunks: the sender loop. */
module FileSend {
  import opened Common
  import opened TransferChunks
  import Fnv

  const MAX_FILE: nat := 0x7FFF_FFFF_FFFF_FFFF

  /** A file to transfer and how. */
  datatype Transfer = Transfer(file: Bytes, chunkSize: nat, name: Bytes, id: U64)

  function Total(t: Transfer): nat
    requires |t.file| < U64_SIZE && t.chunkSize < U32_SIZE
  {
    CalculateTotalChunks(|t.file|, t.chunkSize)
  }

  /** What the sender agrees to send; transfer identifiers count up from one. */
  predicate Sendable(t: Transfer) {
    && |t.file| <= MAX_FILE && 0 < t.chunkSize < U32_SIZE && 0 < Total(t) < U32_SIZE
    && 0 < |t.name| < U16_SIZE && t.id > 0
  }

  lemma TotalOf(t: Transfer)
    requires Sendable(t)
    ensures if |t.file| == 0 then Total(t) == 1 else IsCeiling(Total(t), |t.file|, t.chunkSize)
    ensures forall i | 0 <= i < Total(t) :: ChunkStart(t.chunkSize, i) <= |t.file|
  {
    if |t.file| > 0 { TotalIsCeiling(|t.file|, t.chunkSize); }
    forall i | 0 <= i < Total(t) ensures ChunkStart(t.chunkSize, i) <= |t.file| {
      StartMonotone(t.chunkSize, i, Total(t) - 1);
    }
  }

  function Piece(t: Transfer, i: nat): (d: Bytes)
    requires ChunkStart(t.chunkSize, i) <= |t.file|
    ensures |d| == ChunkLength(|t.file|, t.chunkSize, i)
  {
    var start := ChunkStart(t.chunkSize, i);
    t.file[start..start + ChunkLength(|t.file|, t.chunkSize, i)]
  }

  /** The chunk with index `i`, said without reference to the loop. */
  function SenderChunk(t: Transfer, i: nat): TransferChunk
    requires Sendable(t) && i < Total(t)
  {
    TotalOf(t);
    var last := i == Total(t) - 1;
    TransferChunk(t.id, |t.file|, t.chunkSize, i, Total(t), Fnv.Checksum(Piece(t, i)),
                  if last then Fnv.Checksum(t.file) else 0,
                  i == 0, last, if i == 0 then t.name else [], Piece(t, i))
  }

  /** A receiver accepts chunk `i`, as it was, unless it is the first and the scan objects to its name: then it
      rejects it. */
  lemma SentIsAcceptable(t: Transfer, i: nat)
    requires Sendable(t) && i < Total(t)
    ensures Decode(Encode(SenderChunk(t, i))) == if i == 0 && Traversal(t.name) then None else Some(SenderChunk(t, i))
  {
    TotalOf(t);
    var c := SenderChunk(t, i);
    assert Buildable(c);
    DecodeEncode(c);
  }

  /** What chunk `i` says: the transfer, its sizes, its place, the bytes of that place, and in the first the name. */
  lemma SentFields(t: Transfer, i: nat)
    requires Sendable(t) && i < Total(t)
    ensures var c := SenderChunk(t, i);
            && c.transferId == t.id && c.fileSize == |t.file| && c.chunkSize == t.chunkSize && c.chunkIndex == i
            && c.fileName == (if i == 0 then t.name else []) && (c.isLastChunk <==> i + 1 == c.totalChunks)
            && i * t.chunkSize <= |t.file| && c.data == t.file[i * t.chunkSize..Min((i + 1) * t.chunkSize, |t.file|)]
            && c.fileChecksum == if c.isLastChunk then Fnv.Checksum(t.file) else 0
  {
    TotalOf(t);
    assert (i + 1) * t.chunkSize == ChunkStart(t.chunkSize, i) + t.chunkSize;
  }

  /** A chunk as a sender makes it, but for the last flag and the checksum of the file, which it may leave out. */
  predicate IsSendersChunk(t: Transfer, c: TransferChunk) {
    && Sendable(t) && c.chunkIndex < Total(t)
    && c == SenderChunk(t, c.chunkIndex).(isLastChunk := c.isLastChunk, fileChecksum := c.fileChecksum)
    && (c.isLastChunk ==> c.chunkIndex == Total(t) - 1) && (!c.isLastChunk ==> c.fileChecksum == 0 && |t.file| > 0)
  }

  /** Some file of the size the chunk names has the chunk's data at its place. */
  function FileAround(c: TransferChunk): (t: Transfer)
    requires ChunkStart(c.chunkSize, c.chunkIndex) + |c.data| <= c.fileSize
    ensures |t.file| == c.fileSize
  {
    var start := ChunkStart(c.chunkSize, c.chunkIndex);
    Transfer(Zeros(start) + c.data + Zeros(c.fileSize - start - |c.data|), c.chunkSize,
             if c.hasFileName then c.fileName else [97], c.transferId)
  }

  lemma FileAroundHasChunk(c: TransferChunk)
    requires Acceptable(c) && c.fileSize <= MAX_FILE
    ensures ChunkStart(c.chunkSize, c.chunkIndex) + |c.data| <= c.fileSize && IsSendersChunk(FileAround(c), c)
  {
    AcceptedSizes(c);
    var t, start := FileAround(c), ChunkStart(c.chunkSize, c.chunkIndex);
    assert t.file[start..start + |c.data|] == c.data;
    assert Piece(t, c.chunkIndex) == c.data;
  }

  /** A receiver accepts exactly the chunks that cut some file, of no more than 2^63 - 1 bytes, as a sender does, under
      a name the scan does not object to. */
  lemma AcceptedExactly(c: TransferChunk)
    requires c.fileSize <= MAX_FILE
    ensures Acceptable(c) <==> !(c.hasFileName && Traversal(c.fileName)) && exists t :: IsSendersChunk(t, c)
  {
    if Acceptable(c) { FileAroundHasChunk(c); }
    if t :| IsSendersChunk(t, c) {
      TotalOf(t);
      assert Buildable(c);
    }
  }

  lemma PieceExtends(t: Transfer, i: nat)
    requires Sendable(t) && i < Total(t) && ChunkStart(t.chunkSize, i) <= |t.file|
    ensures var start := ChunkStart(t.chunkSize, i);
            && t.file[..start] + Piece(t, i) == t.file[..start + |Piece(t, i)|]
            && start + |Piece(t, i)| == if i == Total(t) - 1 then |t.file| else ChunkStart(t.chunkSize, i + 1)
  {
    TotalOf(t);
    if i < Total(t) - 1 {
      StartMonotone(t.chunkSize, i, i + 1);
      assert ChunkStart(t.chunkSize, i + 1) == ChunkStart(t.chunkSize, i) + t.chunkSize;
    } else {
      assert Total(t) * t.chunkSize == ChunkStart(t.chunkSize, i) + t.chunkSize;
    }
  }

  /** Where the loop stands before chunk `i`. */
  function OffsetBefore(t: Transfer, i: nat): nat
    requires Sendable(t)
  {
    if i < Total(t) then ChunkStart(t.chunkSize, i) else |t.file|
  }

  /** The payloads of chunks 0, 1, ... in order. */
  predicate Spells(t: Transfer, payloads: seq<Bytes>)
    requires Sendable(t)
  {
    |payloads| <= Total(t) && forall i | 0 <= i < |payloads| :: payloads[i] == Encode(SenderChunk(t, i))
  }

  /** SendFile of a file that reads back as it was; `enqueue(i)` says whether the transport takes chunk
      `i`.  Every payload enqueued is the encoding of that chunk, and all of them are unless the
      transport refuses one. */
  method SendFile(t: Transfer, enqueue: nat -> bool) returns (ok: bool, payloads: seq<Bytes>)
    requires |t.file| < U64_SIZE && t.id > 0
    ensures if Sendable(t) then Spells(t, payloads) && (ok <==> |payloads| == Total(t)) && (ok || !enqueue(|payloads|))
            else !ok && payloads == []
  {
    if |t.file| > MAX_FILE || t.chunkSize == 0 || t.chunkSize > 0xFFFF_FFFF { return false, []; }
    var total := CalculateTotalChunks(|t.file|, t.chunkSize);
    if total == 0 || total > 0xFFFF_FFFF { return false, []; }
    if |t.name| == 0 || |t.name| > 0xFFFF { return false, []; }
    ok, payloads := SendChunks(t, total, enqueue);
  }

  /** The running checksum is that of what has been read so far. */
  predicate Running(t: Transfer, offset: nat, checksum: U32) {
    offset <= |t.file| && checksum == Fnv.Checksum(t.file[..offset])
  }

  method SendChunks(t: Transfer, total: nat, enqueue: nat -> bool) returns (ok: bool, payloads: seq<Bytes>)
    requires Sendable(t) && total == Total(t)
    ensures Spells(t, payloads) && (ok <==> |payloads| == total) && (ok || !enqueue(|payloads|))
  {
    payloads := [];
    var fileOffset, fileChecksum := 0, Fnv.OFFSET;
    TotalOf(t);
    for index := 0 to total
      invariant |payloads| == index && fileOffset == OffsetBefore(t, index)
      invariant Running(t, fileOffset, fileChecksum) && Spells(t, payloads)
    {
      var payload;
      payload, fileOffset, fileChecksum := NextChunk(t, total, index, fileOffset, fileChecksum);
      if !enqueue(index) { return false, payloads; }
      payloads := payloads + [payload];
    }
    ok := fileOffset == |t.file|;
  }

  /** One iteration: read, extend the running checksum, serialize. */
  method NextChunk(t: Transfer, total: nat, index: nat, offset: nat, checksum: U32)
    returns (payload: Bytes, offset': nat, checksum': U32)
    requires Sendable(t) && total == Total(t) && index < total && offset == OffsetBefore(t, index)
    requires Running(t, offset, checksum)
    ensures payload == Encode(SenderChunk(t, index)) && offset' == OffsetBefore(t, index + 1)
    ensures Running(t, offset', checksum')
  {
    TotalOf(t);
    PieceExtends(t, index);
    var piece := t.file[offset..offset + Min(|t.file| - offset, t.chunkSize)];
    assert piece == Piece(t, index);
    Fnv.UpdateConcat(t.file[..offset], piece, Fnv.OFFSET);
    offset' := offset + |piece|;
    checksum' := Fnv.UpdateChecksum(piece, checksum);
    assert index == total - 1 ==> t.file[..offset'] == t.file;
    payload := ChunkPayload(t, index, total, piece, checksum');
  }

  /** Serializes one chunk as the loop does. */
  method ChunkPayload(t: Transfer, index: nat, total: nat, piece: Bytes, fileChecksum: U32) returns (payload: Bytes)
    requires Sendable(t) && total == Total(t) && index < total && ChunkStart(t.chunkSize, index) <= |t.file|
    requires piece == Piece(t, index)
    requires index == total - 1 ==> fileChecksum == Fnv.Checksum(t.file)
    ensures payload == Encode(SenderChunk(t, index))
  {
    var last := index == total - 1;
    var sum := Fnv.UpdateChecksum(piece, Fnv.OFFSET);
    var c := TransferChunk(t.id, |t.file|, t.chunkSize, index, total, sum, if last then fileChecksum else 0,
                           index == 0, last, if index == 0 then t.name else [], piece);
    payload := Serialize(c);
  }
}
