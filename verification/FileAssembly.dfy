/** The other way to rebuild a file: all chunks collected first, then written out in order. */
module FileAssembly {
  import opened Common
  import opened TransferChunks
  import opened FileSend
  import Fnv

  const ANY_SIZE: U64 := 0xFFFF_FFFF_FFFF_FFFF

  predicate HasAll(chunks: map<nat, Bytes>, n: nat) { forall i | 0 <= i < n :: i in chunks }

  function Joined(chunks: map<nat, Bytes>, n: nat): Bytes
    requires HasAll(chunks, n)
  {
    if n == 0 then [] else Joined(chunks, n - 1) + chunks[n - 1]
  }

  /** A size of 2^64-1 and a checksum of zero switch their tests off. */
  predicate MeetsExpectation(content: Bytes, size: U64, checksum: U32) {
    (size == ANY_SIZE || |content| == size) && (checksum == 0 || Fnv.Checksum(content) == checksum)
  }

  method AssembleFileFromChunks(path: Bytes, chunks: map<nat, Bytes>, total: U32, size: U64, checksum: U32)
    returns (output: Option<Bytes>)
    ensures output == if && total > 0 && !Traversal(path) && HasAll(chunks, total)
                         && MeetsExpectation(Joined(chunks, total), size, checksum)
                      then Some(Joined(chunks, total)) else None
  {
    if total == 0 { return None; }
    var bad := ContainsPathTraversal(path);
    if bad { return None; }
    var written: Bytes, sum := [], Fnv.OFFSET;
    for i := 0 to total
      invariant HasAll(chunks, i) && written == Joined(chunks, i) && sum == Fnv.Checksum(written)
    {
      if i !in chunks { return None; }
      Fnv.UpdateConcat(written, chunks[i], Fnv.OFFSET);
      written := written + chunks[i];
      sum := Fnv.UpdateChecksum(chunks[i], sum);
    }
    if size != ANY_SIZE && |written| != size { return None; }
    if checksum != 0 && sum != checksum { return None; }
    return Some(written);
  }

  predicate HasPiece(t: Transfer, chunks: map<nat, Bytes>, i: nat)
    requires Sendable(t) && i < Total(t)
  {
    i in chunks && chunks[i] == SenderChunk(t, i).data
  }

  /** The first `n` pieces of the transfer are there. */
  predicate Collected(t: Transfer, chunks: map<nat, Bytes>, n: nat)
    requires Sendable(t) && n <= Total(t)
  {
    HasAll(chunks, n) && forall i | 0 <= i < n :: HasPiece(t, chunks, i)
  }

  lemma {:induction false} PiecesJoin(t: Transfer, chunks: map<nat, Bytes>, n: nat)
    requires Sendable(t) && n <= Total(t) && Collected(t, chunks, n)
    ensures OffsetBefore(t, n) <= |t.file| && Joined(chunks, n) == t.file[..OffsetBefore(t, n)]
  {
    if n == 0 {
      assert ChunkStart(t.chunkSize, 0) == 0;
    } else {
      PiecesJoin(t, chunks, n - 1);
      assert HasPiece(t, chunks, n - 1);
      NextPiece(t, n - 1);
    }
  }

  /** Each piece takes up where the one before it ended. */
  lemma NextPiece(t: Transfer, i: nat)
    requires Sendable(t) && i < Total(t)
    ensures OffsetBefore(t, i) <= |t.file| && OffsetBefore(t, i + 1) <= |t.file|
    ensures t.file[..OffsetBefore(t, i)] + SenderChunk(t, i).data == t.file[..OffsetBefore(t, i + 1)]
  {
    TotalOf(t);
    PieceExtends(t, i);
  }

  /** The collected pieces of a transfer assemble to the original file, under any expectation the sender
      announces. */
  lemma AssemblyRebuildsFile(t: Transfer, chunks: map<nat, Bytes>)
    requires Sendable(t) && Collected(t, chunks, Total(t))
    ensures Joined(chunks, Total(t)) == t.file
    ensures MeetsExpectation(t.file, |t.file|, SenderChunk(t, Total(t) - 1).fileChecksum)
  {
    PiecesJoin(t, chunks, Total(t));
    assert t.file[..|t.file|] == t.file;
  }

  /** An announced size or checksum is insisted on: a file of another size is refused, and one with a byte changed. */
  lemma WrongAssemblyIsRefused(content: Bytes, size: U64, checksum: U32, i: nat, x: Byte)
    ensures size != 0xFFFF_FFFF_FFFF_FFFF && |content| != size ==> !MeetsExpectation(content, size, checksum)
    ensures MeetsExpectation(content, size, checksum) && checksum != 0 && i < |content| && content[i] != x ==>
              !MeetsExpectation(content[i := x], size, checksum)
  {
    if i < |content| && content[i] != x { Fnv.SubstitutionDetected(content, i, x, Fnv.OFFSET); }
  }
}
