/** Chunks of a file transfer: their arithmetic, and their binary form. */
module TransferChunks {
  import opened Common
  import opened WireLe
  import opened Fields
  import Fnv

  datatype TransferChunk = TransferChunk(
    transferId: U64, fileSize: U64, chunkSize: U32, chunkIndex: U32, totalChunks: U32,
    chunkChecksum: U32, fileChecksum: U32, hasFileName: bool, isLastChunk: bool, fileName: Bytes, data: Bytes)

  // ----- Arithmetic -----

  /** The sum wraps at 2^64. */
  function CalculateTotalChunks(fileSize: U64, chunkSize: U32): nat {
    if chunkSize == 0 then 0
    else if fileSize == 0 then 1
    else (fileSize + chunkSize - 1) % U64_SIZE / chunkSize
  }

  /** `n` chunks of `chunkSize` hold the file and `n - 1` do not. */
  predicate IsCeiling(n: nat, fileSize: nat, chunkSize: nat) {
    n > 0 && (n - 1) * chunkSize < fileSize <= n * chunkSize
  }

  lemma DivCeiling(a: nat, c: nat)
    requires c > 0 && a > 0
    ensures IsCeiling((a + c - 1) / c, a, c)
  {
    var n := (a + c - 1) / c;
    assert (a + c - 1) == n * c + (a + c - 1) % c;
    assert n > 0 by { assert n == 0 ==> n * c == 0; }
    assert (n - 1) * c == n * c - c;
  }

  /** The computed total is the true ceiling, unless the 64-bit sum wraps: then it is zero. */
  lemma TotalIsCeiling(fileSize: U64, chunkSize: U32)
    requires chunkSize > 0 && fileSize > 0
    ensures var n := CalculateTotalChunks(fileSize, chunkSize);
            if fileSize + chunkSize - 1 < U64_SIZE then IsCeiling(n, fileSize, chunkSize) else n == 0
  {
    var sum := fileSize + chunkSize - 1;
    if sum < U64_SIZE {
      DivCeiling(fileSize, chunkSize);
    } else {
      assert sum % U64_SIZE == sum - U64_SIZE < chunkSize;
    }
  }

  function ChunkStart(chunkSize: nat, i: nat): nat { i * chunkSize }

  function ChunkLength(fileSize: nat, chunkSize: nat, i: nat): nat
    requires ChunkStart(chunkSize, i) <= fileSize
  {
    Min(fileSize - ChunkStart(chunkSize, i), chunkSize)
  }

  predicate InChunk(fileSize: nat, chunkSize: nat, i: nat, o: nat) {
    ChunkStart(chunkSize, i) <= o < ChunkStart(chunkSize, i) + chunkSize && o < fileSize
  }

  /** The range of chunk `i` starts and ends within the file. */
  predicate LiesWithin(fileSize: nat, chunkSize: nat, i: nat) {
    && ChunkStart(chunkSize, i) <= fileSize
    && ChunkStart(chunkSize, i) + ChunkLength(fileSize, chunkSize, i) <= fileSize
  }

  predicate InSomeChunk(fileSize: nat, chunkSize: nat, total: nat, o: nat) {
    exists i :: 0 <= i < total && InChunk(fileSize, chunkSize, i, o)
  }

  lemma NextStart(chunkSize: nat, i: nat)
    ensures ChunkStart(chunkSize, i + 1) == ChunkStart(chunkSize, i) + chunkSize
  {
  }

  lemma {:induction false} StartMonotone(chunkSize: nat, i: nat, j: nat)
    requires i <= j
    ensures ChunkStart(chunkSize, i) <= ChunkStart(chunkSize, j)
    ensures i < j ==> ChunkStart(chunkSize, i) + chunkSize <= ChunkStart(chunkSize, j)
  {
    if i < j {
      StartMonotone(chunkSize, i, j - 1);
      NextStart(chunkSize, j - 1);
    }
  }

  /** The chunk an offset falls into. */
  function ChunkOf(chunkSize: nat, o: nat): (i: nat)
    requires chunkSize > 0
  {
    if o < chunkSize then 0 else 1 + ChunkOf(chunkSize, o - chunkSize)
  }

  lemma {:induction false} ChunkOfHolds(chunkSize: nat, o: nat)
    requires chunkSize > 0
    ensures var i := ChunkOf(chunkSize, o); ChunkStart(chunkSize, i) <= o < ChunkStart(chunkSize, i) + chunkSize
  {
    if o >= chunkSize {
      ChunkOfHolds(chunkSize, o - chunkSize);
      NextStart(chunkSize, ChunkOf(chunkSize, o - chunkSize));
    }
  }

  lemma OffsetHasChunk(fileSize: nat, chunkSize: nat, total: nat, o: nat)
    requires chunkSize > 0 && IsCeiling(total, fileSize, chunkSize) && o < fileSize
    ensures ChunkOf(chunkSize, o) < total && InChunk(fileSize, chunkSize, ChunkOf(chunkSize, o), o)
  {
    var i := ChunkOf(chunkSize, o);
    ChunkOfHolds(chunkSize, o);
    if i >= total { StartMonotone(chunkSize, total, i); }
  }

  lemma OffsetHasOneChunk(fileSize: nat, chunkSize: nat, o: nat, i: nat, j: nat)
    requires InChunk(fileSize, chunkSize, i, o) && InChunk(fileSize, chunkSize, j, o)
    ensures i == j
  {
    if i < j { StartMonotone(chunkSize, i, j); }
    if j < i { StartMonotone(chunkSize, j, i); }
  }

  /** The ranges of chunks 0 to total-1 lie within the file, and every offset is in exactly one. */
  lemma RangesPartition(fileSize: nat, chunkSize: nat, total: nat)
    requires chunkSize > 0 && IsCeiling(total, fileSize, chunkSize)
    ensures forall i | 0 <= i < total :: LiesWithin(fileSize, chunkSize, i)
    ensures forall o | 0 <= o < fileSize :: InSomeChunk(fileSize, chunkSize, total, o)
    ensures forall o: nat, i: nat, j: nat | InChunk(fileSize, chunkSize, i, o) && InChunk(fileSize, chunkSize, j, o) ::
              i == j
  {
    forall i | 0 <= i < total ensures LiesWithin(fileSize, chunkSize, i) { StartMonotone(chunkSize, i, total - 1); }
    forall o | 0 <= o < fileSize ensures InSomeChunk(fileSize, chunkSize, total, o) {
      OffsetHasChunk(fileSize, chunkSize, total, o);
    }
    forall o: nat, i: nat, j: nat | InChunk(fileSize, chunkSize, i, o) && InChunk(fileSize, chunkSize, j, o)
      ensures i == j
    {
      OffsetHasOneChunk(fileSize, chunkSize, o, i, j);
    }
  }

  // ----- File names -----

  predicate IsSeparator(b: Byte) { b == 47 || b == 92 }
  predicate IsAlpha(b: Byte) { 65 <= b <= 90 || 97 <= b <= 122 }

  predicate DotDot(path: Bytes, i: nat) { i + 1 < |path| && path[i] == 46 && path[i + 1] == 46 }

  /** What the scan of the path objects to at position `i`. */
  predicate SuspiciousAt(path: Bytes, i: nat)
    requires i < |path|
  {
    || (DotDot(path, i) && (i + 2 >= |path| || IsSeparator(path[i + 2])))
    || (IsSeparator(path[i]) && DotDot(path, i + 1))
  }

  predicate RootedPath(path: Bytes) {
    || path == [] || IsSeparator(path[0]) || (|path| >= 2 && IsAlpha(path[0]) && path[1] == 58)
  }

  predicate Traversal(path: Bytes) {
    RootedPath(path) || exists i :: 0 <= i < |path| && SuspiciousAt(path, i)
  }

  method ContainsPathTraversal(path: Bytes) returns (r: bool)
    ensures r == Traversal(path)
  {
    if |path| == 0 { return true; }
    if path[0] == 47 || path[0] == 92 { return true; }
    if |path| >= 2 && IsAlpha(path[0]) && path[1] == 58 { return true; }
    for i := 0 to |path|
      invariant forall j | 0 <= j < i :: !SuspiciousAt(path, j)
    {
      if path[i] == 46 && i + 1 < |path| && path[i + 1] == 46 {
        if i + 2 >= |path| || path[i + 2] == 47 || path[i + 2] == 92 {
          assert SuspiciousAt(path, i);
          return true;
        }
      }
      if path[i] == 47 || path[i] == 92 {
        if i + 1 < |path| && path[i + 1] == 46 && i + 2 < |path| && path[i + 2] == 46 {
          assert SuspiciousAt(path, i);
          return true;
        }
      }
    }
    return false;
  }

  /** `path[i..j]` is a component: delimited by separators or the ends. */
  predicate Component(path: Bytes, i: nat, j: nat) {
    i <= j <= |path| && (i == 0 || IsSeparator(path[i - 1])) && (j == |path| || IsSeparator(path[j]))
  }

  /** An accepted name is relative and has no parent-directory component. */
  lemma AcceptedNameStaysInside(path: Bytes, i: nat, j: nat)
    requires !Traversal(path) && Component(path, i, j)
    ensures !RootedPath(path) && path[i..j] != [46, 46]
  {
    if path[i..j] == [46, 46] {
      assert path[i] == path[i..j][0] && path[i + 1] == path[i..j][1];
      assert SuspiciousAt(path, i);
    }
  }

  /** The scan objects to more than that: `a..` names a file in the directory, and is refused. */
  lemma TrailingDotsAreRefused(i: nat, j: nat)
    ensures Traversal([97, 46, 46]) && !RootedPath([97, 46, 46])
    ensures Component([97, 46, 46], i, j) ==> [97, 46, 46][i..j] == [97, 46, 46]
  {
    assert SuspiciousAt([97, 46, 46], 1);
  }

  predicate StartsWithDots(path: Bytes, i: nat, j: nat) {
    i + 2 <= j <= |path| && path[i] == 46 && path[i + 1] == 46
  }

  predicate EndsWithDots(path: Bytes, i: nat, j: nat) {
    i + 2 <= j <= |path| && path[j - 2] == 46 && path[j - 1] == 46
  }

  /** A component the scan objects to: it ends with two dots, or starts with them and is not the first. */
  predicate BadComponent(path: Bytes, i: nat, j: nat) {
    Component(path, i, j) && (EndsWithDots(path, i, j) || (i > 0 && StartsWithDots(path, i, j)))
  }

  /** No separator in between. */
  predicate Whole(path: Bytes, i: nat, j: nat) { i <= j <= |path| && forall l | i <= l < j :: !IsSeparator(path[l]) }

  /** The component that ends at `j`, and the one that starts at `i`. */
  lemma {:induction false} Backwards(path: Bytes, l: nat, j: nat) returns (i: nat)
    requires Whole(path, l, j)
    ensures i <= l && Whole(path, i, j) && (i == 0 || IsSeparator(path[i - 1]))
  {
    if l == 0 || IsSeparator(path[l - 1]) { i := l; } else { i := Backwards(path, l - 1, j); }
  }

  lemma {:induction false} Forwards(path: Bytes, i: nat, l: nat) returns (j: nat)
    requires Whole(path, i, l)
    ensures l <= j && Whole(path, i, j) && (j == |path| || IsSeparator(path[j]))
    decreases |path| - l
  {
    if l == |path| || IsSeparator(path[l]) { j := l; } else { j := Forwards(path, i, l + 1); }
  }

  ghost predicate HasBadComponent(path: Bytes) {
    exists i: nat, j: nat :: Whole(path, i, j) && BadComponent(path, i, j)
  }

  lemma SuspiciousIsBad(path: Bytes, k: nat)
    requires k < |path| && SuspiciousAt(path, k)
    ensures HasBadComponent(path)
  {
    if DotDot(path, k) && (k + 2 >= |path| || IsSeparator(path[k + 2])) {
      var i := Backwards(path, k, k + 2);
      assert BadComponent(path, i, k + 2);
    } else {
      var j := Forwards(path, k + 1, k + 3);
      assert BadComponent(path, k + 1, j);
    }
  }

  /** The scan refuses exactly the rooted names and those with such a component. */
  lemma RefusedNames(path: Bytes)
    ensures Traversal(path) <==>
              || path == [] || path[0] in {47, 92}
              || (|path| >= 2 && (65 <= path[0] <= 90 || 97 <= path[0] <= 122) && path[1] == 58)
              || HasBadComponent(path)
  {
    if k :| 0 <= k < |path| && SuspiciousAt(path, k) { SuspiciousIsBad(path, k); }
    if i: nat, j: nat :| Whole(path, i, j) && BadComponent(path, i, j) {
      if EndsWithDots(path, i, j) {
        assert SuspiciousAt(path, j - 2);
      } else {
        assert SuspiciousAt(path, i - 1);
      }
    }
  }

  // ----- What may be built, what may be accepted -----

  predicate SizesAgree(c: TransferChunk) {
    && CalculateTotalChunks(c.fileSize, c.chunkSize) == c.totalChunks
    && |c.data| <= c.chunkSize && ChunkStart(c.chunkSize, c.chunkIndex) <= c.fileSize
    && (if c.fileSize == 0 && c.chunkIndex == 0 && c.totalChunks == 1 then |c.data| == 0
        else |c.data| == ChunkLength(c.fileSize, c.chunkSize, c.chunkIndex))
  }

  predicate HeaderAgrees(c: TransferChunk) {
    && c.transferId != 0 && c.chunkSize != 0 && c.totalChunks != 0 && c.chunkIndex < c.totalChunks
    && c.hasFileName == (c.chunkIndex == 0)
    && (if c.hasFileName then |c.fileName| != 0 else |c.fileName| == 0) && |c.fileName| < U16_SIZE
    && (c.isLastChunk ==> c.chunkIndex == c.totalChunks - 1)
    && (!c.isLastChunk ==> c.fileChecksum == 0)
  }

  predicate Buildable(c: TransferChunk) { HeaderAgrees(c) && SizesAgree(c) }

  /** Parsing asks for more: a matching checksum, a safe name, the last flag on an empty file. */
  predicate Acceptable(c: TransferChunk) {
    && Buildable(c) && c.chunkChecksum == Fnv.Checksum(c.data)
    && (c.hasFileName ==> !Traversal(c.fileName))
    && (c.fileSize == 0 ==> c.isLastChunk)
  }

  /** An accepted header has the true ceiling as its total, and its write fits the file. */
  lemma AcceptedSizes(c: TransferChunk)
    requires Buildable(c)
    ensures c.fileSize == 0 ==> c.totalChunks == 1 && c.chunkIndex == 0 && c.data == []
    ensures c.fileSize > 0 ==> IsCeiling(c.totalChunks, c.fileSize, c.chunkSize)
    ensures ChunkStart(c.chunkSize, c.chunkIndex) + |c.data| <= c.fileSize
  {
    if c.fileSize > 0 { TotalIsCeiling(c.fileSize, c.chunkSize); }
  }

  // ----- Binary form -----

  const MAGIC: U32 := 0x5A465452
  const VERSION: Byte := 1
  const HEADER_SIZE: nat := 48

  /** magic, version, flags, id, file size, chunk size, index, total, data size, checksums, name size. */
  const WIDTHS: seq<nat> := [4, 1, 1, 8, 8, 4, 4, 4, 4, 4, 4, 2]

  function Flags(c: TransferChunk): Byte { (if c.hasFileName then 1 else 0) + if c.isLastChunk then 2 else 0 }

  function Header(c: TransferChunk): (vs: seq<nat>)
    ensures |vs| == |WIDTHS|
  {
    [MAGIC, VERSION, Flags(c), c.transferId, c.fileSize, c.chunkSize, c.chunkIndex, c.totalChunks, |c.data|,
     c.chunkChecksum, c.fileChecksum, |c.fileName|]
  }

  const FIELDS: nat := 12

  function Encode(c: TransferChunk): Bytes { Pack(Header(c), WIDTHS, FIELDS) + c.fileName + c.data }

  lemma HeaderOffsets()
    ensures Offset(WIDTHS, 1) == 4 && Offset(WIDTHS, 2) == 5 && Offset(WIDTHS, 3) == 6 && Offset(WIDTHS, 4) == 14
    ensures Offset(WIDTHS, 5) == 22 && Offset(WIDTHS, 6) == 26 && Offset(WIDTHS, 7) == 30 && Offset(WIDTHS, 8) == 34
    ensures Offset(WIDTHS, 9) == 38 && Offset(WIDTHS, 10) == 42 && Offset(WIDTHS, 11) == 46
    ensures Offset(WIDTHS, 12) == HEADER_SIZE
  {
    assert Offset(WIDTHS, 0) == 0;
  }

  /** The chunk a payload spells out. */
  function Parsed(p: Bytes): Option<TransferChunk> {
    HeaderOffsets();
    if |p| < HEADER_SIZE then None
    else
      var h := Unpack(p, WIDTHS, FIELDS);
      if !WellFormed(h) || |p| != HEADER_SIZE + h[11] + h[8] then None
      else Some(FromHeader(h, p[HEADER_SIZE..HEADER_SIZE + h[11]], p[HEADER_SIZE + h[11]..]))
  }

  /** The chunk a payload spells out, if it is one a receiver accepts. */
  function Decode(p: Bytes): Option<TransferChunk> {
    var c := Parsed(p);
    if c.Some? && Acceptable(c.value) then c else None
  }

  /** Magic, version and flags are right, and every field is within its width. */
  predicate WellFormed(h: seq<nat>)
    ensures WellFormed(h) ==> |h| == FIELDS && h[3] < U64_SIZE && h[4] < U64_SIZE && h[5] < U32_SIZE && h[6] < U32_SIZE
                              && h[7] < U32_SIZE && h[9] < U32_SIZE && h[10] < U32_SIZE
  {
    Widths();
    Fits(h, WIDTHS) && h[0] == MAGIC && h[1] == VERSION && h[2] < 4
  }

  function FromHeader(h: seq<nat>, name: Bytes, data: Bytes): TransferChunk
    requires WellFormed(h)
  {
    TransferChunk(h[3], h[4], h[5], h[6], h[7], h[9], h[10], h[2] % 2 == 1, h[2] / 2 == 1, name, data)
  }

  lemma HeaderFits(c: TransferChunk)
    requires |c.data| < U32_SIZE && |c.fileName| < U16_SIZE
    ensures WellFormed(Header(c)) && FromHeader(Header(c), c.fileName, c.data) == c
  {
    Widths();
    assert Pow256(1) == 256 * Pow256(0);
  }

  lemma HeaderIsForced(h: seq<nat>, name: Bytes, data: Bytes)
    requires WellFormed(h) && |name| == h[11] && |data| == h[8]
    ensures Header(FromHeader(h, name, data)) == h
  {
  }

  /** Parsing and building are inverse both ways: a payload is accepted as chunk `c` exactly when
      `c` is acceptable and the payload is what building `c` produces. */
  lemma ParseInvertsBuild(p: Bytes, c: TransferChunk)
    ensures Decode(p) == Some(c) <==> Acceptable(c) && p == Encode(c)
  {
    if Acceptable(c) && p == Encode(c) { DecodeEncode(c); }
    if Decode(p) == Some(c) { EncodeDecode(p); }
  }

  lemma ParsedEncode(c: TransferChunk)
    requires |c.data| < U32_SIZE && |c.fileName| < U16_SIZE
    ensures Parsed(Encode(c)) == Some(c)
  {
    HeaderOffsets();
    HeaderFits(c);
    var p, h := Encode(c), Pack(Header(c), WIDTHS, FIELDS);
    assert p == h + (c.fileName + c.data);
    UnpackPack(Header(c), WIDTHS, FIELDS, c.fileName + c.data);
    assert Header(c)[..FIELDS] == Header(c);
    var n := HEADER_SIZE + |c.fileName|;
    assert p[HEADER_SIZE..n] == c.fileName && p[n..] == c.data;
  }

  /** What building produces is accepted exactly if the chunk is acceptable. */
  lemma DecodeEncode(c: TransferChunk)
    requires |c.data| < U32_SIZE && |c.fileName| < U16_SIZE
    ensures Decode(Encode(c)) == if Acceptable(c) then Some(c) else None
  {
    ParsedEncode(c);
  }

  lemma EncodeParsed(p: Bytes)
    requires Parsed(p).Some?
    ensures Encode(Parsed(p).value) == p
  {
    HeaderOffsets();
    var h := Unpack(p, WIDTHS, FIELDS);
    var n := HEADER_SIZE + h[11];
    HeaderIsForced(h, p[HEADER_SIZE..n], p[n..]);
    PackUnpack(p, WIDTHS, FIELDS);
    assert p == p[..HEADER_SIZE] + p[HEADER_SIZE..n] + p[n..];
  }

  lemma EncodeDecode(p: Bytes)
    requires Decode(p).Some?
    ensures Encode(Decode(p).value) == p && Acceptable(Decode(p).value)
  {
    EncodeParsed(p);
  }

  /** Changing a byte of the data changes the data of the chunk spelled out, and nothing else. */
  lemma ParsedDamage(p: Bytes, c: TransferChunk, i: nat, b: Byte)
    requires Parsed(p) == Some(c) && |p| - |c.data| <= i < |p|
    ensures Parsed(p[i := b]) == Some(c.(data := c.data[i - (|p| - |c.data|) := b]))
  {
    HeaderOffsets();
    var h, q := Unpack(p, WIDTHS, FIELDS), p[i := b];
    var n := HEADER_SIZE + h[11];
    UnpackFrame(p, q, WIDTHS, FIELDS);
    assert q[n..] == p[n..][i - n := b] && q[HEADER_SIZE..n] == p[HEADER_SIZE..n];
  }

  /** One damaged data byte is always noticed. */
  lemma DamagedDataRejected(p: Bytes, c: TransferChunk, i: nat, b: Byte)
    requires Decode(p) == Some(c) && |p| - |c.data| <= i < |p| && p[i] != b
    ensures Decode(p[i := b]) == None
  {
    var k := i - (|p| - |c.data|);
    ParsedDamage(p, c, i, b);
    assert c.data[k] == p[i] by { DataIsLast(p, c); }
    Fnv.SubstitutionDetected(c.data, k, b, Fnv.OFFSET);
    assert !Acceptable(c.(data := c.data[k := b]));
  }

  lemma DataIsLast(p: Bytes, c: TransferChunk)
    requires Parsed(p) == Some(c)
    ensures |c.data| <= |p| && p[|p| - |c.data|..] == c.data
  {
  }

  // ----- The code -----

  method BuildTransferChunkPayload(c: TransferChunk) returns (ok: bool, payload: Bytes)
    ensures ok <==> Buildable(c)
    ensures ok ==> payload == Encode(c)
  {
    payload := [];
    if c.transferId == 0 || c.chunkSize == 0 || c.totalChunks == 0 || c.chunkIndex >= c.totalChunks {
      return false, [];
    }
    if |c.data| > c.chunkSize { return false, []; }
    if c.hasFileName != (c.chunkIndex == 0) { return false, []; }
    if c.hasFileName && |c.fileName| == 0 { return false, []; }
    if |c.fileName| > 0xFFFF { return false, []; }
    if !c.hasFileName && |c.fileName| != 0 { return false, []; }
    if c.isLastChunk && c.chunkIndex != c.totalChunks - 1 { return false, []; }
    if !c.isLastChunk && c.fileChecksum != 0 { return false, []; }
    if CalculateTotalChunks(c.fileSize, c.chunkSize) != c.totalChunks { return false, []; }
    var chunkStart := c.chunkIndex * c.chunkSize;
    if chunkStart > c.fileSize { return false, []; }
    var expected := Min(c.fileSize - chunkStart, c.chunkSize);
    if c.fileSize == 0 && c.chunkIndex == 0 && c.totalChunks == 1 {
      if |c.data| != 0 { return false, []; }
    } else if |c.data| != expected {
      return false, [];
    }
    payload := Serialize(c);
    return true, payload;
  }

  method Serialize(c: TransferChunk) returns (payload: Bytes)
    ensures payload == Encode(c)
  {
    var header := AppendHeader(c);
    payload := header;
    if |c.fileName| != 0 { payload := payload + c.fileName; }
    if |c.data| != 0 { payload := payload + c.data; }
    assert payload == header + c.fileName + c.data;
  }

  method AppendHeader(c: TransferChunk) returns (payload: Bytes)
    ensures payload == Pack(Header(c), WIDTHS, FIELDS)
  {
    ghost var vs := Header(c);
    payload := AppendSizes(c);
    payload := AppendField(payload, vs, c.totalChunks, 4, 7);
    payload := AppendField(payload, vs, |c.data|, 4, 8);
    payload := AppendField(payload, vs, c.chunkChecksum, 4, 9);
    payload := AppendField(payload, vs, c.fileChecksum, 4, 10);
    payload := AppendField(payload, vs, |c.fileName|, 2, 11);
  }

  /** Up to the chunk index. */
  method AppendSizes(c: TransferChunk) returns (payload: Bytes)
    ensures Spelled(payload, Header(c), 7)
  {
    ghost var vs := Header(c);
    payload := AppendField([], vs, MAGIC, 4, 0);
    payload := AppendField(payload, vs, VERSION, 1, 1);
    payload := AppendField(payload, vs, Flags(c), 1, 2);
    payload := AppendField(payload, vs, c.transferId, 8, 3);
    payload := AppendField(payload, vs, c.fileSize, 8, 4);
    payload := AppendField(payload, vs, c.chunkSize, 4, 5);
    payload := AppendField(payload, vs, c.chunkIndex, 4, 6);
  }

  /** The first `i` fields of the header, and no more. */
  ghost predicate Spelled(payload: Bytes, vs: seq<nat>, i: nat) {
    |vs| == FIELDS && forall n | n == i <= FIELDS :: payload == Pack(vs, WIDTHS, n)
  }

  /** AppendU8/16/32/64, for field `i` of the header. */
  method AppendField(before: Bytes, ghost vs: seq<nat>, v: nat, n: nat, ghost i: nat) returns (payload: Bytes)
    requires i < FIELDS && Spelled(before, vs, i) && vs[i] == v && WIDTHS[i] == n
    ensures Spelled(payload, vs, i + 1)
  {
    payload := before + Store(v, n);
  }

  /** ReadU8/16/32/64 at the cursor; within the fixed header it cannot fail. */
  method Next(p: Bytes, cursor: nat, n: nat, ghost i: nat) returns (v: nat, next: nat)
    requires |p| >= HEADER_SIZE == Offset(WIDTHS, FIELDS)
    requires i < FIELDS && cursor == Offset(WIDTHS, i) && n == WIDTHS[i]
    ensures v == Unpack(p, WIDTHS, FIELDS)[i] && next == Offset(WIDTHS, i + 1)
  {
    UnpackAt(p, WIDTHS, FIELDS, i);
    var r := Read(p, cursor, n);
    v, next := r.value.0, r.value.1;
  }

  /** The fixed header, field by field. */
  method ReadHeader(p: Bytes) returns (h: Option<seq<nat>>)
    requires |p| >= HEADER_SIZE
    ensures Offset(WIDTHS, FIELDS) == HEADER_SIZE
    ensures h == if WellFormed(Unpack(p, WIDTHS, FIELDS)) then Some(Unpack(p, WIDTHS, FIELDS)) else None
  {
    HeaderOffsets();
    UnpackFits(p, WIDTHS, FIELDS);
    ghost var vs := Unpack(p, WIDTHS, FIELDS);
    var magic, c1 := Next(p, 0, 4, 0);
    if magic != MAGIC { return None; }
    var version, c2 := Next(p, c1, 1, 1);
    if version != VERSION { return None; }
    var flags, c3 := Next(p, c2, 1, 2);
    if flags >= 4 { return None; }
    var id, c4 := Next(p, c3, 8, 3);
    var fileSize, c5 := Next(p, c4, 8, 4);
    var chunkSize, c6 := Next(p, c5, 4, 5);
    var index, c7 := Next(p, c6, 4, 6);
    var total, c8 := Next(p, c7, 4, 7);
    var dataSize, c9 := Next(p, c8, 4, 8);
    var chunkSum, c10 := Next(p, c9, 4, 9);
    var fileSum, c11 := Next(p, c10, 4, 10);
    var nameSize, c12 := Next(p, c11, 2, 11);
    h := Some([magic, version, flags, id, fileSize, chunkSize, index, total, dataSize, chunkSum, fileSum, nameSize]);
    assert h.value == vs;
  }

  method ParseTransferChunkPayload(p: Bytes) returns (r: Option<TransferChunk>)
    ensures r == Decode(p)
  {
    if |p| < HEADER_SIZE { return None; }
    var h := ReadHeader(p);
    if h.None? { return None; }
    var cursor, nameSize, dataSize := HEADER_SIZE, h.value[11], h.value[8];
    if cursor + nameSize > |p| { return None; }
    var name := p[cursor..cursor + nameSize];
    cursor := cursor + nameSize;
    if cursor + dataSize != |p| { return None; }
    var c := FromHeader(h.value, name, p[cursor..]);
    var ok := CheckChunk(c);
    r := if ok then Some(c) else None;
  }

  /** The consistency checks of the parser. */
  method CheckChunk(c: TransferChunk) returns (ok: bool)
    requires |c.fileName| < U16_SIZE
    ensures ok == Acceptable(c)
  {
    if c.transferId == 0 || c.chunkSize == 0 || c.totalChunks == 0 || c.chunkIndex >= c.totalChunks { return false; }
    if c.hasFileName != (c.chunkIndex == 0) { return false; }
    if !c.hasFileName && |c.fileName| != 0 { return false; }
    if c.hasFileName && |c.fileName| == 0 { return false; }
    if !c.isLastChunk && c.fileChecksum != 0 { return false; }
    if c.isLastChunk && c.chunkIndex != c.totalChunks - 1 { return false; }
    if CalculateTotalChunks(c.fileSize, c.chunkSize) != c.totalChunks { return false; }
    if c.hasFileName {
      var bad := ContainsPathTraversal(c.fileName);
      if bad { return false; }
    }
    if |c.data| > c.chunkSize { return false; }
    var chunkStart := c.chunkIndex * c.chunkSize;
    if chunkStart > c.fileSize { return false; }
    var expected := Min(c.fileSize - chunkStart, c.chunkSize);
    if c.fileSize == 0 && c.chunkIndex == 0 && c.totalChunks == 1 {
      if |c.data| != 0 || !c.isLastChunk { return false; }
    } else if |c.data| != expected {
      return false;
    }
    var computed := Fnv.UpdateChecksum(c.data, Fnv.OFFSET);
    return computed == c.chunkChecksum;
  }
}
