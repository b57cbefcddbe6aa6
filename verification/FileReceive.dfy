/** Rebuilding a file from chunks: temporary files, receive sessions, finalizing. */
module FileReceive {
  import opened Common
  import opened TransferChunks
  import Fnv

  // ----- Temporary files -----

  datatype Backend = MemoryMapped | Positional

  const MAX_OFFSET: nat := 0x7FFF_FFFF_FFFF_FFFF

  /** The content after writing `d` at offset `o`; a file grows as needed, gaps reading as zero. */
  function Overwrite(s: Bytes, o: nat, d: Bytes): (r: Bytes) {
    if d == [] then s
    else
      var base := if o <= |s| then s[..o] else s + Zeros(o - |s|);
      base + d + if o + |d| < |s| then s[o + |d|..] else []
  }

  lemma OverwriteIs(s: Bytes, o: nat, d: Bytes)
    ensures var r := Overwrite(s, o, d);
            && |r| == (if d == [] || o + |d| <= |s| then |s| else o + |d|)
            && forall k | 0 <= k < |r| ::
                 r[k] == if o <= k < o + |d| then d[k - o] else if k < |s| then s[k] else 0
  {
  }

  /** The factory: a mapped file has its final size from the start. */
  function OpenTemp(b: Backend, size: U64): Option<Bytes> {
    if b.Positional? then Some([]) else if size > MAX_OFFSET then None else Some(Zeros(size))
  }

  /** WriteAt.  A mapped file refuses what does not fit; a positional file takes `taken` bytes before
      the system refuses more. */
  function WriteTo(b: Backend, content: Bytes, o: nat, d: Bytes, taken: nat): (bool, Bytes) {
    if b.MemoryMapped? then
      if d == [] then (true, content)
      else if o > |content| || |d| > |content| - o then (false, content)
      else (true, Overwrite(content, o, d))
    else if taken >= |d| then (true, Overwrite(content, o, d))
    else (false, Overwrite(content, o, d[..taken]))
  }

  lemma OverwriteTwice(s: Bytes, o: nat, a: Bytes, b: Bytes)
    ensures Overwrite(Overwrite(s, o, a), o + |a|, b) == Overwrite(s, o, a + b)
  {
    var once := Overwrite(s, o, a);
    var l, r := Overwrite(once, o + |a|, b), Overwrite(s, o, a + b);
    OverwriteIs(s, o, a);
    OverwriteIs(once, o + |a|, b);
    OverwriteIs(s, o, a + b);
    assert |l| == |r|;
    forall k | 0 <= k < |l| ensures l[k] == r[k] { }
  }

  /** Writing the next piece extends the prefix written so far. */
  lemma WriteMore(s: Bytes, o: nat, d: Bytes, taken: nat, wrote: nat)
    requires taken + wrote <= |d|
    ensures Overwrite(Overwrite(s, o, d[..taken]), o + taken, d[taken..taken + wrote])
              == Overwrite(s, o, d[..taken + wrote])
  {
    SplitPrefix(d, taken, taken + wrote);
    OverwriteTwice(s, o, d[..taken], d[taken..taken + wrote]);
  }

  /** The positional write loop: each call writes what the system takes of the rest.  `grants(w)` is
      how much that is once `w` bytes are written; nothing means failure. */
  method PositionalWriteAt(content: Bytes, o: nat, d: Bytes, grants: nat -> nat)
    returns (ok: bool, content': Bytes, taken: nat)
    ensures (ok, content') == WriteTo(Positional, content, o, d, taken) && taken <= |d|
    ensures !ok ==> grants(taken) == 0
  {
    content', taken := content, 0;
    assert d[..0] == [];
    while taken < |d|
      invariant taken <= |d| && content' == Overwrite(content, o, d[..taken])
    {
      var wrote := Min(grants(taken), |d| - taken);
      if wrote <= 0 {
        return false, content', taken;
      }
      WriteMore(content, o, d, taken, wrote);
      content' := Overwrite(content', o + taken, d[taken..taken + wrote]);
      taken := taken + wrote;
    }
    assert d[..taken] == d;
    ok := true;
  }

  // ----- Sessions -----

  /** `open` says whether the temporary file is still held; `content` is what is on disk. */
  datatype Session = Session(fileSize: U64, chunkSize: U32, totalChunks: U32, expected: Option<U32>,
                             open: bool, content: Bytes, received: seq<bool>, count: nat)

  type Streams = map<U64, Session>

  predicate SessionOk(s: Session) { |s.received| == s.totalChunks }

  predicate StreamsOk(ss: Streams) { forall id | id in ss :: SessionOk(ss[id]) }

  predicate Complete(s: Session) { s.count == s.totalChunks && s.expected.Some? }

  function NewSession(c: TransferChunk, content: Bytes): (s: Session)
    ensures SessionOk(s)
  {
    Session(c.fileSize, c.chunkSize, c.totalChunks, None, true, content, seq(c.totalChunks, _ => false), 0)
  }

  /** EnsureStreamSession: only a chunk with a file name opens a session; later chunks must agree with it. */
  function Ensure(b: Backend, ss: Streams, c: TransferChunk): (r: Option<Streams>)
    requires StreamsOk(ss)
    ensures r.Some? ==> StreamsOk(r.value) && c.transferId in r.value
    ensures r.Some? ==> r.value[c.transferId].totalChunks == c.totalChunks
  {
    if c.transferId in ss then
      var s := ss[c.transferId];
      if s.fileSize != c.fileSize || s.chunkSize != c.chunkSize || s.totalChunks != c.totalChunks then None
      else Some(ss)
    else if !c.hasFileName then None
    else match OpenTemp(b, c.fileSize)
      case None => None
      case Some(content) =>
        Some(ss[c.transferId := NewSession(c, content)])
  }

  datatype Outcome = Outcome(streams: Streams, ok: bool, completed: bool)

  /** StreamChunkToFile, for a chunk whose index is within its own total. */
  function Stream(b: Backend, ss: Streams, c: TransferChunk, taken: nat): (r: Outcome)
    requires StreamsOk(ss) && c.chunkIndex < c.totalChunks
    ensures StreamsOk(r.streams)
  {
    match Ensure(b, ss, c)
    case None => Outcome(ss, false, false)
    case Some(ss) =>
      var s := ss[c.transferId];
      if !s.open then Outcome(ss, false, false)
      else if s.received[c.chunkIndex] then Outcome(ss, true, Complete(s))
      else
        var (ok, content) := WriteTo(b, s.content, c.chunkIndex * c.chunkSize, c.data, taken);
        if !ok then Outcome(ss[c.transferId := s.(content := content)], false, false)
        else
          var s := s.(content := content, received := s.received[c.chunkIndex := true], count := s.count + 1,
                      expected := if c.isLastChunk then Some(c.fileChecksum) else s.expected);
          Outcome(ss[c.transferId := s], true, Complete(s))
  }

  /** The chunk's data fits a mapped file of that size, or the system takes all of it. */
  predicate WrittenWhole(b: Backend, size: nat, c: TransferChunk, taken: nat) {
    if b.MemoryMapped? then c.data == [] || c.chunkIndex * c.chunkSize + |c.data| <= size else taken >= |c.data|
  }

  /** There is an open session that the chunk agrees with, or the chunk names the file and opens one; and it is recorded
      already or its data was written whole. */
  predicate Succeeds(b: Backend, ss: Streams, c: TransferChunk, taken: nat)
    requires StreamsOk(ss) && c.chunkIndex < c.totalChunks
  {
    if c.transferId in ss then
      var s := ss[c.transferId];
      && s.open && s.fileSize == c.fileSize && s.chunkSize == c.chunkSize && s.totalChunks == c.totalChunks
      && (s.received[c.chunkIndex] || WrittenWhole(b, |s.content|, c, taken))
    else
      && c.hasFileName && (b.MemoryMapped? ==> c.fileSize <= 0x7FFF_FFFF_FFFF_FFFF)
      && WrittenWhole(b, c.fileSize, c, taken)
  }

  /** Success is reported if and only if that is so, and the chunk is then recorded; completion is success with
      everything recorded and the file's checksum known. */
  lemma StreamSucceedsIff(b: Backend, ss: Streams, c: TransferChunk, taken: nat)
    requires StreamsOk(ss) && c.chunkIndex < c.totalChunks
    ensures var r := Stream(b, ss, c, taken);
            && (r.ok <==> Succeeds(b, ss, c, taken))
            && (r.ok ==> c.transferId in r.streams && r.streams[c.transferId].totalChunks == c.totalChunks)
            && (r.ok ==> r.streams[c.transferId].received[c.chunkIndex])
            && (r.completed <==> r.ok && Complete(r.streams[c.transferId]))
  {
  }

  datatype Final = Final(streams: Streams, output: Option<Bytes>)

  /** FinalizeStreamedFile: the file is handed over only if its checksum is the one the last chunk named. */
  function Finalize(ss: Streams, id: U64): (r: Final)
    requires StreamsOk(ss)
    ensures StreamsOk(r.streams)
  {
    if id !in ss || !Complete(ss[id]) || !ss[id].open then Final(ss, None)
    else
      var s := ss[id];
      if Fnv.Checksum(s.content) != s.expected.value then Final(ss[id := s.(open := false)], None)
      else Final(ss - {id}, Some(s.content))
  }

  const READ_SIZE: nat := 65536

  /** ComputeFileChecksum: block by block. */
  method ComputeFileChecksum(content: Bytes) returns (checksum: U32)
    ensures checksum == Fnv.Checksum(content)
  {
    var offset := 0;
    checksum := Fnv.OFFSET;
    while offset < |content|
      invariant offset <= |content| && checksum == Fnv.Checksum(content[..offset])
    {
      var end := Min(offset + READ_SIZE, |content|);
      var block := content[offset..end];
      SplitPrefix(content, offset, end);
      Fnv.UpdateConcat(content[..offset], block, Fnv.OFFSET);
      checksum := Fnv.UpdateChecksum(block, checksum);
      offset := end;
    }
    assert content[..offset] == content;
  }

  class ZFileTransporter {
    const backend: Backend
    var activeStreams: Streams

    ghost predicate Valid()
      reads this
    {
      StreamsOk(activeStreams)
    }

    constructor (b: Backend)
      ensures Valid() && activeStreams == map[] && backend == b
    {
      backend, activeStreams := b, map[];
    }

    method EnsureStreamSession(c: TransferChunk) returns (ok: bool)
      requires Valid()
      modifies this
      ensures Valid() && ok == Ensure(backend, old(activeStreams), c).Some?
      ensures activeStreams == if ok then Ensure(backend, old(activeStreams), c).value else old(activeStreams)
    {
      if c.transferId in activeStreams {
        var s := activeStreams[c.transferId];
        return !(s.fileSize != c.fileSize || s.chunkSize != c.chunkSize || s.totalChunks != c.totalChunks);
      }
      if !c.hasFileName {
        return false;
      }
      var temp := OpenTemp(backend, c.fileSize);
      if temp.None? {
        return false;
      }
      var s := NewSession(c, temp.value);
      activeStreams := activeStreams[c.transferId := s];
      return true;
    }

    method WriteAt(content: Bytes, o: nat, d: Bytes, grants: nat -> nat) returns (ok: bool, content': Bytes, taken: nat)
      ensures (ok, content') == WriteTo(backend, content, o, d, taken) && taken <= |d|
    {
      match backend {
        case MemoryMapped =>
          taken := 0;
          if |d| == 0 { return true, content, 0; }
          if o > |content| || |d| > |content| - o { return false, content, 0; }
          ok, content' := true, Overwrite(content, o, d);
        case Positional =>
          ok, content', taken := PositionalWriteAt(content, o, d, grants);
      }
    }

    method StreamChunkToFile(c: TransferChunk, grants: nat -> nat) returns (ok: bool, completed: bool, ghost taken: nat)
      requires Valid() && c.chunkIndex < c.totalChunks
      modifies this
      ensures Valid() && Outcome(activeStreams, ok, completed) == Stream(backend, old(activeStreams), c, taken)
      ensures ok == Succeeds(backend, old(activeStreams), c, taken)
    {
      forall n ensures Stream(backend, activeStreams, c, n).ok == Succeeds(backend, activeStreams, c, n) {
        StreamSucceedsIff(backend, activeStreams, c, n);
      }
      taken, completed := 0, false;
      ok := EnsureStreamSession(c);
      if !ok {
        return;
      }
      var s := activeStreams[c.transferId];
      if !s.open {
        return false, false, 0;
      }
      if s.received[c.chunkIndex] {
        return true, s.count == s.totalChunks && s.expected.Some?, 0;
      }
      var content, n;
      ok, content, n := WriteAt(s.content, c.chunkIndex * c.chunkSize, c.data, grants);
      taken := n;
      s := s.(content := content);
      if ok {
        s := s.(received := s.received[c.chunkIndex := true], count := s.count + 1);
        if c.isLastChunk {
          s := s.(expected := Some(c.fileChecksum));
        }
        completed := s.count == s.totalChunks && s.expected.Some?;
      }
      activeStreams := activeStreams[c.transferId := s];
    }

    method FinalizeStreamedFile(id: U64) returns (output: Option<Bytes>)
      requires Valid()
      modifies this
      ensures Valid() && Final(activeStreams, output) == Finalize(old(activeStreams), id)
    {
      if id !in activeStreams {
        return None;
      }
      var s := activeStreams[id];
      if s.count != s.totalChunks || s.expected.None? || !s.open {
        return None;
      }
      activeStreams := activeStreams[id := s.(open := false)];
      var computed := ComputeFileChecksum(s.content);
      if computed != s.expected.value {
        return None;
      }
      activeStreams := activeStreams - {id};
      return Some(s.content);
    }
  }
}
