/** A transfer survives any arrival order: chunks may be repeated, reordered, mixed with other traffic,
    and refused by the disk halfway. */
module FileTheorems {
  import opened Common
  import opened TransferChunks
  import opened FileSend
  import opened FileReceive
  import Fnv

  /** A payload arriving: chunk `i` of the transfer, or something else; `taken` is how much of a write
      the disk accepts. */
  datatype Event = Mine(i: nat, taken: nat) | Foreign(payload: Bytes, taken: nat)

  predicate EventOk(t: Transfer, ev: Event)
    requires Sendable(t)
  {
    ev.Mine? ==> ev.i < Total(t)
  }

  predicate EventsOk(t: Transfer, evs: seq<Event>)
    requires Sendable(t)
  {
    forall i | 0 <= i < |evs| :: EventOk(t, evs[i])
  }

  function PayloadOf(t: Transfer, ev: Event): Bytes
    requires Sendable(t) && EventOk(t, ev)
  {
    if ev.Mine? then Encode(SenderChunk(t, ev.i)) else ev.payload
  }

  /** Parse the payload and, if it is a chunk, stream it. */
  function Deliver(b: Backend, ss: Streams, p: Bytes, taken: nat): (r: Outcome)
    requires StreamsOk(ss)
    ensures StreamsOk(r.streams)
  {
    match Decode(p)
    case None => Outcome(ss, false, false)
    case Some(c) => Stream(b, ss, c, taken)
  }

  function After(b: Backend, ss: Streams, t: Transfer, evs: seq<Event>): (r: Streams)
    requires StreamsOk(ss) && Sendable(t) && EventsOk(t, evs)
    ensures StreamsOk(r)
    decreases |evs|, 1
  {
    if evs == [] then ss else LastOutcome(b, ss, t, evs).streams
  }

  function LastOutcome(b: Backend, ss: Streams, t: Transfer, evs: seq<Event>): (r: Outcome)
    requires StreamsOk(ss) && Sendable(t) && EventsOk(t, evs) && evs != []
    ensures StreamsOk(r.streams)
    decreases |evs|, 0
  {
    var n := |evs| - 1;
    Deliver(b, After(b, ss, t, evs[..n]), PayloadOf(t, evs[n]), evs[n].taken)
  }

  // ----- What has been written, said without the receiver -----

  /** Chunk 0 has arrived, with a name receivers accept. */
  predicate Started(t: Transfer, evs: seq<Event>) {
    !Traversal(t.name) && exists j :: 0 <= j < |evs| && evs[j].Mine? && evs[j].i == 0
  }

  /** Another sender's chunk under this transfer's identifier: harmless if its sizes differ from those of the open
      session, or if there is none and the chunk cannot open one. */
  predicate Collides(t: Transfer, front: seq<Event>, c: TransferChunk)
    requires Sendable(t)
  {
    && c.transferId == t.id
    && if Started(t, front) then c.fileSize == |t.file| && c.chunkSize == t.chunkSize && c.totalChunks == Total(t)
       else c.hasFileName
  }

  predicate Harmless(t: Transfer, front: seq<Event>, ev: Event)
    requires Sendable(t)
  {
    ev.Foreign? && Decode(ev.payload).Some? ==> !Collides(t, front, Decode(ev.payload).value)
  }

  /** Any arrivals of this transfer's chunks and others that do not collide. */
  predicate Arrivals(t: Transfer, evs: seq<Event>)
    requires Sendable(t)
  {
    EventsOk(t, evs) && forall i | 0 <= i < |evs| :: Harmless(t, evs[..i], evs[i])
  }

  /** The disk takes the whole chunk. */
  predicate Taken(b: Backend, t: Transfer, ev: Event)
    requires Sendable(t) && EventOk(t, ev) && ev.Mine?
  {
    TotalOf(t);
    b.MemoryMapped? || ev.taken >= |Piece(t, ev.i)|
  }

  /** Indices that arrived, with chunk 0 by then, and were taken in full. */
  function Written(b: Backend, t: Transfer, evs: seq<Event>): set<nat>
    requires Sendable(t) && EventsOk(t, evs)
  {
    if evs == [] then {}
    else
      var last := evs[|evs| - 1];
      Written(b, t, evs[..|evs| - 1]) + if last.Mine? && Started(t, evs) && Taken(b, t, last) then {last.i} else {}
  }

  function Indices(n: nat): (r: set<nat>)
    ensures |r| == n && forall i: nat :: i in r <==> i < n
  {
    if n == 0 then {} else Indices(n - 1) + {n - 1}
  }

  // ----- The session tracks what has been written -----

  ghost predicate Holds(t: Transfer, content: Bytes, i: nat) {
    forall o: nat | InChunk(|t.file|, t.chunkSize, i, o) :: o < |content| && content[o] == t.file[o]
  }

  ghost predicate ContentOk(b: Backend, t: Transfer, content: Bytes, done: set<nat>) {
    && |content| <= |t.file| && (b.MemoryMapped? ==> |content| == |t.file|)
    && forall i | i in done :: Holds(t, content, i)
  }

  ghost predicate Tracks(b: Backend, t: Transfer, s: Session, done: set<nat>)
    requires Sendable(t)
  {
    && s.fileSize == |t.file| && s.chunkSize == t.chunkSize && s.totalChunks == Total(t) == |s.received| && s.open
    && (forall i | i in done :: i < Total(t)) && (forall i | 0 <= i < Total(t) :: s.received[i] <==> i in done)
    && s.count == |done| && s.expected == (if Total(t) - 1 in done then Some(Fnv.Checksum(t.file)) else None)
    && ContentOk(b, t, s.content, done)
  }

  /** After chunk `i` the session is open and tracks `done`; success was reported exactly if that has the chunk, and
      completion exactly if it is everything. */
  ghost predicate Reached(b: Backend, t: Transfer, r: Outcome, i: nat, done: set<nat>)
    requires Sendable(t)
  {
    && t.id in r.streams && Tracks(b, t, r.streams[t.id], done)
    && (r.ok <==> i in done) && (r.completed <==> r.ok && done == Indices(Total(t)))
  }

  /** Writing (part of) chunk `i` puts the file's own bytes there and disturbs no other chunk. */
  lemma WriteKeeps(b: Backend, t: Transfer, content: Bytes, done: set<nat>, i: nat, n: nat)
    requires Sendable(t) && i < Total(t) && ContentOk(b, t, content, done) && ChunkStart(t.chunkSize, i) <= |t.file|
    requires n <= |Piece(t, i)|
    ensures ContentOk(b, t, Overwrite(content, ChunkStart(t.chunkSize, i), Piece(t, i)[..n]), done)
    ensures n == |Piece(t, i)| ==> Holds(t, Overwrite(content, ChunkStart(t.chunkSize, i), Piece(t, i)[..n]), i)
  {
    var start, d := ChunkStart(t.chunkSize, i), Piece(t, i)[..n];
    var after := Overwrite(content, start, d);
    OverwriteIs(content, start, d);
    assert forall k | 0 <= k < n :: d[k] == t.file[start + k];
    forall j | j in done ensures Holds(t, after, j) {
      assert Holds(t, content, j);
    }
  }

  lemma WriteChunk(b: Backend, t: Transfer, content: Bytes, done: set<nat>, i: nat, taken: nat)
    requires Sendable(t) && i < Total(t) && ContentOk(b, t, content, done) && ChunkStart(t.chunkSize, i) <= |t.file|
    ensures var (ok, after) := WriteTo(b, content, ChunkStart(t.chunkSize, i), Piece(t, i), taken);
            && ok == (b.MemoryMapped? || taken >= |Piece(t, i)|)
            && ContentOk(b, t, after, if ok then done + {i} else done)
  {
    var d := Piece(t, i);
    assert d[..|d|] == d;
    WriteKeeps(b, t, content, done, i, |d|);
    if b.Positional? && taken < |d| { WriteKeeps(b, t, content, done, i, taken); }
    if b.MemoryMapped? && d == [] {
      assert Overwrite(content, ChunkStart(t.chunkSize, i), d) == content;
    }
  }

  /** The session after a new chunk was written, in full or in part. */
  lemma WrittenTracked(b: Backend, t: Transfer, s: Session, i: nat, taken: nat, done: set<nat>)
    requires Sendable(t) && i < Total(t) && Tracks(b, t, s, done) && i !in done
    requires ChunkStart(t.chunkSize, i) <= |t.file|
    ensures var (ok, content) := WriteTo(b, s.content, ChunkStart(t.chunkSize, i), Piece(t, i), taken);
            var s' := s.(content := content, received := s.received[i := true], count := s.count + 1,
                         expected := if i == Total(t) - 1 then Some(Fnv.Checksum(t.file)) else s.expected);
            && ok == (b.MemoryMapped? || taken >= |Piece(t, i)|)
            && if ok then Tracks(b, t, s', done + {i}) else Tracks(b, t, s.(content := content), done)
  {
    WriteChunk(b, t, s.content, done, i, taken);
  }

  lemma CompleteIsAll(b: Backend, t: Transfer, s: Session, done: set<nat>)
    requires Sendable(t) && Tracks(b, t, s, done)
    ensures Complete(s) <==> done == Indices(Total(t))
  {
    FullCount(done, Total(t));
  }

  /** One more chunk of the transfer reaches its open session. */
  lemma StreamTracked(b: Backend, t: Transfer, ss: Streams, i: nat, taken: nat, done: set<nat>)
    requires StreamsOk(ss) && Sendable(t) && i < Total(t) && t.id in ss && Tracks(b, t, ss[t.id], done)
    requires ChunkStart(t.chunkSize, i) <= |t.file|
    ensures Reached(b, t, Stream(b, ss, SenderChunk(t, i), taken), i,
                    if b.MemoryMapped? || taken >= |Piece(t, i)| then done + {i} else done)
  {
    var s, c := ss[t.id], SenderChunk(t, i);
    assert Ensure(b, ss, c) == Some(ss);
    if s.received[i] {
      assert done + {i} == done;
      CompleteIsAll(b, t, s, done);
    } else {
      NewTracked(b, t, ss, i, taken, done);
    }
  }

  lemma NewTracked(b: Backend, t: Transfer, ss: Streams, i: nat, taken: nat, done: set<nat>)
    requires StreamsOk(ss) && Sendable(t) && i < Total(t) && t.id in ss && Tracks(b, t, ss[t.id], done) && i !in done
    requires ChunkStart(t.chunkSize, i) <= |t.file|
    ensures Reached(b, t, Stream(b, ss, SenderChunk(t, i), taken), i,
                    if b.MemoryMapped? || taken >= |Piece(t, i)| then done + {i} else done)
  {
    var s := ss[t.id];
    WrittenTracked(b, t, s, i, taken, done);
    var r := Stream(b, ss, SenderChunk(t, i), taken);
    assert t.id in r.streams;
    if b.MemoryMapped? || taken >= |Piece(t, i)| {
      CompleteIsAll(b, t, r.streams[t.id], done + {i});
    } else {
      assert !r.completed;
      assert i in Indices(Total(t)) && i !in done;
    }
  }

  /** A count of distinct indices that reaches the total has them all. */
  lemma FullCount(done: set<nat>, n: nat)
    requires forall i | i in done :: i < n
    ensures |done| == n <==> done == Indices(n)
  {
    assert done <= Indices(n);
    if |done| == n { SubsetOfEqualSize(done, Indices(n)); }
  }

  lemma SubsetOfEqualSize(a: set<nat>, b: set<nat>)
    requires a <= b && |a| == |b|
    ensures a == b
  {
    assert |b| == |a| + |b - a| by { assert b == a + (b - a); }
  }

  /** Opening the session. */
  lemma StreamFirst(b: Backend, t: Transfer, ss: Streams, taken: nat)
    requires StreamsOk(ss) && Sendable(t) && t.id !in ss
    ensures var c := SenderChunk(t, 0); var o := Ensure(b, ss, c);
            && o.Some? && t.id in o.value && Tracks(b, t, o.value[t.id], {})
            && Stream(b, ss, c, taken) == Stream(b, o.value, c, taken)
  {
  }

  // ----- Any sequence of arrivals -----

  /** The start of a transfer the receiver knows nothing of. */
  predicate FreshFor(t: Transfer, ss: Streams) { Sendable(t) && StreamsOk(ss) && t.id !in ss }

  lemma StartedStep(t: Transfer, evs: seq<Event>)
    requires evs != []
    ensures Started(t, evs)
            <==> Started(t, evs[..|evs| - 1]) || (!Traversal(t.name) && evs[|evs| - 1].Mine? && evs[|evs| - 1].i == 0)
  {
    var front := evs[..|evs| - 1];
    if j :| 0 <= j < |front| && front[j].Mine? && front[j].i == 0 { assert evs[j] == front[j]; }
    if j :| 0 <= j < |evs| && evs[j].Mine? && evs[j].i == 0 { assert j < |front| ==> front[j] == evs[j]; }
  }

  ghost predicate Accounted(b: Backend, t: Transfer, ss: Streams, evs: seq<Event>, done: set<nat>)
    requires Sendable(t)
  {
    if Started(t, evs) then t.id in ss && Tracks(b, t, ss[t.id], done) else t.id !in ss && done == {}
  }

  /** A payload of the transfer is streamed as the chunk it was, unless its name is refused. */
  lemma DeliverIsStream(b: Backend, t: Transfer, ss: Streams, i: nat, taken: nat)
    requires Sendable(t) && StreamsOk(ss) && i < Total(t)
    ensures Deliver(b, ss, Encode(SenderChunk(t, i)), taken)
              == if i == 0 && Traversal(t.name) then Outcome(ss, false, false)
                 else Stream(b, ss, SenderChunk(t, i), taken)
  {
    SentIsAcceptable(t, i);
  }

  lemma StreamTaken(b: Backend, t: Transfer, ss: Streams, ev: Event, done: set<nat>)
    requires StreamsOk(ss) && Sendable(t) && EventOk(t, ev) && ev.Mine? && t.id in ss && Tracks(b, t, ss[t.id], done)
    ensures Reached(b, t, Stream(b, ss, SenderChunk(t, ev.i), ev.taken), ev.i,
                    done + if Taken(b, t, ev) then {ev.i} else {})
  {
    TotalOf(t);
    StreamTracked(b, t, ss, ev.i, ev.taken, done);
    assert done + {} == done;
  }

  lemma StreamOpens(b: Backend, t: Transfer, ss: Streams, ev: Event)
    requires StreamsOk(ss) && Sendable(t) && EventOk(t, ev) && ev.Mine? && ev.i == 0 && t.id !in ss
    ensures Reached(b, t, Stream(b, ss, SenderChunk(t, 0), ev.taken), 0, {} + if Taken(b, t, ev) then {ev.i} else {})
  {
    StreamFirst(b, t, ss, ev.taken);
    StreamTaken(b, t, Ensure(b, ss, SenderChunk(t, 0)).value, ev, {});
  }

  lemma StreamEarly(b: Backend, t: Transfer, ss: Streams, i: nat, taken: nat)
    requires StreamsOk(ss) && Sendable(t) && 0 < i < Total(t) && t.id !in ss
    ensures Stream(b, ss, SenderChunk(t, i), taken) == Outcome(ss, false, false)
  {
  }

  /** A chunk of the transfer arrives. */
  lemma DeliverMine(b: Backend, t: Transfer, ss: Streams, evs: seq<Event>, done: set<nat>)
    requires Sendable(t) && StreamsOk(ss) && EventsOk(t, evs) && evs != [] && evs[|evs| - 1].Mine?
    requires Accounted(b, t, ss, evs[..|evs| - 1], done)
    ensures var ev := evs[|evs| - 1];
            var r := Deliver(b, ss, PayloadOf(t, ev), ev.taken);
            if Started(t, evs) then Reached(b, t, r, ev.i, done + if Taken(b, t, ev) then {ev.i} else {})
            else r == Outcome(ss, false, false)
  {
    var ev := evs[|evs| - 1];
    assert EventOk(t, ev);
    StartedStep(t, evs);
    DeliverIsStream(b, t, ss, ev.i, ev.taken);
    if Started(t, evs[..|evs| - 1]) {
      StreamTaken(b, t, ss, ev, done);
    } else if ev.i > 0 {
      StreamEarly(b, t, ss, ev.i, ev.taken);
    } else if !Traversal(t.name) {
      StreamOpens(b, t, ss, ev);
    }
  }

  lemma StreamOther(b: Backend, ss: Streams, c: TransferChunk, taken: nat, id: U64)
    requires StreamsOk(ss) && c.chunkIndex < c.totalChunks && c.transferId != id
    ensures var r := Stream(b, ss, c, taken).streams; (id in r <==> id in ss) && (id in ss ==> r[id] == ss[id])
  {
  }

  lemma StreamRefused(b: Backend, t: Transfer, ss: Streams, front: seq<Event>, c: TransferChunk, taken: nat,
                      done: set<nat>)
    requires StreamsOk(ss) && Sendable(t) && c.chunkIndex < c.totalChunks && c.transferId == t.id
    requires Accounted(b, t, ss, front, done) && !Collides(t, front, c)
    ensures Stream(b, ss, c, taken) == Outcome(ss, false, false)
  {
    assert Ensure(b, ss, c) == None;
  }

  /** Other traffic leaves the session alone. */
  lemma DeliverForeign(b: Backend, t: Transfer, ss: Streams, front: seq<Event>, ev: Event, done: set<nat>)
    requires Sendable(t) && StreamsOk(ss) && ev.Foreign? && Harmless(t, front, ev) && Accounted(b, t, ss, front, done)
    ensures var r := Deliver(b, ss, ev.payload, ev.taken).streams;
            (t.id in r <==> t.id in ss) && (t.id in ss ==> r[t.id] == ss[t.id])
  {
    match Decode(ev.payload)
    case None =>
    case Some(c) =>
      if c.transferId == t.id {
        StreamRefused(b, t, ss, front, c, ev.taken, done);
      } else {
        StreamOther(b, ss, c, ev.taken, t.id);
      }
  }

  lemma Earlier(t: Transfer, evs: seq<Event>)
    requires Sendable(t) && Arrivals(t, evs) && evs != []
    ensures Arrivals(t, evs[..|evs| - 1]) && EventOk(t, evs[|evs| - 1])
    ensures Harmless(t, evs[..|evs| - 1], evs[|evs| - 1])
  {
    var front := evs[..|evs| - 1];
    forall i | 0 <= i < |front| ensures Harmless(t, front[..i], front[i]) { assert front[..i] == evs[..i]; }
  }

  lemma {:induction false} RunAccounted(b: Backend, t: Transfer, ss: Streams, evs: seq<Event>)
    requires FreshFor(t, ss) && Arrivals(t, evs)
    ensures Accounted(b, t, After(b, ss, t, evs), evs, Written(b, t, evs))
  {
    if evs != [] {
      var front, ev := evs[..|evs| - 1], evs[|evs| - 1];
      Earlier(t, evs);
      RunAccounted(b, t, ss, front);
      var s, done := After(b, ss, t, front), Written(b, t, front);
      if ev.Mine? {
        DeliverMine(b, t, s, evs, done);
        StartedStep(t, evs);
      } else {
        StartedStep(t, evs);
        DeliverForeign(b, t, s, front, ev, done);
      }
    }
  }

  /** Until chunk 0 has arrived, a chunk of the transfer changes nothing. */
  lemma NothingBeforeFirstChunk(b: Backend, t: Transfer, ss: Streams, evs: seq<Event>)
    requires FreshFor(t, ss) && Arrivals(t, evs) && evs != [] && !Started(t, evs) && evs[|evs| - 1].Mine?
    ensures LastOutcome(b, ss, t, evs) == Outcome(After(b, ss, t, evs[..|evs| - 1]), false, false)
  {
    var front := evs[..|evs| - 1];
    Earlier(t, evs);
    RunAccounted(b, t, ss, front);
    DeliverMine(b, t, After(b, ss, t, front), evs, Written(b, t, front));
  }

  lemma {:induction false} WrittenMeansStarted(b: Backend, t: Transfer, evs: seq<Event>)
    requires Sendable(t) && EventsOk(t, evs)
    ensures Written(b, t, evs) != {} ==> Started(t, evs)
  {
    if evs != [] {
      StartedStep(t, evs);
      WrittenMeansStarted(b, t, evs[..|evs| - 1]);
    }
  }

  /** Completion is reported exactly when every index has been written. */
  lemma CompletionIsExact(b: Backend, t: Transfer, ss: Streams, evs: seq<Event>)
    requires FreshFor(t, ss) && Arrivals(t, evs) && evs != [] && evs[|evs| - 1].Mine?
    ensures LastOutcome(b, ss, t, evs).completed <==> Written(b, t, evs) == Indices(Total(t))
  {
    var front := evs[..|evs| - 1];
    Earlier(t, evs);
    RunAccounted(b, t, ss, front);
    DeliverMine(b, t, After(b, ss, t, front), evs, Written(b, t, front));
    WrittenMeansStarted(b, t, evs);
  }

  /** Success is reported exactly for the chunks that are written by then: this one now, or some time before.  In
      particular completion comes with success. */
  lemma SuccessIsExact(b: Backend, t: Transfer, ss: Streams, evs: seq<Event>)
    requires FreshFor(t, ss) && Arrivals(t, evs) && evs != [] && evs[|evs| - 1].Mine?
    ensures var r := LastOutcome(b, ss, t, evs);
            (r.ok <==> evs[|evs| - 1].i in Written(b, t, evs)) && (r.completed ==> r.ok)
  {
    var front := evs[..|evs| - 1];
    Earlier(t, evs);
    RunAccounted(b, t, ss, front);
    DeliverMine(b, t, After(b, ss, t, front), evs, Written(b, t, front));
    WrittenMeansStarted(b, t, evs);
    WrittenMeansStarted(b, t, front);
    StartedStep(t, evs);
  }

  /** The first arrival of a chunk after chunk 0, on a disk that takes it, is a success: nothing before it is needed. */
  lemma NewChunkSucceeds(b: Backend, t: Transfer, ss: Streams, evs: seq<Event>)
    requires FreshFor(t, ss) && Arrivals(t, evs) && evs != [] && evs[|evs| - 1].Mine?
    requires Started(t, evs) && Taken(b, t, evs[|evs| - 1])
    ensures LastOutcome(b, ss, t, evs).ok
  {
    SuccessIsExact(b, t, ss, evs);
  }

  lemma HeldByte(b: Backend, t: Transfer, content: Bytes, o: nat)
    requires Sendable(t) && ContentOk(b, t, content, Indices(Total(t))) && o < |t.file|
    ensures o < |content| && content[o] == t.file[o]
  {
    TotalOf(t);
    OffsetHasChunk(|t.file|, t.chunkSize, Total(t), o);
    assert Holds(t, content, ChunkOf(t.chunkSize, o));
  }

  /** A content that holds every chunk is the file. */
  lemma ContentIsFile(b: Backend, t: Transfer, content: Bytes)
    requires Sendable(t) && ContentOk(b, t, content, Indices(Total(t)))
    ensures content == t.file
  {
    if |t.file| > 0 { HeldByte(b, t, content, |t.file| - 1); }
    forall o | 0 <= o < |t.file| ensures content[o] == t.file[o] { HeldByte(b, t, content, o); }
  }

  lemma FinalizeTracked(b: Backend, t: Transfer, ss: Streams, done: set<nat>)
    requires StreamsOk(ss) && Sendable(t) && t.id in ss && Tracks(b, t, ss[t.id], done)
    ensures Finalize(ss, t.id)
              == if done == Indices(Total(t)) then Final(ss - {t.id}, Some(t.file))
                 else Final(ss, None)
  {
    FullCount(done, Total(t));
    if done == Indices(Total(t)) {
      ContentIsFile(b, t, ss[t.id].content);
      assert Complete(ss[t.id]);
    } else {
      assert !Complete(ss[t.id]);
    }
  }

  /** Finalizing hands over the original file, byte for byte, exactly when every index has been
      written; otherwise it changes nothing. */
  lemma FinalizeRebuildsFile(b: Backend, t: Transfer, ss: Streams, evs: seq<Event>)
    requires FreshFor(t, ss) && Arrivals(t, evs)
    ensures var s := After(b, ss, t, evs);
            Finalize(s, t.id)
              == if Written(b, t, evs) == Indices(Total(t)) then Final(s - {t.id}, Some(t.file)) else Final(s, None)
  {
    RunAccounted(b, t, ss, evs);
    if Started(t, evs) {
      FinalizeTracked(b, t, After(b, ss, t, evs), Written(b, t, evs));
    } else {
      assert 0 in Indices(Total(t));
    }
  }

  /** A file whose name the scan objects to never arrives, whatever is sent and however often: no session opens for
      it and finalizing never hands anything over. */
  lemma UnsafeNameNeverArrives(b: Backend, t: Transfer, ss: Streams, evs: seq<Event>)
    requires FreshFor(t, ss) && Arrivals(t, evs) && Traversal(t.name)
    ensures var s := After(b, ss, t, evs); t.id !in s && Finalize(s, t.id) == Final(s, None)
  {
    RunAccounted(b, t, ss, evs);
  }

  /** A file that would be handed over is refused if any one of its bytes is changed. */
  lemma DamagedFileRejected(ss: Streams, id: U64, i: nat, x: Byte)
    requires StreamsOk(ss) && Finalize(ss, id).output.Some? && id in ss && i < |ss[id].content|
    requires ss[id].content[i] != x
    ensures Finalize(ss[id := ss[id].(content := ss[id].content[i := x])], id).output == None
  {
    Fnv.SubstitutionDetected(ss[id].content, i, x, Fnv.OFFSET);
  }
}
