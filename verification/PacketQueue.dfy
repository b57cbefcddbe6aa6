/** The packet queue as a mutable object over the real receipt table: each operation does to the
    fields what the endpoint functions say. */
module PacketQueue {
  import opened Common
  import opened OrderedMap
  import opened SequentialMap
  import opened RateLimiter
  import opened Reliable
  import opened ReliableAnswers
  import opened ReliableCounters
  import MapRuns

  // ----- The scan as a visit of every receipt -----

  function Fate(now: nat): (U32, Packet) -> Option<Packet> {
    (q: U32, p: Packet) => if Drops(now, p) then None
                           else if Resends(now, p) then Some(p.(lastSend := Clock32(now))) else Some(p)
  }

  lemma {:induction false} ScanIsVisit(now: nat, rs: Receipts)
    ensures MapRuns.Visited(rs, {}, Fate(now)) == ScanReceipts(now, rs)
  {
    if rs != [] { ScanIsVisit(now, rs[..|rs| - 1]); }
  }

  /** What visiting one more receipt does to the totals. */
  predicate SizesStep(now: nat, rs: Receipts, todo: set<U32>, q: U32, p: Packet) {
    var v, v' := MapRuns.Visited(rs, todo, Fate(now)), MapRuns.Visited(rs, todo - {q}, Fate(now));
    && |v| == |v'| + (if Drops(now, p) then 1 else 0)
    && ReceiptBytes(v) == ReceiptBytes(v') + if Drops(now, p) then |p.payload| else 0
  }

  lemma {:induction false} VisitSizes(now: nat, rs: Receipts, todo: set<U32>, q: U32, p: Packet)
    requires DistinctKeys(rs) && (q, p) in rs && q in todo
    ensures SizesStep(now, rs, todo, q, p)
  {
    var front, last := rs[..|rs| - 1], rs[|rs| - 1];
    if last == (q, p) {
      VisitSizesLast(now, rs, todo, q, p);
    } else {
      var i :| 0 <= i < |rs| && rs[i] == (q, p);
      assert front[i] == (q, p) && rs[i].0 != last.0;
      VisitSizes(now, front, todo, q, p);
      VisitSizesOther(now, rs, todo, q, p);
    }
  }

  lemma VisitSizesLast(now: nat, rs: Receipts, todo: set<U32>, q: U32, p: Packet)
    requires DistinctKeys(rs) && rs != [] && rs[|rs| - 1] == (q, p) && q in todo
    ensures SizesStep(now, rs, todo, q, p)
  {
    VisitTail(now, rs, todo);
    VisitTail(now, rs, todo - {q});
    MapRuns.VisitedFrame(rs[..|rs| - 1], todo, Fate(now), q);
  }

  lemma VisitSizesOther(now: nat, rs: Receipts, todo: set<U32>, q: U32, p: Packet)
    requires rs != [] && rs[|rs| - 1].0 != q && SizesStep(now, rs[..|rs| - 1], todo, q, p)
    ensures SizesStep(now, rs, todo, q, p)
  {
    VisitTail(now, rs, todo);
    VisitTail(now, rs, todo - {q});
  }

  /** What the last receipt adds to the totals. */
  lemma VisitTail(now: nat, rs: Receipts, todo: set<U32>)
    requires rs != []
    ensures var v, vf := MapRuns.Visited(rs, todo, Fate(now)), MapRuns.Visited(rs[..|rs| - 1], todo, Fate(now));
            var last := rs[|rs| - 1];
            var kept := last.0 in todo || !Drops(now, last.1);
            && |v| == |vf| + (if kept then 1 else 0)
            && ReceiptBytes(v) == ReceiptBytes(vf) + if kept then |last.1.payload| else 0
  {
    var vf, last := MapRuns.Visited(rs[..|rs| - 1], todo, Fate(now)), rs[|rs| - 1];
    if last.0 in todo {
      BytesAppend(vf, last);
    } else if !Drops(now, last.1) {
      BytesAppend(vf, (last.0, Fate(now)(last.0, last.1).value));
    } else {
      assert MapRuns.Visited(rs, todo, Fate(now)) == vf;
    }
  }

  /** Retransmissions of the receipts already visited. */
  function ResentBut(e: Endpoint, now: nat, todo: set<U32>): set<Wire> {
    set r | r in e.receipts && r.0 !in todo && Resends(now, r.1) && Route(e, r.1.dest).Some? ::
      ToWire(e, r.1, Route(e, r.1.dest).value, r.0)
  }

  function Again(e: Endpoint, now: nat, q: U32, p: Packet): set<Wire> {
    if Resends(now, p) && Route(e, p.dest).Some? then {ToWire(e, p, Route(e, p.dest).value, q)} else {}
  }

  lemma ResentStep(e: Endpoint, now: nat, todo: set<U32>, q: U32, p: Packet)
    requires DistinctKeys(e.receipts) && (q, p) in e.receipts && q in todo
    ensures ResentBut(e, now, todo - {q}) == ResentBut(e, now, todo) + Again(e, now, q, p)
  {
    forall r | r in e.receipts && r.0 == q ensures r == (q, p) { }
  }

  /** `n` dispatches in a row; `sent(i)` says whether the i-th reaches the socket. */
  function DispatchMany(e: Endpoint, ch: Channel, n: nat, now: nat, sent: nat -> bool): (Endpoint, seq<Wire>) {
    if n == 0 then (e, [])
    else
      var (e1, ws) := DispatchMany(e, ch, n - 1, now, sent);
      var (e2, w) := Dispatch(e1, ch, now, sent(n - 1));
      (e2, ws + if w.Some? then [w.value] else [])
  }

  /** `n` dispatches have led from `e0` to `e` and put `wires` on the network. */
  predicate SentSoFar(e0: Endpoint, e: Endpoint, wires: seq<Wire>, ch: Channel, n: nat, now: nat, sent: nat -> bool) {
    (e, wires) == DispatchMany(e0, ch, n, now, sent)
  }

  lemma SentOneMore(e0: Endpoint, e: Endpoint, wires: seq<Wire>, ch: Channel, n: nat, now: nat, sent: nat -> bool)
    requires SentSoFar(e0, e, wires, ch, n, now, sent)
    ensures var (e', w) := Dispatch(e, ch, now, sent(n));
            SentSoFar(e0, e', wires + if w.Some? then [w.value] else [], ch, n + 1, now, sent)
  {
  }

  /** The counters are down by whatever `rs` no longer holds of the receipts of `e`. */
  predicate Forgotten(e: Endpoint, rs: Receipts, count: nat, bytes: nat) {
    && |rs| <= |e.receipts| && ReceiptBytes(rs) <= ReceiptBytes(e.receipts)
    && count == SaturatingSub(e.ackCount, |e.receipts| - |rs|)
    && bytes == SaturatingSub(e.ackBytes, ReceiptBytes(e.receipts) - ReceiptBytes(rs))
  }

  /** Counters and retransmissions once all receipts but `todo` have been visited. */
  ghost predicate Progress(e: Endpoint, now: nat, todo: set<U32>, count: nat, bytes: nat, wires: set<Wire>) {
    Forgotten(e, MapRuns.Visited(e.receipts, todo, Fate(now)), count, bytes) && wires == ResentBut(e, now, todo)
  }

  /** The counters follow the sizes. */
  lemma ForgottenStep(e: Endpoint, rs: Receipts, rs': Receipts, drops: bool, size: nat, count: nat, bytes: nat)
    requires Forgotten(e, rs, count, bytes)
    requires |rs| == |rs'| + (if drops then 1 else 0)
    requires ReceiptBytes(rs) == ReceiptBytes(rs') + if drops then size else 0
    ensures Forgotten(e, rs', if drops then SaturatingSub(count, 1) else count,
                      if drops then SaturatingSub(bytes, size) else bytes)
  {
  }

  lemma ProgressStep(e: Endpoint, now: nat, todo: set<U32>, q: U32, p: Packet, count: nat, bytes: nat, wires: set<Wire>)
    requires DistinctKeys(e.receipts) && (q, p) in e.receipts && q in todo
    requires Progress(e, now, todo, count, bytes, wires)
    ensures Progress(e, now, todo - {q},
                     if Drops(now, p) then SaturatingSub(count, 1) else count,
                     if Drops(now, p) then SaturatingSub(bytes, |p.payload|) else bytes,
                     wires + Again(e, now, q, p))
  {
    var v := MapRuns.Visited(e.receipts, todo, Fate(now));
    var v' := MapRuns.Visited(e.receipts, todo - {q}, Fate(now));
    VisitSizes(now, e.receipts, todo, q, p);
    ForgottenStep(e, v, v', Drops(now, p), |p.payload|, count, bytes);
    ResentStep(e, now, todo, q, p);
  }

  class ZPacketQueue {
    const addr: Addr
    const server: Addr
    const limits: RateLimitConfig
    const table: LockFreeOrderedHashMap<U32, Packet>
    var peers: set<Addr>
    var nextSeq: U32
    var seen: map<Addr, set<U32>>
    var control: seq<Packet>
    var data: seq<Packet>
    var incoming: seq<Delivery>
    var ackCount: nat
    var ackBytes: nat
    var controlBytes: nat
    var dataBytes: nat
    var windowStart: int
    var packetsThisSecond: nat
    var bytesThisSecond: nat
    var burstTokens: nat
    ghost var acksQueued: nat
    ghost var lastScan: nat

    ghost function View(): Endpoint
      reads this, table
    {
      Endpoint(addr, server, peers, nextSeq, EntriesOf(table.heap, table.allNodes), seen, control, data, ackCount,
               ackBytes, controlBytes, dataBytes,
               Limiter(windowStart, packetsThisSecond, bytesThisSecond, burstTokens), limits, incoming,
               acksQueued, lastScan)
    }

    ghost predicate Valid()
      reads this, table
    {
      table.Valid()
    }

    constructor (addr: Addr, server: Addr, peers: set<Addr>, limits: RateLimitConfig, now: int, clock: nat)
      ensures Valid() && fresh(table)
      ensures View() == Endpoint(addr, server, peers, 0, [], map[], [], [], 0, 0, 0, 0, RateLimiter.Start(limits, now),
                                 limits, [], 0, clock)
    {
      this.addr, this.server, this.peers, this.limits := addr, server, peers, limits;
      var t := new LockFreeOrderedHashMap<U32, Packet>(200, (q: U32) => q);
      table := t;
      nextSeq, seen, control, data, incoming := 0, map[], [], [], [];
      ackCount, ackBytes, controlBytes, dataBytes := 0, 0, 0, 0;
      windowStart, packetsThisSecond, bytesThisSecond, burstTokens := now, 0, 0, limits.burst;
      acksQueued, lastScan := 0, clock;
    }

    method CheckRateLimit(now: int, size: nat) returns (ok: bool)
      modifies this`windowStart, this`packetsThisSecond, this`bytesThisSecond, this`burstTokens
      ensures (Limiter(windowStart, packetsThisSecond, bytesThisSecond, burstTokens), ok)
              == Check(limits, old(Limiter(windowStart, packetsThisSecond, bytesThisSecond, burstTokens)), now, size)
    {
      if now - windowStart >= SECOND {
        packetsThisSecond, bytesThisSecond, burstTokens := 0, 0, limits.burst;
        windowStart := now;
      }
      var currentPackets, currentBytes := packetsThisSecond, bytesThisSecond;
      if currentPackets >= limits.maxPackets {
        if burstTokens == 0 {
          return false;
        }
        burstTokens := burstTokens - 1;
      }
      if currentBytes + size > limits.maxBytes {
        return false;
      }
      packetsThisSecond, bytesThisSecond := packetsThisSecond + 1, bytesThisSecond + size;
      return true;
    }

    method PushPacket(p: Packet, now: int)
      requires Valid()
      modifies this`windowStart, this`packetsThisSecond, this`bytesThisSecond, this`burstTokens
      modifies this`control, this`controlBytes, this`data, this`dataBytes
      ensures Valid() && View() == Push(old(View()), p, now)
    {
      ghost var e := View();
      var ok := CheckRateLimit(now, |p.payload|);
      assert View() == e.(limiter := Check(limits, e.limiter, now, |p.payload|).0);
      if ok { Enqueue(p); }
    }

    /** Puts the packet on its channel and counts it. */
    method Enqueue(p: Packet)
      modifies this`control, this`controlBytes, this`data, this`dataBytes
      ensures View() == Enqueued(old(View()), p)
    {
      match p.channel {
        case Control => control, controlBytes := control + [p], controlBytes + |p.payload|;
        case Data => data, dataBytes := data + [p], dataBytes + |p.payload|;
      }
    }

    /** A reliable first transmission gets a receipt under its number, counted once. */
    method AddReceiptIfNeeded(p: Packet, now: nat)
      requires Valid()
      modifies this`ackCount, this`ackBytes, table
      ensures Valid() && View() == AddReceipt(old(View()), p, now)
    {
      if NeedsReceipt(p) {
        var inserted := InsertReceipt(nextSeq, p.(lastSend := Clock32(now)));
        if inserted {
          ackCount, ackBytes := ackCount + 1, ackBytes + |p.payload|;
        }
      }
    }

    method InsertReceipt(q: U32, p: Packet) returns (inserted: bool)
      requires Valid()
      modifies table
      ensures Valid() && inserted == !HasKey(old(View()).receipts, q)
      ensures View() == old(View()).(receipts := Inserted(old(View()).receipts, q, p))
    {
      var node := table.NewAddress();
      inserted := table.Insert(q, p, node);
    }

    method SendOne(p: Packet, now: nat, sent: bool) returns (wire: Option<Wire>)
      requires Valid()
      modifies this`nextSeq, this`ackCount, this`ackBytes, table
      ensures Valid() && (View(), wire) == DispatchPacket(old(View()), p, now, sent)
    {
      var dst: Addr;
      if p.dest == TO_SERVER {
        dst := server;
      } else if p.dest in peers {
        dst := p.dest;
      } else {
        return None;
      }
      if !sent {
        return None;
      }
      wire := Some(Wire(addr, dst, p.reliable, p.kind, if p.reliable then nextSeq else 0, 0, p.payload));
      AddReceiptIfNeeded(p, now);
      nextSeq := (nextSeq + 1) % U32_SIZE;
    }

    method DequeueFrom(ch: Channel) returns (p: Option<Packet>)
      modifies this`control, this`data, this`controlBytes, this`dataBytes
      ensures (View(), p) == Dequeue(old(View()), ch)
    {
      match ch {
        case Control =>
          if control == [] { return None; }
          var i := NextIndex(control);
          p := Some(control[i]);
          control, controlBytes := Without(control, i), SaturatingSub(controlBytes, |p.value.payload|);
        case Data =>
          if data == [] { return None; }
          var i := NextIndex(data);
          p := Some(data[i]);
          data, dataBytes := Without(data, i), SaturatingSub(dataBytes, |p.value.payload|);
      }
    }

    function Queue(ch: Channel): seq<Packet>
      reads this
    {
      if ch.Control? then control else data
    }

    method DispatchOne(ch: Channel, now: nat, sent: bool) returns (wire: Option<Wire>)
      requires Valid() && Queue(ch) != []
      modifies this`control, this`data, this`controlBytes, this`dataBytes
      modifies this`nextSeq, this`ackCount, this`ackBytes, table
      ensures Valid() && (View(), wire) == Dispatch(old(View()), ch, now, sent)
      ensures |Queue(ch)| == old(|Queue(ch)|) - 1
    {
      var p := DequeueFrom(ch);
      wire := SendOne(p.value, now, sent);
    }

    /** Sends up to `maxPackets` queued packets of one channel. */
    method ProcessChannel(ch: Channel, maxPackets: nat, now: nat, sent: nat -> bool)
      returns (processed: nat, wires: seq<Wire>)
      requires Valid()
      modifies this, table
      ensures Valid() && (View(), wires) == DispatchMany(old(View()), ch, processed, now, sent)
      ensures processed == Min(maxPackets, old(|Queue(ch)|))
    {
      processed, wires := 0, [];
      while processed < maxPackets
        invariant Valid() && processed <= maxPackets
        invariant SentSoFar(old(View()), View(), wires, ch, processed, now, sent)
        invariant |Queue(ch)| + processed == old(|Queue(ch)|)
      {
        if Queue(ch) == [] {
          break;
        }
        ghost var e := View();
        var w := DispatchOne(ch, now, sent(processed));
        SentOneMore(old(View()), e, wires, ch, processed, now, sent);
        wires := wires + if w.Some? then [w.value] else [];
        processed := processed + 1;
      }
    }

    /** Clears the receipt an acknowledgement names, if it came from where the packet went. */
    method ClearReceipt(src: Addr, q: U32) returns (cleared: bool)
      requires Valid()
      modifies this, table
      ensures Valid() && View() == Acknowledge(old(View()), src, q) && cleared == Clears(old(View()), src, q)
    {
      var p := table.Find(q);
      EntriesDistinct(table.heap, table.allNodes);
      if p.Some? { LookupMember(table.Entries(), q, p.value); }
      cleared := p.Some? && (p.value.dest == src || p.value.dest == TO_SERVER || p.value.dest == TO_ALL);
      if cleared {
        ackBytes := SaturatingSub(ackBytes, |p.value.payload|);
        var removed, at := table.Remove(q);
        ackCount := SaturatingSub(ackCount, 1);
      }
    }

    method AddAwaitingAckPacket(src: Addr, q: U32, ackNum: U32)
      requires Valid()
      modifies this, table
      ensures Valid() && View() == QueueAck(old(View()), src, q, ackNum)
    {
      control := control + [AckPacket(src, q)];
      acksQueued := acksQueued + 1;
      if ackNum == 0 {
        return;
      }
      var cleared := ClearReceipt(src, ackNum);
    }

    /** One datagram of ProcessReceiving. */
    method ReceiveOne(w: Wire)
      requires Valid()
      modifies this, table
      ensures Valid() && View() == Receive(old(View()), w)
      ensures incoming == old(incoming) + News(old(View()), w)
    {
      ReceiveNews(View(), w);
      peers := peers + {w.src};
      if w.kind == ACKNOWLEDGEMENT {
        if |w.payload| >= 4 {
          var cleared := ClearReceipt(w.src, AckedSeq(w.payload));
        }
        return;
      }
      if w.reliable {
        AddAwaitingAckPacket(w.src, w.seqNum, w.ackNum);
        var known := if w.src in seen then seen[w.src] else {};
        if w.seqNum in known {
          return;
        }
        seen := seen[w.src := known + {w.seqNum}];
      }
      incoming := incoming + [Delivery(w.src, w.reliable, w.seqNum, w.kind, w.payload)];
    }

    method CollectReceipts()
      requires Valid()
      modifies table
      ensures Valid() && View() == old(View())
    {
      table.CollectGarbage();
    }

    /** Counts a dropped receipt out, resends a stale one. */
    method Settle(q: U32, p: Packet, now: nat, known: set<Addr>, ghost e: Endpoint) returns (wires: set<Wire>)
      requires e.addr == addr && e.server == server && e.peers == known
      modifies this`ackCount, this`ackBytes
      ensures ackCount == (if Drops(now, p) then SaturatingSub(old(ackCount), 1) else old(ackCount))
      ensures ackBytes == (if Drops(now, p) then SaturatingSub(old(ackBytes), |p.payload|) else old(ackBytes))
      ensures wires == Again(e, now, q, p)
    {
      wires := {};
      if Drops(now, p) {
        ackCount := SaturatingSub(ackCount, 1);
        ackBytes := SaturatingSub(ackBytes, |p.payload|);
      } else if Resends(now, p) {
        var wire := Retransmit(p, q, known, e);
        if wire.Some? {
          wires := {wire.value};
        }
      }
    }

    /** Deals with the receipt under the iterator: drop it, resend it, or leave it. */
    method ScanOne(it: Iterator, ghost k: nat, now: nat, known: set<Addr>, wires: set<Wire>, ghost e: Endpoint,
                   ghost todo: set<U32>)
      returns (it': Iterator, ghost k': nat, wires': set<Wire>, ghost todo': set<U32>)
      requires MapRuns.Looping(table, it, k, e.receipts, todo, Fate(now)) && it.currentNode.Some?
      requires e.addr == addr && e.server == server && e.peers == known
      requires Progress(e, now, todo, ackCount, ackBytes, wires)
      modifies this`ackCount, this`ackBytes, table
      ensures MapRuns.Looping(table, it', k', e.receipts, todo', Fate(now)) && todo' < todo
      ensures Progress(e, now, todo', ackCount, ackBytes, wires')
    {
      var n := table.heap[it.currentNode.value];
      var again := Settle(n.key, n.value, now, known, e);
      wires' := wires + again;
      it', k', todo' := MapRuns.Visit(table, it, k, Fate(now), e.receipts, todo);
      ProgressStep(e, now, todo, n.key, n.value, old(ackCount), old(ackBytes), wires);
    }

    /** RetransmitPacket: the same datagram again, under its original number, to a peer known when the scan began. */
    method Retransmit(p: Packet, q: U32, known: set<Addr>, ghost e: Endpoint) returns (wire: Option<Wire>)
      requires e.addr == addr && e.server == server && e.peers == known
      ensures wire == match Route(e, p.dest) { case None => None case Some(dst) => Some(ToWire(e, p, dst, q)) }
    {
      if p.dest == TO_SERVER {
        wire := Some(Wire(addr, server, p.reliable, p.kind, if p.reliable then q else 0, 0, p.payload));
      } else if p.dest in known {
        wire := Some(Wire(addr, p.dest, p.reliable, p.kind, if p.reliable then q else 0, 0, p.payload));
      } else {
        wire := None;
      }
    }

    method ScanLoop(now: nat, ghost e: Endpoint) returns (wires: set<Wire>)
      requires table.Valid() && e.receipts == table.Entries() && e.ackCount == ackCount && e.ackBytes == ackBytes
      requires e.addr == addr && e.server == server && e.peers == peers
      modifies this`ackCount, this`ackBytes, table
      ensures table.Valid() && table.Entries() == MapRuns.Visited(e.receipts, {}, Fate(now))
      ensures Progress(e, now, {}, ackCount, ackBytes, wires)
    {
      wires := {};
      var known := peers;
      var it, k, todo := MapRuns.Start(table, Fate(now));
      StartScan(e, now, todo);
      while it != table.End()
        invariant MapRuns.Looping(table, it, k, e.receipts, todo, Fate(now))
        invariant Progress(e, now, todo, ackCount, ackBytes, wires)
        decreases todo
      {
        it, k, wires, todo := ScanOne(it, k, now, known, wires, e, todo);
      }
    }

    /** The retry scan: a loop over the receipt table that drops, resends or skips each receipt. */
    method RetryScan(now: nat) returns (wires: set<Wire>)
      requires Valid()
      modifies this`ackCount, this`ackBytes, this`lastScan, table
      ensures Valid() && View() == Scan(old(View()), now) && wires == Resent(old(View()), now)
      ensures forall r, dst |
                r in old(View()).receipts && 1 < Elapsed(now, r.1) <= 5 && GoesTo(old(View()), r.1, dst) ::
                Wire(addr, dst, r.1.reliable, r.1.kind, if r.1.reliable then r.0 else 0, 0, r.1.payload) in wires
      ensures forall w | w in wires :: exists r :: r in old(View()).receipts && Repeats(old(View()), now, r, w)
    {
      ghost var e := View();
      ScanRepeats(e, now);
      wires := ScanLoop(now, e);
      EndScan(e, now, ackCount, ackBytes, wires);
      lastScan := now;
    }
  }

  lemma StartScan(e: Endpoint, now: nat, todo: set<U32>)
    requires todo == set r | r in e.receipts :: r.0
    ensures Progress(e, now, todo, e.ackCount, e.ackBytes, {})
  {
    var rs := e.receipts;
    assert forall i | 0 <= i < |rs| :: rs[i] in rs && rs[i].0 in todo;
    NothingForgotten(e, now, todo);
    NothingResent(e, now, todo);
  }

  lemma NothingForgotten(e: Endpoint, now: nat, todo: set<U32>)
    requires forall i | 0 <= i < |e.receipts| :: e.receipts[i].0 in todo
    ensures Forgotten(e, MapRuns.Visited(e.receipts, todo, Fate(now)), e.ackCount, e.ackBytes)
  {
    MapRuns.VisitedAll(e.receipts, todo, Fate(now));
  }

  lemma NothingResent(e: Endpoint, now: nat, todo: set<U32>)
    requires forall i | 0 <= i < |e.receipts| :: e.receipts[i].0 in todo
    ensures ResentBut(e, now, todo) == {}
  {
    forall r | r in e.receipts ensures r.0 in todo {
      var i :| 0 <= i < |e.receipts| && e.receipts[i] == r;
    }
  }

  lemma EndScan(e: Endpoint, now: nat, count: nat, bytes: nat, wires: set<Wire>)
    requires Progress(e, now, {}, count, bytes, wires)
    ensures MapRuns.Visited(e.receipts, {}, Fate(now)) == Scan(e, now).receipts
    ensures count == Scan(e, now).ackCount && bytes == Scan(e, now).ackBytes
    ensures wires == Resent(e, now)
  {
    ScanIsVisit(now, e.receipts);
    ScanSizes(now, e.receipts);
  }
}
