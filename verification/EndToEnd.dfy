/**
 * The layers put together.  A datagram built by the codec is received as the datagram the reliable layer reasons
 * about, and a file whose chunks were all acknowledged arrives exactly when its first chunk did so first.
 */
module EndToEnd {
  import opened Common
  import opened FileSend
  import opened FileReceive
  import opened FileTheorems
  import opened Reliable
  import opened ReliableNetwork
  import ReliableDelivery
  import ReliableOrigin
  import ReliableTheorems
  import ReorderedTransfer
  import opened TransferChunks
  import PacketCodec
  import PacketTheorems

  // ----- Codec and reliable layer -----

  /** The packet the codec builds for a packet of the reliable layer; the rest of it does not matter there. */
  predicate Carries(o: PacketCodec.Outgoing, p: Packet) {
    o.channel == p.channel && o.reliable == p.reliable && o.kind == p.kind && o.payload == p.payload
  }

  /** A received packet as a datagram between two addresses. */
  function AsWire(src: Addr, dst: Addr, i: PacketCodec.Incoming): Wire {
    Wire(src, dst, i.reliable, i.kind, i.seqNum, i.ackNum, i.data)
  }

  /** What is unpacked at the other end is the datagram the dispatcher sent: kind, numbers and payload; otherwise the
      receiver rejects it, which to the reliable layer is a loss. */
  lemma DatagramIsWire(prims: PacketCodec.Primitives, senderKeys: bool, receiverKeys: bool, e: Endpoint, p: Packet,
                       dst: Addr, q: U32, o: PacketCodec.Outgoing, stamp: U32, b: Bytes)
    requires PacketCodec.InversePairs(prims) && Carries(o, p) && |p.payload| < U32_SIZE
    requires PacketCodec.Build(prims, senderKeys, o, q, stamp) == Some(b)
    requires p.reliable ==> p.kind != ACKNOWLEDGEMENT
    ensures var r := PacketCodec.UnpackPacket(prims, receiverKeys, b);
            if PacketCodec.WellFormed(o) && (o.encrypted ==> receiverKeys) && PacketTheorems.Expandable(prims, o)
            then && r.Some? && AsWire(e.addr, dst, r.value) == ToWire(e, p, dst, q)
                 && (r.value.kind == FILE_TRANSFER ==> r.value.channel.Control?)
            else r.None?
  {
    PacketTheorems.RoundTrip(prims, senderKeys, receiverKeys, o, q, stamp, b);
  }

  // ----- Reliable layer and file transfer -----

  predicate IsChunk(t: Transfer, payload: Bytes, i: nat)
    requires Sendable(t)
  {
    i < Total(t) && payload == Encode(SenderChunk(t, i))
  }

  /** Different chunks have different payloads. */
  lemma OneIndex(t: Transfer, payload: Bytes, i: nat, j: nat)
    requires Sendable(t) && IsChunk(t, payload, i) && IsChunk(t, payload, j)
    ensures i == j
  {
    SentIsAcceptable(t, i);
    SentIsAcceptable(t, j);
    assert SenderChunk(t, i).chunkIndex == i && SenderChunk(t, j).chunkIndex == j;
  }

  /** What the application takes for parts of a file: packets of that type.  That they came on the control channel the
      unpacker has seen to. */
  function FilePackets(ds: seq<Delivery>): (fs: seq<Delivery>) {
    if ds == [] then []
    else FilePackets(ds[..|ds| - 1]) + if ds[|ds| - 1].kind == FILE_TRANSFER then [ds[|ds| - 1]] else []
  }

  lemma {:induction false} FilePacketsAre(ds: seq<Delivery>)
    ensures forall d :: d in FilePackets(ds) <==> d in ds && d.kind == FILE_TRANSFER
  {
    if ds != [] { FilePacketsAre(ds[..|ds| - 1]); }
  }

  /** Two places in what the application takes come from two places in what it was handed. */
  lemma {:induction false} FilePacketPlaces(ds: seq<Delivery>, j: nat, k: nat) returns (j': nat, k': nat)
    requires j < k < |FilePackets(ds)|
    ensures j' < k' < |ds| && ds[j'] == FilePackets(ds)[j] && ds[k'] == FilePackets(ds)[k]
    ensures ds[j'].kind == ds[k'].kind == FILE_TRANSFER
  {
    var front := ds[..|ds| - 1];
    if k < |FilePackets(front)| {
      j', k' := FilePacketPlaces(front, j, k);
    } else {
      FilePacketsAre(front);
      assert FilePackets(front)[j] in front;
      j', k' :| 0 <= j' < |front| && front[j'] == FilePackets(front)[j] && k' == |ds| - 1;
    }
  }

  /** A payload handed to the application, which parses it and streams it if it is a chunk. */
  ghost function EventFor(t: Transfer, payload: Bytes, taken: nat): (ev: Event)
    requires Sendable(t)
    ensures EventOk(t, ev) && PayloadOf(t, ev) == payload
    ensures forall i :: ev == Mine(i, taken) <==> IsChunk(t, payload, i)
  {
    if i: nat :| IsChunk(t, payload, i) then
      assert forall j :: IsChunk(t, payload, j) ==> j == i by {
        forall j | IsChunk(t, payload, j) ensures j == i { OneIndex(t, payload, i, j); }
      }
      Mine(i, taken)
    else Foreign(payload, taken)
  }

  /** A sequence of them, in order; `taken[k]` is how much of the write the disk takes. */
  ghost function EventsFor(t: Transfer, ds: seq<Delivery>, taken: seq<nat>): (evs: seq<Event>)
    requires Sendable(t) && |taken| == |ds|
    ensures |evs| == |ds| && EventsOk(t, evs)
    ensures forall k | 0 <= k < |ds| :: evs[k] == EventFor(t, ds[k].payload, taken[k])
  {
    seq(|ds|, k requires 0 <= k < |ds| => EventFor(t, ds[k].payload, taken[k]))
  }

  /** The datagram is of the type of files and carries chunk `i`. */
  predicate CarriesChunk(t: Transfer, w: Wire, i: nat)
    requires Sendable(t)
  {
    w.kind == FILE_TRANSFER && IsChunk(t, w.payload, i)
  }

  /** Chunk `i` was sent reliably from `a` to `b`, and its receipt has been cleared by an acknowledgement. */
  ghost predicate Acknowledged(s: Net, a: Addr, b: Addr, t: Transfer, i: nat)
    requires Sendable(t)
  {
    exists w :: w in s.wires && w.src == a && w.dst == b && w.reliable && CarriesChunk(t, w, i) && Settled(s, w)
  }

  /** Neither pending nor given up. */
  ghost predicate Settled(s: Net, w: Wire) {
    w.src in s.nodes && !ReliableTheorems.Pending(s, w) && (w.src, w.seqNum) !in s.dropped
  }

  /** The application at `b` has been handed chunk `i`. */
  predicate HandedOver(t: Transfer, ds: seq<Delivery>, i: nat)
    requires Sendable(t)
  {
    exists k :: 0 <= k < |ds| && IsChunk(t, ds[k].payload, i)
  }

  lemma AcknowledgedIsHandedOver(x: Execution, n: nat, a: Addr, b: Addr, t: Transfer, i: nat)
    requires n < |x.run| && b in x.run[n].nodes && Sendable(t) && Acknowledged(x.run[n], a, b, t, i)
    ensures HandedOver(t, FilePackets(x.run[n].nodes[b].delivered), i)
  {
    var s := x.run[n];
    var w :| w in s.wires && w.src == a && w.dst == b && w.reliable && CarriesChunk(t, w, i) && Settled(s, w);
    ReliableTheorems.SentIsAccountedFor(x, n, w);
    var ds := s.nodes[b].delivered;
    var k :| 0 <= k < |ds| && ds[k] == Delivery(w.src, true, w.seqNum, w.kind, w.payload);
    FilePacketsAre(ds);
    assert ds[k] in FilePackets(ds);
    var l :| 0 <= l < |FilePackets(ds)| && FilePackets(ds)[l] == ds[k];
    assert IsChunk(t, FilePackets(ds)[l].payload, i);
  }

  /** Chunk `i` is event `k`, and chunk 0 was there by then. */
  predicate InTime(evs: seq<Event>, i: nat, k: nat) {
    k < |evs| && evs[k].Mine? && evs[k].i == i && exists j :: 0 <= j <= k && evs[j].Mine? && evs[j].i == 0
  }

  ghost predicate ArrivesInTime(evs: seq<Event>, i: nat) { exists k :: InTime(evs, i, k) }

  /** The disk takes every chunk in full. */
  predicate AllTaken(b: Backend, t: Transfer, evs: seq<Event>)
    requires Sendable(t) && EventsOk(t, evs)
  {
    forall k | 0 <= k < |evs| && evs[k].Mine? :: EventOk(t, evs[k]) && Taken(b, t, evs[k])
  }

  lemma StartedBy(t: Transfer, evs: seq<Event>, k: nat)
    requires k < |evs|
    ensures Started(t, evs[..k + 1]) <==> !Traversal(t.name) && exists j :: 0 <= j <= k && evs[j].Mine? && evs[j].i == 0
  {
    var front := evs[..k + 1];
    if j :| 0 <= j < |front| && front[j].Mine? && front[j].i == 0 { assert evs[j] == front[j]; }
    if j :| 0 <= j <= k && evs[j].Mine? && evs[j].i == 0 { assert front[j] == evs[j]; }
  }

  lemma InTimePrefix(evs: seq<Event>, n: nat, i: nat, k: nat)
    requires n <= |evs| && k < n
    ensures InTime(evs[..n], i, k) <==> InTime(evs, i, k)
  {
    var front := evs[..n];
    if j :| 0 <= j <= k && evs[j].Mine? && evs[j].i == 0 { assert front[j] == evs[j]; }
    if j :| 0 <= j <= k && front[j].Mine? && front[j].i == 0 { assert front[j] == evs[j]; }
  }

  /** With a disk that takes everything, what is written is what arrived in time. */
  lemma {:induction false} WrittenInTime(b: Backend, t: Transfer, evs: seq<Event>, i: nat)
    requires Sendable(t) && EventsOk(t, evs) && AllTaken(b, t, evs)
    ensures i in Written(b, t, evs) <==> !Traversal(t.name) && ArrivesInTime(evs, i)
  {
    if evs != [] {
      var n := |evs| - 1;
      var front := evs[..n];
      assert AllTaken(b, t, front) by { assert forall k | 0 <= k < n :: front[k] == evs[k]; }
      WrittenInTime(b, t, front, i);
      StartedBy(t, evs, n);
      assert evs[..n + 1] == evs;
      if k: nat :| InTime(front, i, k) { InTimePrefix(evs, n, i, k); }
      if k: nat :| InTime(evs, i, k) { if k < n { InTimePrefix(evs, n, i, k); } }
      if evs[n].Mine? && evs[n].i == i && Started(t, evs) { assert InTime(evs, i, n); }
    }
  }

  /** Every chunk has a delivery at or after one of chunk 0. */
  ghost predicate AllInTime(t: Transfer, evs: seq<Event>)
    requires Sendable(t)
  {
    !Traversal(t.name) && forall i | 0 <= i < Total(t) :: ArrivesInTime(evs, i)
  }

  lemma AllWrittenInTime(b: Backend, t: Transfer, evs: seq<Event>)
    requires Sendable(t) && EventsOk(t, evs) && AllTaken(b, t, evs)
    ensures Written(b, t, evs) == Indices(Total(t)) <==> AllInTime(t, evs)
  {
    forall i: nat ensures i in Written(b, t, evs) <==> !Traversal(t.name) && ArrivesInTime(evs, i) {
      WrittenInTime(b, t, evs, i);
    }
    forall i: nat | ArrivesInTime(evs, i) ensures i < Total(t) {
      var k: nat :| InTime(evs, i, k);
      assert EventOk(t, evs[k]);
    }
    if Written(b, t, evs) == Indices(Total(t)) {
      forall i: nat | i < Total(t) ensures ArrivesInTime(evs, i) && !Traversal(t.name) {
        assert i in Indices(Total(t));
      }
      assert 0 < Total(t);
    }
    if AllInTime(t, evs) {
      assert Written(b, t, evs) == Indices(Total(t));
    }
  }

  /** All chunks acknowledged: each was handed over, and the application that streams them as they come has the file
      exactly when the name is safe and every chunk came, again if need be, after the first. */
  lemma AcknowledgedFileArrives(x: Execution, n: nat, a: Addr, b: Addr, t: Transfer, back: Backend, ss: Streams,
                                taken: seq<nat>)
    requires n < |x.run| && b in x.run[n].nodes && FreshFor(t, ss)
    requires |taken| == |FilePackets(x.run[n].nodes[b].delivered)|
    requires forall i | 0 <= i < Total(t) :: Acknowledged(x.run[n], a, b, t, i)
    requires var evs := EventsFor(t, FilePackets(x.run[n].nodes[b].delivered), taken);
             Arrivals(t, evs) && AllTaken(back, t, evs)
    ensures forall i | 0 <= i < Total(t) :: HandedOver(t, FilePackets(x.run[n].nodes[b].delivered), i)
    ensures var evs := EventsFor(t, FilePackets(x.run[n].nodes[b].delivered), taken);
            Finalize(After(back, ss, t, evs), t.id).output == if AllInTime(t, evs) then Some(t.file) else None
  {
    var ds := FilePackets(x.run[n].nodes[b].delivered);
    var evs := EventsFor(t, ds, taken);
    forall i | 0 <= i < Total(t) ensures HandedOver(t, ds, i) { AcknowledgedIsHandedOver(x, n, a, b, t, i); }
    FinalizeRebuildsFile(back, t, ss, evs);
    AllWrittenInTime(back, t, evs);
  }

  // ----- Each chunk handed over once -----

  /** No payload of the transfer is handed over twice. */
  ghost predicate EachOnce(t: Transfer, ds: seq<Delivery>)
    requires Sendable(t)
  {
    forall i, j, k | 0 <= j < |ds| && 0 <= k < |ds| && IsChunk(t, ds[j].payload, i) && IsChunk(t, ds[k].payload, i) ::
      j == k
  }

  /** Chunk 0 is handed over before any other. */
  ghost predicate FirstLeads(t: Transfer, ds: seq<Delivery>)
    requires Sendable(t)
  {
    forall i, j, k | 0 <= j < |ds| && 0 <= k < |ds| && IsChunk(t, ds[j].payload, 0) && IsChunk(t, ds[k].payload, i) ::
      j <= k
  }

  /** The chunks travel only as reliable datagrams from `a`, under one number each. */
  ghost predicate SentOnce(s: Net, a: Addr, b: Addr, t: Transfer)
    requires b in s.nodes && Sendable(t)
  {
    && (forall d, i | d in FilePackets(s.nodes[b].delivered) && IsChunk(t, d.payload, i) :: d.reliable && d.src == a)
    && forall v, w, i | v in s.wires && w in s.wires && v.src == w.src == a
                        && CarriesChunk(t, v, i) && CarriesChunk(t, w, i) :: v.seqNum == w.seqNum
  }

  /** Deduplication then hands each over once. */
  lemma DedupMeansOnce(x: Execution, n: nat, a: Addr, b: Addr, t: Transfer)
    requires n < |x.run| && b in x.run[n].nodes && Sendable(t) && SentOnce(x.run[n], a, b, t)
    ensures EachOnce(t, FilePackets(x.run[n].nodes[b].delivered))
  {
    var fs := FilePackets(x.run[n].nodes[b].delivered);
    forall i, j, k | 0 <= j < |fs| && 0 <= k < |fs| && IsChunk(t, fs[j].payload, i) && IsChunk(t, fs[k].payload, i)
      ensures j == k
    {
      if j <= k { OnePlace(x, n, a, b, t, i, j, k); } else { OnePlace(x, n, a, b, t, i, k, j); }
    }
  }

  lemma OnePlace(x: Execution, n: nat, a: Addr, b: Addr, t: Transfer, i: nat, j: nat, k: nat)
    requires n < |x.run| && b in x.run[n].nodes && Sendable(t) && SentOnce(x.run[n], a, b, t)
    requires var fs := FilePackets(x.run[n].nodes[b].delivered);
             j <= k < |fs| && IsChunk(t, fs[j].payload, i) && IsChunk(t, fs[k].payload, i)
    ensures j == k
  {
    if j < k {
      var j', k' := FilePacketPlaces(x.run[n].nodes[b].delivered, j, k);
      SameNumber(x, n, a, b, t, i, j', k');
      ReliableTheorems.NeverDeliveredTwice(x, n, b, j', k');
    }
  }

  /** Two deliveries of one chunk carry one number. */
  lemma SameNumber(x: Execution, n: nat, a: Addr, b: Addr, t: Transfer, i: nat, j: nat, k: nat)
    requires n < |x.run| && b in x.run[n].nodes && Sendable(t) && SentOnce(x.run[n], a, b, t)
    requires var ds := x.run[n].nodes[b].delivered;
             && j < |ds| && k < |ds| && ds[j].kind == ds[k].kind == FILE_TRANSFER
             && IsChunk(t, ds[j].payload, i) && IsChunk(t, ds[k].payload, i)
    ensures var ds := x.run[n].nodes[b].delivered;
            ds[j].reliable && ds[k].reliable && ds[j].src == ds[k].src && ds[j].seqNum == ds[k].seqNum
  {
    var s := x.run[n];
    var ds := s.nodes[b].delivered;
    FilePacketsAre(ds);
    assert ds[j] in FilePackets(ds) && ds[k] in FilePackets(ds);
    assert DeliveryOk(s, b, ds[j]) && DeliveryOk(s, b, ds[k]) by {
      ReliableDelivery.RunInv(x, n);
      assert NodeInv(s, b);
    }
    var v := Wire(a, b, true, FILE_TRANSFER, ds[j].seqNum, 0, ds[j].payload);
    var w := Wire(a, b, true, FILE_TRANSFER, ds[k].seqNum, 0, ds[k].payload);
    assert v in s.wires && w in s.wires && CarriesChunk(t, v, i) && CarriesChunk(t, w, i);
  }

  /** Then a chunk handed over before chunk 0 is lost for good. */
  lemma OnceMeansFirstLeads(t: Transfer, ds: seq<Delivery>, taken: seq<nat>)
    requires Sendable(t) && |taken| == |ds| && EachOnce(t, ds) && forall i | 0 <= i < Total(t) :: HandedOver(t, ds, i)
    ensures AllInTime(t, EventsFor(t, ds, taken)) <==> !Traversal(t.name) && FirstLeads(t, ds)
  {
    var evs := EventsFor(t, ds, taken);
    forall i: nat, k: nat | k < |ds| ensures (evs[k].Mine? && evs[k].i == i) <==> IsChunk(t, ds[k].payload, i) {
      assert evs[k] == EventFor(t, ds[k].payload, taken[k]);
    }
    assert HandedOver(t, ds, 0);
    if FirstLeads(t, ds) {
      var j :| 0 <= j < |ds| && IsChunk(t, ds[j].payload, 0);
      forall i | 0 <= i < Total(t) ensures ArrivesInTime(evs, i) {
        assert HandedOver(t, ds, i);
        var k :| 0 <= k < |ds| && IsChunk(t, ds[k].payload, i);
        assert j <= k && evs[j].Mine? && evs[j].i == 0;
        assert InTime(evs, i, k);
      }
    }
    if AllInTime(t, evs) {
      forall i, j, k | 0 <= j < |ds| && 0 <= k < |ds| && IsChunk(t, ds[j].payload, 0) && IsChunk(t, ds[k].payload, i)
        ensures j <= k
      {
        assert ArrivesInTime(evs, i);
        var l: nat :| InTime(evs, i, l);
        assert l == k;
      }
    }
  }

  // ----- A sender that waits -----

  /** Up to state `m` the application at `a` has pushed no chunk but the first. */
  ghost predicate OnlyFirstPushed(x: Execution, m: nat, a: Addr, t: Transfer)
    requires m < |x.run| && Sendable(t)
  {
    forall k, i | 0 <= k < m && 0 < i < Total(t) ::
      !ReliableOrigin.IsPush(x.acts[k], a, FILE_TRANSFER, Encode(SenderChunk(t, i)))
  }

  lemma {:induction false} DeliveriesGrow(x: Execution, m: nat, n: nat, b: Addr)
    requires m <= n < |x.run| && b in x.run[n].nodes
    ensures b in x.run[m].nodes && x.run[m].nodes[b].delivered <= x.run[n].nodes[b].delivered
    decreases n
  {
    if m < n {
      assert StepAt(x, n - 1);
      ReliableDelivery.StepGrows(x.run[n - 1], x.acts[n - 1]);
      DeliveriesGrow(x, m, n - 1, b);
    }
  }

  lemma {:induction false} FilePacketsGrow(ds: seq<Delivery>, n: nat)
    requires n <= |ds|
    ensures FilePackets(ds[..n]) <= FilePackets(ds)
  {
    if n == |ds| {
      assert ds[..n] == ds;
    } else {
      var front := ds[..|ds| - 1];
      assert front[..n] == ds[..n];
      FilePacketsGrow(front, n);
    }
  }

  /** A chunk not pushed has not been handed over. */
  lemma UnpushedIsUnknown(x: Execution, m: nat, a: Addr, b: Addr, t: Transfer, d: Delivery, i: nat)
    requires m < |x.run| && b in x.run[m].nodes && Sendable(t) && OnlyFirstPushed(x, m, a, t)
    requires d in FilePackets(x.run[m].nodes[b].delivered) && d.reliable && d.src == a && IsChunk(t, d.payload, i)
    ensures i == 0
  {
    var s := x.run[m];
    FilePacketsAre(s.nodes[b].delivered);
    assert DeliveryOk(s, b, d) by {
      ReliableDelivery.RunInv(x, m);
      assert NodeInv(s, b);
    }
    var w := Wire(a, b, true, FILE_TRANSFER, d.seqNum, 0, d.payload);
    assert w in s.wires;
    ReliableOrigin.SentWasPushed(x, m, w);
  }

  /** If chunk 0 was acknowledged before any other chunk was pushed, it leads, whatever the network does. */
  lemma WaitingMakesFirstLead(x: Execution, m: nat, n: nat, a: Addr, b: Addr, t: Transfer)
    requires m <= n < |x.run| && b in x.run[n].nodes && Sendable(t) && SentOnce(x.run[n], a, b, t)
    requires OnlyFirstPushed(x, m, a, t) && Acknowledged(x.run[m], a, b, t, 0)
    ensures FirstLeads(t, FilePackets(x.run[n].nodes[b].delivered))
  {
    DeliveriesGrow(x, m, n, b);
    var ds0, ds := x.run[m].nodes[b].delivered, x.run[n].nodes[b].delivered;
    FilePacketsGrow(ds, |ds0|);
    assert ds[..|ds0|] == ds0;
    var fs0, fs := FilePackets(ds0), FilePackets(ds);
    AcknowledgedIsHandedOver(x, m, a, b, t, 0);
    var l :| 0 <= l < |fs0| && IsChunk(t, fs0[l].payload, 0);
    DedupMeansOnce(x, n, a, b, t);
    forall i, j, k | 0 <= j < |fs| && 0 <= k < |fs| && IsChunk(t, fs[j].payload, 0) && IsChunk(t, fs[k].payload, i)
      ensures j <= k
    {
      assert fs[l] == fs0[l] && j == l;
      if k < |fs0| {
        assert fs0[k] == fs[k] && fs[k] in fs;
        UnpushedIsUnknown(x, m, a, b, t, fs0[k], i);
      }
    }
  }

  /** A file sent that way arrives once all its chunks are acknowledged, unless its name is refused. */
  lemma WaitingSenderDelivers(x: Execution, m: nat, n: nat, a: Addr, b: Addr, t: Transfer, back: Backend, ss: Streams,
                              taken: seq<nat>)
    requires m <= n < |x.run| && b in x.run[n].nodes && FreshFor(t, ss) && SentOnce(x.run[n], a, b, t)
    requires OnlyFirstPushed(x, m, a, t) && Acknowledged(x.run[m], a, b, t, 0)
    requires forall i | 0 <= i < Total(t) :: Acknowledged(x.run[n], a, b, t, i)
    requires |taken| == |FilePackets(x.run[n].nodes[b].delivered)|
    requires var evs := EventsFor(t, FilePackets(x.run[n].nodes[b].delivered), taken);
             Arrivals(t, evs) && AllTaken(back, t, evs)
    ensures var evs := EventsFor(t, FilePackets(x.run[n].nodes[b].delivered), taken);
            Finalize(After(back, ss, t, evs), t.id).output == if Traversal(t.name) then None else Some(t.file)
  {
    AcknowledgedFileArrives(x, n, a, b, t, back, ss, taken);
    DedupMeansOnce(x, n, a, b, t);
    WaitingMakesFirstLead(x, m, n, a, b, t);
    OnceMeansFirstLeads(t, FilePackets(x.run[n].nodes[b].delivered), taken);
  }

  // ----- Acknowledged but lost -----

  /** Two chunks, the second handed over first. */
  lemma SecondFirst(t: Transfer, back: Backend, ds: seq<Delivery>, taken: seq<nat>)
    requires Sendable(t) && Total(t) == 2 && |ds| == |taken| == 2 && taken[0] >= |t.file| && taken[1] >= |t.file|
    requires IsChunk(t, ds[0].payload, 1) && IsChunk(t, ds[1].payload, 0)
    ensures var evs := EventsFor(t, ds, taken); Arrivals(t, evs) && AllTaken(back, t, evs) && !AllInTime(t, evs)
  {
    var evs := EventsFor(t, ds, taken);
    assert evs[0] == EventFor(t, ds[0].payload, taken[0]) == Mine(1, taken[0]);
    assert evs[1] == EventFor(t, ds[1].payload, taken[1]) == Mine(0, taken[1]);
    assert evs == [Mine(1, taken[0]), Mine(0, taken[1])];
    SwappedEvents(t, back, taken[0], taken[1]);
  }

  lemma SwappedEvents(t: Transfer, back: Backend, m: nat, n: nat)
    requires Sendable(t) && Total(t) == 2 && m >= |t.file| && n >= |t.file|
    ensures var evs := [Mine(1, m), Mine(0, n)]; Arrivals(t, evs) && AllTaken(back, t, evs) && !AllInTime(t, evs)
  {
    var evs := [Mine(1, m), Mine(0, n)];
    TotalOf(t);
    assert forall k: nat :: !InTime(evs, 1, k);
    assert !ArrivesInTime(evs, 1);
  }

  lemma BothAreFilePackets(d: Delivery, d': Delivery)
    requires d.kind == d'.kind == FILE_TRANSFER
    ensures FilePackets([d, d']) == [d, d']
  {
    assert [d, d'][..1] == [d] && [d][..0] == [];
    assert FilePackets([d]) == [d];
  }

  /** For every file of two chunks there is a run in which both are acknowledged and handed over, the disk takes
      everything, nothing else is received, and the file never arrives. */
  lemma AcknowledgedButLost(t: Transfer, back: Backend, ss: Streams) returns (x: Execution, n: nat)
    requires FreshFor(t, ss) && Total(t) == 2
    ensures n < |x.run| && 1 in x.run[n].nodes && |FilePackets(x.run[n].nodes[1].delivered)| == 2
    ensures forall i | 0 <= i < Total(t) :: Acknowledged(x.run[n], 0, 1, t, i)
    ensures var evs := EventsFor(t, FilePackets(x.run[n].nodes[1].delivered), [|t.file|, |t.file|]);
            && Arrivals(t, evs) && AllTaken(back, t, evs)
            && Finalize(After(back, ss, t, evs), t.id).output == None
  {
    var first, second := Encode(SenderChunk(t, 0)), Encode(SenderChunk(t, 1));
    x := ReorderedTransfer.BothAcknowledged(first, second);
    n := |x.acts|;
    var s := x.run[n];
    assert CarriesChunk(t, ReorderedTransfer.OnWire(0, first), 0);
    assert CarriesChunk(t, ReorderedTransfer.OnWire(1, second), 1);
    assert Settled(s, ReorderedTransfer.OnWire(0, first)) && Settled(s, ReorderedTransfer.OnWire(1, second));
    assert Acknowledged(s, 0, 1, t, 0) && Acknowledged(s, 0, 1, t, 1);
    BothAreFilePackets(ReorderedTransfer.Received(1, second), ReorderedTransfer.Received(0, first));
    SecondFirst(t, back, s.nodes[1].delivered, [|t.file|, |t.file|]);
    AcknowledgedFileArrives(x, n, 0, 1, t, back, ss, [|t.file|, |t.file|]);
  }
}
