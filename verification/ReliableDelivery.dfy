/** Exactly-once delivery and conservation, proved for every run of the network. */
module ReliableDelivery {
  import opened Common
  import opened OrderedMap
  import opened Reliable
  import opened ReliableCounters
  import opened ReliableNetwork
  import WireLe

  // ----- What never shrinks -----

  predicate NodeGrows(e: Endpoint, e': Endpoint) {
    && e'.addr == e.addr && e'.server == e.server && e.peers <= e'.peers && e.nextSeq <= e'.nextSeq
    && e.delivered <= e'.delivered
    && e.seen.Keys <= e'.seen.Keys && (forall x | x in e.seen :: e.seen[x] <= e'.seen[x])
  }

  predicate Grows(s: Net, s': Net) {
    && s'.nodes.Keys == s.nodes.Keys && s.wires <= s'.wires && s.acked <= s'.acked && s.dropped <= s'.dropped
    && forall a | a in s.nodes :: NodeGrows(s.nodes[a], s'.nodes[a])
  }

  lemma DispatchGrows(e: Endpoint, ch: Channel, now: nat, sent: bool)
    requires e.nextSeq + 1 < U32_SIZE
    ensures NodeGrows(e, Dispatch(e, ch, now, sent).0)
  {
  }

  lemma ReceiveGrows(e: Endpoint, w: Wire)
    ensures NodeGrows(e, Receive(e, w))
  {
  }

  lemma StepGrows(s: Net, act: Action)
    requires Enabled(s, act)
    ensures Grows(s, NetStep(s, act))
  {
    match act
    case DispatchOne(a, ch, sent) => DispatchGrows(s.nodes[a], ch, s.clock, sent);
    case ReceiveOne(a, w) => ReceiveGrows(s.nodes[a], w);
    case _ =>
  }

  // ----- Facts about elements are stable -----

  lemma WireStable(s: Net, s': Net, w: Wire)
    requires Grows(s, s') && WireOk(s, w)
    ensures WireOk(s', w) && (Arrived(s, w) ==> Arrived(s', w))
  {
  }

  lemma QueueStable(s: Net, s': Net, a: Addr, q: seq<Packet>)
    requires Grows(s, s') && a in s.nodes && QueueOk(s, a, q)
    ensures QueueOk(s', a, q)
  {
  }

  lemma ReceiptStable(s: Net, s': Net, a: Addr, r: (U32, Packet))
    requires Grows(s, s') && a in s.nodes && ReceiptOk(s, a, r)
    ensures ReceiptOk(s', a, r)
  {
  }

  lemma ReceiptsStable(s: Net, s': Net, a: Addr)
    requires Grows(s, s') && a in s.nodes && ReceiptsOk(s, a)
    requires forall r | r in s'.nodes[a].receipts :: r in s.nodes[a].receipts
    ensures ReceiptsOk(s', a)
  {
    forall r | r in s'.nodes[a].receipts ensures ReceiptOk(s', a, r) { ReceiptStable(s, s', a, r); }
  }

  lemma DeliveriesStable(s: Net, s': Net, a: Addr)
    requires Grows(s, s') && a in s.nodes && DeliveriesOk(s, a)
    requires s'.nodes[a].delivered == s.nodes[a].delivered && s'.nodes[a].seen == s.nodes[a].seen
    ensures DeliveriesOk(s', a)
  {
    forall src, q | q in Seen(s'.nodes[a], src) ensures SeenOk(s', a, src, q) { assert SeenOk(s, a, src, q); }
  }

  /** An endpoint that the step does not touch keeps its invariant. */
  lemma UntouchedNode(s: Net, s': Net, a: Addr)
    requires Grows(s, s') && a in s.nodes && s'.nodes[a] == s.nodes[a] && NodeInv(s, a)
    ensures NodeInv(s', a)
  {
    QueueStable(s, s', a, s.nodes[a].control);
    QueueStable(s, s', a, s.nodes[a].data);
    ReceiptsStable(s, s', a);
    DeliveriesStable(s, s', a);
  }

  ghost predicate AckedOk(s: Net, x: (Addr, U32)) {
    exists w :: w in s.wires && w.reliable && w.src == x.0 && w.seqNum == x.1 && Arrived(s, w)
  }

  lemma AckedStable(s: Net, s': Net, x: (Addr, U32))
    requires Grows(s, s') && AckedOk(s, x) && forall w | w in s.wires :: WireOk(s, w)
    ensures AckedOk(s', x)
  {
    var w :| w in s.wires && w.reliable && w.src == x.0 && w.seqNum == x.1 && Arrived(s, w);
    WireStable(s, s', w);
  }

  /** Conservation survives as long as no receipt of the sender disappears. */
  lemma ConservedStable(s: Net, s': Net, w: Wire)
    requires Grows(s, s') && WireOk(s, w) && ConservedOk(s, w)
    requires HasKey(s.nodes[w.src].receipts, w.seqNum) ==> HasKey(s'.nodes[w.src].receipts, w.seqNum)
    ensures ConservedOk(s', w)
  {
    WireStable(s, s', w);
  }

  lemma AllConserved(s: Net, s': Net, a: Addr)
    requires Inv(s) && Grows(s, s') && a in s.nodes
    requires forall q | HasKey(s.nodes[a].receipts, q) :: HasKey(s'.nodes[a].receipts, q)
    ensures forall w | w in s.wires && w.src == a && w.reliable :: ConservedOk(s', w)
  {
    forall w | w in s.wires && w.src == a && w.reliable ensures ConservedOk(s', w) { ConservedStable(s, s', w); }
  }

  /** Reassembling the invariant after a step of endpoint `a`. */
  lemma Assemble(s: Net, s': Net, a: Addr)
    requires Inv(s) && Grows(s, s') && a in s.nodes
    requires forall b | b in s.nodes && b != a :: s'.nodes[b] == s.nodes[b]
    requires CountersOk(s'.nodes[a]) && NodeInv(s', a) && OneWirePerNumber(s'.wires)
    requires forall w | w in s'.wires && w !in s.wires :: WireOk(s', w) && ConservedOk(s', w)
    requires forall w | w in s.wires && w.src == a && w.reliable :: ConservedOk(s', w)
    requires forall x | x in s'.acked && x !in s.acked :: AckedOk(s', x)
    ensures Inv(s')
  {
    forall b | b in s'.nodes ensures CountersOk(s'.nodes[b]) && NodeInv(s', b) {
      if b != a { UntouchedNode(s, s', b); }
    }
    forall x | x in s'.acked ensures AckedOk(s', x) {
      if x in s.acked { AckedStable(s, s', x); }
    }
    forall w | w in s'.wires ensures WireOk(s', w) && ConservedOk(s', w) {
      if w in s.wires {
        WireStable(s, s', w);
        if w.src != a { ConservedStable(s, s', w); }
      }
    }
  }

  // ----- One lemma per action -----

  /** What a step of `a` leaves alone, and where its queued packets come from. */
  predicate QueuesFrom(s: Net, s': Net, a: Addr)
    requires a in s.nodes && a in s'.nodes
  {
    var e, e' := s.nodes[a], s'.nodes[a];
    && s'.nodes == s.nodes[a := e'] && e'.addr == e.addr
    && (forall p | p in e'.control :: p in e.control || p in e.data || QueuedOk(s', a, p))
    && (forall p | p in e'.data :: p in e.control || p in e.data || QueuedOk(s', a, p))
  }

  lemma QueuesCarryOver(s: Net, s': Net, a: Addr)
    requires Grows(s, s') && a in s.nodes && NodeInv(s, a) && QueuesFrom(s, s', a)
    ensures QueueOk(s', a, s'.nodes[a].control) && QueueOk(s', a, s'.nodes[a].data)
  {
    QueueStable(s, s', a, s.nodes[a].control);
    QueueStable(s, s', a, s.nodes[a].data);
  }

  /** A step that only moves packets between queues. */
  lemma LocalStep(s: Net, s': Net, a: Addr)
    requires Inv(s) && Grows(s, s') && a in s.nodes && QueuesFrom(s, s', a) && CountersOk(s'.nodes[a])
    requires s'.wires == s.wires && s'.acked == s.acked
    requires var e, e' := s.nodes[a], s'.nodes[a];
             e'.receipts == e.receipts && e'.seen == e.seen && e'.delivered == e.delivered
    ensures Inv(s')
  {
    assert NodeInv(s, a);
    QueuesCarryOver(s, s', a);
    ReceiptsStable(s, s', a);
    DeliveriesStable(s, s', a);
    AllConserved(s, s', a);
    Assemble(s, s', a);
  }

  lemma PushEffect(e: Endpoint, p: Packet, now: int)
    ensures var e' := Push(e, p, now);
            && e'.addr == e.addr && e'.receipts == e.receipts && e'.seen == e.seen && e'.delivered == e.delivered
            && (forall x | x in e'.control :: x in e.control || x == p)
            && (forall x | x in e'.data :: x in e.data || x == p)
  {
  }

  lemma PushInv(s: Net, a: Addr, p: Packet, now: int)
    requires Inv(s) && Enabled(s, PushPacket(a, p, now))
    ensures Inv(NetStep(s, PushPacket(a, p, now)))
  {
    StepGrows(s, PushPacket(a, p, now));
    PushCounters(s.nodes[a], p, now);
    PushEffect(s.nodes[a], p, now);
    LocalStep(s, NetStep(s, PushPacket(a, p, now)), a);
  }

  lemma DequeuedFrom(e: Endpoint, ch: Channel)
    ensures var (e', p) := Dequeue(e, ch);
            && (forall x | x in e'.control :: x in e.control) && (forall x | x in e'.data :: x in e.data)
            && (p.Some? ==> p.value in e.control || p.value in e.data)
            && e' == e.(control := e'.control, data := e'.data, controlBytes := e'.controlBytes,
                        dataBytes := e'.dataBytes)
  {
  }

  /** A datagram dispatched under a new number differs from all earlier ones. */
  lemma NewNumber(s: Net, w: Wire)
    requires (forall v | v in s.wires :: WireOk(s, v)) && OneWirePerNumber(s.wires)
    requires w.src in s.nodes && (w.reliable ==> w.seqNum == s.nodes[w.src].nextSeq)
    ensures OneWirePerNumber(s.wires + {w})
  {
  }

  /** The datagram a dispatch sends is covered by a receipt if reliable; an ack among them names a
      number this endpoint has recorded. */
  lemma SentOk(s: Net, s': Net, a: Addr, p: Packet, dst: Addr)
    requires Grows(s, s') && a in s.nodes && s.nodes[a].addr == a && QueuedOk(s, a, p)
    requires var e, e' := s.nodes[a], s'.nodes[a];
             && Route(e, p.dest) == Some(dst) && e'.nextSeq == e.nextSeq + 1
             && e'.receipts == AddReceipt(e, p, s.clock).receipts
    ensures var w := ToWire(s.nodes[a], p, dst, s.nodes[a].nextSeq); WireOk(s', w) && ConservedOk(s', w)
  {
    var e, e' := s.nodes[a], s'.nodes[a];
    if NeedsReceipt(p) && !HasKey(e.receipts, e.nextSeq) { assert e'.receipts[|e.receipts|].0 == e.nextSeq; }
  }

  lemma ReceiptAdded(s: Net, s': Net, a: Addr, p: Packet, dst: Addr)
    requires Grows(s, s') && a in s.nodes && ReceiptsOk(s, a) && QueuedOk(s, a, p)
    requires var e, e' := s.nodes[a], s'.nodes[a];
             && Route(e, p.dest) == Some(dst) && e'.nextSeq == e.nextSeq + 1
             && e'.receipts == AddReceipt(e, p, s.clock).receipts
             && ToWire(e, p, dst, e.nextSeq) in s'.wires
    ensures ReceiptsOk(s', a)
    ensures forall q | HasKey(s.nodes[a].receipts, q) :: HasKey(s'.nodes[a].receipts, q)
  {
    var e, e' := s.nodes[a], s'.nodes[a];
    forall r | r in e'.receipts ensures ReceiptOk(s', a, r) {
      if r in e.receipts { ReceiptStable(s, s', a, r); }
    }
    forall q | HasKey(e.receipts, q) ensures HasKey(e'.receipts, q) {
      var i :| 0 <= i < |e.receipts| && e.receipts[i].0 == q;
      assert e'.receipts[i].0 == q;
    }
  }

  /** A step that sends packet `p`, taken from a queue, under the next number. */
  predicate IsSend(s: Net, s': Net, a: Addr, p: Packet, dst: Addr)
    requires a in s.nodes && a in s'.nodes
  {
    var e, e' := s.nodes[a], s'.nodes[a];
    && (p in e.control || p in e.data)
    && Route(e, p.dest) == Some(dst) && e'.nextSeq == e.nextSeq + 1
    && e'.receipts == AddReceipt(e, p, s.clock).receipts && e'.seen == e.seen && e'.delivered == e.delivered
    && s'.wires == s.wires + {ToWire(e, p, dst, e.nextSeq)} && s'.acked == s.acked
  }

  lemma SendNode(s: Net, s': Net, a: Addr, p: Packet, dst: Addr)
    requires Grows(s, s') && a in s.nodes && NodeInv(s, a) && QueuesFrom(s, s', a) && IsSend(s, s', a, p, dst)
    ensures NodeInv(s', a) && QueuedOk(s, a, p)
    ensures forall q | HasKey(s.nodes[a].receipts, q) :: HasKey(s'.nodes[a].receipts, q)
  {
    assert QueuedOk(s, a, p);
    QueuesCarryOver(s, s', a);
    ReceiptAdded(s, s', a, p, dst);
    DeliveriesStable(s, s', a);
  }

  lemma SendStep(s: Net, s': Net, a: Addr, p: Packet, dst: Addr)
    requires Inv(s) && Grows(s, s') && a in s.nodes && QueuesFrom(s, s', a) && CountersOk(s'.nodes[a])
    requires IsSend(s, s', a, p, dst)
    ensures Inv(s')
  {
    assert NodeInv(s, a);
    SendNode(s, s', a, p, dst);
    var w := ToWire(s.nodes[a], p, dst, s.nodes[a].nextSeq);
    assert WireOk(s', w) && ConservedOk(s', w) by { SentOk(s, s', a, p, dst); }
    assert OneWirePerNumber(s'.wires) by { NewNumber(s, w); }
    AllConserved(s, s', a);
    Assemble(s, s', a);
  }

  /** `e'` is `e` after sending packet `p`, taken from a queue, as datagram `w`. */
  predicate SendsAs(e: Endpoint, e': Endpoint, p: Packet, w: Wire, now: nat) {
    && (p in e.control || p in e.data) && Route(e, p.dest) == Some(w.dst) && w == ToWire(e, p, w.dst, e.nextSeq)
    && e'.receipts == AddReceipt(e, p, now).receipts && e'.nextSeq == e.nextSeq + 1
  }

  /** What a dispatch leaves alone, and what it sends. */
  ghost predicate Dispatched(e: Endpoint, e': Endpoint, w: Option<Wire>, now: nat) {
    && e'.addr == e.addr && e'.seen == e.seen && e'.delivered == e.delivered
    && (forall x | x in e'.control :: x in e.control) && (forall x | x in e'.data :: x in e.data)
    && (w.None? ==> e'.receipts == e.receipts)
    && (w.Some? ==> exists p :: SendsAs(e, e', p, w.value, now))
  }

  lemma DispatchEffect(e: Endpoint, ch: Channel, now: nat, sent: bool)
    requires e.nextSeq + 1 < U32_SIZE
    ensures Dispatched(e, Dispatch(e, ch, now, sent).0, Dispatch(e, ch, now, sent).1, now)
  {
    DequeuedFrom(e, ch);
    var (d, p) := Dequeue(e, ch);
    if p.Some? {
      assert Route(d, p.value.dest) == Route(e, p.value.dest);
      assert AddReceipt(d, p.value, now).receipts == AddReceipt(e, p.value, now).receipts;
      var (e', w) := Dispatch(e, ch, now, sent);
      if w.Some? { assert SendsAs(e, e', p.value, w.value, now); }
    }
  }

  /** A dispatch, said by its effect. */
  lemma DispatchedStep(s: Net, s': Net, a: Addr, w: Option<Wire>)
    requires Inv(s) && Grows(s, s') && a in s.nodes && s'.nodes == s.nodes[a := s'.nodes[a]] && CountersOk(s'.nodes[a])
    requires Dispatched(s.nodes[a], s'.nodes[a], w, s.clock)
    requires s'.wires == s.wires + (if w.Some? then {w.value} else {}) && s'.acked == s.acked
    ensures Inv(s')
  {
    if w.None? {
      assert s'.wires == s.wires;
      LocalStep(s, s', a);
    } else {
      var p :| SendsAs(s.nodes[a], s'.nodes[a], p, w.value, s.clock);
      SendStep(s, s', a, p, w.value.dst);
    }
  }

  lemma DispatchInv(s: Net, a: Addr, ch: Channel, sent: bool)
    requires Inv(s) && Enabled(s, DispatchOne(a, ch, sent))
    ensures Inv(NetStep(s, DispatchOne(a, ch, sent)))
  {
    var s', e := NetStep(s, DispatchOne(a, ch, sent)), s.nodes[a];
    StepGrows(s, DispatchOne(a, ch, sent));
    DispatchCounters(e, ch, s.clock, sent);
    DispatchEffect(e, ch, s.clock, sent);
    DispatchedStep(s, s', a, Dispatch(e, ch, s.clock, sent).1);
  }

  /** A step that sends nothing new. */
  lemma QuietStep(s: Net, s': Net, a: Addr)
    requires Inv(s) && Grows(s, s') && a in s.nodes && QueuesFrom(s, s', a) && CountersOk(s'.nodes[a])
    requires s'.wires == s.wires && ReceiptsOk(s', a) && DeliveriesOk(s', a)
    requires forall w | w in s.wires && w.src == a && w.reliable :: ConservedOk(s', w)
    requires forall x | x in s'.acked && x !in s.acked :: AckedOk(s', x)
    ensures Inv(s')
  {
    QueuesCarryOver(s, s', a);
    Assemble(s, s', a);
  }

  // ----- Receiving an acknowledgement -----

  /** The datagram an acknowledgement speaks of: the acking end has recorded and delivered it. */
  lemma AckNamesWire(s: Net, ack: Wire) returns (v: Wire)
    requires Inv(s) && ack in s.wires && ack.kind == ACKNOWLEDGEMENT
    ensures |ack.payload| == 4
    ensures v in s.wires && v.reliable && v.src == ack.dst && v.seqNum == AckedSeq(ack.payload) && Arrived(s, v)
  {
    assert WireOk(s, ack);
    var b, a, q := ack.src, ack.dst, AckedSeq(ack.payload);
    assert NodeInv(s, b);
    assert SeenOk(s, b, a, q);
    var d :| d in s.nodes[b].delivered && IsDeliveryOf(d, a, q);
    assert DeliveryOk(s, b, d);
    v := Wire(d.src, b, true, d.kind, d.seqNum, 0, d.payload);
  }

  lemma RemovedKeys(rs: Receipts, k: U32, q: U32)
    requires HasKey(rs, q) && q != k
    ensures HasKey(Removed(rs, k), q)
  {
    RemovedMembers(rs, k);
    HasKeyIffMember(rs, q);
    HasKeyIffMember(Removed(rs, k), q);
  }

  lemma ClearConserved(s: Net, s': Net, a: Addr, q: U32, v: Wire)
    requires Inv(s) && Grows(s, s') && a in s.nodes
    requires v in s.wires && v.reliable && v.src == a && v.seqNum == q && Arrived(s', v)
    requires s'.nodes[a].receipts == Removed(s.nodes[a].receipts, q) && (a, q) in s'.acked
    ensures forall w | w in s.wires && w.src == a && w.reliable :: ConservedOk(s', w)
  {
    forall w | w in s.wires && w.src == a && w.reliable ensures ConservedOk(s', w) {
      if w.seqNum == q {
        assert w == v;
      } else {
        if HasKey(s.nodes[a].receipts, w.seqNum) { RemovedKeys(s.nodes[a].receipts, q, w.seqNum); }
        ConservedStable(s, s', w);
      }
    }
  }

  /** Clearing a receipt because of an ack accounts for it. */
  lemma ClearStep(s: Net, s': Net, a: Addr, q: U32, v: Wire)
    requires Inv(s) && Grows(s, s') && a in s.nodes && s'.nodes == s.nodes[a := s'.nodes[a]] && CountersOk(s'.nodes[a])
    requires v in s.wires && v.reliable && v.src == a && v.seqNum == q && Arrived(s, v)
    requires s'.wires == s.wires && s'.acked == s.acked + {(a, q)}
    requires var e, e' := s.nodes[a], s'.nodes[a];
             && e'.receipts == Removed(e.receipts, q) && e'.seen == e.seen && e'.delivered == e.delivered
             && e'.control == e.control && e'.data == e.data
    ensures Inv(s')
  {
    assert NodeInv(s, a);
    WireStable(s, s', v);
    RemovedMembers(s.nodes[a].receipts, q);
    ReceiptsStable(s, s', a);
    DeliveriesStable(s, s', a);
    ClearConserved(s, s', a, q, v);
    assert AckedOk(s', (a, q));
    QuietStep(s, s', a);
  }

  /** What an acknowledgement changes: at most the receipt it names. */
  predicate AckReceived(e: Endpoint, e': Endpoint, src: Addr, q: U32) {
    && e'.addr == e.addr && e'.seen == e.seen && e'.delivered == e.delivered && e'.control == e.control
    && e'.data == e.data && e'.receipts == (if Clears(e, src, q) then Removed(e.receipts, q) else e.receipts)
  }

  lemma ReceiveAckEffect(e: Endpoint, w: Wire)
    requires w.kind == ACKNOWLEDGEMENT && |w.payload| >= 4
    ensures var q := AckedSeq(w.payload);
            && AckReceived(e, Receive(e, w), w.src, q)
            && ClearedBy(e, w) == (if Clears(e, w.src, q) then {(e.addr, q)} else {})
  {
  }

  /** Receiving an acknowledgement, said by its effect. */
  lemma AckStep(s: Net, s': Net, a: Addr, src: Addr, q: U32, v: Wire)
    requires Inv(s) && Grows(s, s') && a in s.nodes && s'.nodes == s.nodes[a := s'.nodes[a]] && CountersOk(s'.nodes[a])
    requires v in s.wires && v.reliable && v.src == a && v.seqNum == q && Arrived(s, v)
    requires AckReceived(s.nodes[a], s'.nodes[a], src, q) && s'.wires == s.wires
    requires s'.acked == s.acked + if Clears(s.nodes[a], src, q) then {(a, q)} else {}
    ensures Inv(s')
  {
    if Clears(s.nodes[a], src, q) {
      ClearStep(s, s', a, q, v);
    } else {
      assert s'.acked == s.acked;
      LocalStep(s, s', a);
    }
  }

  lemma ReceiveAckInv(s: Net, a: Addr, w: Wire)
    requires Inv(s) && Enabled(s, ReceiveOne(a, w)) && w.kind == ACKNOWLEDGEMENT
    ensures Inv(NetStep(s, ReceiveOne(a, w)))
  {
    var s' := NetStep(s, ReceiveOne(a, w));
    StepGrows(s, ReceiveOne(a, w));
    ReceiveCounters(s.nodes[a], w);
    var v := AckNamesWire(s, w);
    ReceiveAckEffect(s.nodes[a], w);
    assert s.nodes[a].addr == a by { assert NodeInv(s, a); }
    AckStep(s, s', a, w.src, AckedSeq(w.payload), v);
  }

  // ----- Receiving a packet -----

  lemma AckPacketNames(dest: Addr, q: U32)
    ensures |AckPacket(dest, q).payload| == 4 && AckedSeq(AckPacket(dest, q).payload) == q
  {
    WireLe.Widths();
    WireLe.LoadStore(q, 4);
    assert WireLe.Store(q, 4)[..4] == WireLe.Store(q, 4);
  }

  /** Deduplication: handing over a number not recorded before keeps deliveries unique. */
  lemma DeliverNew(s: Net, s': Net, a: Addr, w: Wire)
    requires Grows(s, s') && a in s.nodes && DeliveriesOk(s, a) && w in s'.wires && w.dst == a && w.ackNum == 0
    requires var e, e' := s.nodes[a], s'.nodes[a];
             && w.reliable && w.seqNum !in Seen(e, w.src)
             && e'.seen == e.seen[w.src := Seen(e, w.src) + {w.seqNum}]
             && e'.delivered == e.delivered + [Delivery(w.src, w.reliable, w.seqNum, w.kind, w.payload)]
    ensures DeliveriesOk(s', a)
  {
    var e, e' := s.nodes[a], s'.nodes[a];
    var d := e'.delivered[|e.delivered|];
    forall x | x in e'.delivered ensures DeliveryOk(s', a, x) {
      if x in e.delivered { assert DeliveryOk(s, a, x); }
    }
    forall i | 0 <= i < |e.delivered| && e.delivered[i].reliable
      ensures e.delivered[i].src != d.src || e.delivered[i].seqNum != d.seqNum
    {
      assert DeliveryOk(s, a, e.delivered[i]);
    }
    forall src, q | q in Seen(e', src) ensures SeenOk(s', a, src, q) {
      if src == w.src && q == w.seqNum {
        assert d in e'.delivered && IsDeliveryOf(d, src, q);
      } else {
        assert SeenOk(s, a, src, q);
        var x :| x in e.delivered && IsDeliveryOf(x, src, q);
        assert x in e'.delivered;
      }
    }
  }

  lemma DeliverUnreliable(s: Net, s': Net, a: Addr, d: Delivery)
    requires Grows(s, s') && a in s.nodes && DeliveriesOk(s, a) && !d.reliable
    requires s'.nodes[a].seen == s.nodes[a].seen && s'.nodes[a].delivered == s.nodes[a].delivered + [d]
    ensures DeliveriesOk(s', a)
  {
    forall src, q | q in Seen(s'.nodes[a], src) ensures SeenOk(s', a, src, q) {
      assert SeenOk(s, a, src, q);
      var x :| x in s.nodes[a].delivered && IsDeliveryOf(x, src, q);
      assert x in s'.nodes[a].delivered;
    }
  }

  lemma ReceiveDataDeliveries(s: Net, s': Net, a: Addr, w: Wire)
    requires Grows(s, s') && a in s.nodes && DeliveriesOk(s, a) && w in s.wires && w.dst == a && w.ackNum == 0
    requires w.kind != ACKNOWLEDGEMENT && s'.nodes[a] == Receive(s.nodes[a], w)
    ensures DeliveriesOk(s', a)
  {
    if !w.reliable {
      DeliverUnreliable(s, s', a, Delivery(w.src, w.reliable, w.seqNum, w.kind, w.payload));
    } else if w.seqNum in Seen(s.nodes[a], w.src) {
      DeliveriesStable(s, s', a);
    } else {
      DeliverNew(s, s', a, w);
    }
  }

  /** A reliable packet is always acked, and by then its number is recorded. */
  lemma ReceiveDataEffect(e: Endpoint, w: Wire)
    requires w.kind != ACKNOWLEDGEMENT && w.ackNum == 0
    ensures var e' := Receive(e, w);
            && e'.addr == e.addr && e'.receipts == e.receipts && e'.data == e.data
            && e'.control == (if w.reliable then e.control + [AckPacket(w.src, w.seqNum)] else e.control)
            && (w.reliable ==> w.seqNum in Seen(e', w.src))
  {
  }

  /** Receiving a packet, said by its effect. */
  lemma DataStep(s: Net, s': Net, a: Addr, w: Wire)
    requires Inv(s) && Grows(s, s') && a in s.nodes && s'.nodes == s.nodes[a := s'.nodes[a]] && CountersOk(s'.nodes[a])
    requires s'.wires == s.wires && s'.acked == s.acked && DeliveriesOk(s', a) && w in s.wires
    requires var e, e' := s.nodes[a], s'.nodes[a];
             && e'.addr == e.addr && e'.receipts == e.receipts && e'.data == e.data
             && e'.control == (if w.reliable then e.control + [AckPacket(w.src, w.seqNum)] else e.control)
             && (w.reliable ==> w.seqNum in Seen(e', w.src))
    ensures Inv(s')
  {
    assert NodeInv(s, a) && WireOk(s, w);
    AckPacketNames(w.src, w.seqNum);
    ReceiptsStable(s, s', a);
    AllConserved(s, s', a);
    QuietStep(s, s', a);
  }

  lemma ReceiveDataInv(s: Net, a: Addr, w: Wire)
    requires Inv(s) && Enabled(s, ReceiveOne(a, w)) && w.kind != ACKNOWLEDGEMENT
    ensures Inv(NetStep(s, ReceiveOne(a, w)))
  {
    var s' := NetStep(s, ReceiveOne(a, w));
    assert DeliveriesOk(s, a) && w.ackNum == 0 by { assert NodeInv(s, a) && WireOk(s, w); }
    StepGrows(s, ReceiveOne(a, w));
    ReceiveCounters(s.nodes[a], w);
    ReceiveDataEffect(s.nodes[a], w);
    ReceiveDataDeliveries(s, s', a, w);
    DataStep(s, s', a, w);
  }

  // ----- The retry scan -----

  /** A retransmission repeats a datagram already sent. */
  lemma ResentWires(s: Net, a: Addr)
    requires a in s.nodes && ReceiptsOk(s, a)
    ensures Resent(s.nodes[a], s.clock) <= s.wires
  {
    forall w | w in Resent(s.nodes[a], s.clock) ensures w in s.wires {
      var e := s.nodes[a];
      var r :| r in e.receipts && Resends(s.clock, r.1) && Route(e, r.1.dest).Some?
               && w == ToWire(e, r.1, Route(e, r.1.dest).value, r.0);
      assert ReceiptOk(s, a, r);
    }
  }

  lemma ScanReceiptsOk(s: Net, s': Net, a: Addr)
    requires Grows(s, s') && a in s.nodes && ReceiptsOk(s, a)
    requires s'.nodes[a].receipts == ScanReceipts(s.clock, s.nodes[a].receipts)
    ensures ReceiptsOk(s', a)
  {
    ScanMembers(s.clock, s.nodes[a].receipts);
    forall r | r in s'.nodes[a].receipts ensures ReceiptOk(s', a, r) {
      var x :| x in s.nodes[a].receipts && !Drops(s.clock, x.1) && ScanEntry(s.clock, x) == [r];
      ReceiptStable(s, s', a, x);
    }
  }

  lemma {:induction false} DroppedMembers(now: nat, rs: Receipts)
    ensures forall r :: r in Dropped(now, rs) <==> r in rs && Drops(now, r.1)
  {
    if rs != [] { DroppedMembers(now, rs[..|rs| - 1]); }
  }

  /** A receipt survives the scan or is recorded as dropped. */
  lemma ScanKeys(now: nat, rs: Receipts, q: U32)
    requires HasKey(rs, q)
    ensures HasKey(ScanReceipts(now, rs), q) || exists r :: r in Dropped(now, rs) && r.0 == q
  {
    HasKeyIffMember(rs, q);
    var x :| x in rs && x.0 == q;
    if Drops(now, x.1) {
      DroppedMembers(now, rs);
    } else {
      ScanMembers(now, rs);
      assert ScanEntry(now, x)[0] in ScanReceipts(now, rs);
      HasKeyIffMember(ScanReceipts(now, rs), q);
    }
  }

  lemma ScanInv(s: Net, a: Addr)
    requires Inv(s) && Enabled(s, RetryScan(a))
    ensures Inv(NetStep(s, RetryScan(a)))
  {
    var s', rs := NetStep(s, RetryScan(a)), s.nodes[a].receipts;
    assert NodeInv(s, a);
    StepGrows(s, RetryScan(a));
    ScanCounters(s.nodes[a], s.clock);
    ResentWires(s, a);
    ScanReceiptsOk(s, s', a);
    DeliveriesStable(s, s', a);
    forall w | w in s.wires && w.src == a && w.reliable ensures ConservedOk(s', w) {
      if HasKey(rs, w.seqNum) {
        ScanKeys(s.clock, rs, w.seqNum);
      } else {
        ConservedStable(s, s', w);
      }
    }
    QuietStep(s, s', a);
  }

  // ----- Every run -----

  lemma TickInv(s: Net, n: nat)
    requires Inv(s)
    ensures Inv(NetStep(s, Tick(n)))
  {
    var s' := NetStep(s, Tick(n));
    StepGrows(s, Tick(n));
    forall w | w in s.wires ensures WireOk(s', w) && ConservedOk(s', w) { WireStable(s, s', w); }
    forall x | x in s.acked ensures AckedOk(s', x) { AckedStable(s, s', x); }
    forall a | a in s.nodes ensures NodeInv(s', a) { UntouchedNode(s, s', a); }
  }

  lemma StepInv(s: Net, act: Action)
    requires Inv(s) && Enabled(s, act)
    ensures Inv(NetStep(s, act))
  {
    match act
    case PushPacket(a, p, now) => PushInv(s, a, p, now);
    case DispatchOne(a, ch, sent) => DispatchInv(s, a, ch, sent);
    case ReceiveOne(a, w) => if w.kind == ACKNOWLEDGEMENT { ReceiveAckInv(s, a, w); } else { ReceiveDataInv(s, a, w); }
    case RetryScan(a) => ScanInv(s, a);
    case Tick(n) => TickInv(s, n);
  }

  lemma {:induction false} RunInv(t: Execution, i: nat)
    requires i < |t.run|
    ensures Inv(t.run[i])
  {
    if i > 0 {
      RunInv(t, i - 1);
      assert StepAt(t, i - 1);
      StepInv(t.run[i - 1], t.acts[i - 1]);
    }
  }
}
