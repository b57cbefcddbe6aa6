/**
 * A run in which every chunk is acknowledged and the file never arrives: the network swaps two datagrams, so the
 * second chunk is handed over, acknowledged and remembered before there is a session to write it to.
 */
module ReorderedTransfer {
  import opened Common
  import opened OrderedMap
  import opened RateLimiter
  import opened Reliable
  import opened ReliableNetwork
  import opened ReliableTheorems
  import ReliableDelivery

  /** A chunk as the sender enqueues it. */
  function Chunk(payload: Bytes): Packet { Packet(Control, true, FILE_TRANSFER, 1, payload, 0, HIGH_PRIORITY) }

  function OnWire(q: U32, payload: Bytes): Wire { Wire(0, 1, true, FILE_TRANSFER, q, 0, payload) }

  function Received(q: U32, payload: Bytes): Delivery { Delivery(0, true, q, FILE_TRANSFER, payload) }

  // ----- The sender, endpoint 0 -----

  predicate Sending(e: Endpoint, control: seq<Packet>, receipts: Receipts, next: U32) {
    e.addr == 0 && e.server == 1 && 1 in e.peers && e.control == control && e.receipts == receipts && e.nextSeq == next
  }

  /** The queue at hand, all of one priority, goes out in order. */
  lemma InOrder(e: Endpoint, p: Packet, rest: seq<Packet>)
    requires e.control == [p] + rest && forall x | x in e.control :: x.priority == HIGH_PRIORITY
    ensures Dequeue(e, Control).1 == Some(p) && Dequeue(e, Control).0.control == rest
  {
    var i := NextIndex(e.control);
    assert e.control[0] in e.control && e.control[i] in e.control;
    assert i == 0;
    assert Without(e.control, 0) == rest;
  }

  lemma SendPacket(e: Endpoint, payload: Bytes, rest: seq<Packet>, receipts: Receipts, q: U32)
    requires Sending(e, rest, receipts, q) && !HasKey(receipts, q) && q + 1 < U32_SIZE
    ensures var (e', w) := DispatchPacket(e, Chunk(payload), 0, true);
            Sending(e', rest, receipts + [(q, Chunk(payload))], q + 1) && w == Some(OnWire(q, payload))
  {
    assert Clock32(0) == 0 && Chunk(payload).(lastSend := 0) == Chunk(payload);
    assert NeedsReceipt(Chunk(payload));
  }

  lemma SendFirst(e: Endpoint, payload: Bytes, rest: seq<Packet>, receipts: Receipts, q: U32)
    requires Sending(e, [Chunk(payload)] + rest, receipts, q) && !HasKey(receipts, q) && q + 1 < U32_SIZE
    requires forall x | x in rest :: x.priority == HIGH_PRIORITY
    ensures var (e', w) := Dispatch(e, Control, 0, true);
            Sending(e', rest, receipts + [(q, Chunk(payload))], q + 1) && w == Some(OnWire(q, payload))
  {
    InOrder(e, Chunk(payload), rest);
    SendPacket(Dequeue(e, Control).0, payload, rest, receipts, q);
  }

  lemma ClearOne(e: Endpoint, receipts: Receipts, q: U32, next: U32, ack: Wire)
    requires Sending(e, [], receipts, next) && Lookup(receipts, q).Some? && Lookup(receipts, q).value.dest == 1
    requires ack == AckWire(q)
    ensures Sending(Receive(e, ack), [], Removed(receipts, q), next)
  {
    ReliableDelivery.AckPacketNames(0, q);
  }

  // ----- The receiver, endpoint 1 -----

  function AckWire(q: U32): Wire { Wire(1, 0, false, ACKNOWLEDGEMENT, 0, 0, AckPacket(0, q).payload) }

  predicate Has(ds: seq<Delivery>, q: U32) { exists d :: d in ds && d.seqNum == q }

  predicate Receiving(f: Endpoint, control: seq<Packet>, ds: seq<Delivery>, next: U32) {
    && f.addr == 1 && f.nextSeq == next && f.control == control && f.delivered == ds
    && (forall q :: q in Seen(f, 0) ==> Has(ds, q))
    && (control != [] ==> 0 in f.peers)
  }

  lemma Take(f: Endpoint, control: seq<Packet>, ds: seq<Delivery>, next: U32, q: U32, payload: Bytes)
    requires Receiving(f, control, ds, next) && !Has(ds, q)
    ensures Receiving(Receive(f, OnWire(q, payload)), control + [AckPacket(0, q)], ds + [Received(q, payload)], next)
  {
    assert q !in Seen(f, 0);
    var f' := Receive(f, OnWire(q, payload));
    forall r | r in Seen(f', 0) ensures Has(f'.delivered, r) {
      if r == q {
        assert Received(q, payload) in f'.delivered;
      } else {
        assert Has(ds, r);
        var d :| d in ds && d.seqNum == r;
        assert d in f'.delivered;
      }
    }
  }

  lemma AckGoesOut(f: Endpoint, q: U32, rest: seq<Packet>, ds: seq<Delivery>, next: U32)
    requires Receiving(f, rest, ds, next) && 0 in f.peers && next + 1 < U32_SIZE
    ensures var (f', w) := DispatchPacket(f, AckPacket(0, q), 0, true);
            Receiving(f', rest, ds, next + 1) && w == Some(AckWire(q))
  {
    assert !NeedsReceipt(AckPacket(0, q));
  }

  lemma SendAck(f: Endpoint, q: U32, rest: seq<Packet>, ds: seq<Delivery>, next: U32)
    requires Receiving(f, [AckPacket(0, q)] + rest, ds, next) && next + 1 < U32_SIZE
    requires forall x | x in rest :: x.priority == HIGH_PRIORITY
    ensures var (f', w) := Dispatch(f, Control, 0, true); Receiving(f', rest, ds, next + 1) && w == Some(AckWire(q))
  {
    InOrder(f, AckPacket(0, q), rest);
    var f1 := Dequeue(f, Control).0;
    assert f1.seen == f.seen && f1.delivered == f.delivered && f1.peers == f.peers;
    forall r | r in Seen(f1, 0) ensures Has(ds, r) { assert r in Seen(f, 0); }
    AckGoesOut(f1, q, rest, ds, next);
  }

  // ----- The run -----

  datatype Stage = Stage(
    queued: seq<Packet>, receipts: Receipts, next: U32, acks: seq<Packet>, handedOver: seq<Delivery>, acksSent: U32)

  predicate At(s: Net, g: Stage) {
    && 0 in s.nodes && 1 in s.nodes && s.clock == 0 && s.dropped == {}
    && Sending(s.nodes[0], g.queued, g.receipts, g.next) && Receiving(s.nodes[1], g.acks, g.handedOver, g.acksSent)
  }

  function Last(x: Execution): Net { x.run[|x.acts|] }

  lemma StartRun(limits: RateLimitConfig) returns (x: Execution)
    ensures At(Last(x), Stage([], [], 0, [], [], 0)) && Last(x).nodes[0].limits == limits
    ensures Last(x).nodes[0].limiter == Start(limits, 0)
  {
    var e := Endpoint(0, 1, {1}, 0, [], map[], [], [], 0, 0, 0, 0, Start(limits, 0), limits, [], 0, 0);
    var f := e.(addr := 1, server := 0, peers := {});
    x := Trace([Net(map[0 := e, 1 := f], {}, 0, {}, {})], []);
  }

  /** The first packet of the sender's queue goes out. */
  lemma Dispatched(x: Execution, payload: Bytes, rest: seq<Packet>, g: Stage) returns (y: Execution)
    requires At(Last(x), g) && g.queued == [Chunk(payload)] + rest && !HasKey(g.receipts, g.next)
    requires g.next + 1 < U32_SIZE
    requires forall p | p in rest :: p.priority == HIGH_PRIORITY
    ensures At(Last(y), g.(queued := rest, receipts := g.receipts + [(g.next, Chunk(payload))], next := g.next + 1))
    ensures Last(y).wires == Last(x).wires + {OnWire(g.next, payload)}
  {
    SendFirst(Last(x).nodes[0], payload, rest, g.receipts, g.next);
    y := Extend(x, DispatchOne(0, Control, true));
  }

  /** A chunk reaches the receiver. */
  lemma Arrived(x: Execution, q: U32, payload: Bytes, g: Stage) returns (y: Execution)
    requires At(Last(x), g) && OnWire(q, payload) in Last(x).wires && !Has(g.handedOver, q)
    ensures At(Last(y), g.(acks := g.acks + [AckPacket(0, q)], handedOver := g.handedOver + [Received(q, payload)]))
    ensures Last(y).wires == Last(x).wires
  {
    Take(Last(x).nodes[1], g.acks, g.handedOver, g.acksSent, q, payload);
    y := Extend(x, ReceiveOne(1, OnWire(q, payload)));
  }

  lemma AckSent(x: Execution, q: U32, rest: seq<Packet>, g: Stage) returns (y: Execution)
    requires At(Last(x), g) && g.acks == [AckPacket(0, q)] + rest && g.acksSent + 1 < U32_SIZE
    requires forall p | p in rest :: p.priority == HIGH_PRIORITY
    ensures At(Last(y), g.(acks := rest, acksSent := g.acksSent + 1)) && Last(y).wires == Last(x).wires + {AckWire(q)}
  {
    SendAck(Last(x).nodes[1], q, rest, g.handedOver, g.acksSent);
    y := Extend(x, DispatchOne(1, Control, true));
  }

  lemma AckReceived(x: Execution, q: U32, g: Stage) returns (y: Execution)
    requires At(Last(x), g) && AckWire(q) in Last(x).wires && g.queued == []
    requires Lookup(g.receipts, q).Some? && Lookup(g.receipts, q).value.dest == 1
    ensures At(Last(y), g.(receipts := Removed(g.receipts, q))) && Last(y).wires == Last(x).wires
  {
    ClearOne(Last(x).nodes[0], g.receipts, q, g.next, AckWire(q));
    y := Extend(x, ReceiveOne(0, AckWire(q)));
  }

  /** A chunk is queued, within the rate limit. */
  lemma Queued(x: Execution, payload: Bytes, g: Stage) returns (y: Execution)
    requires At(Last(x), g) && Check(Last(x).nodes[0].limits, Last(x).nodes[0].limiter, 0, |payload|).1
    ensures At(Last(y), g.(queued := g.queued + [Chunk(payload)])) && Last(y).wires == Last(x).wires
    ensures Last(y).nodes[0].limits == Last(x).nodes[0].limits
    ensures Last(y).nodes[0].limiter == Check(Last(x).nodes[0].limits, Last(x).nodes[0].limiter, 0, |payload|).0
  {
    y := Extend(x, PushPacket(0, Chunk(payload), 0));
  }

  /** Both chunks on the wire. */
  lemma BothSent(a: Bytes, b: Bytes) returns (x: Execution)
    ensures At(Last(x), Stage([], [(0, Chunk(a)), (1, Chunk(b))], 2, [], [], 0))
    ensures Last(x).wires >= {OnWire(0, a), OnWire(1, b)}
  {
    x := StartRun(RateLimitConfig(2, |a| + |b|, 0));
    var g := Stage([], [], 0, [], [], 0);
    x := Queued(x, a, g);
    x := Queued(x, b, g.(queued := [Chunk(a)]));
    g := g.(queued := [Chunk(a), Chunk(b)]);
    x := Dispatched(x, a, [Chunk(b)], g);
    g := g.(queued := [Chunk(b)], receipts := [(0, Chunk(a))], next := 1);
    x := Dispatched(x, b, [], g);
    assert g.receipts + [(1, Chunk(b))] == [(0, Chunk(a)), (1, Chunk(b))];
  }

  /** The second arrives first; both are acknowledged. */
  lemma BothAcknowledged(a: Bytes, b: Bytes) returns (x: Execution)
    ensures At(Last(x), Stage([], [], 2, [], [Received(1, b), Received(0, a)], 2))
    ensures Last(x).wires >= {OnWire(0, a), OnWire(1, b)}
  {
    x := BothSent(a, b);
    var g := Stage([], [(0, Chunk(a)), (1, Chunk(b))], 2, [], [], 0);
    x := Arrived(x, 1, b, g);
    g := g.(acks := [AckPacket(0, 1)], handedOver := [Received(1, b)]);
    x := Arrived(x, 0, a, g);
    g := g.(acks := [AckPacket(0, 1), AckPacket(0, 0)], handedOver := [Received(1, b), Received(0, a)]);
    x := AckSent(x, 1, [AckPacket(0, 0)], g);
    g := g.(acks := [AckPacket(0, 0)], acksSent := 1);
    x := AckSent(x, 0, [], g);
    g := g.(acks := [], acksSent := 2);
    x := AckReceived(x, 1, g);
    RemoveSecond(0, Chunk(a), 1, Chunk(b));
    g := g.(receipts := [(0, Chunk(a))]);
    x := AckReceived(x, 0, g);
  }

  lemma RemoveSecond(k: U32, p: Packet, l: U32, r: Packet)
    requires k != l
    ensures Removed([(k, p), (l, r)], l) == [(k, p)] && Removed([(k, p)], k) == []
  {
    assert [(k, p), (l, r)][..1] == [(k, p)] && [(k, p)][..0] == [];
    assert Removed([(k, p)], l) == [(k, p)];
  }
}
