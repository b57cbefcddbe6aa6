/**
 * Endpoints exchanging point-to-point traffic over a network that loses, duplicates and reorders
 * datagrams but does not forge them: `wires` holds everything ever sent, and any of it may be
 * received at any time, any number of times, or never.
 */
module ReliableNetwork {
  import opened Common
  import opened OrderedMap
  import opened Reliable

  /** `acked` and `dropped` are history: receipts cleared by an ack, and by the retry scan. */
  datatype Net = Net(nodes: map<Addr, Endpoint>, wires: set<Wire>, clock: nat,
                     acked: set<(Addr, U32)>, dropped: set<(Addr, U32)>)

  datatype Action =
    | PushPacket(a: Addr, p: Packet, now: int)
    | DispatchOne(a: Addr, ch: Channel, sent: bool)
    | ReceiveOne(a: Addr, w: Wire)
    | RetryScan(a: Addr)
    | Tick(seconds: nat)

  /** The application does not send acknowledgements or broadcasts itself, fewer than 2^32 packets
      are sent, and only datagrams addressed to an endpoint reach it. */
  predicate Enabled(s: Net, act: Action) {
    match act
    case PushPacket(a, p, _) => a in s.nodes && p.kind != ACKNOWLEDGEMENT && p.lastSend == 0 && p.dest != TO_ALL
    case DispatchOne(a, _, _) => a in s.nodes && s.nodes[a].nextSeq + 1 < U32_SIZE
    case ReceiveOne(a, w) => a in s.nodes && w in s.wires && w.dst == a
    case RetryScan(a) => a in s.nodes
    case Tick(_) => true
  }

  /** The receipts a received datagram clears. */
  function ClearedBy(e: Endpoint, w: Wire): set<(Addr, U32)> {
    var q := if w.kind != ACKNOWLEDGEMENT then w.ackNum
             else if |w.payload| >= 4 then AckedSeq(w.payload) else 0;
    var heard := if w.kind != ACKNOWLEDGEMENT then w.reliable && w.ackNum != 0 else |w.payload| >= 4;
    if heard && Clears(e, w.src, q) then {(e.addr, q)} else {}
  }

  /** The datagrams a step puts on the network. */
  function Sends(s: Net, act: Action): set<Wire>
    requires Enabled(s, act)
  {
    match act
    case DispatchOne(a, ch, sent) =>
      var w := Dispatch(s.nodes[a], ch, s.clock, sent).1;
      if w.Some? then {w.value} else {}
    case RetryScan(a) => Resent(s.nodes[a], s.clock)
    case _ => {}
  }

  function NetStep(s: Net, act: Action): Net
    requires Enabled(s, act)
  {
    match act
    case PushPacket(a, p, now) => s.(nodes := s.nodes[a := Push(s.nodes[a], p, now)])
    case DispatchOne(a, ch, sent) =>
      s.(nodes := s.nodes[a := Dispatch(s.nodes[a], ch, s.clock, sent).0], wires := s.wires + Sends(s, act))
    case ReceiveOne(a, w) =>
      s.(nodes := s.nodes[a := Receive(s.nodes[a], w)], acked := s.acked + ClearedBy(s.nodes[a], w))
    case RetryScan(a) =>
      var e := s.nodes[a];
      s.(nodes := s.nodes[a := Scan(e, s.clock)], wires := s.wires + Sends(s, act),
         dropped := s.dropped + set r | r in Dropped(s.clock, e.receipts) :: (a, r.0))
    case Tick(n) => s.(clock := s.clock + n)
  }

  predicate FreshEndpoint(e: Endpoint, a: Addr, clock: nat) {
    && e.addr == a < TO_SERVER && e.nextSeq == 0 && e.receipts == [] && e.seen == map[] && e.control == []
    && e.data == []
    && e.ackCount == e.ackBytes == e.controlBytes == e.dataBytes == 0
    && e.delivered == [] && e.acksQueued == 0 && e.lastScan == clock
  }

  predicate Initial(s: Net) {
    && s.wires == {} && s.acked == {} && s.dropped == {}
    && forall a | a in s.nodes :: FreshEndpoint(s.nodes[a], a, s.clock)
  }

  datatype Trace = Trace(run: seq<Net>, acts: seq<Action>)

  predicate StepAt(t: Trace, i: nat)
    requires |t.run| == |t.acts| + 1 && i < |t.acts|
  {
    Enabled(t.run[i], t.acts[i]) && t.run[i + 1] == NetStep(t.run[i], t.acts[i])
  }

  predicate IsRun(t: Trace) {
    && |t.run| == |t.acts| + 1 && Initial(t.run[0])
    && forall i | 0 <= i < |t.acts| :: StepAt(t, i)
  }

  type Execution = t: Trace | IsRun(t) witness Trace([Net(map[], {}, 0, {}, {})], [])

  // ----- The invariant -----

  /** `payload` is an ack, sent by `from` to `to`, for a number `from` has recorded. */
  predicate AckOk(s: Net, from: Addr, to: Addr, payload: Bytes)
    requires from in s.nodes
  {
    |payload| == 4 && AckedSeq(payload) in Seen(s.nodes[from], to)
  }

  predicate WireOk(s: Net, w: Wire) {
    && w.src in s.nodes
    && (w.reliable ==> w.kind != ACKNOWLEDGEMENT && w.seqNum < s.nodes[w.src].nextSeq)
    && (w.kind != ACKNOWLEDGEMENT ==> w.ackNum == 0)
    && (w.kind == ACKNOWLEDGEMENT ==> AckOk(s, w.src, w.dst, w.payload))
  }

  predicate QueuedOk(s: Net, a: Addr, p: Packet)
    requires a in s.nodes
  {
    && (p.kind == ACKNOWLEDGEMENT ==> !p.reliable && p.dest != TO_SERVER && AckOk(s, a, p.dest, p.payload))
    && (p.kind != ACKNOWLEDGEMENT ==> p.lastSend == 0)
  }

  /** A receipt stands for a datagram that really was sent, under that number. */
  predicate ReceiptOk(s: Net, a: Addr, r: (U32, Packet))
    requires a in s.nodes
  {
    && r.1.reliable && r.1.kind != ACKNOWLEDGEMENT && r.0 < s.nodes[a].nextSeq
    && Route(s.nodes[a], r.1.dest).Some?
    && ToWire(s.nodes[a], r.1, Route(s.nodes[a], r.1.dest).value, r.0) in s.wires
  }

  predicate DeliveryOk(s: Net, a: Addr, d: Delivery)
    requires a in s.nodes
  {
    d.reliable ==>
      && d.seqNum in Seen(s.nodes[a], d.src)
      && Wire(d.src, a, true, d.kind, d.seqNum, 0, d.payload) in s.wires
  }

  predicate IsDeliveryOf(d: Delivery, src: Addr, q: U32) { d.reliable && d.src == src && d.seqNum == q }

  predicate SeenOk(s: Net, a: Addr, src: Addr, q: U32)
    requires a in s.nodes
  {
    exists d :: d in s.nodes[a].delivered && IsDeliveryOf(d, src, q)
  }

  /** The receiving end has recorded the datagram. */
  predicate Arrived(s: Net, w: Wire) {
    w.dst in s.nodes && w.seqNum in Seen(s.nodes[w.dst], w.src)
  }

  predicate ConservedOk(s: Net, w: Wire)
    requires w.src in s.nodes
  {
    w.reliable ==> || HasKey(s.nodes[w.src].receipts, w.seqNum)
                   || (w.src, w.seqNum) in s.dropped
                   || ((w.src, w.seqNum) in s.acked && Arrived(s, w))
  }

  predicate OneWirePerNumber(wires: set<Wire>) {
    forall v, w | v in wires && w in wires && v.reliable && w.reliable && v.src == w.src && v.seqNum == w.seqNum ::
      v == w
  }

  predicate DeliveredOnce(ds: seq<Delivery>) {
    forall i, j | 0 <= i < j < |ds| && ds[i].reliable && ds[j].reliable ::
      ds[i].src != ds[j].src || ds[i].seqNum != ds[j].seqNum
  }

  predicate QueueOk(s: Net, a: Addr, q: seq<Packet>)
    requires a in s.nodes
  {
    forall p | p in q :: QueuedOk(s, a, p)
  }

  predicate ReceiptsOk(s: Net, a: Addr)
    requires a in s.nodes
  {
    forall r | r in s.nodes[a].receipts :: ReceiptOk(s, a, r)
  }

  /** Every recorded number was delivered once, every reliable delivery is recorded and was sent. */
  ghost predicate DeliveriesOk(s: Net, a: Addr)
    requires a in s.nodes
  {
    && DeliveredOnce(s.nodes[a].delivered)
    && (forall d | d in s.nodes[a].delivered :: DeliveryOk(s, a, d))
    && (forall src, q :: q in Seen(s.nodes[a], src) ==> SeenOk(s, a, src, q))
  }

  ghost predicate NodeInv(s: Net, a: Addr)
    requires a in s.nodes
  {
    && s.nodes[a].addr == a
    && QueueOk(s, a, s.nodes[a].control) && QueueOk(s, a, s.nodes[a].data)
    && ReceiptsOk(s, a) && DeliveriesOk(s, a)
  }

  ghost predicate Inv(s: Net) {
    && (forall w | w in s.wires :: WireOk(s, w) && ConservedOk(s, w))
    && OneWirePerNumber(s.wires)
    && (forall x | x in s.acked ::
          exists w :: w in s.wires && w.reliable && w.src == x.0 && w.seqNum == x.1 && Arrived(s, w))
    && forall a | a in s.nodes :: a < TO_SERVER && CountersOk(s.nodes[a]) && NodeInv(s, a)
  }
}
