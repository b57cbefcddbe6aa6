/**
 * One endpoint of the reliable layer: outgoing channel queues, dispatcher, receipt table,
 * receive loop and retry scan, as functions of the endpoint state.  Receipts are the abstract
 * value of the ordered map: entries in insertion order.
 */
module Reliable {
  import opened Common
  import opened OrderedMap
  import opened RateLimiter
  import WireLe

  type Addr = nat

  const TO_ALL: Addr := 0xFFFF_FFFD
  const TO_SERVER: Addr := 0xFFFF_FFFC
  const HIGH_PRIORITY: nat := 2
  const RESEND_INTERVAL: nat := 1
  const DROP_AFTER: nat := 5

  datatype Packet = Packet(channel: Channel, reliable: bool, kind: U16, dest: Addr, payload: Bytes, lastSend: U32,
                           priority: nat)

  /** A datagram as the receiver decodes it. */
  datatype Wire = Wire(src: Addr, dst: Addr, reliable: bool, kind: U16, seqNum: U32, ackNum: U32, payload: Bytes)

  /** A packet handed to the incoming queues. */
  datatype Delivery = Delivery(src: Addr, reliable: bool, seqNum: U32, kind: U16, payload: Bytes)

  type Receipts = seq<(U32, Packet)>

  /** `delivered`, `acksQueued` and `lastScan` are history: everything ever handed to the incoming
      queues, the number of acks ever queued, and the clock at the last retry scan. */
  datatype Endpoint = Endpoint(
    addr: Addr, server: Addr, peers: set<Addr>,
    nextSeq: U32, receipts: Receipts, seen: map<Addr, set<U32>>,
    control: seq<Packet>, data: seq<Packet>,
    ackCount: nat, ackBytes: nat, controlBytes: nat, dataBytes: nat,
    limiter: Limiter, limits: RateLimitConfig,
    delivered: seq<Delivery>, acksQueued: nat, lastScan: nat)

  function SaturatingSub(value: nat, delta: nat): nat { if value > delta then value - delta else 0 }

  function Clock32(now: nat): U32 { now % U32_SIZE }

  /** The age of a receipt as the scan computes it, in 32-bit arithmetic. */
  function Age(now: nat, p: Packet): U32 { (Clock32(now) - p.lastSend) % U32_SIZE }

  function Seen(e: Endpoint, src: Addr): set<U32> { if src in e.seen then e.seen[src] else {} }

  // ----- Outgoing queues -----

  /** The first packet of the highest priority. */
  function NextIndex(q: seq<Packet>): (i: nat)
    requires q != []
    ensures i < |q| && (forall j | 0 <= j < |q| :: q[j].priority <= q[i].priority)
    ensures forall j | 0 <= j < i :: q[j].priority < q[i].priority
  {
    if |q| == 1 then 0
    else
      var i := NextIndex(q[..|q| - 1]);
      assert forall j | 0 <= j < |q| - 1 :: q[..|q| - 1][j] == q[j];
      if q[|q| - 1].priority > q[i].priority then |q| - 1 else i
  }

  function QueueBytes(q: seq<Packet>): nat {
    if q == [] then 0 else QueueBytes(q[..|q| - 1]) + |q[|q| - 1].payload|
  }

  /** Push: dropped by the rate limiter, or queued on its channel and counted. */
  function Push(e: Endpoint, p: Packet, now: int): Endpoint {
    var (l, ok) := Check(e.limits, e.limiter, now, |p.payload|);
    var e := e.(limiter := l);
    if ok then Enqueued(e, p) else e
  }

  function Enqueued(e: Endpoint, p: Packet): Endpoint {
    if p.channel.Control? then e.(control := e.control + [p], controlBytes := e.controlBytes + |p.payload|)
    else e.(data := e.data + [p], dataBytes := e.dataBytes + |p.payload|)
  }

  // ----- Dispatch -----

  /** Where a packet goes: the server socket, a known peer, or nowhere. */
  function Route(e: Endpoint, dest: Addr): Option<Addr> {
    if dest == TO_SERVER then Some(e.server) else if dest in e.peers then Some(dest) else None
  }

  function ToWire(e: Endpoint, p: Packet, dst: Addr, seqNum: U32): Wire {
    Wire(e.addr, dst, p.reliable, p.kind, if p.reliable then seqNum else 0, 0, p.payload)
  }

  predicate NeedsReceipt(p: Packet) { p.reliable && p.kind != ACKNOWLEDGEMENT && p.lastSend == 0 }

  function AddReceipt(e: Endpoint, p: Packet, now: nat): Endpoint {
    if !NeedsReceipt(p) || HasKey(e.receipts, e.nextSeq) then e
    else e.(receipts := e.receipts + [(e.nextSeq, p.(lastSend := Clock32(now)))],
            ackCount := e.ackCount + 1, ackBytes := e.ackBytes + |p.payload|)
  }

  /** DispatchPacket for point-to-point traffic; `sent` is whether building and sending succeed. */
  function DispatchPacket(e: Endpoint, p: Packet, now: nat, sent: bool): (Endpoint, Option<Wire>) {
    match Route(e, p.dest)
    case None => (e, None)
    case Some(dst) =>
      if !sent then (e, None)
      else (AddReceipt(e, p, now).(nextSeq := (e.nextSeq + 1) % U32_SIZE), Some(ToWire(e, p, dst, e.nextSeq)))
  }

  function Dequeue(e: Endpoint, ch: Channel): (Endpoint, Option<Packet>) {
    var q := if ch.Control? then e.control else e.data;
    if q == [] then (e, None)
    else
      var i := NextIndex(q);
      var p, rest := q[i], Without(q, i);
      (if ch.Control? then e.(control := rest, controlBytes := SaturatingSub(e.controlBytes, |p.payload|))
       else e.(data := rest, dataBytes := SaturatingSub(e.dataBytes, |p.payload|)),
       Some(p))
  }

  /** One iteration of ProcessChannel. */
  function Dispatch(e: Endpoint, ch: Channel, now: nat, sent: bool): (Endpoint, Option<Wire>) {
    var (e', p) := Dequeue(e, ch);
    if p.None? then (e, None) else DispatchPacket(e', p.value, now, sent)
  }

  // ----- Receiving -----

  predicate DestinationMatches(p: Packet, src: Addr) {
    p.dest == src || p.dest == TO_SERVER || p.dest == TO_ALL
  }

  predicate Clears(e: Endpoint, src: Addr, q: U32) {
    var p := Lookup(e.receipts, q);
    p.Some? && DestinationMatches(p.value, src)
  }

  /** An acknowledgement of `q` from `src`. */
  function Acknowledge(e: Endpoint, src: Addr, q: U32): Endpoint {
    if !Clears(e, src, q) then e
    else e.(receipts := Removed(e.receipts, q),
            ackBytes := SaturatingSub(e.ackBytes, |Lookup(e.receipts, q).value.payload|),
            ackCount := SaturatingSub(e.ackCount, 1))
  }

  function AckPacket(dest: Addr, q: U32): Packet {
    Packet(Control, false, ACKNOWLEDGEMENT, dest, WireLe.Store(q, 4), 0, HIGH_PRIORITY)
  }

  /** AddAwaitingAckPacket: queue the ack behind the limiter's back, then honour a piggybacked one. */
  function QueueAck(e: Endpoint, src: Addr, q: U32, ackNum: U32): Endpoint {
    var e := e.(control := e.control + [AckPacket(src, q)], acksQueued := e.acksQueued + 1);
    if ackNum == 0 then e else Acknowledge(e, src, ackNum)
  }

  function Deliver(e: Endpoint, w: Wire): Endpoint {
    e.(delivered := e.delivered + [Delivery(w.src, w.reliable, w.seqNum, w.kind, w.payload)])
  }

  /** The sequence number an ack payload names. */
  function AckedSeq(payload: Bytes): U32
    requires |payload| >= 4
  {
    WireLe.StoreLoad(payload[..4]);
    WireLe.Widths();
    WireLe.Load(payload[..4])
  }

  /** One iteration of ProcessReceiving: always ack a reliable packet, deliver its number once. */
  function Receive(e: Endpoint, w: Wire): Endpoint {
    var e := e.(peers := e.peers + {w.src});
    if w.kind == ACKNOWLEDGEMENT then
      if |w.payload| >= 4 then Acknowledge(e, w.src, AckedSeq(w.payload)) else e
    else if !w.reliable then Deliver(e, w)
    else
      var e := QueueAck(e, w.src, w.seqNum, w.ackNum);
      if w.seqNum in Seen(e, w.src) then e
      else Deliver(e.(seen := e.seen[w.src := Seen(e, w.src) + {w.seqNum}]), w)
  }

  // ----- Retry scan -----

  predicate Drops(now: nat, p: Packet) { Age(now, p) > DROP_AFTER }
  predicate Resends(now: nat, p: Packet) { RESEND_INTERVAL < Age(now, p) <= DROP_AFTER }

  function ScanEntry(now: nat, r: (U32, Packet)): Receipts {
    if Drops(now, r.1) then []
    else if Resends(now, r.1) then [(r.0, r.1.(lastSend := Clock32(now)))]
    else [r]
  }

  function ScanReceipts(now: nat, rs: Receipts): Receipts {
    if rs == [] then [] else ScanReceipts(now, rs[..|rs| - 1]) + ScanEntry(now, rs[|rs| - 1])
  }

  function Dropped(now: nat, rs: Receipts): Receipts {
    if rs == [] then []
    else Dropped(now, rs[..|rs| - 1]) + if Drops(now, rs[|rs| - 1].1) then [rs[|rs| - 1]] else []
  }

  function ReceiptBytes(rs: Receipts): nat {
    if rs == [] then 0 else ReceiptBytes(rs[..|rs| - 1]) + |rs[|rs| - 1].1.payload|
  }

  /** What RetransmitPacket puts on the network, under the original numbers. */
  function Resent(e: Endpoint, now: nat): set<Wire> {
    set r | r in e.receipts && Resends(now, r.1) && Route(e, r.1.dest).Some? ::
      ToWire(e, r.1, Route(e, r.1.dest).value, r.0)
  }

  function Scan(e: Endpoint, now: nat): Endpoint {
    e.(receipts := ScanReceipts(now, e.receipts),
       ackCount := SaturatingSub(e.ackCount, |Dropped(now, e.receipts)|),
       ackBytes := SaturatingSub(e.ackBytes, ReceiptBytes(Dropped(now, e.receipts))),
       lastScan := now)
  }

  // ----- Counters -----

  /** The awaiting-ack counters are exact, the data counter is exact, and the control counter is
      short by at most the acks that bypassed Push. */
  predicate CountersOk(e: Endpoint) {
    && DistinctKeys(e.receipts)
    && e.ackCount == |e.receipts| && e.ackBytes == ReceiptBytes(e.receipts)
    && e.dataBytes == QueueBytes(e.data)
    && e.controlBytes <= QueueBytes(e.control) <= e.controlBytes + 4 * e.acksQueued
  }
}
