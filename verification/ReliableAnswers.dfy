/** What one operation of an endpoint must do, with the numbers of the source written out: when it has to queue, send,
    hand over, acknowledge, clear, repeat or give up a packet, and that it does so in no other case. */
module ReliableAnswers {
  import opened Common
  import opened OrderedMap
  import opened RateLimiter
  import opened Reliable
  import opened ReliableCounters
  import WireLe

  /** Seconds since the packet was last sent, in 32-bit arithmetic. */
  function Elapsed(now: nat, p: Packet): nat { (now - p.lastSend) % 0x1_0000_0000 }

  /** The server's pseudo-address stands for the server; any other address has to be a known peer's. */
  predicate GoesTo(e: Endpoint, p: Packet, dst: Addr) {
    if p.dest == 0xFFFF_FFFC then dst == e.server else dst == p.dest && dst in e.peers
  }

  /** The packet as a datagram to `dst`; the number of an unreliable one is not sent. */
  predicate IsDatagramOf(e: Endpoint, p: Packet, q: U32, dst: Addr, w: Wire) {
    w == Wire(e.addr, dst, p.reliable, p.kind, if p.reliable then q else 0, 0, p.payload)
  }

  // ----- Pushing and dispatching -----

  /** A packet for which the limiter has room goes to the end of its channel's queue and is counted; a refused one
      goes nowhere. */
  lemma PushAnswer(e: Endpoint, p: Packet, now: int)
    ensures var e', ok := Push(e, p, now), Room(e.limits, e.limiter, now, |p.payload|);
            && e'.control == e.control + (if ok && p.channel.Control? then [p] else [])
            && e'.data == e.data + (if ok && p.channel.Data? then [p] else [])
            && e'.controlBytes == e.controlBytes + (if ok && p.channel.Control? then |p.payload| else 0)
            && e'.dataBytes == e.dataBytes + (if ok && p.channel.Data? then |p.payload| else 0)
  {
    RoomDecides(e.limits, e.limiter, now, |p.payload|);
    assert e.control + [] == e.control && e.data + [] == e.data;
  }

  function Waiting(e: Endpoint, ch: Channel): seq<Packet> { if ch.Control? then e.control else e.data }

  /** The i-th packet is the first of the highest priority. */
  predicate IsNext(q: seq<Packet>, i: nat) {
    && i < |q| && (forall j | 0 <= j < |q| :: q[j].priority <= q[i].priority)
    && forall j | 0 <= j < i :: q[j].priority < q[i].priority
  }

  function Other(ch: Channel): Channel { if ch.Control? then Data else Control }

  lemma DequeueAnswer(e: Endpoint, ch: Channel, i: nat)
    requires IsNext(Waiting(e, ch), i)
    ensures var (d, p) := Dequeue(e, ch);
            && p == Some(Waiting(e, ch)[i]) && Waiting(d, ch) == Waiting(e, ch)[..i] + Waiting(e, ch)[i + 1..]
            && Waiting(d, Other(ch)) == Waiting(e, Other(ch))
            && d == e.(control := d.control, data := d.data, controlBytes := d.controlBytes, dataBytes := d.dataBytes)
  {
    assert NextIndex(Waiting(e, ch)) == i;
  }

  lemma SendAnswer(e: Endpoint, p: Packet, now: nat, sent: bool)
    requires e.nextSeq + 1 < 0x1_0000_0000
    ensures var (e', w) := DispatchPacket(e, p, now, sent);
            && e'.control == e.control && e'.data == e.data && e'.nextSeq == e.nextSeq + (if w.Some? then 1 else 0)
            && (w.Some? ==> sent && GoesTo(e, p, w.value.dst) && IsDatagramOf(e, p, e.nextSeq, w.value.dst, w.value))
            && (w.None? ==> !sent || forall dst :: !GoesTo(e, p, dst))
  {
  }

  /** The next packet leaves its queue, and is sent under the next number whenever the socket takes it and it has
      somewhere to go; only then is a number used. */
  lemma DispatchAnswer(e: Endpoint, ch: Channel, now: nat, sent: bool, i: nat)
    requires IsNext(Waiting(e, ch), i) && e.nextSeq + 1 < 0x1_0000_0000
    ensures var (e', w) := Dispatch(e, ch, now, sent);
            var q := Waiting(e, ch);
            && Waiting(e', ch) == q[..i] + q[i + 1..] && Waiting(e', Other(ch)) == Waiting(e, Other(ch))
            && (w.Some? <==> sent && exists dst :: GoesTo(e, q[i], dst))
            && (w.Some? ==> GoesTo(e, q[i], w.value.dst) && IsDatagramOf(e, q[i], e.nextSeq, w.value.dst, w.value))
            && e'.nextSeq == e.nextSeq + if w.Some? then 1 else 0
  {
    DequeueAnswer(e, ch, i);
    var (d, p) := Dequeue(e, ch);
    SendAnswer(d, p.value, now, sent);
    forall dst ensures GoesTo(d, p.value, dst) <==> GoesTo(e, p.value, dst) { }
  }

  /** What is sent reliably for the first time is remembered under its number, with the time. */
  lemma ReceiptAnswer(e: Endpoint, ch: Channel, now: nat, sent: bool, i: nat)
    requires IsNext(Waiting(e, ch), i) && !HasKey(e.receipts, e.nextSeq)
    ensures var (e', w) := Dispatch(e, ch, now, sent);
            var p := Waiting(e, ch)[i];
            e'.receipts == e.receipts +
                           if w.Some? && p.reliable && p.kind != 1 && p.lastSend == 0
                           then [(e.nextSeq, p.(lastSend := now % 0x1_0000_0000))] else []
  {
    assert NextIndex(Waiting(e, ch)) == i;
    assert e.receipts + [] == e.receipts;
  }

  // ----- Receiving -----

  /** The four bytes of a number, least significant first. */
  function FourBytes(q: U32): Bytes { [q % 256, q / 256 % 256, q / 65536 % 256, q / 16777216 % 256] }

  function FromFourBytes(b0: int, b1: int, b2: int, b3: int): int { b0 + 256 * b1 + 65536 * b2 + 16777216 * b3 }

  lemma StoreStep(v: nat, n: nat)
    ensures WireLe.Store(v, n + 1) == [v % 256] + WireLe.Store(v / 256, n)
  {
  }

  lemma StoreFour(q: U32)
    ensures WireLe.Store(q, 4) == FourBytes(q)
  {
    StoreStep(q, 3);
    StoreStep(q / 256, 2);
    StoreStep(q / 256 / 256, 1);
    StoreStep(q / 256 / 256 / 256, 0);
    assert q / 256 / 256 == q / 65536 && q / 65536 / 256 == q / 16777216;
  }

  lemma LoadFour(d: Bytes)
    requires |d| >= 4
    ensures AckedSeq(d) == FromFourBytes(d[0], d[1], d[2], d[3])
  {
    var x := d[..4];
    assert x[1..][1..] == x[2..] && x[2..][1..] == x[3..] && x[3..][1..] == [];
    assert WireLe.Load(x[3..]) == x[3] as int;
    assert WireLe.Load(x[2..]) == x[2] + 256 * WireLe.Load(x[3..]);
    assert WireLe.Load(x[1..]) == x[1] + 256 * WireLe.Load(x[2..]);
  }

  /** What a datagram brings the application: its contents, unless it is an acknowledgement, or reliable and its number
      has been recorded for its source. */
  function News(e: Endpoint, w: Wire): seq<Delivery> {
    if w.kind == 1 || (w.reliable && w.seqNum in Seen(e, w.src)) then []
    else [Delivery(w.src, w.reliable, w.seqNum, w.kind, w.payload)]
  }

  lemma ReceiveNews(e: Endpoint, w: Wire)
    ensures Receive(e, w).delivered == e.delivered + News(e, w)
  {
    assert e.delivered + [] == e.delivered;
  }

  /** What a datagram makes an endpoint do: it hands over the news, records the number of a reliable packet for its
      source, and queues one acknowledgement of it, known already or not. */
  lemma ReceiveAnswer(e: Endpoint, w: Wire)
    ensures var e', owed := Receive(e, w), w.reliable && w.kind != 1;
            && e'.delivered == e.delivered + News(e, w)
            && e'.control == e.control +
                             (if owed then [Packet(Control, false, 1, w.src, FourBytes(w.seqNum), 0, 2)] else [])
            && forall src :: Seen(e', src) == Seen(e, src) + if owed && src == w.src then {w.seqNum} else {}
  {
    StoreFour(w.seqNum);
    ReceiveNews(e, w);
    assert e.control + [] == e.control;
  }

  /** The datagram acknowledges the number: as its four-byte payload, or piggybacked on a reliable packet. */
  predicate Acks(w: Wire, q: U32) {
    if w.kind == 1
    then |w.payload| >= 4 && q == FromFourBytes(w.payload[0], w.payload[1], w.payload[2], w.payload[3])
    else w.reliable && q == w.ackNum != 0
  }

  /** A packet sent to the server or to everyone may be acknowledged by anyone. */
  predicate MayAck(p: Packet, src: Addr) { p.dest == src || p.dest == 0xFFFF_FFFC || p.dest == 0xFFFF_FFFD }

  lemma AcknowledgeAnswer(e: Endpoint, src: Addr, q: U32)
    requires DistinctKeys(e.receipts)
    ensures forall r :: r in Acknowledge(e, src, q).receipts <==> r in e.receipts && !(r.0 == q && MayAck(r.1, src))
  {
    RemovedMembers(e.receipts, q);
    forall r | r in e.receipts && r.0 == q ensures Lookup(e.receipts, q) == Some(r.1) {
      OneEntry(e.receipts, r, (q, Lookup(e.receipts, q).value));
    }
  }

  lemma OneEntry(rs: Receipts, r: (U32, Packet), r': (U32, Packet))
    requires DistinctKeys(rs) && r in rs && r' in rs && r.0 == r'.0
    ensures r == r'
  {
  }

  /** Exactly the receipt that is acknowledged by whom it may be is cleared; the others stay as they are. */
  lemma ClearAnswer(e: Endpoint, w: Wire)
    requires DistinctKeys(e.receipts)
    ensures forall r :: r in Receive(e, w).receipts <==> r in e.receipts && !(Acks(w, r.0) && MayAck(r.1, w.src))
  {
    var e1 := e.(peers := e.peers + {w.src});
    if w.kind == 1 {
      if |w.payload| >= 4 {
        LoadFour(w.payload);
        AcknowledgeAnswer(e1, w.src, AckedSeq(w.payload));
      }
    } else if w.reliable && w.ackNum != 0 {
      AcknowledgeAnswer(e1.(control := e.control + [AckPacket(w.src, w.seqNum)], acksQueued := e.acksQueued + 1),
                        w.src, w.ackNum);
    }
  }

  // ----- The retry scan -----

  lemma AgeIs(now: nat, p: Packet)
    ensures Age(now, p) == Elapsed(now, p)
  {
    var n := now / U32_SIZE;
    assert now == n * U32_SIZE + Clock32(now);
    assert (Clock32(now) - p.lastSend) % U32_SIZE == (Clock32(now) - p.lastSend + n * U32_SIZE) % U32_SIZE;
  }

  /** The datagram repeats the packet of a receipt more than one second old and at most five. */
  predicate Repeats(e: Endpoint, now: nat, r: (U32, Packet), w: Wire) {
    1 < Elapsed(now, r.1) <= 5 && GoesTo(e, r.1, w.dst) && IsDatagramOf(e, r.1, r.0, w.dst, w)
  }

  /** A scan puts on the network a repetition of each receipt of that age that has somewhere to go, and nothing
      else. */
  lemma ScanRepeats(e: Endpoint, now: nat)
    ensures forall r, dst | r in e.receipts && 1 < Elapsed(now, r.1) <= 5 && GoesTo(e, r.1, dst) ::
              Wire(e.addr, dst, r.1.reliable, r.1.kind, if r.1.reliable then r.0 else 0, 0, r.1.payload)
              in Resent(e, now)
    ensures forall w | w in Resent(e, now) :: exists r :: r in e.receipts && Repeats(e, now, r, w)
  {
    forall p ensures Age(now, p) == Elapsed(now, p) { AgeIs(now, p); }
    forall w | w in Resent(e, now) ensures exists r :: r in e.receipts && Repeats(e, now, r, w) {
      var r :| r in e.receipts && Resends(now, r.1) && Route(e, r.1.dest).Some?
               && w == ToWire(e, r.1, Route(e, r.1.dest).value, r.0);
      assert Repeats(e, now, r, w);
    }
  }

  /** The receipt after a scan at which it was at most five seconds old: given the time if it was sent again. */
  function Renewed(now: nat, r: (U32, Packet)): (U32, Packet) {
    (r.0, if Elapsed(now, r.1) > 1 then r.1.(lastSend := now % 0x1_0000_0000) else r.1)
  }

  /** A scan gives up exactly the receipts more than five seconds old. */
  lemma ScanGivesUp(e: Endpoint, now: nat)
    ensures forall r :: r in Dropped(now, e.receipts) <==> r in e.receipts && Elapsed(now, r.1) > 5
    ensures forall r | r in e.receipts && Elapsed(now, r.1) <= 5 :: Renewed(now, r) in Scan(e, now).receipts
    ensures forall r | r in Scan(e, now).receipts ::
              exists x :: x in e.receipts && Elapsed(now, x.1) <= 5 && r == Renewed(now, x)
  {
    forall p ensures Age(now, p) == Elapsed(now, p) { AgeIs(now, p); }
    DroppedAre(now, e.receipts);
    ScanMembers(now, e.receipts);
    forall r | r in e.receipts && Elapsed(now, r.1) <= 5 ensures Renewed(now, r) in Scan(e, now).receipts {
      assert ScanEntry(now, r) == [Renewed(now, r)];
    }
    forall r | r in Scan(e, now).receipts
      ensures exists x :: x in e.receipts && Elapsed(now, x.1) <= 5 && r == Renewed(now, x)
    {
      var x :| x in e.receipts && !Drops(now, x.1) && ScanEntry(now, x) == [r];
      assert ScanEntry(now, x) == [Renewed(now, x)];
    }
  }

  lemma {:induction false} DroppedAre(now: nat, rs: Receipts)
    ensures forall r :: r in Dropped(now, rs) <==> r in rs && Drops(now, r.1)
  {
    if rs != [] { DroppedAre(now, rs[..|rs| - 1]); }
  }
}
