/** What the reliable layer promises, for every run over a lossy, duplicating, reordering network. */
module ReliableTheorems {
  import opened Common
  import opened OrderedMap
  import opened RateLimiter
  import opened Reliable
  import opened ReliableCounters
  import opened ReliableNetwork
  import opened ReliableDelivery

  /** No (source, sequence number) pair is handed over twice. */
  lemma NeverDeliveredTwice(t: Execution, i: nat, b: Addr, j: nat, k: nat)
    requires i < |t.run| && b in t.run[i].nodes
    requires var ds := t.run[i].nodes[b].delivered;
             && j < |ds| && k < |ds| && ds[j].reliable && ds[k].reliable
             && ds[j].src == ds[k].src && ds[j].seqNum == ds[k].seqNum
    ensures j == k
  {
    RunInv(t, i);
    assert NodeInv(t.run[i], b);
  }

  /** Exactly one delivery to `b` from `w.src` carries `w`'s number, and it carries `w`'s contents. */
  ghost predicate DeliveredExactly(s: Net, b: Addr, w: Wire)
    requires b in s.nodes
  {
    var ds := s.nodes[b].delivered;
    exists k :: && 0 <= k < |ds| && ds[k] == Delivery(w.src, true, w.seqNum, w.kind, w.payload)
                && forall j | 0 <= j < |ds| && IsDeliveryOf(ds[j], w.src, w.seqNum) :: j == k
  }

  lemma ArrivedIsDelivered(s: Net, w: Wire)
    requires Inv(s) && w in s.wires && w.reliable && Arrived(s, w)
    ensures DeliveredExactly(s, w.dst, w)
  {
    var b := w.dst;
    assert NodeInv(s, b);
    assert SeenOk(s, b, w.src, w.seqNum);
    var ds := s.nodes[b].delivered;
    var d :| d in ds && IsDeliveryOf(d, w.src, w.seqNum);
    assert DeliveryOk(s, b, d);
    var k :| 0 <= k < |ds| && ds[k] == d;
    assert Wire(d.src, b, true, d.kind, d.seqNum, 0, d.payload) == w;
  }

  /** When a datagram clears the receipt of packet `p`, the end it came from has already handed over
      exactly that packet, exactly once. */
  lemma ClearedMeansDelivered(t: Execution, i: nat, a: Addr, ack: Wire, q: U32, p: Packet)
    requires i < |t.acts| && t.acts[i] == ReceiveOne(a, ack)
    requires a in t.run[i].nodes && (q, p) in t.run[i].nodes[a].receipts
    requires a in t.run[i + 1].nodes && !HasKey(t.run[i + 1].nodes[a].receipts, q)
    ensures ack.src in t.run[i].nodes
    ensures DeliveredExactly(t.run[i], ack.src, Wire(a, ack.src, true, p.kind, q, 0, p.payload))
  {
    var s, s' := t.run[i], t.run[i + 1];
    var e := s.nodes[a];
    assert StepAt(t, i);
    RunInv(t, i);
    assert NodeInv(s, a) && WireOk(s, ack);
    HasKeyIffMember(e.receipts, q);
    if ack.kind != ACKNOWLEDGEMENT {
      ReceiveDataEffect(e, ack);
      assert false;
    } else {
      var v := AckNamesWire(s, ack);
      ReceiveAckEffect(e, ack);
      if q != AckedSeq(ack.payload) { RemovedKeys(e.receipts, AckedSeq(ack.payload), q); }
      assert ReceiptOk(s, a, (q, p));
      assert v == ToWire(e, p, v.dst, q);
      ArrivedIsDelivered(s, v);
      AckComesFromReceiver(s, ack, v);
    }
  }

  /** The end that acknowledges is the end the datagram was sent to. */
  lemma AckComesFromReceiver(s: Net, ack: Wire, v: Wire)
    requires Inv(s) && ack in s.wires && ack.kind == ACKNOWLEDGEMENT && |ack.payload| == 4
    requires v in s.wires && v.reliable && v.src == ack.dst && v.seqNum == AckedSeq(ack.payload)
    ensures v.dst == ack.src
  {
    assert WireOk(s, ack);
    assert NodeInv(s, ack.src);
    assert SeenOk(s, ack.src, ack.dst, v.seqNum);
    var d :| d in s.nodes[ack.src].delivered && IsDeliveryOf(d, ack.dst, v.seqNum);
    assert DeliveryOk(s, ack.src, d);
  }

  /** The receipt of a datagram is still held, with its contents. */
  predicate Pending(s: Net, w: Wire)
    requires w.src in s.nodes
  {
    exists r ::
      r in s.nodes[w.src].receipts && r.0 == w.seqNum && r.1.reliable && r.1.kind == w.kind && r.1.payload == w.payload
  }

  lemma PendingReceipt(s: Net, w: Wire)
    requires Inv(s) && w in s.wires && w.reliable && w.src in s.nodes && HasKey(s.nodes[w.src].receipts, w.seqNum)
    ensures Pending(s, w)
  {
    var a := w.src;
    HasKeyIffMember(s.nodes[a].receipts, w.seqNum);
    var r :| r in s.nodes[a].receipts && r.0 == w.seqNum;
    assert NodeInv(s, a) && ReceiptOk(s, a, r);
    assert ToWire(s.nodes[a], r.1, Route(s.nodes[a], r.1.dest).value, r.0) == w;
  }

  /** Conservation: whatever reliable datagram was ever sent is still pending, was given up by the
      retry scan, or reached the other end exactly once. */
  lemma SentIsAccountedFor(t: Execution, i: nat, w: Wire)
    requires i < |t.run| && w in t.run[i].wires && w.reliable
    ensures w.src in t.run[i].nodes
    ensures || Pending(t.run[i], w)
            || (w.src, w.seqNum) in t.run[i].dropped
            || ((w.src, w.seqNum) in t.run[i].acked && w.dst in t.run[i].nodes && DeliveredExactly(t.run[i], w.dst, w))
  {
    var s := t.run[i];
    RunInv(t, i);
    assert WireOk(s, w) && ConservedOk(s, w);
    if HasKey(s.nodes[w.src].receipts, w.seqNum) {
      PendingReceipt(s, w);
    } else if (w.src, w.seqNum) !in s.dropped {
      ArrivedIsDelivered(s, w);
    }
  }

  /** The counters in every reachable state: receipts and data bytes exact, control bytes never above
      what is queued. */
  lemma CountersExact(t: Execution, i: nat, a: Addr)
    requires i < |t.run| && a in t.run[i].nodes
    ensures var e := t.run[i].nodes[a];
            && e.ackCount == |e.receipts| && e.ackBytes == ReceiptBytes(e.receipts)
            && e.dataBytes == QueueBytes(e.data) && e.controlBytes <= QueueBytes(e.control)
  {
    RunInv(t, i);
  }

  // ----- How often the retry scan must run -----

  /** The receipt was last sent at some time no more than a second before the last scan. */
  ghost predicate Recent(e: Endpoint, clock: nat, p: Packet) {
    exists at: nat :: p.lastSend == Clock32(at) && at <= clock && e.lastScan <= at + 1
  }

  ghost predicate AllRecent(e: Endpoint, clock: nat) {
    e.lastScan <= clock && forall r | r in e.receipts :: Recent(e, clock, r.1)
  }

  lemma RecentAge(e: Endpoint, clock: nat, p: Packet)
    requires e.lastScan <= clock && Recent(e, clock, p) && clock - e.lastScan <= 4
    ensures !Drops(clock, p)
    ensures || Resends(clock, p)
            || exists at: nat :: p.lastSend == Clock32(at) && at <= clock && clock <= at + 1
  {
    var at: nat :| p.lastSend == Clock32(at) && at <= clock && e.lastScan <= at + 1;
    AgeIsElapsed(clock, at, p);
  }

  lemma AgeIsElapsed(clock: nat, at: nat, p: Packet)
    requires p.lastSend == Clock32(at) && at <= clock < at + U32_SIZE
    ensures Age(clock, p) == clock - at
  {
    var m, n := clock / U32_SIZE, at / U32_SIZE;
    assert clock == m * U32_SIZE + Clock32(clock) && at == n * U32_SIZE + Clock32(at);
    assert m == n || m == n + 1;
  }

  /** After a scan within the limit nothing was dropped and every survivor is at most a second old. */
  lemma ScanKeepsRecent(e: Endpoint, clock: nat)
    requires AllRecent(e, clock) && clock - e.lastScan <= 4
    ensures Dropped(clock, e.receipts) == [] && AllRecent(Scan(e, clock), clock)
  {
    DroppedMembers(clock, e.receipts);
    if Dropped(clock, e.receipts) != [] {
      var r := Dropped(clock, e.receipts)[0];
      RecentAge(e, clock, r.1);
    }
    ScanMembers(clock, e.receipts);
    var e' := Scan(e, clock);
    forall r | r in e'.receipts ensures Recent(e', clock, r.1) {
      var x :| x in e.receipts && !Drops(clock, x.1) && ScanEntry(clock, x) == [r];
      RecentAge(e, clock, x.1);
      assert Resends(clock, x.1) ==> r.1.lastSend == Clock32(clock);
    }
  }

  lemma DispatchKeepsRecent(e: Endpoint, ch: Channel, clock: nat, sent: bool)
    requires AllRecent(e, clock) && e.nextSeq + 1 < U32_SIZE
    ensures AllRecent(Dispatch(e, ch, clock, sent).0, clock)
  {
    var e' := Dispatch(e, ch, clock, sent).0;
    DispatchEffect(e, ch, clock, sent);
    forall r | r in e'.receipts ensures Recent(e', clock, r.1) {
      if r in e.receipts { assert Recent(e, clock, r.1); } else { assert r.1.lastSend == Clock32(clock); }
    }
  }

  lemma AcknowledgeShrinks(e: Endpoint, src: Addr, q: U32)
    ensures forall r | r in Acknowledge(e, src, q).receipts :: r in e.receipts
  {
    RemovedMembers(e.receipts, q);
  }

  lemma ReceiveShrinks(e: Endpoint, w: Wire)
    ensures Receive(e, w).lastScan == e.lastScan && forall r | r in Receive(e, w).receipts :: r in e.receipts
  {
    var e1 := e.(peers := e.peers + {w.src});
    if w.kind == ACKNOWLEDGEMENT {
      if |w.payload| >= 4 { AcknowledgeShrinks(e1, w.src, AckedSeq(w.payload)); }
    } else if w.reliable {
      AcknowledgeShrinks(e1.(control := e.control + [AckPacket(w.src, w.seqNum)], acksQueued := e.acksQueued + 1),
                         w.src, w.ackNum);
    }
  }

  lemma ReceiveKeepsRecent(e: Endpoint, w: Wire, clock: nat)
    requires AllRecent(e, clock)
    ensures AllRecent(Receive(e, w), clock)
  {
    ReceiveShrinks(e, w);
    var e' := Receive(e, w);
    forall r | r in e'.receipts ensures Recent(e', clock, r.1) { assert Recent(e, clock, r.1); }
  }

  lemma StepKeepsRecent(s: Net, act: Action, a: Addr)
    requires Enabled(s, act) && a in s.nodes && AllRecent(s.nodes[a], s.clock)
    requires act == RetryScan(a) ==> s.clock - s.nodes[a].lastScan <= 4
    ensures a in NetStep(s, act).nodes && AllRecent(NetStep(s, act).nodes[a], NetStep(s, act).clock)
    ensures forall q :: (a, q) in NetStep(s, act).dropped <==> (a, q) in s.dropped
  {
    match act
    case DispatchOne(b, ch, sent) => if b == a { DispatchKeepsRecent(s.nodes[a], ch, s.clock, sent); }
    case ReceiveOne(b, w) => if b == a { ReceiveKeepsRecent(s.nodes[a], w, s.clock); }
    case RetryScan(b) => if b == a { ScanKeepsRecent(s.nodes[a], s.clock); }
    case PushPacket(b, p, now) =>
      if b == a {
        PushEffect(s.nodes[a], p, now);
        forall r | r in s.nodes[a].receipts ensures Recent(Push(s.nodes[a], p, now), s.clock, r.1) {
          assert Recent(s.nodes[a], s.clock, r.1);
        }
      }
    case Tick(n) =>
      forall r | r in s.nodes[a].receipts ensures Recent(s.nodes[a], s.clock + n, r.1) {
        assert Recent(s.nodes[a], s.clock, r.1);
      }
  }

  /** Successive scans of `a` are at most four clock seconds apart, up to state `i`. */
  predicate ScansOften(t: Execution, i: nat, a: Addr)
    requires i < |t.run|
  {
    forall j | 0 <= j < i && t.acts[j] == RetryScan(a) && a in t.run[j].nodes ::
      t.run[j].clock - t.run[j].nodes[a].lastScan <= 4
  }

  lemma {:induction false} NothingDropped(t: Execution, i: nat, a: Addr)
    requires i < |t.run| && a in t.run[0].nodes && ScansOften(t, i, a)
    ensures a in t.run[i].nodes && AllRecent(t.run[i].nodes[a], t.run[i].clock)
    ensures forall q :: (a, q) !in t.run[i].dropped
  {
    if i > 0 {
      NothingDropped(t, i - 1, a);
      assert StepAt(t, i - 1);
      StepKeepsRecent(t.run[i - 1], t.acts[i - 1], a);
    }
  }

  lemma {:induction false} SameNodes(t: Execution, i: nat)
    requires i < |t.run|
    ensures t.run[i].nodes.Keys == t.run[0].nodes.Keys
  {
    if i > 0 {
      SameNodes(t, i - 1);
      assert StepAt(t, i - 1);
    }
  }

  /** With scans that close together, no reliable packet is ever given up: it is pending or was
      delivered exactly once. */
  lemma TimelyScansLoseNothing(t: Execution, i: nat, w: Wire)
    requires i < |t.run| && w in t.run[i].wires && w.reliable && ScansOften(t, i, w.src)
    ensures w.src in t.run[i].nodes
    ensures Pending(t.run[i], w) || (w.dst in t.run[i].nodes && DeliveredExactly(t.run[i], w.dst, w))
  {
    SentIsAccountedFor(t, i, w);
    SameNodes(t, i);
    NothingDropped(t, i, w.src);
  }

  // ----- The limit is tight -----

  lemma Extend(t: Execution, act: Action) returns (t': Execution)
    requires Enabled(t.run[|t.acts|], act)
    ensures t'.acts == t.acts + [act] && t'.run == t.run + [NetStep(t.run[|t.acts|], act)]
  {
    var x := Trace(t.run + [NetStep(t.run[|t.acts|], act)], t.acts + [act]);
    forall i | 0 <= i < |x.acts| ensures StepAt(x, i) {
      if i < |t.acts| { assert StepAt(t, i); }
    }
    t' := x;
  }

  const EXAMPLE: Packet := Packet(Data, true, 100, 1, [], 0, 0)

  /** Scans of endpoint 0 at most `gap` seconds apart. */
  predicate GapsAtMost(t: Execution, gap: nat) {
    forall j | 0 <= j < |t.acts| && t.acts[j] == RetryScan(0) ::
      0 in t.run[j].nodes && t.run[j].clock - t.run[j].nodes[0].lastScan <= gap
  }

  /** Endpoint 0 alone, holding the receipt of the example packet. */
  predicate Holding(s: Net, clock: nat, lastScan: nat) {
    && 0 in s.nodes && s.clock == clock && s.acked == {}
    && s.nodes[0].receipts == [(0, EXAMPLE)] && s.nodes[0].lastScan == lastScan
  }

  lemma GapsExtend(t: Execution, t': Execution, act: Action, gap: nat)
    requires GapsAtMost(t, gap) && t'.acts == t.acts + [act] && |t'.run| == |t.run| + 1 && t'.run[..|t.run|] == t.run
    requires act == RetryScan(0) ==>
               0 in t.run[|t.acts|].nodes && t.run[|t.acts|].clock - t.run[|t.acts|].nodes[0].lastScan <= gap
    ensures GapsAtMost(t', gap)
  {
    forall j | 0 <= j < |t'.acts| && t'.acts[j] == RetryScan(0)
      ensures 0 in t'.run[j].nodes && t'.run[j].clock - t'.run[j].nodes[0].lastScan <= gap
    {
      assert t'.run[j] == t'.run[..|t.run|][j];
    }
  }

  /** One step of the example, keeping the gaps within five seconds. */
  lemma Continue(t: Execution, act: Action) returns (t': Execution)
    requires Enabled(t.run[|t.acts|], act) && GapsAtMost(t, 5)
    requires act == RetryScan(0) ==> t.run[|t.acts|].clock - t.run[|t.acts|].nodes[0].lastScan <= 5
    ensures GapsAtMost(t', 5) && |t'.acts| == |t.acts| + 1 && t'.run[|t'.acts|] == NetStep(t.run[|t.acts|], act)
  {
    t' := Extend(t, act);
    assert t'.run[..|t.run|] == t.run;
    GapsExtend(t, t', act, 5);
  }

  lemma ExampleSent() returns (t: Execution)
    ensures GapsAtMost(t, 5) && Holding(t.run[|t.acts|], 0, 0)
  {
    var cfg := RateLimitConfig(1, 1, 1);
    var e := Endpoint(0, 1, {1}, 0, [], map[], [], [], 0, 0, 0, 0, Start(cfg, 0), cfg, [], 0, 0);
    t := Trace([Net(map[0 := e], {}, 0, {}, {})], []);
    var t1 := Continue(t, PushPacket(0, EXAMPLE, 0));
    assert t1.run[|t1.acts|].nodes[0].data == [EXAMPLE];
    t := Continue(t1, DispatchOne(0, Data, true));
    assert t.run[|t.acts|].nodes[0].receipts == [(0, EXAMPLE)];
  }

  lemma ScanOfExample(e: Endpoint)
    requires e.receipts == [(0, EXAMPLE)]
    ensures Scan(e, 1).receipts == [(0, EXAMPLE)] && Dropped(6, e.receipts) == [(0, EXAMPLE)]
  {
    var r := (0, EXAMPLE);
    assert Age(1, EXAMPLE) == 1 && Age(6, EXAMPLE) == 6;
    assert e.receipts[..0] == [] && e.receipts[0] == r;
    assert ScanReceipts(1, []) == [] && ScanEntry(1, r) == [r];
    assert Dropped(6, []) == [] && Drops(6, r.1);
  }

  /** With scans five seconds apart a receipt can be given up unacked. */
  lemma FiveSecondGapDrops() returns (t: Execution)
    ensures GapsAtMost(t, 5) && (0, 0) in t.run[|t.acts|].dropped && t.run[|t.acts|].acked == {}
  {
    t := ExampleSent();
    t := Continue(t, Tick(1));
    assert Holding(t.run[|t.acts|], 1, 0);
    t := ScanKeeps(t);
    t := Continue(t, Tick(5));
    assert Holding(t.run[|t.acts|], 6, 1);
    t := ScanDrops(t);
  }

  lemma ScanKeeps(t: Execution) returns (t': Execution)
    requires GapsAtMost(t, 5) && Holding(t.run[|t.acts|], 1, 0)
    ensures GapsAtMost(t', 5) && Holding(t'.run[|t'.acts|], 1, 1)
  {
    ScanOfExample(t.run[|t.acts|].nodes[0]);
    t' := Continue(t, RetryScan(0));
  }

  lemma ScanDrops(t: Execution) returns (t': Execution)
    requires GapsAtMost(t, 5) && Holding(t.run[|t.acts|], 6, 1)
    ensures GapsAtMost(t', 5) && (0, 0) in t'.run[|t'.acts|].dropped && t'.run[|t'.acts|].acked == {}
  {
    ScanOfExample(t.run[|t.acts|].nodes[0]);
    assert (0, EXAMPLE) in Dropped(6, t.run[|t.acts|].nodes[0].receipts);
    t' := Continue(t, RetryScan(0));
  }
}
