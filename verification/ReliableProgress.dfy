/** Nothing stands in the way of an acknowledgement: whatever was lost so far, one more arrival of a reliable datagram,
    the sending of what its receiver has queued and the arrival of the acknowledgement settle it. */
module ReliableProgress {
  import opened Common
  import opened OrderedMap
  import opened Reliable
  import opened ReliableAnswers
  import opened ReliableNetwork
  import opened ReliableDelivery
  import opened ReliableTheorems

  function Last(t: Execution): Net { t.run[|t.acts|] }

  /** The run goes on as `t` did. */
  predicate Continues(t: Execution, t': Execution) {
    t.acts <= t'.acts && t.run <= t'.run
  }

  /** The control queue holds an acknowledgement that has somewhere to go. */
  predicate HasAck(e: Endpoint, p: Packet) {
    p in e.control && p.kind == 1 && !p.reliable && p.dest != TO_SERVER && p.dest in e.peers
  }

  lemma NextOf(q: seq<Packet>) returns (i: nat)
    requires q != []
    ensures IsNext(q, i)
  {
    i := NextIndex(q);
  }

  lemma StillQueued(q: seq<Packet>, i: nat, p: Packet)
    requires i < |q| && p in q && q[i] != p
    ensures p in q[..i] + q[i + 1..]
  {
    var j :| 0 <= j < |q| && q[j] == p;
    if j < i { assert (q[..i] + q[i + 1..])[j] == p; } else { assert (q[..i] + q[i + 1..])[j - 1] == p; }
  }

  /** One dispatch of the control queue: the acknowledgement is sent, or still waits in a shorter queue. */
  lemma AckAdvances(e: Endpoint, now: nat, p: Packet)
    requires HasAck(e, p) && e.nextSeq + |e.control| < U32_SIZE
    ensures var (e', w) := Dispatch(e, Control, now, true);
            && |e'.control| == |e.control| - 1 && e'.nextSeq <= e.nextSeq + 1 && e'.peers == e.peers
            && (w == Some(Wire(e.addr, p.dest, false, 1, 0, 0, p.payload)) || HasAck(e', p))
  {
    var i := NextOf(e.control);
    DispatchAnswer(e, Control, now, true, i);
    if e.control[i] == p {
      assert GoesTo(e, p, p.dest);
    } else {
      StillQueued(e.control, i, p);
    }
  }

  /** Sending the control queue puts the acknowledgement on the network. */
  lemma {:induction false} AckGoesOut(t: Execution, b: Addr, p: Packet) returns (t': Execution)
    requires b in Last(t).nodes && HasAck(Last(t).nodes[b], p)
    requires Last(t).nodes[b].nextSeq + |Last(t).nodes[b].control| < U32_SIZE
    ensures Continues(t, t') && Wire(b, p.dest, false, 1, 0, 0, p.payload) in Last(t').wires
    decreases |Last(t).nodes[b].control|
  {
    var s := Last(t);
    var act := DispatchOne(b, Control, true);
    assert s.nodes[b].addr == b by {
      RunInv(t, |t.acts|);
      assert NodeInv(s, b);
    }
    AckAdvances(s.nodes[b], s.clock, p);
    t' := Extend(t, act);
    if Wire(b, p.dest, false, 1, 0, 0, p.payload) !in Sends(s, act) {
      t' := AckGoesOut(t', b, p);
    }
  }

  /** The arrival of a reliable datagram leaves an acknowledgement of it in the queue. */
  lemma ArrivalQueuesAck(e: Endpoint, w: Wire)
    requires w.kind != 1 && w.reliable && w.src != TO_SERVER && e.nextSeq + |e.control| + 1 < U32_SIZE
    ensures var e' := Receive(e, w);
            && HasAck(e', AckPacket(w.src, w.seqNum)) && e'.nextSeq + |e'.control| < U32_SIZE
            && w.seqNum in Seen(e', w.src)
  {
    ReceiveAnswer(e, w);
    StoreFour(w.seqNum);
    var e', p := Receive(e, w), AckPacket(w.src, w.seqNum);
    assert e'.control == e.control + [p] && e'.control[|e.control|] == p;
    assert w.src in e'.peers && e'.nextSeq == e.nextSeq;
  }

  /** The arrival of its acknowledgement clears the receipt of a datagram. */
  lemma AckArrivalClears(s: Net, w: Wire, ack: Wire)
    requires Inv(s) && w in s.wires && w.reliable && w.src in s.nodes
    requires ack == Wire(w.dst, w.src, false, 1, 0, 0, AckPacket(w.src, w.seqNum).payload)
    ensures !HasKey(Receive(s.nodes[w.src], ack).receipts, w.seqNum)
  {
    var e := s.nodes[w.src];
    AckPacketNames(w.src, w.seqNum);
    LoadFour(ack.payload);
    ClearAnswer(e, ack);
    var rs := Receive(e, ack).receipts;
    if k :| 0 <= k < |rs| && rs[k].0 == w.seqNum {
      assert rs[k] in rs && NodeInv(s, w.src) && ReceiptOk(s, w.src, rs[k]);
      assert ToWire(e, rs[k].1, Route(e, rs[k].1.dest).value, rs[k].0) == w;
      assert MayAck(rs[k].1, w.dst) && Acks(ack, w.seqNum);
    }
  }

  /** What has arrived stays arrived. */
  lemma {:induction false} ArrivedStays(t: Execution, i: nat, j: nat, w: Wire)
    requires i <= j < |t.run| && w in t.run[i].wires && Arrived(t.run[i], w)
    ensures w in t.run[j].wires && Arrived(t.run[j], w)
    decreases j
  {
    if i < j {
      ArrivedStays(t, i, j - 1, w);
      assert StepAt(t, j - 1);
      StepGrows(t.run[j - 1], t.acts[j - 1]);
    }
  }

  /** The datagram arrives once more. */
  lemma Arrive(t: Execution, w: Wire) returns (t': Execution)
    requires w in Last(t).wires && w.reliable && w.dst in Last(t).nodes
    requires Last(t).nodes[w.dst].nextSeq + |Last(t).nodes[w.dst].control| + 1 < U32_SIZE
    ensures Continues(t, t') && w in Last(t').wires && Arrived(Last(t'), w)
    ensures var e := Last(t').nodes[w.dst];
            HasAck(e, AckPacket(w.src, w.seqNum)) && e.nextSeq + |e.control| < U32_SIZE
  {
    RunInv(t, |t.acts|);
    assert WireOk(Last(t), w) && w.src < TO_SERVER;
    ArrivalQueuesAck(Last(t).nodes[w.dst], w);
    t' := Extend(t, ReceiveOne(w.dst, w));
  }

  /** Its acknowledgement arrives. */
  lemma AckArrives(t: Execution, w: Wire, ack: Wire) returns (t': Execution)
    requires w in Last(t).wires && w.reliable && ack in Last(t).wires
    requires ack == Wire(w.dst, w.src, false, 1, 0, 0, AckPacket(w.src, w.seqNum).payload)
    ensures Continues(t, t') && w.src in Last(t').nodes && !HasKey(Last(t').nodes[w.src].receipts, w.seqNum)
  {
    RunInv(t, |t.acts|);
    assert WireOk(Last(t), w);
    AckArrivalClears(Last(t), w, ack);
    t' := Extend(t, ReceiveOne(w.src, ack));
  }

  /** From every reachable state, whatever the network has lost and however often, every reliable datagram can still be
      settled: handed over exactly once, and its receipt cleared. */
  lemma CanAlwaysSettle(t: Execution, w: Wire) returns (t': Execution)
    requires w in Last(t).wires && w.reliable && w.dst in Last(t).nodes
    requires Last(t).nodes[w.dst].nextSeq + |Last(t).nodes[w.dst].control| + 1 < U32_SIZE
    ensures Continues(t, t') && w.src in Last(t').nodes && !HasKey(Last(t').nodes[w.src].receipts, w.seqNum)
    ensures w.dst in Last(t').nodes && DeliveredExactly(Last(t'), w.dst, w)
  {
    var p := AckPacket(w.src, w.seqNum);
    var t1 := Arrive(t, w);
    var t2 := AckGoesOut(t1, w.dst, p);
    assert Last(t1) == t2.run[|t1.acts|];
    ArrivedStays(t2, |t1.acts|, |t2.acts|, w);
    t' := AckArrives(t2, w, Wire(w.dst, w.src, false, 1, 0, 0, p.payload));
    assert Last(t2) == t'.run[|t2.acts|];
    ArrivedStays(t', |t2.acts|, |t'.acts|, w);
    assert Inv(Last(t')) by { RunInv(t', |t'.acts|); }
    ArrivedIsDelivered(Last(t'), w);
  }
}
