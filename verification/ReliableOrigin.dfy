/** Whatever is on the network was pushed by its sender's application, acknowledgements apart. */
module ReliableOrigin {
  import opened Common
  import opened Reliable
  import opened ReliableCounters
  import opened ReliableNetwork
  import opened ReliableDelivery

  predicate IsPush(act: Action, a: Addr, kind: U16, payload: Bytes) {
    act.PushPacket? && act.a == a && act.p.kind == kind && act.p.payload == payload
  }

  /** One of the first actions pushed such a packet at `a`. */
  ghost predicate Pushed(acts: seq<Action>, a: Addr, kind: U16, payload: Bytes) {
    exists x :: 0 <= x < |acts| && IsPush(acts[x], a, kind, payload)
  }

  ghost predicate PacketPushed(acts: seq<Action>, a: Addr, p: Packet) {
    p.kind == ACKNOWLEDGEMENT || Pushed(acts, a, p.kind, p.payload)
  }

  ghost predicate QueuesPushed(acts: seq<Action>, a: Addr, e: Endpoint) {
    && (forall p | p in e.control :: PacketPushed(acts, a, p))
    && (forall p | p in e.data :: PacketPushed(acts, a, p))
  }

  ghost predicate NodePushed(acts: seq<Action>, a: Addr, e: Endpoint) {
    QueuesPushed(acts, a, e) && forall r | r in e.receipts :: PacketPushed(acts, a, r.1)
  }

  ghost predicate WirePushed(acts: seq<Action>, w: Wire) {
    w.kind == ACKNOWLEDGEMENT || Pushed(acts, w.src, w.kind, w.payload)
  }

  ghost predicate AllPushed(acts: seq<Action>, s: Net) {
    (forall a | a in s.nodes :: NodePushed(acts, a, s.nodes[a])) && forall w | w in s.wires :: WirePushed(acts, w)
  }

  lemma MoreActions(acts: seq<Action>, act: Action, a: Addr, kind: U16, payload: Bytes)
    requires Pushed(acts, a, kind, payload) || IsPush(act, a, kind, payload)
    ensures Pushed(acts + [act], a, kind, payload)
  {
    var all := acts + [act];
    if x :| 0 <= x < |acts| && IsPush(acts[x], a, kind, payload) {
      assert IsPush(all[x], a, kind, payload);
    } else {
      assert IsPush(all[|acts|], a, kind, payload);
    }
  }

  lemma NodeLater(acts: seq<Action>, act: Action, a: Addr, e: Endpoint)
    requires NodePushed(acts, a, e)
    ensures NodePushed(acts + [act], a, e)
  {
    forall p: Packet | PacketPushed(acts, a, p) ensures PacketPushed(acts + [act], a, p) {
      if p.kind != ACKNOWLEDGEMENT { MoreActions(acts, act, a, p.kind, p.payload); }
    }
  }

  lemma WireLater(acts: seq<Action>, act: Action, w: Wire)
    requires WirePushed(acts, w)
    ensures WirePushed(acts + [act], w)
  {
    if w.kind != ACKNOWLEDGEMENT { MoreActions(acts, act, w.src, w.kind, w.payload); }
  }

  /** The endpoint's packets come from those it had, or are acknowledgements, or the one packet `p`. */
  predicate ComesFrom(e: Endpoint, e': Endpoint, extra: Option<Packet>) {
    && (forall p | p in e'.control :: p in e.control || p in e.data || p.kind == ACKNOWLEDGEMENT || extra == Some(p))
    && (forall p | p in e'.data :: p in e.control || p in e.data || p.kind == ACKNOWLEDGEMENT || extra == Some(p))
    && forall r | r in e'.receipts :: OldReceipt(e, r.1)
  }

  /** The packet has the type and payload of one held before. */
  predicate OldReceipt(e: Endpoint, p: Packet) {
    || (exists r :: r in e.receipts && r.1.kind == p.kind && r.1.payload == p.payload)
    || (exists x :: x in e.control && x.kind == p.kind && x.payload == p.payload)
    || (exists x :: x in e.data && x.kind == p.kind && x.payload == p.payload)
  }

  lemma NodeStep(acts: seq<Action>, a: Addr, e: Endpoint, e': Endpoint, extra: Option<Packet>)
    requires NodePushed(acts, a, e) && ComesFrom(e, e', extra)
    requires extra.Some? ==> PacketPushed(acts, a, extra.value)
    ensures NodePushed(acts, a, e')
  {
    forall r | r in e'.receipts ensures PacketPushed(acts, a, r.1) {
      assert OldReceipt(e, r.1);
      if x :| x in e.receipts && x.1.kind == r.1.kind && x.1.payload == r.1.payload {
        assert PacketPushed(acts, a, x.1);
      }
    }
  }

  // ----- Where each action's packets come from -----

  lemma PushComes(e: Endpoint, p: Packet, now: int)
    ensures ComesFrom(e, Push(e, p, now), Some(p))
  {
    PushEffect(e, p, now);
    ReceiptsRemain(e, Push(e, p, now));
  }

  lemma ReceiptsRemain(e: Endpoint, e': Endpoint)
    requires forall r | r in e'.receipts :: r in e.receipts
    ensures forall r | r in e'.receipts :: OldReceipt(e, r.1)
  {
  }

  lemma DispatchComes(e: Endpoint, ch: Channel, now: nat, sent: bool)
    requires e.nextSeq + 1 < U32_SIZE
    ensures ComesFrom(e, Dispatch(e, ch, now, sent).0, None)
    ensures var w := Dispatch(e, ch, now, sent).1;
            w.Some? ==> exists p :: (p in e.control || p in e.data) && w.value == ToWire(e, p, w.value.dst, e.nextSeq)
  {
    DispatchEffect(e, ch, now, sent);
    var (e', w) := Dispatch(e, ch, now, sent);
    if w.None? {
      ReceiptsRemain(e, e');
    } else {
      var p :| SendsAs(e, e', p, w.value, now);
      ReceiptComes(e, e', p, now);
      assert (p in e.control || p in e.data) && w.value == ToWire(e, p, w.value.dst, e.nextSeq);
    }
  }

  lemma ReceiptComes(e: Endpoint, e': Endpoint, p: Packet, now: nat)
    requires (p in e.control || p in e.data) && e'.receipts == AddReceipt(e, p, now).receipts
    ensures forall r | r in e'.receipts :: OldReceipt(e, r.1)
  {
    forall r | r in e'.receipts ensures OldReceipt(e, r.1) {
      if r !in e.receipts { assert r.1.kind == p.kind && r.1.payload == p.payload; }
    }
  }

  lemma ReceiveComes(e: Endpoint, w: Wire)
    ensures ComesFrom(e, Receive(e, w), None)
  {
    var e1 := e.(peers := e.peers + {w.src});
    if w.kind == ACKNOWLEDGEMENT {
      if |w.payload| >= 4 { RemovedMembers(e.receipts, AckedSeq(w.payload)); }
    } else if w.reliable {
      RemovedMembers(e.receipts, w.ackNum);
    }
    ReceiptsRemain(e, Receive(e, w));
  }

  lemma ScanComes(e: Endpoint, now: nat)
    ensures ComesFrom(e, Scan(e, now), None)
  {
    ScanMembers(now, e.receipts);
    forall r | r in Scan(e, now).receipts ensures OldReceipt(e, r.1) {
      var x :| x in e.receipts && !Drops(now, x.1) && ScanEntry(now, x) == [r];
      assert x in e.receipts && x.1.kind == r.1.kind && x.1.payload == r.1.payload;
    }
  }

  // ----- Every step -----

  /** The step changes endpoint `a`, and sends nothing but packets it held. */
  ghost predicate StepFrom(s: Net, s': Net, a: Addr, extra: Option<Packet>) {
    && a in s.nodes && a in s'.nodes && s.nodes[a].addr == a && s'.nodes == s.nodes[a := s'.nodes[a]]
    && ComesFrom(s.nodes[a], s'.nodes[a], extra)
    && forall w | w in s'.wires && w !in s.wires :: w.src == a && OldReceipt(s.nodes[a], Carried(w))
  }

  /** A packet with the type and payload of the datagram. */
  function Carried(w: Wire): Packet { Packet(Control, w.reliable, w.kind, w.dst, w.payload, 0, 0) }

  lemma StepPushed(acts: seq<Action>, act: Action, s: Net, s': Net, a: Addr, extra: Option<Packet>)
    requires AllPushed(acts, s) && StepFrom(s, s', a, extra)
    requires extra.Some? ==> IsPush(act, a, extra.value.kind, extra.value.payload)
    ensures AllPushed(acts + [act], s')
  {
    var later := acts + [act];
    forall b | b in s.nodes ensures NodePushed(later, b, s.nodes[b]) { NodeLater(acts, act, b, s.nodes[b]); }
    if extra.Some? { MoreActions(acts, act, a, extra.value.kind, extra.value.payload); }
    NodeStep(later, a, s.nodes[a], s'.nodes[a], extra);
    forall w | w in s'.wires ensures WirePushed(later, w) {
      if w in s.wires { WireLater(acts, act, w); } else { HeldIsPushed(later, a, s.nodes[a], Carried(w)); }
    }
  }

  lemma HeldIsPushed(acts: seq<Action>, a: Addr, e: Endpoint, p: Packet)
    requires NodePushed(acts, a, e) && OldReceipt(e, p)
    ensures PacketPushed(acts, a, p)
  {
    if r :| r in e.receipts && r.1.kind == p.kind && r.1.payload == p.payload { assert PacketPushed(acts, a, r.1); }
  }

  lemma DispatchFrom(s: Net, a: Addr, ch: Channel, sent: bool)
    requires Inv(s) && Enabled(s, DispatchOne(a, ch, sent))
    ensures StepFrom(s, NetStep(s, DispatchOne(a, ch, sent)), a, None)
  {
    assert NodeInv(s, a);
    DispatchComes(s.nodes[a], ch, s.clock, sent);
  }

  lemma ScanFrom(s: Net, a: Addr)
    requires Inv(s) && Enabled(s, RetryScan(a))
    ensures StepFrom(s, NetStep(s, RetryScan(a)), a, None)
  {
    var s', e := NetStep(s, RetryScan(a)), s.nodes[a];
    assert NodeInv(s, a);
    ScanComes(e, s.clock);
    ResentWires(s, a);
  }

  lemma NetStepPushed(acts: seq<Action>, s: Net, act: Action)
    requires Inv(s) && Enabled(s, act) && AllPushed(acts, s)
    ensures AllPushed(acts + [act], NetStep(s, act))
  {
    var s' := NetStep(s, act);
    match act
    case PushPacket(a, p, now) =>
      assert NodeInv(s, a);
      PushComes(s.nodes[a], p, now);
      StepPushed(acts, act, s, s', a, Some(p));
    case DispatchOne(a, ch, sent) =>
      DispatchFrom(s, a, ch, sent);
      StepPushed(acts, act, s, s', a, None);
    case ReceiveOne(a, w) =>
      assert NodeInv(s, a);
      ReceiveComes(s.nodes[a], w);
      StepPushed(acts, act, s, s', a, None);
    case RetryScan(a) =>
      ScanFrom(s, a);
      StepPushed(acts, act, s, s', a, None);
    case Tick(_) =>
      forall b | b in s.nodes ensures NodePushed(acts + [act], b, s.nodes[b]) { NodeLater(acts, act, b, s.nodes[b]); }
      forall w | w in s.wires ensures WirePushed(acts + [act], w) { WireLater(acts, act, w); }
  }

  lemma NothingYet(s: Net)
    requires Initial(s)
    ensures AllPushed([], s)
  {
    forall a | a in s.nodes ensures NodePushed([], a, s.nodes[a]) { assert FreshEndpoint(s.nodes[a], a, s.clock); }
  }

  lemma NextPushed(t: Execution, i: nat)
    requires i + 1 < |t.run| && AllPushed(t.acts[..i], t.run[i])
    ensures AllPushed(t.acts[..i + 1], t.run[i + 1])
  {
    var acts, s, act, s' := t.acts[..i], t.run[i], t.acts[i], t.run[i + 1];
    assert Inv(s) by { RunInv(t, i); }
    assert Enabled(s, act) && s' == NetStep(s, act) by { assert StepAt(t, i); }
    NetStepPushed(acts, s, act);
    assert t.acts[..i + 1] == acts + [act];
  }

  lemma {:induction false} RunPushed(t: Execution, i: nat)
    requires i < |t.run|
    ensures AllPushed(t.acts[..i], t.run[i])
  {
    if i == 0 {
      assert t.acts[..0] == [];
      NothingYet(t.run[0]);
    } else {
      RunPushed(t, i - 1);
      NextPushed(t, i - 1);
    }
  }

  /** No datagram comes from nothing: unless it is an acknowledgement, its sender's application pushed a packet of that
      type with that payload before. */
  lemma SentWasPushed(t: Execution, i: nat, w: Wire)
    requires i < |t.run| && w in t.run[i].wires && w.kind != ACKNOWLEDGEMENT
    ensures exists x :: 0 <= x < i && IsPush(t.acts[x], w.src, w.kind, w.payload)
  {
    RunPushed(t, i);
    assert WirePushed(t.acts[..i], w);
    var x :| 0 <= x < i && IsPush(t.acts[..i][x], w.src, w.kind, w.payload);
    assert IsPush(t.acts[x], w.src, w.kind, w.payload);
  }
}
