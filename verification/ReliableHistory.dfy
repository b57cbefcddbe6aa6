/** What a whole run of the network obliges an endpoint to do, said by what happened in the run: which arrivals reach
    the application, which packets must be queued, and when a pending datagram is sent again. */
module ReliableHistory {
  import opened Common
  import opened OrderedMap
  import opened RateLimiter
  import opened Reliable
  import opened ReliableAnswers
  import opened ReliableNetwork
  import opened ReliableDelivery
  import opened ReliableTheorems

  // ----- What reaches the application -----

  /** A reliable packet from `src` under that number arrives at `b`. */
  predicate Hears(act: Action, b: Addr, src: Addr, q: U32) {
    act.ReceiveOne? && act.a == b && act.w.kind != 1 && act.w.reliable && act.w.src == src && act.w.seqNum == q
  }

  predicate Heard(acts: seq<Action>, b: Addr, src: Addr, q: U32) {
    exists j :: 0 <= j < |acts| && Hears(acts[j], b, src, q)
  }

  /** A packet arrives at `b` that has to be handed over. */
  predicate IsNews(before: seq<Action>, act: Action, b: Addr) {
    && act.ReceiveOne? && act.a == b && act.w.kind != 1
    && (act.w.reliable ==> !Heard(before, b, act.w.src, act.w.seqNum))
  }

  /** What `b` has to hand to the application: every unreliable packet each time it arrives, every reliable one the
      first time its number arrives from its source. */
  function Handed(acts: seq<Action>, b: Addr): seq<Delivery> {
    if acts == [] then []
    else
      var before, act := acts[..|acts| - 1], acts[|acts| - 1];
      Handed(before, b) +
      if IsNews(before, act, b) then [Delivery(act.w.src, act.w.reliable, act.w.seqNum, act.w.kind, act.w.payload)]
      else []
  }

  /** Only an arrival touches what `b` has handed over or recorded. */
  lemma NoArrival(s: Net, act: Action, b: Addr)
    requires Enabled(s, act) && b in s.nodes && !(act.ReceiveOne? && act.a == b)
    ensures var e, e' := s.nodes[b], NetStep(s, act).nodes[b]; e'.delivered == e.delivered && e'.seen == e.seen
  {
    if act.PushPacket? && act.a == b { PushEffect(s.nodes[b], act.p, act.now); }
    if act.DispatchOne? && act.a == b { DispatchEffect(s.nodes[b], act.ch, s.clock, act.sent); }
  }

  /** What a step does to the deliveries of `b`. */
  lemma DeliveriesStep(s: Net, act: Action, b: Addr)
    requires Enabled(s, act) && b in s.nodes
    ensures NetStep(s, act).nodes[b].delivered
            == s.nodes[b].delivered + if act.ReceiveOne? && act.a == b then News(s.nodes[b], act.w) else []
  {
    if act.ReceiveOne? && act.a == b {
      ReceiveNews(s.nodes[b], act.w);
    } else {
      NoArrival(s, act, b);
    }
  }

  lemma SeenStep(s: Net, act: Action, b: Addr, src: Addr, q: U32)
    requires Enabled(s, act) && b in s.nodes
    ensures q in Seen(NetStep(s, act).nodes[b], src) <==> q in Seen(s.nodes[b], src) || Hears(act, b, src, q)
  {
    if act.ReceiveOne? && act.a == b {
      ReceiveAnswer(s.nodes[b], act.w);
    } else {
      NoArrival(s, act, b);
    }
  }

  lemma {:induction false} SeenIsHeard(t: Execution, i: nat, b: Addr, src: Addr, q: U32)
    requires i < |t.run| && b in t.run[0].nodes
    ensures b in t.run[i].nodes && (q in Seen(t.run[i].nodes[b], src) <==> Heard(t.acts[..i], b, src, q))
  {
    if i == 0 {
      assert FreshEndpoint(t.run[0].nodes[b], b, t.run[0].clock);
    } else {
      SeenIsHeard(t, i - 1, b, src, q);
      assert StepAt(t, i - 1);
      SeenStep(t.run[i - 1], t.acts[i - 1], b, src, q);
      HeardOneMore(t.acts, i - 1, b, src, q);
    }
  }

  lemma HeardOneMore(acts: seq<Action>, i: nat, b: Addr, src: Addr, q: U32)
    requires i < |acts|
    ensures Heard(acts[..i + 1], b, src, q) <==> Heard(acts[..i], b, src, q) || Hears(acts[i], b, src, q)
  {
    var before, after := acts[..i], acts[..i + 1];
    if Hears(acts[i], b, src, q) { assert Hears(after[i], b, src, q); }
    if Heard(before, b, src, q) {
      var j :| 0 <= j < |before| && Hears(before[j], b, src, q);
      assert Hears(after[j], b, src, q);
    }
    if Heard(after, b, src, q) {
      var j :| 0 <= j < |after| && Hears(after[j], b, src, q);
      if j < i { assert Hears(before[j], b, src, q); }
    }
  }

  /** In every run the application gets exactly that, in the order of the arrivals. */
  lemma {:induction false} DeliveredIsHanded(t: Execution, i: nat, b: Addr)
    requires i < |t.run| && b in t.run[0].nodes
    ensures b in t.run[i].nodes && t.run[i].nodes[b].delivered == Handed(t.acts[..i], b)
  {
    if i == 0 {
      assert FreshEndpoint(t.run[0].nodes[b], b, t.run[0].clock);
    } else {
      DeliveredIsHanded(t, i - 1, b);
      assert StepAt(t, i - 1);
      DeliveriesStep(t.run[i - 1], t.acts[i - 1], b);
      assert t.acts[..i][..i - 1] == t.acts[..i - 1];
      var act := t.acts[i - 1];
      if act.ReceiveOne? { SeenIsHeard(t, i - 1, b, act.w.src, act.w.seqNum); }
    }
  }

  // ----- What must be queued -----

  /** The packets the application of `a` pushed, as the limiter sees them. */
  function Requests(acts: seq<Action>, a: Addr): seq<Request> {
    if acts == [] then []
    else
      var act := acts[|acts| - 1];
      Requests(acts[..|acts| - 1], a) +
      if act.PushPacket? && act.a == a then [Request(act.now, |act.p.payload|)] else []
  }

  lemma LimiterStep(s: Net, act: Action, a: Addr)
    requires Enabled(s, act) && a in s.nodes
    ensures var e, e' := s.nodes[a], NetStep(s, act).nodes[a];
            && e'.limits == e.limits
            && e'.limiter == if act.PushPacket? && act.a == a
                             then Check(e.limits, e.limiter, act.now, |act.p.payload|).0 else e.limiter
  {
  }

  lemma {:induction false} LimiterFollows(t: Execution, i: nat, a: Addr, t0: int)
    requires i < |t.run| && a in t.run[0].nodes
    requires t.run[0].nodes[a].limiter == Start(t.run[0].nodes[a].limits, t0)
    ensures a in t.run[i].nodes && t.run[i].nodes[a].limits == t.run[0].nodes[a].limits
    ensures t.run[i].nodes[a].limiter == After(t.run[0].nodes[a].limits, t0, Requests(t.acts[..i], a))
  {
    if i > 0 {
      LimiterFollows(t, i - 1, a, t0);
      assert StepAt(t, i - 1);
      LimiterStep(t.run[i - 1], t.acts[i - 1], a);
      var act := t.acts[i - 1];
      var before := Requests(t.acts[..i - 1], a);
      assert t.acts[..i][..i - 1] == t.acts[..i - 1];
      if act.PushPacket? && act.a == a {
        assert (before + [Request(act.now, |act.p.payload|)])[..|before|] == before;
      } else {
        assert before + [] == before;
      }
    }
  }

  lemma RequestsWith(acts: seq<Action>, i: nat, a: Addr)
    requires i < |acts| && acts[i].PushPacket? && acts[i].a == a
    ensures Requests(acts[..i + 1], a) == Requests(acts[..i], a) + [Request(acts[i].now, |acts[i].p.payload|)]
  {
    assert acts[..i + 1][..i] == acts[..i];
  }

  /** The limiter has room when the run of its requests says so. */
  lemma MustHaveRoom(cfg: RateLimitConfig, t0: int, before: seq<Request>, r: Request)
    requires InOrder(t0, before + [r])
    requires Asked(before + [r], Packets, r.time - 1_000_000_000) <= cfg.maxPackets + cfg.burst
    requires Asked(before + [r], PayloadBytes, r.time - 1_000_000_000) <= cfg.maxBytes
    ensures Room(cfg, After(cfg, t0, before), r.time, r.size)
  {
    var rs := before + [r];
    assert rs[..|rs| - 1] == before && rs[|rs| - 1] == r;
    MustAdmit(cfg, t0, rs);
    RoomDecides(cfg, After(cfg, t0, before), r.time, r.size);
  }

  /** In the run the limiter has room then. */
  lemma HasRoom(t: Execution, i: nat, a: Addr, t0: int, r: Request)
    requires i < |t.acts| && a in t.run[0].nodes
    requires t.run[0].nodes[a].limiter == Start(t.run[0].nodes[a].limits, t0)
    requires var cfg, rs := t.run[0].nodes[a].limits, Requests(t.acts[..i], a) + [r];
             && InOrder(t0, rs) && Asked(rs, Packets, r.time - 1_000_000_000) <= cfg.maxPackets + cfg.burst
             && Asked(rs, PayloadBytes, r.time - 1_000_000_000) <= cfg.maxBytes
    ensures a in t.run[i].nodes && Room(t.run[i].nodes[a].limits, t.run[i].nodes[a].limiter, r.time, r.size)
  {
    MustHaveRoom(t.run[0].nodes[a].limits, t0, Requests(t.acts[..i], a), r);
    LimiterFollows(t, i, a, t0);
  }

  lemma QueuedWithRoom(e: Endpoint, p: Packet, now: int)
    requires Room(e.limits, e.limiter, now, |p.payload|)
    ensures Waiting(Push(e, p, now), p.channel) == Waiting(e, p.channel) + [p]
  {
    PushAnswer(e, p, now);
  }

  lemma PushedNode(t: Execution, i: nat, a: Addr, p: Packet, now: int)
    requires i < |t.acts| && t.acts[i] == PushPacket(a, p, now)
    ensures a in t.run[i].nodes && a in t.run[i + 1].nodes && t.run[i + 1].nodes[a] == Push(t.run[i].nodes[a], p, now)
  {
    assert StepAt(t, i);
  }

  /** A packet is queued whenever what its application pushed within the second before, itself included, is no more than
      the limits allow, however much of that was refused. */
  lemma PushWithinLimitsIsQueued(t: Execution, i: nat, a: Addr, t0: int, p: Packet, now: int)
    requires i < |t.acts| && t.acts[i] == PushPacket(a, p, now) && a in t.run[0].nodes
    requires t.run[0].nodes[a].limiter == Start(t.run[0].nodes[a].limits, t0)
    requires var cfg, rs := t.run[0].nodes[a].limits, Requests(t.acts[..i + 1], a);
             && InOrder(t0, rs) && Asked(rs, Packets, now - 1_000_000_000) <= cfg.maxPackets + cfg.burst
             && Asked(rs, PayloadBytes, now - 1_000_000_000) <= cfg.maxBytes
    ensures a in t.run[i].nodes && a in t.run[i + 1].nodes
    ensures Waiting(t.run[i + 1].nodes[a], p.channel) == Waiting(t.run[i].nodes[a], p.channel) + [p]
  {
    RequestsWith(t.acts, i, a);
    PushedNode(t, i, a, p, now);
    HasRoom(t, i, a, t0, Request(now, |p.payload|));
    QueuedWithRoom(t.run[i].nodes[a], p, now);
  }

  // ----- When a pending datagram is sent again -----

  /** The clock when the datagram was last put on the network, up to state `i`. */
  function LastSent(t: Execution, i: nat, w: Wire): nat
    requires i < |t.run|
  {
    if i == 0 then 0
    else
      assert StepAt(t, i - 1);
      if w in Sends(t.run[i - 1], t.acts[i - 1]) then t.run[i - 1].clock else LastSent(t, i - 1, w)
  }

  /** The datagram was sent, and its sender waits for an acknowledgement. */
  predicate Awaited(s: Net, a: Addr, w: Wire) {
    w in s.wires && w.reliable && w.src == a && a in s.nodes && HasKey(s.nodes[a].receipts, w.seqNum)
  }

  /** The receipt of the datagram knows when it was last sent. */
  ghost predicate TimeKnown(t: Execution, i: nat, a: Addr, w: Wire)
    requires i < |t.run| && a in t.run[i].nodes
  {
    forall r | r in t.run[i].nodes[a].receipts && r.0 == w.seqNum :: r.1.lastSend == LastSent(t, i, w) % 0x1_0000_0000
  }

  /** The receipt of a datagram holds what was sent. */
  lemma ReceiptOf(s: Net, a: Addr, r: (U32, Packet), w: Wire)
    requires Inv(s) && a in s.nodes && r in s.nodes[a].receipts
    requires w in s.wires && w.reliable && w.src == a && w.seqNum == r.0
    ensures GoesTo(s.nodes[a], r.1, w.dst) && IsDatagramOf(s.nodes[a], r.1, r.0, w.dst, w)
  {
    assert NodeInv(s, a) && ReceiptOk(s, a, r);
    assert ToWire(s.nodes[a], r.1, Route(s.nodes[a], r.1.dest).value, r.0) == w;
  }

  /** A scan repeats the datagram if and only if its receipt is of that age. */
  lemma RepeatedIff(s: Net, a: Addr, r: (U32, Packet), w: Wire)
    requires Inv(s) && a in s.nodes && r in s.nodes[a].receipts
    requires w in s.wires && w.reliable && w.src == a && w.seqNum == r.0
    ensures w in Sends(s, RetryScan(a)) <==> 1 < Elapsed(s.clock, r.1) <= 5
  {
    ReceiptOf(s, a, r, w);
    ScanRepeats(s.nodes[a], s.clock);
    if w in Sends(s, RetryScan(a)) {
      var x :| x in s.nodes[a].receipts && Repeats(s.nodes[a], s.clock, x, w);
      assert NodeInv(s, a) && ReceiptOk(s, a, x);
      OneEntry(s.nodes[a].receipts, r, x);
    }
  }

  lemma RenewedFrom(e: Endpoint, now: nat, r: (U32, Packet)) returns (x: (U32, Packet))
    requires r in Scan(e, now).receipts
    ensures x in e.receipts && Elapsed(now, x.1) <= 5 && r == Renewed(now, x)
  {
    ScanGivesUp(e, now);
    x :| x in e.receipts && Elapsed(now, x.1) <= 5 && r == Renewed(now, x);
  }

  lemma TimeAfterScan(t: Execution, i: nat, a: Addr, r: (U32, Packet), w: Wire)
    requires i < |t.acts| && t.acts[i] == RetryScan(a) && a in t.run[i].nodes && Inv(t.run[i])
    requires w in t.run[i].wires && w.reliable && w.src == a && TimeKnown(t, i, a, w)
    requires r in Scan(t.run[i].nodes[a], t.run[i].clock).receipts && r.0 == w.seqNum
    ensures r.1.lastSend == LastSent(t, i + 1, w) % 0x1_0000_0000
  {
    var s := t.run[i];
    assert Enabled(s, RetryScan(a)) by { assert StepAt(t, i); }
    var x := RenewedFrom(s.nodes[a], s.clock, r);
    RepeatedIff(s, a, x, w);
  }

  lemma TimeAfterDispatch(t: Execution, i: nat, a: Addr, r: (U32, Packet), w: Wire)
    requires i < |t.acts| && t.acts[i].DispatchOne? && t.acts[i].a == a && a in t.run[i].nodes && Inv(t.run[i])
    requires w in t.run[i + 1].wires && w.reliable && w.src == a && a in t.run[i + 1].nodes
    requires w in t.run[i].wires ==> TimeKnown(t, i, a, w)
    requires r in t.run[i + 1].nodes[a].receipts && r.0 == w.seqNum
    ensures r.1.lastSend == LastSent(t, i + 1, w) % 0x1_0000_0000
  {
    assert StepAt(t, i);
    var s, e := t.run[i], t.run[i].nodes[a];
    DispatchEffect(e, t.acts[i].ch, s.clock, t.acts[i].sent);
    assert NodeInv(s, a);
    var sends := Sends(s, t.acts[i]);
    if r in e.receipts {
      assert ReceiptOk(s, a, r);
      assert w !in sends;
    } else {
      assert r.0 == e.nextSeq && r.1.lastSend == Clock32(s.clock);
      assert w in s.wires ==> WireOk(s, w);
      assert w in sends;
    }
  }

  /** What another endpoint puts on the network does not come from `a`. */
  lemma SendsOfOthers(s: Net, act: Action, a: Addr, w: Wire)
    requires Inv(s) && Enabled(s, act) && w in Sends(s, act) && w.src == a
    ensures (act.DispatchOne? && act.a == a) || act == RetryScan(a)
  {
    assert NodeInv(s, act.a);
    if act.DispatchOne? { DispatchEffect(s.nodes[act.a], act.ch, s.clock, act.sent); }
  }

  /** A step that neither sends nor repeats anything from `a` adds no receipt there. */
  lemma QuietReceipts(s: Net, act: Action, a: Addr)
    requires Enabled(s, act) && a in s.nodes && !(act.DispatchOne? && act.a == a) && act != RetryScan(a)
    ensures var e, e' := s.nodes[a], NetStep(s, act).nodes[a];
            e'.lastScan == e.lastScan && forall r | r in e'.receipts :: r in e.receipts
  {
    if act.ReceiveOne? && act.a == a { ReceiveShrinks(s.nodes[a], act.w); }
    if act.PushPacket? && act.a == a { PushEffect(s.nodes[a], act.p, act.now); }
  }

  lemma QuietFor(t: Execution, i: nat, a: Addr)
    requires i < |t.acts| && a in t.run[i].nodes && Inv(t.run[i])
    requires !(t.acts[i].DispatchOne? && t.acts[i].a == a) && t.acts[i] != RetryScan(a)
    ensures a in t.run[i + 1].nodes && t.run[i + 1].nodes[a].lastScan == t.run[i].nodes[a].lastScan
    ensures t.run[i].clock <= t.run[i + 1].clock
    ensures forall r | r in t.run[i + 1].nodes[a].receipts :: r in t.run[i].nodes[a].receipts
    ensures forall w: Wire | w.src == a :: (w in t.run[i + 1].wires <==> w in t.run[i].wires)
    ensures forall w: Wire | w.src == a :: LastSent(t, i + 1, w) == LastSent(t, i, w)
  {
    var s, act := t.run[i], t.acts[i];
    assert StepAt(t, i);
    forall w: Wire | w.src == a ensures w !in Sends(s, act) { if w in Sends(s, act) { SendsOfOthers(s, act, a, w); } }
    QuietReceipts(s, act, a);
  }

  lemma TimeNext(t: Execution, i: nat, a: Addr, w: Wire)
    requires i < |t.acts| && a in t.run[i].nodes && Inv(t.run[i])
    requires w in t.run[i + 1].wires && w.reliable && w.src == a && a in t.run[i + 1].nodes
    requires w in t.run[i].wires ==> TimeKnown(t, i, a, w)
    ensures TimeKnown(t, i + 1, a, w)
  {
    assert StepAt(t, i);
    forall r | r in t.run[i + 1].nodes[a].receipts && r.0 == w.seqNum
      ensures r.1.lastSend == LastSent(t, i + 1, w) % 0x1_0000_0000
    {
      if t.acts[i].DispatchOne? && t.acts[i].a == a {
        TimeAfterDispatch(t, i, a, r, w);
      } else if t.acts[i] == RetryScan(a) {
        assert NodeInv(t.run[i], a);
        ResentWires(t.run[i], a);
        TimeAfterScan(t, i, a, r, w);
      } else {
        QuietFor(t, i, a);
      }
    }
  }

  lemma {:induction false} TimesKnown(t: Execution, i: nat, a: Addr, w: Wire)
    requires i < |t.run| && w in t.run[i].wires && w.reliable && w.src == a && a in t.run[i].nodes
    ensures TimeKnown(t, i, a, w)
  {
    if i > 0 {
      assert Inv(t.run[i - 1]) by { RunInv(t, i - 1); }
      assert StepAt(t, i - 1);
      if w in t.run[i - 1].wires { TimesKnown(t, i - 1, a, w); }
      TimeNext(t, i - 1, a, w);
    }
  }

  lemma HasKeyAt(rs: Receipts, r: (U32, Packet))
    requires r in rs
    ensures HasKey(rs, r.0)
  {
    var k :| 0 <= k < |rs| && rs[k] == r;
  }

  lemma ElapsedSince(now: nat, at: nat, p: Packet)
    requires p.lastSend == at % 0x1_0000_0000
    ensures Elapsed(now, p) == Since(now, at)
  {
    assert at == at / 0x1_0000_0000 * 0x1_0000_0000 + p.lastSend;
  }

  lemma GivenUp(e: Endpoint, now: nat, r: (U32, Packet))
    requires DistinctKeys(e.receipts) && r in e.receipts && Elapsed(now, r.1) > 5
    ensures !HasKey(Scan(e, now).receipts, r.0)
  {
    ScanGivesUp(e, now);
    var rs := Scan(e, now).receipts;
    if k :| 0 <= k < |rs| && rs[k].0 == r.0 {
      assert rs[k] in rs;
      var x :| x in e.receipts && Elapsed(now, x.1) <= 5 && rs[k] == Renewed(now, x);
      OneEntry(e.receipts, r, x);
    }
  }

  lemma KeptIff(e: Endpoint, now: nat, r: (U32, Packet))
    requires DistinctKeys(e.receipts) && r in e.receipts
    ensures HasKey(Scan(e, now).receipts, r.0) <==> Elapsed(now, r.1) <= 5
  {
    if Elapsed(now, r.1) <= 5 {
      assert Renewed(now, r) in Scan(e, now).receipts by { ScanGivesUp(e, now); }
      HasKeyAt(Scan(e, now).receipts, Renewed(now, r));
    } else {
      GivenUp(e, now, r);
    }
  }

  /** A scan repeats only awaited datagrams. */
  lemma RepeatsAwaited(s: Net, a: Addr, w: Wire)
    requires Inv(s) && a in s.nodes && w.reliable && w.src == a && w in Sends(s, RetryScan(a))
    ensures Awaited(s, a, w)
  {
    assert NodeInv(s, a);
    ResentWires(s, a);
    ScanRepeats(s.nodes[a], s.clock);
    var x :| x in s.nodes[a].receipts && Repeats(s.nodes[a], s.clock, x, w);
    assert ReceiptOk(s, a, x);
    HasKeyAt(s.nodes[a].receipts, x);
  }

  /** The time between two clock values, in 32-bit arithmetic. */
  function Since(now: nat, at: nat): nat { (now - at) % 0x1_0000_0000 }

  /** What a scan does with an awaited datagram. */
  lemma AwaitedFate(s: Net, a: Addr, w: Wire, at: nat)
    requires Inv(s) && Awaited(s, a, w)
    requires forall r | r in s.nodes[a].receipts && r.0 == w.seqNum :: r.1.lastSend == at % 0x1_0000_0000
    ensures w in Sends(s, RetryScan(a)) <==> 1 < Since(s.clock, at) <= 5
    ensures HasKey(NetStep(s, RetryScan(a)).nodes[a].receipts, w.seqNum) <==> Since(s.clock, at) <= 5
  {
    var rs := s.nodes[a].receipts;
    var k :| 0 <= k < |rs| && rs[k].0 == w.seqNum;
    assert rs[k] in rs;
    ElapsedSince(s.clock, at, rs[k].1);
    RepeatedIff(s, a, rs[k], w);
    KeptIff(s.nodes[a], s.clock, rs[k]);
  }

  /** In every run, a scan sends an awaited datagram again if and only if it was last sent more than one second ago and
      at most five, and gives it up if and only if it was longer ago; it sends nothing but awaited datagrams. */
  lemma SentAgainExactly(t: Execution, i: nat, a: Addr, w: Wire)
    requires i < |t.acts| && t.acts[i] == RetryScan(a) && Enabled(t.run[i], t.acts[i]) && w.reliable && w.src == a
    ensures a in t.run[i + 1].nodes
    ensures w in Sends(t.run[i], t.acts[i])
            <==> Awaited(t.run[i], a, w) && 1 < Since(t.run[i].clock, LastSent(t, i, w)) <= 5
    ensures Awaited(t.run[i], a, w) ==>
              (HasKey(t.run[i + 1].nodes[a].receipts, w.seqNum) <==> Since(t.run[i].clock, LastSent(t, i, w)) <= 5)
  {
    assert t.run[i + 1] == NetStep(t.run[i], RetryScan(a)) by { assert StepAt(t, i); }
    assert Inv(t.run[i]) by { RunInv(t, i); }
    if Awaited(t.run[i], a, w) {
      TimesKnown(t, i, a, w);
      AwaitedFate(t.run[i], a, w, LastSent(t, i, w));
    } else if w in Sends(t.run[i], t.acts[i]) {
      RepeatsAwaited(t.run[i], a, w);
    }
  }

  // ----- With scans at most four seconds apart -----

  /** No awaited datagram had at the last scan been silent for more than a second. */
  predicate Timely(t: Execution, i: nat, a: Addr, w: Wire)
    requires i < |t.run| && a in t.run[i].nodes
  {
    LastSent(t, i, w) <= t.run[i].clock && t.run[i].nodes[a].lastScan <= LastSent(t, i, w) + 1
  }

  lemma DispatchAdds(e: Endpoint, ch: Channel, now: nat, sent: bool)
    ensures var rs := Dispatch(e, ch, now, sent).0.receipts;
            e.receipts <= rs && forall k | |e.receipts| <= k < |rs| :: rs[k].0 == e.nextSeq
  {
  }

  /** A dispatch makes nothing awaited but what it sends. */
  lemma DispatchAwaits(s: Net, act: Action, a: Addr, w: Wire)
    requires Inv(s) && Enabled(s, act) && act.DispatchOne? && act.a == a && Awaited(NetStep(s, act), a, w)
    requires w !in Sends(s, act)
    ensures Awaited(s, a, w)
  {
    var e, e' := s.nodes[a], NetStep(s, act).nodes[a];
    DispatchAdds(e, act.ch, s.clock, act.sent);
    assert w in s.wires && w.seqNum < e.nextSeq by { assert WireOk(s, w); }
    KeyFromBefore(e, e', w.seqNum);
  }

  lemma KeyFromBefore(e: Endpoint, e': Endpoint, q: U32)
    requires HasKey(e'.receipts, q) && q != e.nextSeq
    requires e.receipts <= e'.receipts
    requires forall k | |e.receipts| <= k < |e'.receipts| :: e'.receipts[k].0 == e.nextSeq
    ensures HasKey(e.receipts, q)
  {
    var k :| 0 <= k < |e'.receipts| && e'.receipts[k].0 == q;
    assert e.receipts[k] == e'.receipts[k];
  }

  /** A scan makes nothing awaited. */
  lemma ScanAwaits(s: Net, a: Addr, w: Wire)
    requires Inv(s) && Enabled(s, RetryScan(a)) && Awaited(NetStep(s, RetryScan(a)), a, w)
    ensures Awaited(s, a, w)
  {
    assert NodeInv(s, a);
    ResentWires(s, a);
    var rs := NetStep(s, RetryScan(a)).nodes[a].receipts;
    var k :| 0 <= k < |rs| && rs[k].0 == w.seqNum;
    assert rs[k] in rs;
    var x := RenewedFrom(s.nodes[a], s.clock, rs[k]);
    HasKeyAt(s.nodes[a].receipts, x);
  }

  lemma DispatchIsNoScan(e: Endpoint, ch: Channel, now: nat, sent: bool)
    ensures Dispatch(e, ch, now, sent).0.lastScan == e.lastScan
  {
  }

  lemma TimelyAfterDispatch(t: Execution, i: nat, a: Addr, w: Wire)
    requires i < |t.acts| && a in t.run[i].nodes && Inv(t.run[i]) && Awaited(t.run[i + 1], a, w)
    requires t.acts[i].DispatchOne? && t.acts[i].a == a && t.run[i].nodes[a].lastScan <= t.run[i].clock
    requires Awaited(t.run[i], a, w) ==> Timely(t, i, a, w)
    ensures Timely(t, i + 1, a, w)
  {
    var s, s', act := t.run[i], t.run[i + 1], t.acts[i];
    assert Enabled(s, act) && s' == NetStep(s, act) by { assert StepAt(t, i); }
    assert s'.nodes[a].lastScan == s.nodes[a].lastScan by { DispatchIsNoScan(s.nodes[a], act.ch, s.clock, act.sent); }
    assert s'.clock == s.clock;
    if w !in Sends(s, act) { DispatchAwaits(s, act, a, w); }
  }

  lemma RecentlySince(now: nat, at: nat)
    requires at <= now <= at + 5
    ensures Since(now, at) == now - at
  {
  }

  lemma TimelyAfterScan(t: Execution, i: nat, a: Addr, w: Wire)
    requires i < |t.acts| && a in t.run[i].nodes && Inv(t.run[i]) && Awaited(t.run[i + 1], a, w)
    requires t.acts[i] == RetryScan(a) && t.run[i].clock - t.run[i].nodes[a].lastScan <= 4
    requires Awaited(t.run[i], a, w) ==> Timely(t, i, a, w)
    ensures Timely(t, i + 1, a, w)
  {
    assert StepAt(t, i);
    ScanAwaits(t.run[i], a, w);
    SentAgainExactly(t, i, a, w);
    RecentlySince(t.run[i].clock, LastSent(t, i, w));
  }

  lemma TimelyNext(t: Execution, i: nat, a: Addr, w: Wire)
    requires i < |t.acts| && a in t.run[i].nodes && Inv(t.run[i]) && Awaited(t.run[i + 1], a, w)
    requires t.run[i].nodes[a].lastScan <= t.run[i].clock
    requires t.acts[i] == RetryScan(a) ==> t.run[i].clock - t.run[i].nodes[a].lastScan <= 4
    requires Awaited(t.run[i], a, w) ==> Timely(t, i, a, w)
    ensures Timely(t, i + 1, a, w)
  {
    if t.acts[i].DispatchOne? && t.acts[i].a == a {
      TimelyAfterDispatch(t, i, a, w);
    } else if t.acts[i] == RetryScan(a) {
      TimelyAfterScan(t, i, a, w);
    } else {
      QuietFor(t, i, a);
      var rs := t.run[i + 1].nodes[a].receipts;
      var k :| 0 <= k < |rs| && rs[k].0 == w.seqNum;
      assert rs[k] in rs;
      HasKeyAt(t.run[i].nodes[a].receipts, rs[k]);
    }
  }

  lemma ScanIsPast(t: Execution, i: nat, a: Addr)
    requires i < |t.run| && a in t.run[0].nodes && ScansOften(t, i, a)
    ensures a in t.run[i].nodes && t.run[i].nodes[a].lastScan <= t.run[i].clock
  {
    NothingDropped(t, i, a);
  }

  lemma AlwaysThere(t: Execution, i: nat, a: Addr)
    requires i < |t.run| && a in t.run[i].nodes
    ensures a in t.run[0].nodes
  {
    SameNodes(t, i);
  }

  lemma OftenBefore(t: Execution, i: nat, a: Addr)
    requires i + 1 < |t.run| && ScansOften(t, i + 1, a) && a in t.run[i].nodes
    ensures ScansOften(t, i, a)
    ensures t.acts[i] == RetryScan(a) ==> t.run[i].clock - t.run[i].nodes[a].lastScan <= 4
  {
  }

  /** In every run that scans that often, what is still awaited was last sent no longer than a second before the last
      scan. */
  lemma {:induction false} RepeatedInTime(t: Execution, i: nat, a: Addr, w: Wire)
    requires i < |t.run| && ScansOften(t, i, a) && Awaited(t.run[i], a, w)
    ensures Timely(t, i, a, w)
  {
    AlwaysThere(t, i, a);
    if i > 0 {
      ScanIsPast(t, i - 1, a);
      OftenBefore(t, i - 1, a);
      if Awaited(t.run[i - 1], a, w) { RepeatedInTime(t, i - 1, a, w); }
      assert Inv(t.run[i - 1]) by { RunInv(t, i - 1); }
      TimelyNext(t, i - 1, a, w);
    }
  }
}
