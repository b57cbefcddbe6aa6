/** Every operation of an endpoint keeps its byte and packet counters right. */
module ReliableCounters {
  import opened Common
  import opened OrderedMap
  import opened RateLimiter
  import opened Reliable

  // ----- Queues -----

  lemma QueueAppend(q: seq<Packet>, p: Packet)
    ensures QueueBytes(q + [p]) == QueueBytes(q) + |p.payload|
  {
    assert (q + [p])[..|q|] == q;
  }

  lemma {:induction false} QueueWithout(q: seq<Packet>, i: nat)
    requires i < |q|
    ensures QueueBytes(q) == QueueBytes(Without(q, i)) + |q[i].payload|
  {
    if i == |q| - 1 {
      assert Without(q, i) == q[..|q| - 1];
    } else {
      var front := q[..|q| - 1];
      QueueWithout(front, i);
      assert Without(q, i)[..|q| - 2] == Without(front, i);
    }
  }

  // ----- Receipts -----

  lemma {:induction false} RemovedMembers(rs: Receipts, k: U32)
    ensures forall r :: r in Removed(rs, k) <==> r in rs && r.0 != k
  {
    if rs != [] { RemovedMembers(rs[..|rs| - 1], k); }
  }

  lemma {:induction false} RemovedDistinct(rs: Receipts, k: U32)
    requires DistinctKeys(rs)
    ensures DistinctKeys(Removed(rs, k))
  {
    if rs != [] {
      var front := rs[..|rs| - 1];
      RemovedDistinct(front, k);
      RemovedMembers(front, k);
      forall i | 0 <= i < |Removed(front, k)| ensures Removed(front, k)[i].0 != rs[|rs| - 1].0 {
        assert Removed(front, k)[i] in front;
      }
    }
  }

  lemma {:induction false} RemovedSizes(rs: Receipts, k: U32)
    requires DistinctKeys(rs) && Lookup(rs, k).Some?
    ensures |Removed(rs, k)| == |rs| - 1
    ensures ReceiptBytes(rs) == ReceiptBytes(Removed(rs, k)) + |Lookup(rs, k).value.payload|
  {
    var front, last := rs[..|rs| - 1], rs[|rs| - 1];
    if last.0 == k {
      RemovedAbsent(front, k);
      assert Removed(rs, k) == front;
    } else {
      RemovedSizes(front, k);
      var r := Removed(rs, k);
      assert r[..|r| - 1] == Removed(front, k) && r[|r| - 1] == last;
    }
  }

  lemma HasKeyIffMember(rs: Receipts, k: U32)
    ensures HasKey(rs, k) <==> exists r :: r in rs && r.0 == k
  {
    if i :| 0 <= i < |rs| && rs[i].0 == k { assert rs[i] in rs; }
  }

  // ----- The scan -----

  /** Which entries survive a scan, and how. */
  lemma {:induction false} ScanMembers(now: nat, rs: Receipts)
    ensures forall r :: r in ScanReceipts(now, rs) <==>
              exists x :: x in rs && !Drops(now, x.1) && ScanEntry(now, x) == [r]
  {
    if rs != [] {
      var front, last := rs[..|rs| - 1], rs[|rs| - 1];
      ScanMembers(now, front);
      forall r
        ensures r in ScanReceipts(now, rs) <==> exists x :: x in rs && !Drops(now, x.1) && ScanEntry(now, x) == [r]
      {
        if r in ScanReceipts(now, rs) {
          if r in ScanEntry(now, last) { assert last in rs && ScanEntry(now, last) == [r]; }
        }
        if x :| x in rs && !Drops(now, x.1) && ScanEntry(now, x) == [r] {
          assert x in front || x == last;
        }
      }
    }
  }

  lemma {:induction false} ScanDistinct(now: nat, rs: Receipts)
    requires DistinctKeys(rs)
    ensures DistinctKeys(ScanReceipts(now, rs))
  {
    if rs != [] {
      var front, last := rs[..|rs| - 1], rs[|rs| - 1];
      ScanDistinct(now, front);
      ScanMembers(now, front);
      var s := ScanReceipts(now, front);
      forall i | 0 <= i < |s| ensures s[i].0 != last.0 {
        assert s[i] in s;
        var x :| x in front && !Drops(now, x.1) && ScanEntry(now, x) == [s[i]];
        var j :| 0 <= j < |front| && front[j] == x;
        assert rs[j].0 != last.0;
      }
    }
  }

  lemma BytesAppend(rs: Receipts, r: (U32, Packet))
    ensures ReceiptBytes(rs + [r]) == ReceiptBytes(rs) + |r.1.payload|
  {
    assert (rs + [r])[..|rs|] == rs;
  }

  /** A scan loses exactly what it drops. */
  lemma {:induction false} ScanSizes(now: nat, rs: Receipts)
    ensures |rs| == |ScanReceipts(now, rs)| + |Dropped(now, rs)|
    ensures ReceiptBytes(rs) == ReceiptBytes(ScanReceipts(now, rs)) + ReceiptBytes(Dropped(now, rs))
  {
    if rs != [] {
      var front, last := rs[..|rs| - 1], rs[|rs| - 1];
      ScanSizes(now, front);
      if Drops(now, last.1) {
        BytesAppend(Dropped(now, front), last);
        assert ScanReceipts(now, rs) == ScanReceipts(now, front);
      } else {
        BytesAppend(ScanReceipts(now, front), ScanEntry(now, last)[0]);
        assert ScanReceipts(now, rs) == ScanReceipts(now, front) + [ScanEntry(now, last)[0]];
        assert Dropped(now, rs) == Dropped(now, front);
      }
    }
  }

  // ----- Operations -----

  lemma EnqueueCounters(e: Endpoint, p: Packet, l: Limiter)
    requires CountersOk(e)
    ensures CountersOk(e.(limiter := l))
    ensures CountersOk(e.(limiter := l, control := e.control + [p], controlBytes := e.controlBytes + |p.payload|))
    ensures CountersOk(e.(limiter := l, data := e.data + [p], dataBytes := e.dataBytes + |p.payload|))
  {
    QueueAppend(e.control, p);
    QueueAppend(e.data, p);
  }

  lemma PushCounters(e: Endpoint, p: Packet, now: int)
    requires CountersOk(e)
    ensures CountersOk(Push(e, p, now))
  {
    EnqueueCounters(e, p, Check(e.limits, e.limiter, now, |p.payload|).0);
  }

  lemma DequeueCounters(e: Endpoint, ch: Channel)
    requires CountersOk(e)
    ensures CountersOk(Dequeue(e, ch).0)
  {
    var q := if ch.Control? then e.control else e.data;
    if q != [] { QueueWithout(q, NextIndex(q)); }
  }

  lemma AddReceiptCounters(e: Endpoint, p: Packet, now: nat)
    requires CountersOk(e)
    ensures CountersOk(AddReceipt(e, p, now))
  {
    var r := (e.nextSeq, p.(lastSend := Clock32(now)));
    BytesAppend(e.receipts, r);
    if !HasKey(e.receipts, e.nextSeq) {
      assert DistinctKeys(e.receipts + [r]);
    }
  }

  lemma DispatchCounters(e: Endpoint, ch: Channel, now: nat, sent: bool)
    requires CountersOk(e)
    ensures CountersOk(Dispatch(e, ch, now, sent).0)
  {
    DequeueCounters(e, ch);
    var (e', p) := Dequeue(e, ch);
    if p.Some? { AddReceiptCounters(e', p.value, now); }
  }

  /** Clearing a receipt never saturates. */
  lemma AcknowledgeCounters(e: Endpoint, src: Addr, q: U32)
    requires CountersOk(e)
    ensures CountersOk(Acknowledge(e, src, q))
  {
    if Clears(e, src, q) {
      RemovedSizes(e.receipts, q);
      RemovedDistinct(e.receipts, q);
    }
  }

  lemma QueueAckCounters(e: Endpoint, src: Addr, q: U32, ackNum: U32)
    requires CountersOk(e)
    ensures CountersOk(QueueAck(e, src, q, ackNum))
  {
    QueueAppend(e.control, AckPacket(src, q));
    var e1 := e.(control := e.control + [AckPacket(src, q)], acksQueued := e.acksQueued + 1);
    AcknowledgeCounters(e1, src, ackNum);
  }

  lemma ReceiveCounters(e: Endpoint, w: Wire)
    requires CountersOk(e)
    ensures CountersOk(Receive(e, w))
  {
    var e1 := e.(peers := e.peers + {w.src});
    if w.kind == ACKNOWLEDGEMENT {
      if |w.payload| >= 4 { AcknowledgeCounters(e1, w.src, AckedSeq(w.payload)); }
    } else if w.reliable {
      QueueAckCounters(e1, w.src, w.seqNum, w.ackNum);
    }
  }

  lemma ScanCounters(e: Endpoint, now: nat)
    requires CountersOk(e)
    ensures CountersOk(Scan(e, now))
    ensures Scan(e, now).ackCount + |Dropped(now, e.receipts)| == e.ackCount
    ensures Scan(e, now).ackBytes + ReceiptBytes(Dropped(now, e.receipts)) == e.ackBytes
  {
    ScanSizes(now, e.receipts);
    ScanDistinct(now, e.receipts);
  }
}
