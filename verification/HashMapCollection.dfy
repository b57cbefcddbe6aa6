/** Collecting garbage once every thread is idle, after any concurrent history. */
module HashMapCollection {
  import opened Common
  import opened HashMapProtocol
  import opened HashMapInvariants
  import opened HashMapSteps
  import opened HashMapTheorems
  import OrderedMap
  import SequentialMap
  import RefusedInsert

  predicate AllIdle(sys: System) { forall t | t in sys.threads :: sys.threads[t].Idle? }

  // ----- At rest every published node is linked, and the tail is the last of them -----

  predicate IsLinked(m: Memory, n: Id)
    requires n < |m.nodes|
  {
    m.nodes[n].slot > 0
  }

  ghost predicate HasOwner(sys: System, n: Id) { exists t :: t in sys.threads && Owned(sys.threads[t]) == Some(n) }

  /** A node published and not yet linked has a thread that still has to link it. */
  ghost predicate LinkersAtWork(sys: System) {
    forall n | 0 <= n < |sys.mem.nodes| && sys.mem.nodes[n].rank > 0 && !IsLinked(sys.mem, n) :: HasOwner(sys, n)
  }

  /** The thread has linked node `n` and is about to move the tail to it. */
  predicate Swings(pc: Pc, n: Id) { pc == CasNullTail(n) || (pc.SwingTail? && pc.node == n) }

  ghost predicate HasSwinger(sys: System, n: Id) { exists t :: t in sys.threads && Swings(sys.threads[t], n) }

  predicate TailBehind(m: Memory) { m.linked != [] && m.orderTail != Some(m.linked[|m.linked| - 1]) }

  /** A tail that is behind has a thread about to move it. */
  ghost predicate SwingersAtWork(sys: System) {
    TailBehind(sys.mem) ==> HasSwinger(sys, sys.mem.linked[|sys.mem.linked| - 1])
  }

  /** A thread keeps a published node until it is linked. */
  lemma OwnerStep(cfg: Config, m: Memory, pc: Pc, a: Action, n: Id)
    requires ValidConfig(cfg) && Allocated(cfg, m) && PcAllocated(m, pc) && Owned(pc) == Some(n)
    requires n < |m.nodes| && m.nodes[n].rank > 0 && PcBucket(cfg, m, pc)
    ensures var (m', pc') := Step(cfg, m, pc, a); n < |m'.nodes| && (Owned(pc') == Some(n) || IsLinked(m', n))
  {
  }

  lemma NewRank(cfg: Config, m: Memory, pc: Pc, a: Action, n: Id)
    requires ValidConfig(cfg) && Allocated(cfg, m) && PcAllocated(m, pc) && (n < |m.nodes| ==> m.nodes[n].rank == 0)
    requires n < |Step(cfg, m, pc, a).0.nodes| && Step(cfg, m, pc, a).0.nodes[n].rank > 0
    ensures Owned(Step(cfg, m, pc, a).1) == Some(n)
  {
  }

  lemma LinkersStep(cfg: Config, sys: System, a: Action)
    requires Inv(cfg, sys) && MayMove(sys, a) && LinkersAtWork(sys)
    ensures LinkersAtWork(SystemStep(cfg, sys, a))
  {
    var m, pc, sys' := sys.mem, sys.threads[a.tid], SystemStep(cfg, sys, a);
    var m' := sys'.mem;
    StepGrows(cfg, sys, a);
    forall n | 0 <= n < |m'.nodes| && m'.nodes[n].rank > 0 && !IsLinked(m', n) ensures HasOwner(sys', n) {
      if n >= |m.nodes| || m.nodes[n].rank == 0 {
        NewRank(cfg, m, pc, a, n);
        assert Owned(sys'.threads[a.tid]) == Some(n);
      } else {
        assert !IsLinked(m, n) && HasOwner(sys, n);
        var t :| t in sys.threads && Owned(sys.threads[t]) == Some(n);
        if t == a.tid { OwnerStep(cfg, m, pc, a, n); }
        assert t in sys'.threads && Owned(sys'.threads[t]) == Some(n);
      }
    }
  }

  /** What the order invariant says about the end of the chain. */
  lemma LastSlot(m: Memory)
    requires OrderInv(m) && m.linked != []
    ensures var n := m.linked[|m.linked| - 1]; n < |m.nodes| && m.nodes[n].slot == |m.linked|
    ensures forall x | 0 <= x < |m.nodes| && m.nodes[x].slot == |m.linked| :: x == m.linked[|m.linked| - 1]
    ensures forall x | 0 <= x < |m.nodes| :: m.nodes[x].slot <= |m.linked|
  {
    assert ChainAt(m, |m.linked| - 1);
    forall x | 0 <= x < |m.nodes| ensures m.nodes[x].slot <= |m.linked| { assert SlotAt(m, x); }
    forall x | 0 <= x < |m.nodes| && m.nodes[x].slot == |m.linked| ensures x == m.linked[|m.linked| - 1] {
      assert SlotAt(m, x);
    }
  }

  /** The tail, if there is one, is linked. */
  lemma TailIsLinked(m: Memory)
    requires OrderInv(m) && m.orderTail.Some?
    ensures m.orderTail.value < |m.nodes| && m.linked != [] && 0 < m.nodes[m.orderTail.value].slot <= |m.linked|
  {
    assert SlotAt(m, m.orderTail.value);
  }

  /** A step leaves no tail behind that its own thread was to move, and a new last node is its own to move to. */
  ghost predicate SwingsOn(m: Memory, pc: Pc, m': Memory, pc': Pc) {
    TailBehind(m') ==> || Swings(pc', m'.linked[|m'.linked| - 1])
                       || (m'.linked == m.linked && TailBehind(m) && !Swings(pc, m.linked[|m.linked| - 1]))
  }

  /** Moving the tail of node `n`'s predecessor to `n`. */
  lemma SwingStep(m: Memory, pc: Pc, n: Id, before: Option<Id>)
    requires OrderInv(m) && n < |m.nodes| && m.nodes[n].slot > 0 && Swings(pc, n)
    requires before.Some? ==> before.value < |m.nodes| && m.nodes[n].slot == m.nodes[before.value].slot + 1
    requires before.Some? ==> SeenTail(m, before.value)
    requires before.None? ==> m.nodes[n].slot == 1
    ensures SwingsOn(m, pc, CasTail(m, before, n), Idle(Inserted(n)))
  {
    assert SlotAt(m, n);
    LastSlot(m);
    if before.Some? { assert SlotAt(m, before.value); }
    if m.orderTail.Some? { assert SlotAt(m, m.orderTail.value); }
  }

  lemma HelpStep(m: Memory, n: Id, t: Id, next: Id)
    requires OrderInv(m) && t < |m.nodes| && next < |m.nodes| && m.nodes[next].slot == m.nodes[t].slot + 1
    ensures SwingsOn(m, HelpTail(n, t, next), CasTail(m, Some(t), next), LoadTail(n))
  {
    assert SlotAt(m, next);
    LastSlot(m);
  }

  lemma OtherSwings(cfg: Config, m: Memory, pc: Pc, a: Action)
    requires ValidConfig(cfg) && Allocated(cfg, m) && PcAllocated(m, pc)
    requires !pc.CasNullTail? && !pc.SwingTail? && !pc.HelpTail?
    ensures SwingsOn(m, pc, Step(cfg, m, pc, a).0, Step(cfg, m, pc, a).1)
  {
  }

  lemma SwingerStep(cfg: Config, m: Memory, pc: Pc, a: Action)
    requires ValidConfig(cfg) && Allocated(cfg, m) && PreOrder(m, pc)
    ensures SwingsOn(m, pc, Step(cfg, m, pc, a).0, Step(cfg, m, pc, a).1)
  {
    match pc
    case CasNullTail(n) => SwingStep(m, pc, n, None);
    case SwingTail(n, t) => SwingStep(m, pc, n, Some(t));
    case HelpTail(n, t, next) => if !a.spurious { HelpStep(m, n, t, next); }
    case _ => OtherSwings(cfg, m, pc, a);
  }

  lemma SwingersStep(cfg: Config, sys: System, a: Action)
    requires ValidConfig(cfg) && Allocated(cfg, sys.mem) && SystemAllocated(cfg, sys) && MayMove(sys, a)
    requires PreOrder(sys.mem, sys.threads[a.tid]) && SwingersAtWork(sys)
    ensures SwingersAtWork(SystemStep(cfg, sys, a))
  {
    var m, pc, sys' := sys.mem, sys.threads[a.tid], SystemStep(cfg, sys, a);
    SwingerStep(cfg, m, pc, a);
    if TailBehind(sys'.mem) {
      var n := sys'.mem.linked[|sys'.mem.linked| - 1];
      if Swings(sys'.threads[a.tid], n) {
        assert HasSwinger(sys', n);
      } else {
        var t :| t in sys.threads && Swings(sys.threads[t], n);
        assert t in sys'.threads && Swings(sys'.threads[t], n);
      }
    }
  }

  lemma WorkersStep(cfg: Config, sys: System, a: Action)
    requires Inv(cfg, sys) && MayMove(sys, a) && LinkersAtWork(sys) && SwingersAtWork(sys)
    ensures LinkersAtWork(SystemStep(cfg, sys, a)) && SwingersAtWork(SystemStep(cfg, sys, a))
  {
    LinkersStep(cfg, sys, a);
    SwingersStep(cfg, sys, a);
  }

  lemma WorkersNext(e: Execution, i: nat)
    requires i + 1 < |e.run| && LinkersAtWork(e.run[i]) && SwingersAtWork(e.run[i])
    ensures LinkersAtWork(e.run[i + 1]) && SwingersAtWork(e.run[i + 1])
  {
    assert Inv(e.cfg, e.run[i]) by { RunInv(e, i); }
    assert StepAt(e, i);
    WorkersStep(e.cfg, e.run[i], e.acts[i]);
  }

  lemma {:induction false} WorkersInv(e: Execution, i: nat)
    requires i < |e.run|
    ensures LinkersAtWork(e.run[i]) && SwingersAtWork(e.run[i])
  {
    if i == 0 {
      assert e.run[0].mem.nodes == [] && e.run[0].mem.linked == [];
    } else {
      WorkersInv(e, i - 1);
      WorkersNext(e, i - 1);
    }
  }

  // ----- What the collector finds -----

  type Heap = map<Id, OrderedMap.Node<int, int>>

  /** The published nodes, as the collector sees them. */
  function HeapOf(m: Memory): (h: Heap) {
    map n: Id | n < |m.nodes| && m.nodes[n].rank > 0 ::
      var x := m.nodes[n]; OrderedMap.Node(x.key, x.value, x.bucketNext, x.orderNext, x.deleted)
  }

  /** After any history, once all threads are idle, the order chain is as the collector needs it: it holds every
      published node once, and the tail is the last of them. */
  lemma RestIsCollectable(e: Execution, i: nat)
    requires i < |e.run| && AllIdle(e.run[i])
    ensures var m := e.run[i].mem; SequentialMap.OrderOk(HeapOf(m), m.orderHead, m.orderTail, m.linked)
  {
    var sys := e.run[i];
    WorkersInv(e, i);
    assert BucketInv(e.cfg, sys.mem) && OrderInv(sys.mem) by { RunInv(e, i); }
    AllLinked(sys);
    TailIsLast(sys);
    ChainOfLinked(sys.mem);
    LiveKeysDiffer(e.cfg, sys.mem);
  }

  lemma NobodyWorks(sys: System)
    requires AllIdle(sys)
    ensures forall n :: !HasOwner(sys, n)
    ensures forall n :: !HasSwinger(sys, n)
  {
  }

  lemma AllLinked(sys: System)
    requires AllIdle(sys) && LinkersAtWork(sys) && OrderInv(sys.mem)
    ensures forall n :: n in sys.mem.linked <==> n in HeapOf(sys.mem)
  {
    var m := sys.mem;
    NobodyWorks(sys);
    forall n: Id | n < |m.nodes| && m.nodes[n].rank > 0 ensures n in m.linked {
      assert IsLinked(m, n);
      assert SlotAt(m, n);
    }
    forall n | n in m.linked ensures n in HeapOf(m) {
      var k :| 0 <= k < |m.linked| && m.linked[k] == n;
      assert ChainAt(m, k) && SlotAt(m, n);
    }
  }

  lemma TailIsLast(sys: System)
    requires AllIdle(sys) && SwingersAtWork(sys) && OrderInv(sys.mem)
    ensures sys.mem.orderTail == SequentialMap.Last(sys.mem.linked)
  {
    var m := sys.mem;
    if m.orderTail.Some? { TailIsLinked(m); }
    NobodyWorks(sys);
    assert !TailBehind(m);
  }

  lemma ChainOfLinked(m: Memory)
    requires OrderInv(m)
    ensures OrderedMap.OrderChain(HeapOf(m), m.orderHead, m.linked)
  {
    DistinctLinks(m);
    forall k | 0 <= k < |m.linked| ensures OrderedMap.OrderAt(HeapOf(m), m.linked, k) {
      assert ChainAt(m, k) && SlotAt(m, m.linked[k]);
    }
  }

  lemma DistinctLinks(m: Memory)
    requires OrderInv(m)
    ensures Distinct(m.linked)
  {
    forall i, j | 0 <= i < j < |m.linked| ensures m.linked[i] != m.linked[j] { assert ChainAt(m, i) && ChainAt(m, j); }
  }

  lemma LiveKeysDiffer(cfg: Config, m: Memory)
    requires BucketInv(cfg, m)
    ensures OrderedMap.UniqueKeys(HeapOf(m), m.linked)
  {
    assert KeyInv(m) && RankInv(m);
  }

  // ----- What the collector leaves -----

  /** No bucket link leads to freed memory. */
  predicate BucketsSafe(heads: seq<Option<Id>>, heap: Heap) {
    && (forall b | 0 <= b < |heads| :: SequentialMap.NotDangling(heap, heads[b]))
    && forall n | n in heap :: SequentialMap.NotDangling(heap, heap[n].bucketNext)
  }

  /** Some bucket chain leads to a deleted node. */
  ghost predicate DeadOnChain(m: Memory) {
    exists b, path, n: Id :: 0 <= b < |m.heads| && BucketPath(m, m.heads[b], path, n) && m.nodes[n].deleted
  }

  /** The heap holds the live published nodes, with their bucket links. */
  ghost predicate Leaves(m: Memory, heap: Heap) {
    && (forall n: Id :: n in heap <==> n < |m.nodes| && m.nodes[n].rank > 0 && !m.nodes[n].deleted)
    && forall n | n in heap :: heap[n].bucketNext == m.nodes[n].bucketNext
  }

  lemma CollectingLeaves(m: Memory, heap: Heap)
    requires SequentialMap.Collected(HeapOf(m), heap)
    ensures Leaves(m, heap)
  {
    assert forall n: Id :: n in HeapOf(m) <==> n < |m.nodes| && m.nodes[n].rank > 0;
    forall n | n in heap ensures heap[n].bucketNext == m.nodes[n].bucketNext {
      assert heap[n].(orderNext := HeapOf(m)[n].orderNext) == HeapOf(m)[n];
    }
  }

  ghost predicate NextDangles(heap: Heap, n: Id) { n in heap && !SequentialMap.NotDangling(heap, heap[n].bucketNext) }

  /** The first deleted node on a chain is a dangling link afterwards. */
  lemma {:induction false} DeadDangles(cfg: Config, m: Memory, heap: Heap, b: nat, from: Option<Id>, path: seq<Id>,
                                       n: Id)
    requires BucketInv(cfg, m) && In(cfg, m, b, from) && Leaves(m, heap)
    requires BucketPath(m, from, path, n) && m.nodes[n].deleted
    ensures !SequentialMap.NotDangling(heap, from) || exists x :: NextDangles(heap, x)
    decreases |path|
  {
    var c := path[0];
    if !m.nodes[c].deleted {
      var rest := path[1..];
      assert rest != [] && BucketPath(m, m.nodes[c].bucketNext, rest, n);
      assert In(cfg, m, b, m.nodes[c].bucketNext) by {
        assert Link(cfg, m, b, m.nodes[c].rank, m.nodes[c].bucketNext);
      }
      DeadDangles(cfg, m, heap, b, m.nodes[c].bucketNext, rest, n);
      assert c in heap;
      assert !SequentialMap.NotDangling(heap, m.nodes[c].bucketNext) ==> NextDangles(heap, c);
    }
  }

  /** Where a chain leads to no deleted node, it leads to nodes that are left. */
  lemma ReachedIsLeft(cfg: Config, m: Memory, heap: Heap, b: nat, path: seq<Id>, n: Id)
    requires BucketInv(cfg, m) && b < |m.heads| && Leaves(m, heap) && !DeadOnChain(m)
    requires BucketPath(m, m.heads[b], path, n) && In(cfg, m, b, Some(n))
    ensures n in heap
  {
    assert !m.nodes[n].deleted;
  }

  lemma CleanIsSafe(cfg: Config, m: Memory, heap: Heap)
    requires BucketInv(cfg, m) && Leaves(m, heap) && !DeadOnChain(m)
    ensures BucketsSafe(m.heads, heap)
  {
    forall b | 0 <= b < |m.heads| ensures SequentialMap.NotDangling(heap, m.heads[b]) {
      assert Link(cfg, m, b, m.clock + 1, m.heads[b]);
      if m.heads[b].Some? {
        var c := m.heads[b].value;
        assert BucketPath(m, m.heads[b], [c], c);
        ReachedIsLeft(cfg, m, heap, b, [c], c);
      }
    }
    forall n | n in heap ensures SequentialMap.NotDangling(heap, heap[n].bucketNext) {
      NextIsLeft(cfg, m, heap, n);
    }
  }

  lemma NextIsLeft(cfg: Config, m: Memory, heap: Heap, n: Id)
    requires BucketInv(cfg, m) && Leaves(m, heap) && !DeadOnChain(m) && n in heap
    ensures SequentialMap.NotDangling(heap, heap[n].bucketNext)
  {
    var b, next := Bucket(cfg, m.nodes[n].key), m.nodes[n].bucketNext;
    if next.Some? {
      assert Link(cfg, m, b, m.nodes[n].rank, next);
      assert Link(cfg, m, b, m.clock + 1, m.heads[b]);
      var path := PathDown(cfg, m, b, m.heads[b], n);
      assert BucketPath(m, m.heads[b], path + [next.value], next.value);
      ReachedIsLeft(cfg, m, heap, b, path + [next.value], next.value);
    }
  }

  lemma DeadIsUnsafe(cfg: Config, m: Memory, heap: Heap)
    requires BucketInv(cfg, m) && Leaves(m, heap) && DeadOnChain(m)
    ensures !BucketsSafe(m.heads, heap)
  {
    var b, path, n: Id :| 0 <= b < |m.heads| && BucketPath(m, m.heads[b], path, n) && m.nodes[n].deleted;
    assert Link(cfg, m, b, m.clock + 1, m.heads[b]);
    DeadDangles(cfg, m, heap, b, m.heads[b], path, n);
    if x :| NextDangles(heap, x) { assert x in heap && !SequentialMap.NotDangling(heap, heap[x].bucketNext); }
  }

  /** Once all threads are idle, whatever history led there, collecting leaves no bucket link to freed memory if and
      only if no bucket chain led to a deleted node. */
  lemma CollectingIsSafeExactly(e: Execution, i: nat, heap: Heap)
    requires i < |e.run| && AllIdle(e.run[i]) && SequentialMap.Collected(HeapOf(e.run[i].mem), heap)
    ensures BucketsSafe(e.run[i].mem.heads, heap) <==> !DeadOnChain(e.run[i].mem)
  {
    var m := e.run[i].mem;
    CollectingLeaves(m, heap);
    assert BucketInv(e.cfg, m) by { RunInv(e, i); }
    if DeadOnChain(m) { DeadIsUnsafe(e.cfg, m, heap); } else { CleanIsSafe(e.cfg, m, heap); }
  }

  /** The run that abandons an unlink ends with all threads idle, and collecting then leaves a dangling link. */
  lemma AbandonedUnlinkDangles() returns (e: Execution)
    ensures AllIdle(e.run[|e.run| - 1])
    ensures var m := e.run[|e.run| - 1].mem;
            forall heap: Heap | SequentialMap.Collected(HeapOf(m), heap) :: !BucketsSafe(m.heads, heap)
  {
    e := RefusedInsert.UnlinkAbandoned();
    var m := e.run[|e.run| - 1].mem;
    assert BucketPath(m, m.heads[0], [1, 0], 0);
    forall heap: Heap | SequentialMap.Collected(HeapOf(m), heap) ensures !BucketsSafe(m.heads, heap) {
      CollectingIsSafeExactly(e, |e.run| - 1, heap);
    }
  }
}
