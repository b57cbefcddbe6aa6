/** Every step of the concurrent map keeps the invariant and honours the rely condition. */
module HashMapSteps {
  import opened Common
  import opened HashMapProtocol
  import opened HashMapInvariants

  // ----- Bucket chains -----

  /** The bucket structure may lose pointers and gain deletion marks, nothing else. */
  predicate BucketFrame(m: Memory, m': Memory) {
    && |m.nodes| == |m'.nodes| && |m.heads| == |m'.heads| && m.clock == m'.clock
    && forall n | 0 <= n < |m.nodes| ::
         && m'.nodes[n].key == m.nodes[n].key && m'.nodes[n].rank == m.nodes[n].rank
         && (m.nodes[n].deleted ==> m'.nodes[n].deleted)
  }

  lemma LinkFrame(cfg: Config, m: Memory, m': Memory, b: nat, hi: nat, o: Option<Id>)
    requires ValidConfig(cfg) && Link(cfg, m, b, hi, o) && BucketFrame(m, m')
    ensures Link(cfg, m', b, hi, o)
  {
  }

  lemma BucketFrameInv(cfg: Config, m: Memory, m': Memory)
    requires BucketInv(cfg, m) && BucketFrame(m, m') && Allocated(cfg, m')
    requires forall b | 0 <= b < |m.heads| ::
               m'.heads[b] == m.heads[b] || Link(cfg, m, b, m.clock + 1, m'.heads[b])
    requires forall n | 0 <= n < |m.nodes| && m.nodes[n].rank > 0 ::
               || m'.nodes[n].bucketNext == m.nodes[n].bucketNext
               || Link(cfg, m, Bucket(cfg, m.nodes[n].key), m.nodes[n].rank, m'.nodes[n].bucketNext)
    ensures BucketInv(cfg, m')
  {
    assert RankInv(m') && KeyInv(m');
    forall b | 0 <= b < |m'.heads| ensures Link(cfg, m', b, m'.clock + 1, m'.heads[b]) {
      LinkFrame(cfg, m, m', b, m.clock + 1, m'.heads[b]);
    }
    forall n | 0 <= n < |m'.nodes| && m'.nodes[n].rank > 0
      ensures Link(cfg, m', Bucket(cfg, m'.nodes[n].key), m'.nodes[n].rank, m'.nodes[n].bucketNext)
    {
      LinkFrame(cfg, m, m', Bucket(cfg, m.nodes[n].key), m.nodes[n].rank, m'.nodes[n].bucketNext);
    }
  }

  /** Bypassing a deleted node, even towards a stale successor, bypasses deleted nodes only. */
  lemma BypassLink(cfg: Config, m: Memory, b: nat, hi: nat, n: Id, next: Option<Id>)
    requires ValidConfig(cfg) && RankInv(m) && Link(cfg, m, b, hi, Some(n)) && m.nodes[n].deleted
    requires Link(cfg, m, b, m.nodes[n].rank, next)
    ensures Link(cfg, m, b, hi, next)
  {
    forall x | 0 <= x < |m.nodes| && Bucket(cfg, m.nodes[x].key) == b && Rank(m, next) < m.nodes[x].rank < hi
      ensures m.nodes[x].deleted
    {
      if m.nodes[x].rank == m.nodes[n].rank { assert x == n; }
    }
  }

  lemma UnlinkBucket(cfg: Config, m: Memory, pc: Pc)
    requires BucketInv(cfg, m) && pc.UnlinkCas? && PcAllocated(m, pc) && PcBucket(cfg, m, pc)
    requires Load(m, pc.prev) == Some(pc.node)
    ensures BucketInv(cfg, Store(m, pc.prev, pc.next))
  {
    var b := Bucket(cfg, m.nodes[pc.node].key);
    var hi := if pc.prev.Head? then m.clock + 1 else m.nodes[pc.prev.node].rank;
    BypassLink(cfg, m, b, hi, pc.node, pc.next);
    BucketFrameInv(cfg, m, Store(m, pc.prev, pc.next));
  }

  lemma MarkBucket(cfg: Config, m: Memory, n: Id)
    requires BucketInv(cfg, m) && n < |m.nodes|
    ensures BucketInv(cfg, m.(nodes := m.nodes[n := m.nodes[n].(deleted := true)]))
  {
    BucketFrameInv(cfg, m, m.(nodes := m.nodes[n := m.nodes[n].(deleted := true)]));
  }

  /** Allocating a node, or aiming an unpublished one at the head, is invisible. */
  lemma LoadHeadBucket(cfg: Config, m: Memory, pc: Pc)
    requires PreBucket(cfg, m, pc) && pc.LoadHead?
    ensures PreBucket(cfg, LoadHeadStep(cfg, m, pc).0, LoadHeadStep(cfg, m, pc).1)
  {
    if pc.made.Some? {
      BucketFrameInv(cfg, m, LoadHeadStep(cfg, m, pc).0);
      AimPc(cfg, m, pc);
    } else {
      AllocateBucket(cfg, m, pc);
    }
  }

  lemma AimPc(cfg: Config, m: Memory, pc: Pc)
    requires ValidConfig(cfg) && Allocated(cfg, m) && pc.LoadHead? && PcAllocated(m, pc) && PcBucket(cfg, m, pc)
    requires pc.made.Some?
    ensures var (m', pc') := LoadHeadStep(cfg, m, pc); PcAllocated(m', pc') && PcBucket(cfg, m', pc')
  {
  }

  lemma AllocateBucket(cfg: Config, m: Memory, pc: Pc)
    requires BucketInv(cfg, m) && pc.LoadHead? && PcAllocated(m, pc) && PcBucket(cfg, m, pc) && pc.made.None?
    ensures BucketInv(cfg, LoadHeadStep(cfg, m, pc).0)
    ensures PcBucket(cfg, LoadHeadStep(cfg, m, pc).0, LoadHeadStep(cfg, m, pc).1)
  {
    AllocateRanks(cfg, m, pc);
    AllocatePc(cfg, m, pc);
    AllocateLinks(cfg, m, pc);
  }

  lemma AllocateRanks(cfg: Config, m: Memory, pc: Pc)
    requires ValidConfig(cfg) && Allocated(cfg, m) && RankInv(m) && KeyInv(m)
    requires pc.LoadHead? && PcAllocated(m, pc) && pc.made.None?
    ensures var m' := LoadHeadStep(cfg, m, pc).0; Allocated(cfg, m') && RankInv(m') && KeyInv(m')
  {
  }

  lemma AllocatePc(cfg: Config, m: Memory, pc: Pc)
    requires ValidConfig(cfg) && Allocated(cfg, m) && pc.LoadHead? && PcAllocated(m, pc) && PcBucket(cfg, m, pc)
    requires pc.made.None?
    ensures PcBucket(cfg, LoadHeadStep(cfg, m, pc).0, LoadHeadStep(cfg, m, pc).1)
  {
  }

  lemma AllocateLinks(cfg: Config, m: Memory, pc: Pc)
    requires ValidConfig(cfg) && Allocated(cfg, m) && RankBounded(m) && LinkInv(cfg, m) && pc.LoadHead?
    requires PcAllocated(m, pc) && pc.made.None?
    requires Allocated(cfg, LoadHeadStep(cfg, m, pc).0)
    ensures LinkInv(cfg, LoadHeadStep(cfg, m, pc).0)
  {
    LinksCarryOver(cfg, m, LoadHeadStep(cfg, m, pc).0);
  }

  /** Links of `m` that `m'` still holds are links of `m'`. */
  lemma LinksCarryOver(cfg: Config, m: Memory, m': Memory)
    requires ValidConfig(cfg) && Allocated(cfg, m) && LinkInv(cfg, m) && RankBounded(m)
    requires Rely(m, m', None, None)
    ensures forall b | 0 <= b < |m.heads| :: Link(cfg, m', b, m.clock + 1, m.heads[b])
    ensures forall n | 0 <= n < |m.nodes| && m.nodes[n].rank > 0 ::
              Link(cfg, m', Bucket(cfg, m.nodes[n].key), m.nodes[n].rank, m.nodes[n].bucketNext)
  {
    forall b | 0 <= b < |m.heads| ensures Link(cfg, m', b, m.clock + 1, m.heads[b]) {
      LinkStable(cfg, m, m', b, m.clock + 1, m.heads[b], None, None);
    }
    forall n | 0 <= n < |m.nodes| && m.nodes[n].rank > 0
      ensures Link(cfg, m', Bucket(cfg, m.nodes[n].key), m.nodes[n].rank, m.nodes[n].bucketNext)
    {
      LinkStable(cfg, m, m', Bucket(cfg, m.nodes[n].key), m.nodes[n].rank, m.nodes[n].bucketNext, None, None);
    }
  }

  /** The successful head CAS puts the node above everything live in its bucket. */
  lemma PublishBucket(cfg: Config, m: Memory, pc: Pc)
    requires BucketInv(cfg, m) && pc.CasHead? && PcAllocated(m, pc) && PcBucket(cfg, m, pc)
    requires m.heads[Bucket(cfg, pc.key)] == pc.expected
    ensures BucketInv(cfg, CasHeadStep(cfg, m, pc, false).0)
  {
    PublishRanks(cfg, m, pc);
    PublishLinks(cfg, m, pc);
  }

  lemma PublishRanks(cfg: Config, m: Memory, pc: Pc)
    requires ValidConfig(cfg) && Allocated(cfg, m) && RankInv(m) && KeyInv(m) && pc.CasHead? && PcAllocated(m, pc)
    requires PcBucket(cfg, m, pc)
    ensures var m' := CasHeadStep(cfg, m, pc, false).0; Allocated(cfg, m') && RankInv(m') && KeyInv(m')
  {
  }

  lemma PublishRely(cfg: Config, m: Memory, pc: Pc)
    requires ValidConfig(cfg) && Allocated(cfg, m) && RankBounded(m) && pc.CasHead? && PcAllocated(m, pc)
    requires PcBucket(cfg, m, pc)
    ensures Rely(m, CasHeadStep(cfg, m, pc, false).0, None, None)
  {
  }

  lemma PublishLinks(cfg: Config, m: Memory, pc: Pc)
    requires ValidConfig(cfg) && Allocated(cfg, m) && RankBounded(m) && LinkInv(cfg, m)
    requires pc.CasHead? && PcAllocated(m, pc) && PcBucket(cfg, m, pc)
    requires m.heads[Bucket(cfg, pc.key)] == pc.expected && Allocated(cfg, CasHeadStep(cfg, m, pc, false).0)
    ensures LinkInv(cfg, CasHeadStep(cfg, m, pc, false).0)
  {
    var m' := CasHeadStep(cfg, m, pc, false).0;
    PublishRely(cfg, m, pc);
    forall b | 0 <= b < |m'.heads| ensures Link(cfg, m', b, m'.clock + 1, m'.heads[b]) { PublishHead(cfg, m, pc, b); }
    forall n | 0 <= n < |m'.nodes| && m'.nodes[n].rank > 0
      ensures Link(cfg, m', Bucket(cfg, m'.nodes[n].key), m'.nodes[n].rank, m'.nodes[n].bucketNext)
    {
      PublishNode(cfg, m, pc, n);
    }
  }

  lemma PublishHead(cfg: Config, m: Memory, pc: Pc, b: nat)
    requires ValidConfig(cfg) && Allocated(cfg, m) && RankBounded(m) && pc.CasHead? && PcAllocated(m, pc)
    requires PcBucket(cfg, m, pc)
    requires b < |m.heads| && m.heads[Bucket(cfg, pc.key)] == pc.expected && Link(cfg, m, b, m.clock + 1, m.heads[b])
    requires Rely(m, CasHeadStep(cfg, m, pc, false).0, None, None)
    ensures var m' := CasHeadStep(cfg, m, pc, false).0; Link(cfg, m', b, m'.clock + 1, m'.heads[b])
  {
    LinkStable(cfg, m, CasHeadStep(cfg, m, pc, false).0, b, m.clock + 1, m.heads[b], None, None);
  }

  lemma PublishNode(cfg: Config, m: Memory, pc: Pc, n: Id)
    requires ValidConfig(cfg) && Allocated(cfg, m) && RankBounded(m) && LinkInv(cfg, m)
    requires pc.CasHead? && PcAllocated(m, pc) && PcBucket(cfg, m, pc) && m.heads[Bucket(cfg, pc.key)] == pc.expected
    requires Rely(m, CasHeadStep(cfg, m, pc, false).0, None, None)
    requires n < |m.nodes| && CasHeadStep(cfg, m, pc, false).0.nodes[n].rank > 0
    ensures var m' := CasHeadStep(cfg, m, pc, false).0;
            Link(cfg, m', Bucket(cfg, m'.nodes[n].key), m'.nodes[n].rank, m'.nodes[n].bucketNext)
  {
    var m' := CasHeadStep(cfg, m, pc, false).0;
    LinkStable(cfg, m, m', Bucket(cfg, m.nodes[n].key), m'.nodes[n].rank, m.nodes[n].bucketNext, None, None);
  }

  // ----- The order chain -----

  /** A step on the buckets leaves the order chain alone. */
  predicate OrderFrame(m: Memory, m': Memory) {
    && |m.nodes| <= |m'.nodes| && m.orderHead == m'.orderHead && m.orderTail == m'.orderTail && m.linked == m'.linked
    && (forall n | 0 <= n < |m.nodes| ::
          && m'.nodes[n].slot == m.nodes[n].slot && m'.nodes[n].orderNext == m.nodes[n].orderNext
          && (m.nodes[n].rank > 0 ==> m'.nodes[n].rank > 0))
    && (forall n | |m.nodes| <= n < |m'.nodes| :: m'.nodes[n].slot == 0 && m'.nodes[n].orderNext == None)
  }

  lemma OrderFrameInv(m: Memory, m': Memory)
    requires OrderInv(m) && OrderFrame(m, m')
    ensures OrderInv(m') && TailSlot(m') == TailSlot(m)
  {
    forall i | 0 <= i < |m'.linked| ensures ChainAt(m', i) { assert ChainAt(m, i); }
    forall n | 0 <= n < |m'.nodes| ensures SlotAt(m', n) { if n < |m.nodes| { assert SlotAt(m, n); } }
  }

  lemma OrderHeadOrder(m: Memory, pc: Pc)
    requires OrderInv(m) && pc.CasOrderHead? && PcAllocated(m, pc) && PcOrder(m, pc)
    requires m.orderHead == None && m.nodes[pc.node].rank > 0
    ensures OrderInv(CasOrderHeadStep(m, pc, false).0)
  {
    var m' := CasOrderHeadStep(m, pc, false).0;
    assert SlotAt(m, pc.node);
    assert ChainAt(m', 0);
    forall n | 0 <= n < |m'.nodes| ensures SlotAt(m', n) { assert SlotAt(m, n); }
    assert m.orderTail.None? || SlotAt(m, m.orderTail.value);
  }

  lemma LinkAfterOrder(m: Memory, pc: Pc)
    requires OrderInv(m) && pc.LinkAfter? && PcAllocated(m, pc) && PcOrder(m, pc)
    requires m.nodes[pc.tail].orderNext == None && m.nodes[pc.node].rank > 0
    ensures OrderInv(LinkAfterStep(m, pc, false).0)
  {
    var m' := LinkAfterStep(m, pc, false).0;
    var last := |m.linked|;
    assert SlotAt(m, pc.tail) && SlotAt(m, pc.node) && SlotAt(m, m.orderTail.value);
    assert ChainAt(m, m.nodes[pc.tail].slot - 1);
    assert m.nodes[pc.tail].slot == last;
    forall i | 0 <= i < |m'.linked| ensures ChainAt(m', i) {
      if i < last { assert ChainAt(m, i); }
    }
    forall n | 0 <= n < |m'.nodes| ensures SlotAt(m', n) { assert SlotAt(m, n); }
  }

  lemma TailOrder(m: Memory, expected: Option<Id>, desired: Id)
    requires OrderInv(m) && desired < |m.nodes| && Ok(m, expected)
    requires m.nodes[desired].slot == (if expected.None? then 1 else m.nodes[expected.value].slot + 1)
    ensures OrderInv(CasTail(m, expected, desired)) && TailSlot(m) <= TailSlot(CasTail(m, expected, desired))
  {
    var m' := CasTail(m, expected, desired);
    forall i | 0 <= i < |m'.linked| ensures ChainAt(m', i) { assert ChainAt(m, i); }
    forall n | 0 <= n < |m'.nodes| ensures SlotAt(m', n) { assert SlotAt(m, n); }
  }

  // ----- Whole steps -----

  lemma WalkAhead(cfg: Config, m: Memory, key: int, c: Id)
    requires BucketInv(cfg, m) && Published(cfg, m, c, Bucket(cfg, key)) && m.nodes[c].key != key
    requires Ahead(m, key, Some(c))
    ensures Ahead(m, key, m.nodes[c].bucketNext)
  {
    var next := m.nodes[c].bucketNext;
    assert Link(cfg, m, Bucket(cfg, key), m.nodes[c].rank, next);
    forall n | 0 <= n < |m.nodes| && m.nodes[n].rank > Rank(m, next) && m.nodes[n].key == key
      ensures m.nodes[n].deleted
    {
      assert m.nodes[n].rank != m.nodes[c].rank;
    }
  }

  lemma WalkBucket(cfg: Config, m: Memory, pc: Pc)
    requires BucketInv(cfg, m) && pc.Walk? && PcAllocated(m, pc) && PcBucket(cfg, m, pc)
    ensures PcAllocated(m, WalkStep(m, pc)) && PcBucket(cfg, m, WalkStep(m, pc))
  {
    if pc.curr.Some? && m.nodes[pc.curr.value].key != pc.op.key {
      assert Link(cfg, m, Bucket(cfg, pc.op.key), m.nodes[pc.curr.value].rank, m.nodes[pc.curr.value].bucketNext);
      if pc.op.Insert? { WalkAhead(cfg, m, pc.op.key, pc.curr.value); }
    }
  }

  lemma StartBucket(cfg: Config, m: Memory, pc: Pc, a: Action)
    requires BucketInv(cfg, m) && pc.Start? && PcAllocated(m, pc) && PcBucket(cfg, m, pc)
    ensures var (m', pc') := Step(cfg, m, pc, a); m' == m && PcAllocated(m, pc') && PcBucket(cfg, m, pc')
  {
    var b := Bucket(cfg, pc.op.key);
    assert Link(cfg, m, b, m.clock + 1, m.heads[b]);
  }

  predicate PreBucket(cfg: Config, m: Memory, pc: Pc) {
    BucketInv(cfg, m) && PcAllocated(m, pc) && PcBucket(cfg, m, pc)
  }

  predicate PreOrder(m: Memory, pc: Pc) {
    OrderInv(m) && PcAllocated(m, pc) && PcOrder(m, pc)
  }

  predicate Reads(pc: Pc) {
    pc.Idle? || pc.Start? || pc.Walk? || pc.CheckDeleted? || pc.LoadTail? || pc.LoadTailNext? || pc.RecheckTail?
    || pc.UnlinkRead? || pc.UnlinkLoad?
  }

  predicate Appends(pc: Pc) {
    pc.CasOrderHead? || pc.LinkAfter? || pc.CasNullTail? || pc.HelpTail? || pc.SwingTail?
  }

  lemma ReadBucket(cfg: Config, m: Memory, pc: Pc, a: Action)
    requires PreBucket(cfg, m, pc) && Reads(pc)
    ensures var (m', pc') := Step(cfg, m, pc, a); m' == m && PcAllocated(m, pc') && PcBucket(cfg, m, pc')
  {
    if pc.Start? { StartBucket(cfg, m, pc, a); }
    else if pc.Walk? { WalkBucket(cfg, m, pc); }
    else { PlainRead(cfg, m, pc, a); }
  }

  lemma PlainRead(cfg: Config, m: Memory, pc: Pc, a: Action)
    requires ValidConfig(cfg) && Allocated(cfg, m) && LinkInv(cfg, m) && PcAllocated(m, pc) && PcBucket(cfg, m, pc)
    requires Reads(pc) && !pc.Start? && !pc.Walk?
    ensures var (m', pc') := Step(cfg, m, pc, a); m' == m && PcAllocated(m, pc') && PcBucket(cfg, m, pc')
  {
  }

  lemma InsertBucket(cfg: Config, m: Memory, pc: Pc, a: Action)
    requires PreBucket(cfg, m, pc) && (pc.LoadHead? || pc.CasHead?)
    ensures var (m', pc') := Step(cfg, m, pc, a); PreBucket(cfg, m', pc')
  {
    if pc.LoadHead? { LoadHeadBucket(cfg, m, pc); } else { CasHeadBucket(cfg, m, pc, a.spurious); }
  }

  /** The head CAS publishes the node, or leaves memory alone and starts over. */
  lemma CasHeadBucket(cfg: Config, m: Memory, pc: Pc, spurious: bool)
    requires PreBucket(cfg, m, pc) && pc.CasHead?
    ensures var (m', pc') := CasHeadStep(cfg, m, pc, spurious); PreBucket(cfg, m', pc')
  {
    if CasHeadStep(cfg, m, pc, spurious).1.LoadTail? { PublishBucket(cfg, m, pc); }
  }

  lemma RemoveBucket(cfg: Config, m: Memory, pc: Pc, a: Action)
    requires PreBucket(cfg, m, pc) && (pc.Mark? || pc.UnlinkCas?)
    ensures var (m', pc') := Step(cfg, m, pc, a); PreBucket(cfg, m', pc')
  {
    var (m', pc') := Step(cfg, m, pc, a);
    RemovePc(cfg, m, pc, a);
    if m' != m {
      if pc.Mark? { MarkBucket(cfg, m, pc.node); } else { UnlinkBucket(cfg, m, pc); }
    }
  }

  lemma RemovePc(cfg: Config, m: Memory, pc: Pc, a: Action)
    requires ValidConfig(cfg) && Allocated(cfg, m) && PcAllocated(m, pc) && PcBucket(cfg, m, pc)
    requires pc.Mark? || pc.UnlinkCas?
    ensures var (m', pc') := Step(cfg, m, pc, a); PcAllocated(m', pc') && PcBucket(cfg, m', pc')
  {
  }

  lemma AppendBucket(cfg: Config, m: Memory, pc: Pc, a: Action)
    requires PreBucket(cfg, m, pc) && Appends(pc)
    ensures var (m', pc') := Step(cfg, m, pc, a); PreBucket(cfg, m', pc')
  {
    AppendPc(cfg, m, pc, a);
    AppendFrame(cfg, m, pc, a);
    BucketFrameInv(cfg, m, Step(cfg, m, pc, a).0);
  }

  lemma AppendPc(cfg: Config, m: Memory, pc: Pc, a: Action)
    requires ValidConfig(cfg) && Allocated(cfg, m) && PcAllocated(m, pc) && PcBucket(cfg, m, pc) && Appends(pc)
    ensures var (m', pc') := Step(cfg, m, pc, a); PcAllocated(m', pc') && PcBucket(cfg, m', pc')
  {
  }

  lemma AppendFrame(cfg: Config, m: Memory, pc: Pc, a: Action)
    requires ValidConfig(cfg) && Allocated(cfg, m) && PcAllocated(m, pc) && PcBucket(cfg, m, pc) && Appends(pc)
    ensures var m' := Step(cfg, m, pc, a).0; BucketFrame(m, m') && Allocated(cfg, m') && m'.heads == m.heads
    ensures var m' := Step(cfg, m, pc, a).0;
            forall n | 0 <= n < |m.nodes| :: m'.nodes[n].bucketNext == m.nodes[n].bucketNext
  {
    if pc.CasOrderHead? || pc.LinkAfter? { LinkFrameOf(cfg, m, pc, a); }
  }

  /** Linking a node changes slots and order links only. */
  lemma LinkFrameOf(cfg: Config, m: Memory, pc: Pc, a: Action)
    requires ValidConfig(cfg) && Allocated(cfg, m) && PcAllocated(m, pc) && (pc.CasOrderHead? || pc.LinkAfter?)
    ensures var m' := Step(cfg, m, pc, a).0; BucketFrame(m, m') && Allocated(cfg, m') && m'.heads == m.heads
    ensures var m' := Step(cfg, m, pc, a).0;
            forall n | 0 <= n < |m.nodes| :: m'.nodes[n].bucketNext == m.nodes[n].bucketNext
  {
  }

  lemma StepBucket(cfg: Config, m: Memory, pc: Pc, a: Action)
    requires PreBucket(cfg, m, pc)
    ensures var (m', pc') := Step(cfg, m, pc, a); PreBucket(cfg, m', pc')
  {
    if Reads(pc) { ReadBucket(cfg, m, pc, a); }
    else if pc.LoadHead? || pc.CasHead? { InsertBucket(cfg, m, pc, a); }
    else if pc.Mark? || pc.UnlinkCas? { RemoveBucket(cfg, m, pc, a); }
    else { AppendBucket(cfg, m, pc, a); }
  }

  lemma ReadOrder(cfg: Config, m: Memory, pc: Pc, a: Action)
    requires ValidConfig(cfg) && Allocated(cfg, m) && PreOrder(m, pc) && Reads(pc)
    requires PcAllocated(m, Step(cfg, m, pc, a).1)
    ensures PcOrder(m, Step(cfg, m, pc, a).1)
  {
    if pc.LoadTailNext? { TailNextOrder(cfg, m, pc, a); }
  }

  /** What follows the node loaded as tail is the next one linked. */
  lemma TailNextOrder(cfg: Config, m: Memory, pc: Pc, a: Action)
    requires ValidConfig(cfg) && Allocated(cfg, m) && PreOrder(m, pc) && pc.LoadTailNext?
    requires PcAllocated(m, Step(cfg, m, pc, a).1)
    ensures PcOrder(m, Step(cfg, m, pc, a).1)
  {
    assert SlotAt(m, pc.tail) && ChainAt(m, m.nodes[pc.tail].slot - 1);
    if m.nodes[pc.tail].slot < |m.linked| { assert ChainAt(m, m.nodes[pc.tail].slot); }
  }

  lemma InsertStepOrder(cfg: Config, m: Memory, pc: Pc, a: Action)
    requires ValidConfig(cfg) && Allocated(cfg, m) && PreOrder(m, pc) && (pc.LoadHead? || pc.CasHead?)
    ensures var (m', pc') := Step(cfg, m, pc, a); PreOrder(m', pc') && TailSlot(m) <= TailSlot(m')
  {
    OrderFrameInv(m, Step(cfg, m, pc, a).0);
  }

  lemma RemoveStepOrder(cfg: Config, m: Memory, pc: Pc, a: Action)
    requires ValidConfig(cfg) && Allocated(cfg, m) && PreOrder(m, pc) && (pc.Mark? || pc.UnlinkCas?)
    ensures var (m', pc') := Step(cfg, m, pc, a); PreOrder(m', pc') && TailSlot(m) <= TailSlot(m')
  {
    RemoveFrame(cfg, m, pc, a);
    OrderFrameInv(m, Step(cfg, m, pc, a).0);
  }

  /** Marking and unlinking leave slots and order links alone. */
  lemma RemoveFrame(cfg: Config, m: Memory, pc: Pc, a: Action)
    requires ValidConfig(cfg) && Allocated(cfg, m) && PcAllocated(m, pc) && (pc.Mark? || pc.UnlinkCas?)
    ensures var (m', pc') := Step(cfg, m, pc, a); OrderFrame(m, m') && |m'.nodes| == |m.nodes| && PcAllocated(m', pc')
  {
  }

  lemma LinkOrder(cfg: Config, m: Memory, pc: Pc, a: Action)
    requires ValidConfig(cfg) && Allocated(cfg, m) && PreOrder(m, pc) && (pc.CasOrderHead? || pc.LinkAfter?)
    requires m.nodes[pc.node].rank > 0
    ensures var (m', pc') := Step(cfg, m, pc, a); PreOrder(m', pc') && TailSlot(m) <= TailSlot(m')
  {
    var m' := Step(cfg, m, pc, a).0;
    if m' != m {
      if pc.LinkAfter? { LinkAfterOrder(m, pc); } else { OrderHeadOrder(m, pc); }
      if pc.LinkAfter? { assert SlotAt(m, pc.tail) && ChainAt(m, m.nodes[pc.tail].slot - 1); }
    }
  }

  lemma TailMoveOrder(cfg: Config, m: Memory, pc: Pc, a: Action)
    requires ValidConfig(cfg) && Allocated(cfg, m) && PreOrder(m, pc)
    requires pc.CasNullTail? || pc.HelpTail? || pc.SwingTail?
    ensures var (m', pc') := Step(cfg, m, pc, a); PreOrder(m', pc') && TailSlot(m) <= TailSlot(m')
  {
    match pc {
      case CasNullTail(n) => TailOrder(m, None, n);
      case HelpTail(_, t, x) => TailOrder(m, Some(t), x);
      case SwingTail(n, t) => TailOrder(m, Some(t), n);
      case _ =>
    }
  }

  lemma StepOrder(cfg: Config, m: Memory, pc: Pc, a: Action)
    requires PreBucket(cfg, m, pc) && PreOrder(m, pc)
    ensures var (m', pc') := Step(cfg, m, pc, a); PreOrder(m', pc') && TailSlot(m) <= TailSlot(m')
  {
    if Reads(pc) { ReadBucket(cfg, m, pc, a); ReadOrder(cfg, m, pc, a); }
    else if pc.CasOrderHead? || pc.LinkAfter? { LinkOrder(cfg, m, pc, a); }
    else if pc.CasNullTail? || pc.HelpTail? || pc.SwingTail? { TailMoveOrder(cfg, m, pc, a); }
    else if pc.LoadHead? || pc.CasHead? { InsertStepOrder(cfg, m, pc, a); }
    else { RemoveStepOrder(cfg, m, pc, a); }
  }

  /** What another thread owns: unpublished, or published but not yet linked. */
  predicate Others(m: Memory, pc: Pc, own: Option<Id>, key: Option<int>) {
    && (own.Some? ==> own != Owned(pc))
    && (key.Some? ==> key != InsertKey(pc))
  }

  /** Guarantee: a step looks harmless to every other thread. */
  lemma Guarantee(cfg: Config, m: Memory, pc: Pc, a: Action, own: Option<Id>, key: Option<int>)
    requires ValidConfig(cfg) && Allocated(cfg, m) && RankBounded(m) && PreOrder(m, pc) && PcBucket(cfg, m, pc)
    requires Others(m, pc, own, key)
    requires var m' := Step(cfg, m, pc, a).0; Ok(m', m'.orderTail) && TailSlot(m) <= TailSlot(m')
    ensures Rely(m, Step(cfg, m, pc, a).0, own, key)
  {
    if Appends(pc) {
      AppendGuarantee(cfg, m, pc, a, own, key);
    } else if pc.LoadHead? || pc.CasHead? {
      InsertGuarantee(cfg, m, pc, a, own, key);
    } else if pc.Mark? || pc.UnlinkCas? {
      RemoveGuarantee(cfg, m, pc, a, own, key);
    }
  }

  lemma InsertGuarantee(cfg: Config, m: Memory, pc: Pc, a: Action, own: Option<Id>, key: Option<int>)
    requires ValidConfig(cfg) && Allocated(cfg, m) && RankBounded(m) && PreOrder(m, pc) && PcBucket(cfg, m, pc)
    requires Others(m, pc, own, key) && (pc.LoadHead? || pc.CasHead?)
    requires var m' := Step(cfg, m, pc, a).0; Ok(m', m'.orderTail) && TailSlot(m) <= TailSlot(m')
    ensures Rely(m, Step(cfg, m, pc, a).0, own, key)
  {
  }

  lemma RemoveGuarantee(cfg: Config, m: Memory, pc: Pc, a: Action, own: Option<Id>, key: Option<int>)
    requires ValidConfig(cfg) && Allocated(cfg, m) && RankBounded(m) && PreOrder(m, pc) && PcBucket(cfg, m, pc)
    requires Others(m, pc, own, key) && (pc.Mark? || pc.UnlinkCas?)
    requires var m' := Step(cfg, m, pc, a).0; Ok(m', m'.orderTail) && TailSlot(m) <= TailSlot(m')
    ensures Rely(m, Step(cfg, m, pc, a).0, own, key)
  {
    if pc.UnlinkCas? { UnlinkGuarantee(cfg, m, pc, a, own, key); }
  }

  lemma UnlinkGuarantee(cfg: Config, m: Memory, pc: Pc, a: Action, own: Option<Id>, key: Option<int>)
    requires ValidConfig(cfg) && Allocated(cfg, m) && PcAllocated(m, pc) && PcBucket(cfg, m, pc) && pc.UnlinkCas?
    ensures Rely(m, Step(cfg, m, pc, a).0, own, key)
  {
    StoreRely(m, pc.prev, pc.next, own, key);
    RelySame(m, own, key);
  }

  /** Redirecting the bucket link of a published node, or of a bucket, is harmless. */
  lemma StoreRely(m: Memory, p: Ptr, v: Option<Id>, own: Option<Id>, key: Option<int>)
    requires PtrAllocated(m, p) && Ok(m, m.orderTail) && (p.Next? ==> m.nodes[p.node].rank > 0)
    ensures Rely(m, Store(m, p, v), own, key)
  {
  }

  lemma RelySame(m: Memory, own: Option<Id>, key: Option<int>)
    requires Ok(m, m.orderTail)
    ensures Rely(m, m, own, key)
  {
  }

  lemma AppendGuarantee(cfg: Config, m: Memory, pc: Pc, a: Action, own: Option<Id>, key: Option<int>)
    requires ValidConfig(cfg) && Allocated(cfg, m) && PreOrder(m, pc) && PcBucket(cfg, m, pc) && Appends(pc)
    requires Others(m, pc, own, key)
    requires var m' := Step(cfg, m, pc, a).0; Ok(m', m'.orderTail) && TailSlot(m) <= TailSlot(m')
    ensures Rely(m, Step(cfg, m, pc, a).0, own, key)
  {
    if pc.CasOrderHead? || pc.LinkAfter? { LinkGuarantee(cfg, m, pc, a, own, key); }
  }

  lemma LinkGuarantee(cfg: Config, m: Memory, pc: Pc, a: Action, own: Option<Id>, key: Option<int>)
    requires ValidConfig(cfg) && Allocated(cfg, m) && PreOrder(m, pc) && PcBucket(cfg, m, pc)
    requires Others(m, pc, own, key) && (pc.CasOrderHead? || pc.LinkAfter?)
    requires var m' := Step(cfg, m, pc, a).0; Ok(m', m'.orderTail) && TailSlot(m) <= TailSlot(m')
    ensures Rely(m, Step(cfg, m, pc, a).0, own, key)
  {
    if pc.LinkAfter? { assert SlotAt(m, pc.tail); }
  }

}
