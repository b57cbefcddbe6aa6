/**
 * The inductive invariant of the concurrent map, proved by rely/guarantee: a
 * local assertion per program counter, a step lemma that re-establishes it, and
 * a stability lemma saying that no other thread's step can break it.
 */
module HashMapInvariants {
  import opened Common
  import opened HashMapProtocol

  // ----- Bucket chains -----

  function Rank(m: Memory, o: Option<Id>): nat
    requires Ok(m, o)
  {
    if o.None? then 0 else m.nodes[o.value].rank
  }

  predicate Published(cfg: Config, m: Memory, n: Id, b: nat)
    requires ValidConfig(cfg)
  {
    n < |m.nodes| && m.nodes[n].rank > 0 && Bucket(cfg, m.nodes[n].key) == b
  }

  predicate In(cfg: Config, m: Memory, b: nat, o: Option<Id>)
    requires ValidConfig(cfg)
  {
    o.Some? ==> Published(cfg, m, o.value, b)
  }

  predicate PtrIn(cfg: Config, m: Memory, b: nat, p: Ptr)
    requires ValidConfig(cfg)
  {
    match p
    case Head(x) => x == b < |m.heads|
    case Next(n) => Published(cfg, m, n, b)
  }

  /** A link leaving a place of rank `hi` in bucket `b`: it goes strictly down and
      skips deleted nodes only. */
  predicate Link(cfg: Config, m: Memory, b: nat, hi: nat, o: Option<Id>)
    requires ValidConfig(cfg)
  {
    && In(cfg, m, b, o)
    && Rank(m, o) < hi
    && forall n | 0 <= n < |m.nodes| && Bucket(cfg, m.nodes[n].key) == b && Rank(m, o) < m.nodes[n].rank < hi ::
         m.nodes[n].deleted
  }

  /** No live node holding `key` has a rank above the walker's position. */
  predicate Ahead(m: Memory, key: int, o: Option<Id>)
    requires Ok(m, o)
  {
    forall n | 0 <= n < |m.nodes| && m.nodes[n].rank > Rank(m, o) && m.nodes[n].key == key :: m.nodes[n].deleted
  }

  predicate RankBounded(m: Memory) {
    forall n | 0 <= n < |m.nodes| :: m.nodes[n].rank <= m.clock
  }

  predicate RankInv(m: Memory) {
    && RankBounded(m)
    && (forall x, y | 0 <= x < |m.nodes| && 0 <= y < |m.nodes| && m.nodes[x].rank == m.nodes[y].rank > 0 :: x == y)
  }

  predicate KeyInv(m: Memory) {
    forall x, y | 0 <= x < |m.nodes| && 0 <= y < |m.nodes| && 0 < m.nodes[x].rank < m.nodes[y].rank
                  && m.nodes[x].key == m.nodes[y].key :: m.nodes[x].deleted
  }

  predicate LinkInv(cfg: Config, m: Memory)
    requires ValidConfig(cfg) && Allocated(cfg, m)
  {
    && (forall b | 0 <= b < |m.heads| :: Link(cfg, m, b, m.clock + 1, m.heads[b]))
    && (forall n | 0 <= n < |m.nodes| && m.nodes[n].rank > 0 ::
          Link(cfg, m, Bucket(cfg, m.nodes[n].key), m.nodes[n].rank, m.nodes[n].bucketNext))
  }

  predicate BucketInv(cfg: Config, m: Memory) {
    ValidConfig(cfg) && Allocated(cfg, m) && RankInv(m) && KeyInv(m) && LinkInv(cfg, m)
  }

  predicate Unpublished(m: Memory, key: int, o: Option<Id>) {
    o.Some? ==> o.value < |m.nodes| && m.nodes[o.value].rank == 0 && m.nodes[o.value].key == key
  }

  /** What a thread knows about the bucket chains at each program counter. */
  predicate PcBucket(cfg: Config, m: Memory, pc: Pc)
    requires ValidConfig(cfg) && PcAllocated(m, pc)
  {
    match pc
    case Idle(r) => r.Inserted? || r.Found? ==> r.node < |m.nodes| && m.nodes[r.node].rank > 0
    case Start(op) => op.Insert? ==> Unpublished(m, op.key, op.made)
    case Walk(op, p, c) =>
      && PtrIn(cfg, m, Bucket(cfg, op.key), p) && In(cfg, m, Bucket(cfg, op.key), c)
      && (op.Insert? ==> Unpublished(m, op.key, op.made) && Ahead(m, op.key, c))
    case CheckDeleted(n) => m.nodes[n].rank > 0
    case LoadHead(k, _, f) => Unpublished(m, k, f) && Ahead(m, k, None)
    case CasHead(k, _, n, e) =>
      Unpublished(m, k, Some(n)) && m.nodes[n].bucketNext == e && Ahead(m, k, None)
    case Mark(k, p, n) =>
      PtrIn(cfg, m, Bucket(cfg, k), p) && Published(cfg, m, n, Bucket(cfg, k)) && m.nodes[n].key == k
    case UnlinkRead(p, n) => Condemned(cfg, m, p, n)
    case UnlinkLoad(p, n) => Condemned(cfg, m, p, n)
    case UnlinkCas(p, n, x) =>
      Condemned(cfg, m, p, n) && Link(cfg, m, Bucket(cfg, m.nodes[n].key), m.nodes[n].rank, x)
    case LoadTail(n) => m.nodes[n].rank > 0
    case CasOrderHead(n) => m.nodes[n].rank > 0
    case CasNullTail(n) => m.nodes[n].rank > 0
    case LoadTailNext(n, t) => m.nodes[n].rank > 0
    case RecheckTail(n, t, _) => m.nodes[n].rank > 0
    case HelpTail(n, t, _) => m.nodes[n].rank > 0
    case LinkAfter(n, t) => m.nodes[n].rank > 0
    case SwingTail(n, t) => m.nodes[n].rank > 0
  }

  /** `n` is marked deleted and `p` is some link of its bucket. */
  predicate Condemned(cfg: Config, m: Memory, p: Ptr, n: Id)
    requires ValidConfig(cfg)
  {
    && n < |m.nodes| && m.nodes[n].rank > 0 && m.nodes[n].deleted
    && PtrIn(cfg, m, Bucket(cfg, m.nodes[n].key), p)
  }

  // ----- The insertion-order chain -----

  function TailSlot(m: Memory): nat
    requires Ok(m, m.orderTail)
  {
    if m.orderTail.None? then 0 else m.nodes[m.orderTail.value].slot
  }

  /** Position `i` of the history `linked` holds a node whose link agrees with the history. */
  predicate ChainAt(m: Memory, i: nat)
    requires i < |m.linked|
  {
    && m.linked[i] < |m.nodes|
    && m.nodes[m.linked[i]].slot == i + 1
    && m.nodes[m.linked[i]].orderNext == (if i + 1 < |m.linked| then Some(m.linked[i + 1]) else None)
  }

  /** A node is on the chain exactly when it has a slot. */
  predicate SlotAt(m: Memory, n: Id)
    requires n < |m.nodes|
  {
    && m.nodes[n].slot <= |m.linked|
    && (m.nodes[n].slot > 0 ==> m.linked[m.nodes[n].slot - 1] == n && m.nodes[n].rank > 0)
    && (m.nodes[n].slot == 0 ==> m.nodes[n].orderNext == None)
  }

  /** orderTail is on the chain, at most one link behind its end. */
  predicate TailOnChain(m: Memory) {
    && Ok(m, m.orderTail)
    && (m.orderTail.None? ==> |m.linked| <= 1)
    && (m.orderTail.Some? ==> TailSlot(m) > 0 && TailSlot(m) + 1 >= |m.linked|)
  }

  /** `linked` is exactly the chain hanging off orderHead. */
  predicate OrderInv(m: Memory) {
    && m.orderHead == (if m.linked == [] then None else Some(m.linked[0]))
    && (forall i | 0 <= i < |m.linked| :: ChainAt(m, i))
    && (forall n | 0 <= n < |m.nodes| :: SlotAt(m, n))
    && TailOnChain(m)
  }

  /** The node a thread still has to publish or to link; nobody else may. */
  function Owned(pc: Pc): Option<Id> {
    match pc
    case Start(op) => if op.Insert? then op.made else None
    case Walk(op, _, _) => if op.Insert? then op.made else None
    case LoadHead(_, _, f) => f
    case CasHead(_, _, n, _) => Some(n)
    case LoadTail(n) => Some(n)
    case CasOrderHead(n) => Some(n)
    case LoadTailNext(n, _) => Some(n)
    case RecheckTail(n, _, _) => Some(n)
    case HelpTail(n, _, _) => Some(n)
    case LinkAfter(n, _) => Some(n)
    case _ => None
  }

  predicate SeenTail(m: Memory, t: Id)
    requires Ok(m, m.orderTail) && t < |m.nodes|
  {
    0 < m.nodes[t].slot <= TailSlot(m)
  }

  /** What a thread knows about the order chain at each program counter. */
  predicate PcOrder(m: Memory, pc: Pc)
    requires Ok(m, m.orderTail) && PcAllocated(m, pc)
  {
    && (Owned(pc).Some? ==> m.nodes[Owned(pc).value].slot == 0)
    && match pc
       case Idle(r) => r.Inserted? ==> r.node < |m.nodes| && m.nodes[r.node].slot > 0
       case CasNullTail(n) => m.nodes[n].slot == 1
       case LoadTailNext(_, t) => SeenTail(m, t)
       case RecheckTail(_, t, x) => SeenTail(m, t) && (x.Some? ==> m.nodes[x.value].slot == m.nodes[t].slot + 1)
       case HelpTail(_, t, x) => SeenTail(m, t) && m.nodes[x].slot == m.nodes[t].slot + 1
       case LinkAfter(_, t) => SeenTail(m, t)
       case SwingTail(n, t) => SeenTail(m, t) && m.nodes[n].slot == m.nodes[t].slot + 1
       case _ => true
  }

  // ----- The rely condition -----

  /** What a thread that owns `own` and inserts `key` may assume about a step of another thread. */
  predicate Rely(m: Memory, m': Memory, own: Option<Id>, key: Option<int>) {
    && |m.nodes| <= |m'.nodes| && |m.heads| == |m'.heads| && m.clock <= m'.clock
    && Ok(m, m.orderTail) && Ok(m', m'.orderTail)
    && (forall n | 0 <= n < |m.nodes| :: NodeRely(m.clock, m.nodes[n], m'.nodes[n], own == Some(n), key))
    && (forall n | |m.nodes| <= n < |m'.nodes| :: m'.nodes[n].rank == 0 && m'.nodes[n].slot == 0)
    && m.linked <= m'.linked
    && TailSlot(m) <= TailSlot(m')
  }

  predicate NodeRely(clock: nat, x: Node, x': Node, mine: bool, key: Option<int>) {
    && x'.key == x.key && x'.value == x.value
    && (x.deleted ==> x'.deleted)
    && (x.rank > 0 ==> x'.rank == x.rank)
    && (x.rank == 0 && x'.rank > 0 ==> x'.rank > clock && !mine && key != Some(x.key))
    && (x.slot > 0 ==> x'.slot == x.slot)
    && (x.slot == 0 && x'.slot > 0 ==> !mine)
    && (mine && x.rank == 0 ==> x' == x)
  }

  lemma LinkStable(cfg: Config, m: Memory, m': Memory, b: nat, hi: nat, o: Option<Id>, own: Option<Id>,
                   key: Option<int>)
    requires ValidConfig(cfg) && Link(cfg, m, b, hi, o) && hi <= m.clock + 1
    requires Rely(m, m', own, key)
    ensures Link(cfg, m', b, hi, o)
  {
    forall n | 0 <= n < |m'.nodes| && Bucket(cfg, m'.nodes[n].key) == b && Rank(m', o) < m'.nodes[n].rank < hi
      ensures m'.nodes[n].deleted
    {
      assert n < |m.nodes|;
      assert NodeRely(m.clock, m.nodes[n], m'.nodes[n], own == Some(n), key);
    }
  }

  lemma AheadStable(m: Memory, m': Memory, key: int, o: Option<Id>, own: Option<Id>)
    requires Ok(m, o) && Ahead(m, key, o) && (o.Some? ==> Rank(m, o) > 0)
    requires Rely(m, m', own, Some(key))
    ensures Ahead(m', key, o)
  {
    forall n | 0 <= n < |m'.nodes| && m'.nodes[n].rank > Rank(m', o) && m'.nodes[n].key == key
      ensures m'.nodes[n].deleted
    {
      assert n < |m.nodes|;
      assert NodeRely(m.clock, m.nodes[n], m'.nodes[n], own == Some(n), Some(key));
    }
  }

  lemma AllocatedStable(m: Memory, m': Memory, pc: Pc)
    requires PcAllocated(m, pc) && |m.nodes| <= |m'.nodes| && |m.heads| == |m'.heads|
    ensures PcAllocated(m', pc)
  {
  }

  lemma WalkStable(cfg: Config, m: Memory, m': Memory, pc: Pc)
    requires ValidConfig(cfg) && PcAllocated(m, pc) && PcAllocated(m', pc) && PcBucket(cfg, m, pc) && pc.Walk?
    requires Rely(m, m', Owned(pc), InsertKey(pc))
    ensures PcBucket(cfg, m', pc)
  {
    if pc.op.Insert? { AheadStable(m, m', pc.op.key, pc.curr, Owned(pc)); }
  }

  lemma InsertStable(cfg: Config, m: Memory, m': Memory, pc: Pc)
    requires ValidConfig(cfg) && PcAllocated(m, pc) && PcAllocated(m', pc) && PcBucket(cfg, m, pc)
    requires (pc.LoadHead? || pc.CasHead?) && Rely(m, m', Owned(pc), InsertKey(pc))
    ensures PcBucket(cfg, m', pc)
  {
    AheadStable(m, m', pc.key, None, Owned(pc));
  }

  lemma NodeStable(cfg: Config, m: Memory, m': Memory, n: Id, own: Option<Id>, key: Option<int>)
    requires ValidConfig(cfg) && n < |m.nodes| && m.nodes[n].rank > 0 && Rely(m, m', own, key)
    ensures n < |m'.nodes| && m'.nodes[n].rank == m.nodes[n].rank && m'.nodes[n].key == m.nodes[n].key
    ensures m.nodes[n].deleted ==> m'.nodes[n].deleted
  {
    assert NodeRely(m.clock, m.nodes[n], m'.nodes[n], own == Some(n), key);
  }

  lemma RemoveStable(cfg: Config, m: Memory, m': Memory, pc: Pc)
    requires ValidConfig(cfg) && PcAllocated(m, pc) && PcAllocated(m', pc) && PcBucket(cfg, m, pc)
    requires (pc.Mark? || pc.UnlinkRead? || pc.UnlinkLoad?) && Rely(m, m', Owned(pc), InsertKey(pc))
    ensures PcBucket(cfg, m', pc)
  {
    NodeStable(cfg, m, m', pc.node, Owned(pc), InsertKey(pc));
    if pc.prev.Next? { NodeStable(cfg, m, m', pc.prev.node, Owned(pc), InsertKey(pc)); }
  }

  lemma UnlinkStable(cfg: Config, m: Memory, m': Memory, pc: Pc)
    requires ValidConfig(cfg) && RankBounded(m) && PcAllocated(m, pc) && PcAllocated(m', pc) && PcBucket(cfg, m, pc)
    requires pc.UnlinkCas? && Rely(m, m', Owned(pc), InsertKey(pc))
    ensures PcBucket(cfg, m', pc)
  {
    var b, rank := Bucket(cfg, m.nodes[pc.node].key), m.nodes[pc.node].rank;
    LinkStable(cfg, m, m', b, rank, pc.next, Owned(pc), InsertKey(pc));
    NodeStable(cfg, m, m', pc.node, Owned(pc), InsertKey(pc));
    if pc.prev.Next? { NodeStable(cfg, m, m', pc.prev.node, Owned(pc), InsertKey(pc)); }
  }

  lemma BucketStable(cfg: Config, m: Memory, m': Memory, pc: Pc)
    requires ValidConfig(cfg) && RankBounded(m) && PcAllocated(m, pc) && PcAllocated(m', pc)
    requires PcBucket(cfg, m, pc) && Rely(m, m', Owned(pc), InsertKey(pc))
    ensures PcBucket(cfg, m', pc)
  {
    if pc.Walk? {
      WalkStable(cfg, m, m', pc);
    } else if pc.LoadHead? || pc.CasHead? {
      InsertStable(cfg, m, m', pc);
    } else if pc.Mark? || pc.UnlinkRead? || pc.UnlinkLoad? {
      RemoveStable(cfg, m, m', pc);
    } else if pc.UnlinkCas? {
      UnlinkStable(cfg, m, m', pc);
    } else {
      PublishedStable(cfg, m, m', pc);
    }
  }

  /** The remaining counters know only that their node is published, or theirs. */
  lemma PublishedStable(cfg: Config, m: Memory, m': Memory, pc: Pc)
    requires ValidConfig(cfg) && PcAllocated(m, pc) && PcAllocated(m', pc) && PcBucket(cfg, m, pc)
    requires !pc.Walk? && !pc.LoadHead? && !pc.CasHead? && !pc.Mark?
    requires !pc.UnlinkRead? && !pc.UnlinkLoad? && !pc.UnlinkCas? && Rely(m, m', Owned(pc), InsertKey(pc))
    ensures PcBucket(cfg, m', pc)
  {
  }

  lemma OrderStable(m: Memory, m': Memory, pc: Pc)
    requires Ok(m, m.orderTail) && PcAllocated(m, pc) && PcAllocated(m', pc)
    requires PcOrder(m, pc) && Rely(m, m', Owned(pc), InsertKey(pc))
    ensures PcOrder(m', pc)
  {
  }

  /** Stability: what a thread knows survives every step the others may take. */
  lemma Stable(cfg: Config, m: Memory, m': Memory, pc: Pc)
    requires ValidConfig(cfg) && RankBounded(m) && PcAllocated(m, pc) && Ok(m, m.orderTail)
    requires PcBucket(cfg, m, pc) && PcOrder(m, pc)
    requires Rely(m, m', Owned(pc), InsertKey(pc))
    ensures PcAllocated(m', pc) && PcBucket(cfg, m', pc) && PcOrder(m', pc)
  {
    AllocatedStable(m, m', pc);
    BucketStable(cfg, m, m', pc);
    OrderStable(m, m', pc);
  }
}
