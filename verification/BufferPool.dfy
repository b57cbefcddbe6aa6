/** The blocks of the packet buffer pool and the free lists that cache them. */
module BufferPool {
  import opened Common
  import opened PoolTuning

  type Addr = nat

  /** `cls` is the size class of a pooled block; a block too large for any class has none. */
  datatype Block = Block(refCount: nat, requested: U32, cls: Option<nat>, capacity: nat, data: Bytes)

  type Blocks = map<Addr, Block>

  // ----- What the pool keeps -----

  /** A cached block is allocated, of that class, and nobody holds it. */
  predicate ListOk(blocks: Blocks, list: seq<Addr>, i: nat) {
    Distinct(list) && forall a | a in list :: a in blocks && blocks[a].cls == Some(i) && blocks[a].refCount == 0
  }

  predicate ListsOk(blocks: Blocks, lists: seq<seq<Addr>>) {
    |lists| == CLASSES && forall i | 0 <= i < CLASSES :: ListOk(blocks, lists[i], i)
  }

  /** Counts are exact, and whatever is referenced is allocated. */
  ghost predicate RefsOk(blocks: Blocks, refs: multiset<Addr>) {
    (forall a | a in blocks :: blocks[a].refCount == refs[a]) && forall a | a in refs :: a in blocks
  }

  predicate BlockOk(b: Block) {
    && (b.cls.Some? ==> b.cls.value < CLASSES && b.capacity == ClassSize(b.cls.value))
    && |b.data| <= b.capacity
  }

  /** A block nobody holds is in the cache of its class, so nothing is leaked. */
  predicate CachedIfUnheld(lists: seq<seq<Addr>>, a: Addr, b: Block) {
    b.refCount == 0 ==> b.cls.Some? && b.cls.value < |lists| && a in lists[b.cls.value]
  }

  predicate BlocksOk(blocks: Blocks, lists: seq<seq<Addr>>) {
    forall a | a in blocks :: BlockOk(blocks[a]) && CachedIfUnheld(lists, a, blocks[a])
  }

  /** How many blocks each list holds. */
  function Lengths(lists: seq<seq<Addr>>): (r: seq<nat>)
    ensures |r| == |lists|
  {
    seq(|lists|, i requires 0 <= i < |lists| => |lists[i]|)
  }

  lemma LengthsUpdate(lists: seq<seq<Addr>>, i: nat, list: seq<Addr>)
    requires i < |lists|
    ensures Lengths(lists[i := list]) == Lengths(lists)[i := |list|]
  {
  }
}
