/** Outgoing packets as handles on pooled blocks: construct, copy, move, assign, destroy. */
module PacketHandles {
  import opened Common
  import opened PoolTuning
  import opened BufferPool
  import opened PacketPool

  /** The payload union: the address of a block when `size` is positive, else a scalar. */
  datatype Payload = Pointer(block: Addr) | Scalar(value: U64)

  datatype Handle = Handle(size: U32, payload: Payload)

  const EMPTY: Handle := Handle(0, Scalar(0))

  type Handles = map<PacketId, Handle>

  predicate HoldsBlock(h: Handle) { h.size > 0 && h.payload.Pointer? }

  /** The packets that hold block `a`. */
  function Holders(hs: Handles, a: Addr): set<PacketId> {
    set p | p in hs && HoldsBlock(hs[p]) && hs[p].payload.block == a
  }

  /** Every reference the pool counts is a packet holding the block, and the other way round. */
  ghost predicate Balanced(hs: Handles, refs: multiset<Addr>) {
    forall a {:trigger Holders(hs, a)} :: refs[a] == |Holders(hs, a)|
  }

  function Held(h: Handle): multiset<Addr> { if HoldsBlock(h) then multiset{h.payload.block} else multiset{} }

  lemma AddHandle(hs: Handles, refs: multiset<Addr>, p: PacketId, h: Handle)
    requires Balanced(hs, refs) && p !in hs
    ensures Balanced(hs[p := h], refs + Held(h))
  {
    forall a ensures (refs + Held(h))[a] == |Holders(hs[p := h], a)| {
      assert Holders(hs[p := h], a) == Holders(hs, a) + if a in Held(h) then {p} else {};
    }
  }

  lemma DropHandle(hs: Handles, refs: multiset<Addr>, p: PacketId)
    requires Balanced(hs, refs) && p in hs
    ensures Balanced(hs - {p}, refs - Held(hs[p]))
    ensures HoldsBlock(hs[p]) ==> hs[p].payload.block in refs
  {
    forall a ensures (refs - Held(hs[p]))[a] == |Holders(hs - {p}, a)| && (a in Held(hs[p]) ==> a in refs) {
      if a in Held(hs[p]) {
        assert p in Holders(hs, a);
        assert Holders(hs - {p}, a) == Holders(hs, a) - {p};
      } else {
        assert Holders(hs - {p}, a) == Holders(hs, a);
      }
    }
  }

  /** Overwriting a handle gives up what it held and takes what it now holds. */
  lemma SetHandle(hs: Handles, refs: multiset<Addr>, p: PacketId, h: Handle)
    requires Balanced(hs, refs) && p in hs
    ensures Balanced(hs[p := h], refs - Held(hs[p]) + Held(h))
    ensures HoldsBlock(hs[p]) ==> hs[p].payload.block in refs
  {
    DropHandle(hs, refs, p);
    AddHandle(hs - {p}, refs - Held(hs[p]), p, h);
    assert (hs - {p})[p := h] == hs[p := h];
  }

  /** The packet carries exactly `d`, read through its block. */
  predicate Carries(blocks: Blocks, h: Handle, d: Bytes) {
    if HoldsBlock(h) then h.payload.block in blocks && blocks[h.payload.block].data == d else d == []
  }

  predicate SameBlock(blocks: Blocks, blocks': Blocks, h: Handle) {
    HoldsBlock(h) ==>
      var b := h.payload.block;
      b in blocks && b in blocks' && blocks'[b] == blocks[b].(refCount := blocks'[b].refCount)
  }

  /** Packets other than those in `but` are still there and carry what they did. */
  ghost predicate OthersSame(hs: Handles, hs': Handles, blocks: Blocks, blocks': Blocks, but: set<PacketId>) {
    forall q | q in hs && q !in but :: q in hs' && hs'[q] == hs[q] && SameBlock(blocks, blocks', hs[q])
  }

  lemma HeldIsReferenced(hs: Handles, refs: multiset<Addr>, q: PacketId)
    requires Balanced(hs, refs) && q in hs && HoldsBlock(hs[q])
    ensures hs[q].payload.block in refs
  {
    assert q in Holders(hs, hs[q].payload.block);
  }

  /** Adding a packet while held blocks stay as they are disturbs no other packet. */
  lemma AddKeepsOthers(hs: Handles, p: PacketId, h: Handle, blocks: Blocks, blocks': Blocks, refs: multiset<Addr>)
    requires Balanced(hs, refs) && p !in hs && HeldUnchanged(blocks, blocks', refs)
    ensures OthersSame(hs, hs[p := h], blocks, blocks', {})
  {
    forall q | q in hs && HoldsBlock(hs[q]) ensures hs[q].payload.block in refs { HeldIsReferenced(hs, refs, q); }
  }

  /** A block nobody referenced has the new packet as its only holder. */
  lemma SoleHolder(hs: Handles, refs: multiset<Addr>, p: PacketId, h: Handle)
    requires Balanced(hs, refs) && p !in hs && HoldsBlock(h) && h.payload.block !in refs
    ensures Holders(hs[p := h], h.payload.block) == {p}
  {
    assert Holders(hs, h.payload.block) == {};
    assert Holders(hs[p := h], h.payload.block) == Holders(hs, h.payload.block) + {p};
  }

  /** The packets alive and the pool they share agree on who holds what. */
  ghost predicate Consistent(pool: PacketBufferPool, hs: Handles)
    reads pool
  {
    pool.Valid() && Balanced(hs, pool.refs)
  }

  method NewPool() returns (pool: PacketBufferPool)
    ensures fresh(pool) && Consistent(pool, map[]) && pool.Figures() == Opened()
  {
    pool := new PacketBufferPool();
    forall a ensures pool.refs[a] == |Holders(map[], a)| { assert Holders(map[], a) == {}; }
  }

  // ----- The members of OutgoingPacket -----

  /** A packet joins once the pool has counted its reference. */
  lemma Join(pool: PacketBufferPool, hs: Handles, p: PacketId, h: Handle, blocks: Blocks, refs: multiset<Addr>)
    requires pool.Valid() && Balanced(hs, refs) && p !in hs
    requires pool.refs == refs + Held(h) && HeldUnchanged(blocks, pool.blocks, refs)
    ensures Consistent(pool, hs[p := h]) && OthersSame(hs, hs[p := h], blocks, pool.blocks, {})
  {
    AddHandle(hs, refs, p, h);
    AddKeepsOthers(hs, p, h, blocks, pool.blocks, refs);
  }

  /** A packet without a block needs no reference. */
  lemma JoinEmpty(pool: PacketBufferPool, hs: Handles, p: PacketId, h: Handle)
    requires Consistent(pool, hs) && p !in hs && !HoldsBlock(h)
    ensures Consistent(pool, hs[p := h]) && OthersSame(hs, hs[p := h], pool.blocks, pool.blocks, {})
  {
    assert pool.refs + multiset{} == pool.refs;
    Join(pool, hs, p, h, pool.blocks, pool.refs);
  }

  /** Packet `p` alone holds a copy of `d`, in a block of the class its length asks for, if its size is positive. */
  ghost predicate Fresh(hs: Handles, blocks: Blocks, p: PacketId, size: nat, d: Bytes) {
    && p in hs && hs[p].size == size && Carries(blocks, hs[p], if size > 0 then d else [])
    && (HoldsBlock(hs[p]) <==> size > 0)
    && (size > 0 ==> blocks[hs[p].payload.block].cls == ClassOf(|d|) && Holders(hs, hs[p].payload.block) == {p})
  }

  /** A packet with a copy of `d`; the size is truncated to 32 bits. */
  method Construct(pool: PacketBufferPool, hs: Handles, p: PacketId, d: Bytes) returns (hs': Handles)
    requires Consistent(pool, hs) && p !in hs
    modifies pool
    ensures Consistent(pool, hs') && Fresh(hs', pool.blocks, p, |d| % U32_SIZE, d) && hs' == hs[p := hs'[p]]
    ensures pool.Figures() == if |d| % U32_SIZE > 0 then Requested(old(pool.Figures()), |d|) else old(pool.Figures())
    ensures OthersSame(hs, hs', old(pool.blocks), pool.blocks, {})
  {
    var size := |d| % U32_SIZE;
    hs' := hs[p := Handle(size, Scalar(0))];
    if size > 0 {
      hs' := ConstructFilled(pool, hs, p, d, size);
    } else {
      JoinEmpty(pool, hs, p, Handle(size, Scalar(0)));
    }
  }

  method ConstructFilled(pool: PacketBufferPool, hs: Handles, p: PacketId, d: Bytes, size: U32) returns (hs': Handles)
    requires Consistent(pool, hs) && p !in hs && |d| > 0 && size > 0
    modifies pool
    ensures Consistent(pool, hs') && Fresh(hs', pool.blocks, p, size, d) && hs' == hs[p := hs'[p]]
    ensures pool.Figures() == Requested(old(pool.Figures()), |d|)
    ensures OthersSame(hs, hs', old(pool.blocks), pool.blocks, {})
  {
    ghost var refs := pool.refs;
    var a := pool.AllocateFilled(d);
    SoleHolder(hs, refs, p, Handle(size, Pointer(a)));
    Join(pool, hs, p, Handle(size, Pointer(a)), old(pool.blocks), refs);
    hs' := hs[p := Handle(size, Pointer(a))];
  }

  /** Copy construction: the same block, one more reference. */
  method Copy(pool: PacketBufferPool, hs: Handles, p: PacketId, src: PacketId) returns (hs': Handles)
    requires Consistent(pool, hs) && p !in hs && src in hs
    modifies pool
    ensures Consistent(pool, hs') && hs' == hs[p := if HoldsBlock(hs[src]) then hs[src] else Handle(0, hs[src].payload)]
    ensures pool.Figures() == old(pool.Figures()) && OthersSame(hs, hs', old(pool.blocks), pool.blocks, {})
  {
    var h := hs[src];
    if !HoldsBlock(h) {
      JoinEmpty(pool, hs, p, Handle(0, h.payload));
      return hs[p := Handle(0, h.payload)];
    }
    hs' := Share(pool, hs, p, h, src);
  }

  method Share(pool: PacketBufferPool, hs: Handles, p: PacketId, h: Handle, ghost src: PacketId) returns (hs': Handles)
    requires Consistent(pool, hs) && p !in hs && src in hs && h == hs[src] && HoldsBlock(h)
    modifies pool
    ensures Consistent(pool, hs') && hs' == hs[p := h] && OthersSame(hs, hs', old(pool.blocks), pool.blocks, {})
    ensures pool.Figures() == old(pool.Figures())
  {
    ghost var refs := pool.refs;
    HeldIsReferenced(hs, refs, src);
    pool.Retain(h.payload.block);
    Join(pool, hs, p, h, old(pool.blocks), refs);
    hs' := hs[p := h];
  }

  /** Move construction: the block changes hands, no count changes. */
  method Move(pool: PacketBufferPool, hs: Handles, p: PacketId, src: PacketId) returns (hs': Handles)
    requires Consistent(pool, hs) && p !in hs && src in hs
    ensures Consistent(pool, hs') && hs' == hs[p := hs[src]][src := EMPTY]
  {
    var h := hs[src];
    MoveBalanced(hs, pool.refs, p, src);
    hs' := hs[p := h][src := EMPTY];
  }

  lemma MoveBalanced(hs: Handles, refs: multiset<Addr>, p: PacketId, src: PacketId)
    requires Balanced(hs, refs) && src in hs && p != src && (p in hs ==> !HoldsBlock(hs[p]))
    ensures Balanced(hs[p := hs[src]][src := EMPTY], refs)
  {
    var h := hs[src];
    DropHandle(hs, refs, src);
    var rest := hs - {src};
    var clean := rest - {p};
    if p in rest { DropHandle(rest, refs - Held(h), p); }
    assert refs - Held(h) - multiset{} == refs - Held(h);
    assert p !in rest ==> clean == rest;
    AddHandle(clean, refs - Held(h), p, h);
    assert refs - Held(h) + Held(h) == refs;
    AddHandle(clean[p := h], refs, src, EMPTY);
    assert refs + Held(EMPTY) == refs;
    assert clean[p := h][src := EMPTY] == hs[p := h][src := EMPTY];
  }

  /** The accounts after packet `p` gives up what it holds. */
  ghost function AfterDrop(b: Books, hs: Handles, blocks: Blocks, p: PacketId): Books
    requires BooksOk(b) && p in hs
  {
    if HoldsBlock(hs[p]) && PooledAndLast(hs, blocks, p, hs[p].payload.block)
    then Returned(b, blocks[hs[p].payload.block].cls.value)
    else b
  }

  /** Packet `p` alone holds block `a`, and the block belongs to a size class. */
  ghost predicate PooledAndLast(hs: Handles, blocks: Blocks, p: PacketId, a: Addr) {
    a in blocks && blocks[a].cls.Some? && blocks[a].cls.value < CLASSES && Holders(hs, a) == {p}
  }

  lemma HeldIsOk(pool: PacketBufferPool, hs: Handles, p: PacketId)
    requires Consistent(pool, hs) && p in hs && HoldsBlock(hs[p])
    ensures var a := hs[p].payload.block;
            && a in pool.refs && a in pool.blocks && BlockOk(pool.blocks[a])
            && (pool.refs[a] == 1 <==> Holders(hs, a) == {p})
  {
    var a := hs[p].payload.block;
    HeldIsReferenced(hs, pool.refs, p);
    assert p in Holders(hs, a);
    if |Holders(hs, a)| == 1 { OnlyMember(Holders(hs, a), p); }
  }

  lemma OnlyMember(s: set<PacketId>, p: PacketId)
    requires p in s && |s| == 1
    ensures s == {p}
  {
    assert |s - {p}| == 0;
    assert s == (s - {p}) + {p};
  }

  /** What destruction and assignment do first. */
  method ReleasePayload(pool: PacketBufferPool, hs: Handles, p: PacketId) returns (hs': Handles)
    requires Consistent(pool, hs) && p in hs
    modifies pool
    ensures Consistent(pool, hs') && hs' == hs[p := EMPTY]
    ensures pool.Figures() == AfterDrop(old(pool.Figures()), hs, old(pool.blocks), p)
    ensures OthersSame(hs, hs', old(pool.blocks), pool.blocks, {p})
  {
    var h := hs[p];
    ghost var refs := pool.refs;
    SetHandle(hs, refs, p, EMPTY);
    assert refs - Held(h) + Held(EMPTY) == refs - Held(h);
    if HoldsBlock(h) {
      HeldIsOk(pool, hs, p);
      pool.Release(h.payload.block);
    } else {
      assert refs - Held(h) == refs;
      KeptAll(pool.blocks);
    }
    hs' := hs[p := EMPTY];
    KeptOthers(hs, hs', old(pool.blocks), pool.blocks, pool.refs, p);
  }

  lemma KeptAll(blocks: Blocks)
    ensures Kept(blocks, blocks)
  {
  }

  lemma KeptOthers(hs: Handles, hs': Handles, blocks: Blocks, blocks': Blocks, refs: multiset<Addr>, p: PacketId)
    requires hs' == hs[p := EMPTY] && Balanced(hs', refs) && RefsOk(blocks', refs) && Kept(blocks, blocks')
    ensures OthersSame(hs, hs', blocks, blocks', {p})
  {
    forall q | q in hs && q != p && HoldsBlock(hs[q]) ensures hs[q].payload.block in blocks' {
      HeldIsReferenced(hs', refs, q);
    }
  }

  method Destroy(pool: PacketBufferPool, hs: Handles, p: PacketId) returns (hs': Handles)
    requires Consistent(pool, hs) && p in hs
    modifies pool
    ensures Consistent(pool, hs') && hs' == hs - {p} && OthersSame(hs, hs', old(pool.blocks), pool.blocks, {p})
    ensures pool.Figures() == AfterDrop(old(pool.Figures()), hs, old(pool.blocks), p)
  {
    hs' := ReleasePayload(pool, hs, p);
    DropHandle(hs', pool.refs, p);
    assert pool.refs - Held(EMPTY) == pool.refs;
    hs' := hs' - {p};
  }

  /** Copy assignment; of a packet to itself it does nothing. */
  method CopyAssign(pool: PacketBufferPool, hs: Handles, p: PacketId, src: PacketId) returns (hs': Handles)
    requires Consistent(pool, hs) && p in hs && src in hs
    modifies pool
    ensures Consistent(pool, hs')
    ensures if p == src then hs' == hs && pool.blocks == old(pool.blocks) && pool.Figures() == old(pool.Figures())
            else && hs' == hs[p := if HoldsBlock(hs[src]) then hs[src] else Handle(0, hs[src].payload)]
                 && OthersSame(hs, hs', old(pool.blocks), pool.blocks, {p})
                 && pool.Figures() == AfterDrop(old(pool.Figures()), hs, old(pool.blocks), p)
  {
    if p == src {
      return hs;
    }
    hs' := Destroy(pool, hs, p);
    ghost var between := pool.blocks;
    hs' := Copy(pool, hs', p, src);
    OthersTwice(hs, hs - {p}, hs', old(pool.blocks), between, pool.blocks, p);
  }

  lemma OthersTwice(h0: Handles, h1: Handles, h2: Handles, b0: Blocks, b1: Blocks, b2: Blocks, p: PacketId)
    requires OthersSame(h0, h1, b0, b1, {p}) && OthersSame(h1, h2, b1, b2, {})
    ensures OthersSame(h0, h2, b0, b2, {p})
  {
    forall q | q in h0 && q != p ensures SameBlock(b0, b2, h0[q]) { assert q in h1 && SameBlock(b0, b1, h0[q]); }
  }

  /** Move assignment; of a packet to itself it does nothing. */
  method MoveAssign(pool: PacketBufferPool, hs: Handles, p: PacketId, src: PacketId) returns (hs': Handles)
    requires Consistent(pool, hs) && p in hs && src in hs
    modifies pool
    ensures Consistent(pool, hs') && hs' == if p == src then hs else hs[p := hs[src]][src := EMPTY]
    ensures if p == src then pool.blocks == old(pool.blocks) && pool.Figures() == old(pool.Figures())
            else && OthersSame(hs, hs', old(pool.blocks), pool.blocks, {p, src})
                 && SameBlock(old(pool.blocks), pool.blocks, hs[src])
                 && pool.Figures() == AfterDrop(old(pool.Figures()), hs, old(pool.blocks), p)
  {
    if p == src {
      return hs;
    }
    var released := ReleasePayload(pool, hs, p);
    MoveBalanced(released, pool.refs, p, src);
    hs' := released[p := hs[src]][src := EMPTY];
  }

  // ----- What holds in every reachable state -----

  /** A count is the number of packets holding the block, a cached block is held by none, a held block is
      allocated, and nothing unheld is left outside the caches. */
  lemma CountsAreHolders(pool: PacketBufferPool, hs: Handles, a: Addr)
    requires Consistent(pool, hs)
    ensures a in pool.blocks ==> pool.blocks[a].refCount == |Holders(hs, a)|
    ensures Holders(hs, a) != {} ==> a in pool.blocks
    ensures forall i | 0 <= i < CLASSES && a in pool.lists[i] :: Holders(hs, a) == {}
    ensures a in pool.blocks && Holders(hs, a) == {} ==> exists i :: 0 <= i < CLASSES && a in pool.lists[i]
  {
    if Holders(hs, a) != {} {
      assert a in pool.refs;
    } else if a in pool.blocks {
      assert CachedIfUnheld(pool.lists, a, pool.blocks[a]);
    }
    forall i | 0 <= i < CLASSES && a in pool.lists[i] ensures Holders(hs, a) == {} {
      assert ListOk(pool.blocks, pool.lists[i], i);
    }
  }

  /** No block is in the free lists twice. */
  lemma NoListTwice(pool: PacketBufferPool, hs: Handles, i: nat, j: nat, k: nat, l: nat)
    requires Consistent(pool, hs) && i < CLASSES && j < CLASSES && k < |pool.lists[i]| && l < |pool.lists[j]|
    requires pool.lists[i][k] == pool.lists[j][l]
    ensures i == j && k == l
  {
    assert ListOk(pool.blocks, pool.lists[i], i) && ListOk(pool.blocks, pool.lists[j], j);
    assert pool.lists[i][k] in pool.lists[i] && pool.lists[j][l] in pool.lists[j];
  }

  /** Every free list is within its target, and affordable targets bound the bytes cached. */
  lemma CacheWithinBudget(pool: PacketBufferPool, hs: Handles)
    requires Consistent(pool, hs)
    ensures WithinTargets(Lengths(pool.lists), pool.targets)
    ensures Affordable(pool.targets) ==> Affordable(Lengths(pool.lists))
  {
    if Affordable(pool.targets) { CachedWithinBudget(Lengths(pool.lists), pool.targets); }
  }
}
