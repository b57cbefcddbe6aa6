/** Whole runs of packet operations on a real pool: packets, blocks and accounts do what the program means. */
module PacketRuns {
  import opened Common
  import opened PoolTuning
  import opened BufferPool
  import opened PacketPool
  import opened PacketHandles
  import opened PacketPrograms

  /** The block a packet holds has its bytes, in the class their length asks for. */
  ghost predicate Matches(blocks: Blocks, h: Handle, c: Content, next: nat) {
    && (HoldsBlock(h) <==> c.Filled?)
    && (c.Filled? ==> h.payload.block in blocks && Holds(blocks[h.payload.block], c.d) && c.origin < next)
  }

  ghost predicate Holds(b: Block, d: Bytes) { b.data == d && b.cls == ClassOf(|d|) }

  /** Two packets hold one block exactly when their bytes come from one construction. */
  predicate OneOrigin(h: Handle, c: Content, h': Handle, c': Content) {
    HoldsBlock(h) && HoldsBlock(h') && c.Filled? && c'.Filled? ==>
      (h.payload.block == h'.payload.block <==> c.origin == c'.origin)
  }

  /** The packets alive show the contents they should. */
  ghost predicate Shows(blocks: Blocks, hs: Handles, packets: Packets, next: nat) {
    && (forall p :: p in hs <==> p in packets)
    && (forall p | p in hs :: Matches(blocks, hs[p], packets[p], next))
    && forall p, q | p in hs && q in hs :: OneOrigin(hs[p], packets[p], hs[q], packets[q])
  }

  lemma StillMatches(hs: Handles, hs': Handles, blocks: Blocks, blocks': Blocks, w: World, next: nat,
                     but: set<PacketId>, q: PacketId)
    requires Shows(blocks, hs, w.packets, w.next) && OthersSame(hs, hs', blocks, blocks', but) && w.next <= next
    requires q in hs && q !in but
    ensures q in hs' && hs'[q] == hs[q] && Matches(blocks', hs'[q], w.packets[q], next)
  {
    assert SameBlock(blocks, blocks', hs[q]);
    assert Matches(blocks, hs[q], w.packets[q], w.next);
  }

  /** One packet changed, the rest as before. */
  lemma ShowsOne(hs: Handles, h: Handle, blocks: Blocks, blocks': Blocks, w: World, p: PacketId, c: Content, next: nat)
    requires Shows(blocks, hs, w.packets, w.next) && OthersSame(hs, hs[p := h], blocks, blocks', {p}) && w.next <= next
    requires Matches(blocks', h, c, next)
    requires forall q | q in hs && q != p :: OneOrigin(hs[q], w.packets[q], h, c)
    ensures Shows(blocks', hs[p := h], w.packets[p := c], next)
  {
    var hs', packets' := hs[p := h], w.packets[p := c];
    forall q | q in hs' ensures Matches(blocks', hs'[q], packets'[q], next) {
      if q != p { StillMatches(hs, hs', blocks, blocks', w, next, {p}, q); }
    }
    forall q, r | q in hs' && r in hs' ensures OneOrigin(hs'[q], packets'[q], hs'[r], packets'[r]) {
      if q != p && r != p { assert OneOrigin(hs[q], w.packets[q], hs[r], w.packets[r]); }
    }
  }

  lemma FewerSame(hs: Handles, hs': Handles, blocks: Blocks, blocks': Blocks, but: set<PacketId>)
    requires OthersSame(hs, hs', blocks, blocks', {})
    ensures OthersSame(hs, hs', blocks, blocks', but)
  {
  }

  /** A new packet has a block of its own and the next origin. */
  lemma ShowsConstructed(hs: Handles, hs': Handles, blocks: Blocks, blocks': Blocks, w: World, p: PacketId, d: Bytes)
    requires Shows(blocks, hs, w.packets, w.next) && p !in hs && p in hs' && hs' == hs[p := hs'[p]]
    requires Fresh(hs', blocks', p, |d| % U32_SIZE, d) && OthersSame(hs, hs', blocks, blocks', {})
    ensures var c := if |d| % U32_SIZE > 0 then Filled(w.next, d) else Empty;
            Shows(blocks', hs', w.packets[p := c], if c.Filled? then w.next + 1 else w.next)
  {
    var c := if |d| % U32_SIZE > 0 then Filled(w.next, d) else Empty;
    var next := if c.Filled? then w.next + 1 else w.next;
    FewerSame(hs, hs', blocks, blocks', {p});
    forall q | q in hs && q != p ensures OneOrigin(hs[q], w.packets[q], hs'[p], c) {
      assert Matches(blocks, hs[q], w.packets[q], w.next);
      assert HoldsBlock(hs[q]) && HoldsBlock(hs'[p]) ==> q !in Holders(hs', hs'[p].payload.block);
    }
    ShowsOne(hs, hs'[p], blocks, blocks', w, p, c, next);
  }

  /** A copy has the same block and the same origin. */
  lemma ShowsCopied(hs: Handles, blocks: Blocks, blocks': Blocks, w: World, p: PacketId, src: PacketId)
    requires Shows(blocks, hs, w.packets, w.next) && src in hs && p != src
    requires var h := if HoldsBlock(hs[src]) then hs[src] else Handle(0, hs[src].payload);
             OthersSame(hs, hs[p := h], blocks, blocks', {p})
    ensures var h := if HoldsBlock(hs[src]) then hs[src] else Handle(0, hs[src].payload);
            Shows(blocks', hs[p := h], w.packets[p := w.packets[src]], w.next)
  {
    var h := if HoldsBlock(hs[src]) then hs[src] else Handle(0, hs[src].payload);
    StillMatches(hs, hs[p := h], blocks, blocks', w, w.next, {p}, src);
    forall q | q in hs && q != p ensures OneOrigin(hs[q], w.packets[q], h, w.packets[src]) {
      assert OneOrigin(hs[q], w.packets[q], hs[src], w.packets[src]);
    }
    ShowsOne(hs, h, blocks, blocks', w, p, w.packets[src], w.next);
  }

  /** A moved-from packet is empty, the other has its block and its origin. */
  lemma ShowsMoved(hs: Handles, blocks: Blocks, blocks': Blocks, w: World, p: PacketId, src: PacketId)
    requires Shows(blocks, hs, w.packets, w.next) && src in hs && p != src
    requires OthersSame(hs, hs[p := hs[src]][src := EMPTY], blocks, blocks', {p, src})
    requires SameBlock(blocks, blocks', hs[src])
    ensures Shows(blocks', hs[p := hs[src]][src := EMPTY], Taken(w.packets, p, src), w.next)
  {
    var mid, packets := hs[p := hs[src]], w.packets[p := w.packets[src]];
    forall q | q in hs && q != p ensures q in mid && mid[q] == hs[q] && SameBlock(blocks, blocks', hs[q]) {
      assert q != src ==> q in hs[p := hs[src]][src := EMPTY];
    }
    forall q | q in hs && q != p ensures OneOrigin(hs[q], w.packets[q], hs[src], w.packets[src]) { }
    StillMatches(hs, mid, blocks, blocks', w, w.next, {p}, src);
    ShowsOne(hs, hs[src], blocks, blocks', w, p, w.packets[src], w.next);
    MovedFrom(mid, blocks', packets, w.next, src);
  }

  lemma MovedFrom(hs: Handles, blocks: Blocks, packets: Packets, next: nat, src: PacketId)
    requires Shows(blocks, hs, packets, next) && src in hs
    ensures Shows(blocks, hs[src := EMPTY], packets[src := Empty], next)
  {
    var hs', packets' := hs[src := EMPTY], packets[src := Empty];
    forall q, r | q in hs' && r in hs' ensures OneOrigin(hs'[q], packets'[q], hs'[r], packets'[r]) {
      if q != src && r != src { assert OneOrigin(hs[q], packets[q], hs[r], packets[r]); }
    }
  }

  lemma ShowsDestroyed(hs: Handles, blocks: Blocks, blocks': Blocks, w: World, p: PacketId)
    requires Shows(blocks, hs, w.packets, w.next) && OthersSame(hs, hs - {p}, blocks, blocks', {p})
    ensures Shows(blocks', hs - {p}, w.packets - {p}, w.next)
  {
    var hs', packets' := hs - {p}, w.packets - {p};
    forall q | q in hs' ensures Matches(blocks', hs'[q], packets'[q], w.next) {
      StillMatches(hs, hs', blocks, blocks', w, w.next, {p}, q);
    }
    forall q, r | q in hs' && r in hs' ensures OneOrigin(hs'[q], packets'[q], hs'[r], packets'[r]) {
      assert OneOrigin(hs[q], w.packets[q], hs[r], w.packets[r]);
    }
  }

  /** The last reference to a block is the last packet with its origin. */
  lemma LastIsLast(hs: Handles, blocks: Blocks, w: World, p: PacketId)
    requires Shows(blocks, hs, w.packets, w.next) && p in hs && HoldsBlock(hs[p])
    ensures Holders(hs, hs[p].payload.block) == {p} <==> LastHolder(w.packets, p)
  {
    var a := hs[p].payload.block;
    forall q | q in hs && HoldsBlock(hs[q])
      ensures q in Holders(hs, a) <==> w.packets[q].Filled? && w.packets[q].origin == w.packets[p].origin
    {
      assert Matches(blocks, hs[q], w.packets[q], w.next) && Matches(blocks, hs[p], w.packets[p], w.next);
      assert OneOrigin(hs[q], w.packets[q], hs[p], w.packets[p]);
    }
    assert p in Holders(hs, a);
    if LastHolder(w.packets, p) {
      forall q | q in Holders(hs, a) ensures q == p { assert Matches(blocks, hs[q], w.packets[q], w.next); }
    }
    if Holders(hs, a) == {p} {
      forall q | q in w.packets && q != p && w.packets[q].Filled? ensures w.packets[q].origin != w.packets[p].origin {
        assert Matches(blocks, hs[q], w.packets[q], w.next);
        assert q !in Holders(hs, a);
      }
    }
  }

  /** Giving up a packet does to the accounts what the program says. */
  lemma DropIsGivenUp(b: Books, hs: Handles, blocks: Blocks, w: World, p: PacketId)
    requires WorldOk(w) && b == w.books && Shows(blocks, hs, w.packets, w.next) && p in hs
    ensures AfterDrop(b, hs, blocks, p) == GivenUp(w, p)
  {
    assert Matches(blocks, hs[p], w.packets[p], w.next);
    if HoldsBlock(hs[p]) { LastIsLast(hs, blocks, w, p); }
  }

  /** The pool and the packets are where the program is. */
  ghost predicate Agrees(pool: PacketBufferPool, hs: Handles, w: World)
    reads pool
  {
    && Consistent(pool, hs) && WorldOk(w) && pool.Figures() == w.books
    && Shows(pool.blocks, hs, w.packets, w.next)
  }

  method PerformConstruct(pool: PacketBufferPool, hs: Handles, ghost w: World, p: PacketId, d: Bytes)
    returns (hs': Handles)
    requires Agrees(pool, hs, w) && p !in hs
    modifies pool
    ensures Agrees(pool, hs', Meaning(w, ConstructOp(p, d)))
  {
    ghost var blocks := pool.blocks;
    hs' := Construct(pool, hs, p, d);
    ShowsConstructed(hs, hs', blocks, pool.blocks, w, p, d);
  }

  method PerformCopy(pool: PacketBufferPool, hs: Handles, ghost w: World, p: PacketId, src: PacketId)
    returns (hs': Handles)
    requires Agrees(pool, hs, w) && p !in hs && src in hs
    modifies pool
    ensures Agrees(pool, hs', Meaning(w, CopyOp(p, src)))
  {
    ghost var blocks := pool.blocks;
    hs' := Copy(pool, hs, p, src);
    FewerSame(hs, hs', blocks, pool.blocks, {p});
    ShowsCopied(hs, blocks, pool.blocks, w, p, src);
  }

  method PerformCopyAssign(pool: PacketBufferPool, hs: Handles, ghost w: World, p: PacketId, src: PacketId)
    returns (hs': Handles)
    requires Agrees(pool, hs, w) && p in hs && src in hs
    modifies pool
    ensures Agrees(pool, hs', Meaning(w, CopyAssignOp(p, src)))
  {
    ghost var blocks := pool.blocks;
    DropIsGivenUp(pool.Figures(), hs, blocks, w, p);
    hs' := CopyAssign(pool, hs, p, src);
    if p != src { ShowsCopied(hs, blocks, pool.blocks, w, p, src); }
  }

  method PerformMoveAssign(pool: PacketBufferPool, hs: Handles, ghost w: World, p: PacketId, src: PacketId)
    returns (hs': Handles)
    requires Agrees(pool, hs, w) && p in hs && src in hs
    modifies pool
    ensures Agrees(pool, hs', Meaning(w, MoveAssignOp(p, src)))
  {
    ghost var blocks := pool.blocks;
    DropIsGivenUp(pool.Figures(), hs, blocks, w, p);
    hs' := MoveAssign(pool, hs, p, src);
    if p != src { ShowsMoved(hs, blocks, pool.blocks, w, p, src); }
  }

  method PerformMove(pool: PacketBufferPool, hs: Handles, ghost w: World, p: PacketId, src: PacketId)
    returns (hs': Handles)
    requires Agrees(pool, hs, w) && p !in hs && src in hs
    ensures Agrees(pool, hs', Meaning(w, MoveOp(p, src)))
  {
    hs' := Move(pool, hs, p, src);
    forall q | q in hs && HoldsBlock(hs[q]) ensures SameBlock(pool.blocks, pool.blocks, hs[q]) {
      HeldIsReferenced(hs, pool.refs, q);
    }
    ShowsMoved(hs, pool.blocks, pool.blocks, w, p, src);
  }

  method PerformDestroy(pool: PacketBufferPool, hs: Handles, ghost w: World, p: PacketId) returns (hs': Handles)
    requires Agrees(pool, hs, w) && p in hs
    modifies pool
    ensures Agrees(pool, hs', Meaning(w, DestroyOp(p)))
  {
    ghost var blocks := pool.blocks;
    DropIsGivenUp(pool.Figures(), hs, blocks, w, p);
    hs' := Destroy(pool, hs, p);
    ShowsDestroyed(hs, blocks, pool.blocks, w, p);
  }

  method Perform(pool: PacketBufferPool, hs: Handles, ghost w: World, op: Op) returns (hs': Handles)
    requires Agrees(pool, hs, w) && Enabled(w.packets, op)
    modifies pool
    ensures Agrees(pool, hs', Meaning(w, op))
  {
    match op {
      case ConstructOp(p, d) => hs' := PerformConstruct(pool, hs, w, p, d);
      case CopyOp(p, src) => hs' := PerformCopy(pool, hs, w, p, src);
      case MoveOp(p, src) => hs' := PerformMove(pool, hs, w, p, src);
      case CopyAssignOp(p, src) => hs' := PerformCopyAssign(pool, hs, w, p, src);
      case MoveAssignOp(p, src) => hs' := PerformMoveAssign(pool, hs, w, p, src);
      case DestroyOp(p) => hs' := PerformDestroy(pool, hs, w, p);
      case BoostOp(size, n) => pool.BoostClassCacheForSize(size, n); hs' := hs;
      case ResetOp => pool.ResetStats(); hs' := hs;
    }
  }

  /** Each packet carries its bytes. */
  ghost predicate Carry(blocks: Blocks, hs: Handles, vs: Values) {
    (forall p :: p in hs <==> p in vs) && forall p | p in hs :: Carries(blocks, hs[p], vs[p])
  }

  lemma ShownIsCarried(blocks: Blocks, hs: Handles, w: World)
    requires Shows(blocks, hs, w.packets, w.next)
    ensures Carry(blocks, hs, ValuesOf(w.packets))
  {
    forall p | p in hs ensures Carries(blocks, hs[p], ValuesOf(w.packets)[p]) {
      assert Matches(blocks, hs[p], w.packets[p], w.next);
    }
  }

  /** Every run, from an empty pool: counts and holders agree, each packet carries the bytes it would if nothing
      were shared or recycled, the accounts are what the program says, no cache exceeds its target, and unless a
      boost raised a target since the last effective retune the cached bytes are within the budget. */
  method Run(ops: seq<Op>) returns (pool: PacketBufferPool, hs: Handles)
    requires Runnable(ops)
    ensures Consistent(pool, hs) && Carry(pool.blocks, hs, ValueMeaningOf(ops))
    ensures pool.Figures() == MeaningOf(ops).books && WithinTargets(Lengths(pool.lists), pool.targets)
    ensures KeepsBudget(ops) ==> Affordable(Lengths(pool.lists))
  {
    pool := NewPool();
    hs := map[];
    assert ops[..0] == [];
    for i := 0 to |ops|
      invariant fresh(pool) && Agrees(pool, hs, MeaningOf(ops[..i]))
    {
      assert RunnableAt(ops, i);
      assert ops[..i + 1][..i] == ops[..i];
      hs := Perform(pool, hs, MeaningOf(ops[..i]), ops[i]);
    }
    assert ops[..|ops|] == ops;
    ShownIsCarried(pool.blocks, hs, MeaningOf(ops));
    PacketsAreValues(ops);
    if KeepsBudget(ops) { ProgramWithinBudget(ops); }
  }
}
