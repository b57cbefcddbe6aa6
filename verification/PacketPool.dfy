/** The pool as a mutable object. `refs` is the references its callers hold. */
module PacketPool {
  import opened Common
  import opened PoolTuning
  import opened BufferPool
  import PoolShares

  ghost predicate PoolOk(blocks: Blocks, lists: seq<seq<Addr>>, refs: multiset<Addr>) {
    ListsOk(blocks, lists) && RefsOk(blocks, refs) && BlocksOk(blocks, lists)
  }

  function Pop(list: seq<Addr>): seq<Addr>
    requires list != []
  {
    list[..|list| - 1]
  }

  lemma PopMembers(list: seq<Addr>)
    requires list != [] && Distinct(list)
    ensures Distinct(Pop(list)) && forall a :: a in Pop(list) <==> a in list && a != list[|list| - 1]
  {
    forall a | a in list && a != list[|list| - 1] ensures a in Pop(list) {
      var i :| 0 <= i < |list| && list[i] == a;
      assert Pop(list)[i] == a;
    }
  }

  /** A block's address is in no free list but that of its class, and there only if nobody holds it. */
  lemma NotCached(blocks: Blocks, lists: seq<seq<Addr>>, a: Addr, i: nat)
    requires ListsOk(blocks, lists) && i < CLASSES
    requires a in blocks ==> blocks[a].cls != Some(i) || blocks[a].refCount > 0
    ensures a !in lists[i]
  {
    assert ListOk(blocks, lists[i], i);
  }

  lemma ListFrame(blocks: Blocks, blocks': Blocks, list: seq<Addr>, i: nat, a: Addr)
    requires ListOk(blocks, list, i) && a !in list
    requires forall x | x in blocks && x != a :: x in blocks' && blocks'[x] == blocks[x]
    ensures ListOk(blocks', list, i)
  {
  }

  /** The last block of a list is taken off it, to be handed out or freed. */
  lemma TakenOff(blocks: Blocks, lists: seq<seq<Addr>>, refs: multiset<Addr>, i: nat, blocks': Blocks)
    requires PoolOk(blocks, lists, refs) && i < CLASSES && lists[i] != []
    requires forall x | x in blocks && x != lists[i][|lists[i]| - 1] :: x in blocks' && blocks'[x] == blocks[x]
    ensures var a := lists[i][|lists[i]| - 1];
            a in blocks && blocks[a].cls == Some(i) && refs[a] == 0 && ListsOk(blocks', lists[i := Pop(lists[i])])
  {
    var a := lists[i][|lists[i]| - 1];
    var lists' := lists[i := Pop(lists[i])];
    assert ListOk(blocks, lists[i], i);
    PopMembers(lists[i]);
    forall j | 0 <= j < CLASSES ensures ListOk(blocks', lists'[j], j) {
      assert ListOk(blocks, lists[j], j);
      if j != i { NotCached(blocks, lists, a, j); }
      ListFrame(blocks, blocks', lists'[j], j, a);
    }
  }

  /** Every other block is where it was. */
  lemma OthersCached(blocks: Blocks, lists: seq<seq<Addr>>, i: nat, x: Addr)
    requires ListsOk(blocks, lists) && BlocksOk(blocks, lists) && i < CLASSES && lists[i] != []
    requires x in blocks && x != lists[i][|lists[i]| - 1]
    ensures CachedIfUnheld(lists[i := Pop(lists[i])], x, blocks[x])
  {
    assert ListOk(blocks, lists[i], i) && CachedIfUnheld(lists, x, blocks[x]);
    PopMembers(lists[i]);
  }

  lemma HandOut(blocks: Blocks, lists: seq<seq<Addr>>, refs: multiset<Addr>, i: nat, b: Block)
    requires PoolOk(blocks, lists, refs) && i < CLASSES && lists[i] != [] && b.refCount == 1 && BlockOk(b)
    ensures var a := lists[i][|lists[i]| - 1];
            a in blocks && refs[a] == 0 && PoolOk(blocks[a := b], lists[i := Pop(lists[i])], refs + multiset{a})
  {
    TakenOff(blocks, lists, refs, i, blocks[lists[i][|lists[i]| - 1] := b]);
    forall x | x in blocks && x != lists[i][|lists[i]| - 1]
      ensures CachedIfUnheld(lists[i := Pop(lists[i])], x, blocks[x])
    {
      OthersCached(blocks, lists, i, x);
    }
  }

  lemma DropCached(blocks: Blocks, lists: seq<seq<Addr>>, refs: multiset<Addr>, i: nat)
    requires PoolOk(blocks, lists, refs) && i < CLASSES && lists[i] != []
    ensures var a := lists[i][|lists[i]| - 1];
            a !in refs && a in blocks && PoolOk(blocks - {a}, lists[i := Pop(lists[i])], refs)
  {
    TakenOff(blocks, lists, refs, i, blocks - {lists[i][|lists[i]| - 1]});
    forall x | x in blocks && x != lists[i][|lists[i]| - 1]
      ensures CachedIfUnheld(lists[i := Pop(lists[i])], x, blocks[x])
    {
      OthersCached(blocks, lists, i, x);
    }
  }

  lemma SetBlock(blocks: Blocks, lists: seq<seq<Addr>>, a: Addr, b: Block)
    requires ListsOk(blocks, lists) && BlocksOk(blocks, lists) && BlockOk(b) && b.refCount > 0
    requires a in blocks ==> blocks[a].refCount > 0
    ensures ListsOk(blocks[a := b], lists) && BlocksOk(blocks[a := b], lists)
  {
    forall j | 0 <= j < CLASSES ensures ListOk(blocks[a := b], lists[j], j) {
      NotCached(blocks, lists, a, j);
      ListFrame(blocks, blocks[a := b], lists[j], j, a);
    }
  }

  lemma FreeBlock(blocks: Blocks, lists: seq<seq<Addr>>, a: Addr)
    requires ListsOk(blocks, lists) && BlocksOk(blocks, lists) && a in blocks && blocks[a].refCount > 0
    ensures ListsOk(blocks - {a}, lists) && BlocksOk(blocks - {a}, lists)
  {
    forall j | 0 <= j < CLASSES ensures ListOk(blocks - {a}, lists[j], j) {
      NotCached(blocks, lists, a, j);
      ListFrame(blocks, blocks - {a}, lists[j], j, a);
    }
  }

  lemma CacheBlock(blocks: Blocks, lists: seq<seq<Addr>>, a: Addr, i: nat)
    requires ListsOk(blocks, lists) && BlocksOk(blocks, lists) && a in blocks && blocks[a].refCount > 0
    requires i < CLASSES && blocks[a].cls == Some(i)
    ensures var blocks' := blocks[a := blocks[a].(refCount := 0)];
            ListsOk(blocks', lists[i := lists[i] + [a]]) && BlocksOk(blocks', lists[i := lists[i] + [a]])
  {
    var blocks', lists' := blocks[a := blocks[a].(refCount := 0)], lists[i := lists[i] + [a]];
    forall j | 0 <= j < CLASSES ensures ListOk(blocks', lists'[j], j) {
      NotCached(blocks, lists, a, j);
      ListFrame(blocks, blocks', lists[j], j, a);
      if j == i { AppendDistinct(lists[i], a); }
    }
    forall x | x in blocks' ensures CachedIfUnheld(lists', x, blocks'[x]) {
      if x == a { assert lists'[i][|lists[i]|] == a; } else { assert CachedIfUnheld(lists, x, blocks[x]); }
    }
  }

  lemma AppendDistinct(list: seq<Addr>, a: Addr)
    requires Distinct(list) && a !in list
    ensures Distinct(list + [a])
  {
  }

  /** A new block, as large as its class or as the request. */
  function NewBlock(size: nat, cls: Option<nat>): Block {
    Block(1, size % U32_SIZE, cls, if cls.None? then size else ClassSize(cls.value), [])
  }

  lemma AddBlock(blocks: Blocks, lists: seq<seq<Addr>>, refs: multiset<Addr>, a: Addr, b: Block)
    requires PoolOk(blocks, lists, refs) && a !in blocks && BlockOk(b) && b.refCount == 1
    ensures a !in refs && PoolOk(blocks[a := b], lists, refs + multiset{a})
    ensures HeldUnchanged(blocks, blocks[a := b], refs)
  {
    SetBlock(blocks, lists, a, b);
  }

  /** Whoever holds a block still finds it, unchanged but for its count. */
  ghost predicate HeldUnchanged(blocks: Blocks, blocks': Blocks, refs: multiset<Addr>) {
    forall x | x in refs :: x in blocks && x in blocks' && blocks'[x] == blocks[x].(refCount := blocks'[x].refCount)
  }

  /** Nothing new, and what is left is unchanged. */
  ghost predicate Survives(blocks: Blocks, blocks': Blocks) {
    forall x | x in blocks' :: x in blocks && blocks'[x] == blocks[x]
  }

  /** Nothing new, and what is left is unchanged but for its count. */
  ghost predicate Kept(blocks: Blocks, blocks': Blocks) {
    forall x | x in blocks' :: x in blocks && blocks'[x] == blocks[x].(refCount := blocks'[x].refCount)
  }

  class PacketBufferPool {
    var blocks: Blocks
    var lists: seq<seq<Addr>>
    var targets: seq<nat>
    var requests: seq<nat>
    var demand: seq<real>
    var totalRequests: nat
    ghost var refs: multiset<Addr>

    /** The accounts, as a value. */
    ghost function Figures(): Books
      reads this`lists, this`targets, this`requests, this`demand, this`totalRequests
    {
      Books(targets, Lengths(lists), requests, demand, totalRequests)
    }

    ghost predicate Valid()
      reads this
    {
      PoolOk(blocks, lists, refs) && BooksOk(Figures())
    }

    constructor ()
      ensures Valid() && blocks == map[] && refs == multiset{} && Figures() == Opened()
    {
      blocks, lists, targets := map[], seq(CLASSES, _ => []), seq(CLASSES, _ => MIN_TARGET);
      requests, demand, totalRequests := seq(CLASSES, _ => 0), seq(CLASSES, _ => 0.0), 0;
      refs := multiset{};
    }

    /** A block nobody holds: the last cached one of the smallest class that fits, or a new one. */
    method Allocate(size: nat) returns (r: Option<Addr>)
      requires Valid()
      modifies this`blocks, this`lists, this`refs, this`requests, this`totalRequests
      ensures Valid() && (r.None? <==> size == 0)
      ensures r.None? ==> refs == old(refs) && blocks == old(blocks) && Figures() == old(Figures())
      ensures r.Some? ==> Figures() == Requested(old(Figures()), size) && Grants(old(refs), r.value, size)
      ensures HeldUnchanged(old(blocks), blocks, old(refs))
    {
      if size == 0 {
        return None;
      }
      var index := SizeToClassIndex(size);
      var a;
      if index.None? {
        a := AllocateLarge(size);
      } else {
        a := AllocatePooled(size, index.value);
      }
      r := Some(a);
    }

    method AllocateLarge(size: nat) returns (a: Addr)
      requires Valid() && ClassOf(size) == None
      modifies this`blocks, this`refs, this`totalRequests
      ensures Valid() && Grants(old(refs), a, size) && HeldUnchanged(old(blocks), blocks, old(refs))
      ensures Figures() == Requested(old(Figures()), size)
    {
      totalRequests := totalRequests + 1;
      a := AllocateNewBlock(size, None);
    }

    /** Block `a`, not referenced before, now has one reference and room for `size` bytes. */
    ghost predicate Grants(before: multiset<Addr>, a: Addr, size: nat)
      reads this
    {
      && a !in before && refs == before + multiset{a}
      && a in blocks && blocks[a].cls == ClassOf(size) && blocks[a].capacity >= size
    }

    method AllocatePooled(size: nat, i: nat) returns (a: Addr)
      requires Valid() && ClassOf(size) == Some(i)
      modifies this`blocks, this`lists, this`refs, this`requests, this`totalRequests
      ensures Valid() && Grants(old(refs), a, size) && HeldUnchanged(old(blocks), blocks, old(refs))
      ensures Figures() == Requested(old(Figures()), size)
    {
      PooledRequest(Figures(), lists, size, i);
      totalRequests := totalRequests + 1;
      requests := requests[i := requests[i] + 1];
      a := TakeOrMake(size, i);
    }

    method TakeOrMake(size: nat, i: nat) returns (a: Addr)
      requires PoolOk(blocks, lists, refs) && ClassOf(size) == Some(i)
      modifies this`blocks, this`lists, this`refs
      ensures PoolOk(blocks, lists, refs) && Grants(old(refs), a, size) && HeldUnchanged(old(blocks), blocks, old(refs))
      ensures lists == if old(lists)[i] != [] then old(lists)[i := Pop(old(lists)[i])] else old(lists)
    {
      if lists[i] != [] {
        a := TakeCached(size, i);
      } else {
        a := AllocateNewBlock(size, Some(i));
      }
    }

    method TakeCached(size: nat, i: nat) returns (a: Addr)
      requires PoolOk(blocks, lists, refs) && i < CLASSES && lists[i] != []
      modifies this`blocks, this`lists, this`refs
      ensures PoolOk(blocks, lists, refs) && a !in old(refs) && refs == old(refs) + multiset{a}
      ensures a in old(blocks) && old(blocks)[a].cls == Some(i) && old(blocks)[a].capacity == ClassSize(i)
      ensures blocks == old(blocks)[a := old(blocks)[a].(refCount := 1, requested := size % U32_SIZE)]
      ensures lists == old(lists)[i := Pop(old(lists)[i])]
    {
      a := lists[i][|lists[i]| - 1];
      assert ListOk(blocks, lists[i], i);
      HandOut(blocks, lists, refs, i, blocks[a].(refCount := 1, requested := size % U32_SIZE));
      blocks := blocks[a := blocks[a].(refCount := 1, requested := size % U32_SIZE)];
      lists := lists[i := Pop(lists[i])];
      refs := refs + multiset{a};
    }

    method AllocateNewBlock(size: nat, cls: Option<nat>) returns (a: Addr)
      requires PoolOk(blocks, lists, refs) && (cls.Some? ==> cls.value < CLASSES && size <= ClassSize(cls.value))
      modifies this`blocks, this`refs
      ensures PoolOk(blocks, lists, refs) && a !in old(refs) && refs == old(refs) + multiset{a}
      ensures blocks == old(blocks)[a := NewBlock(size, cls)] && HeldUnchanged(old(blocks), blocks, old(refs))
    {
      ghost var unused := Bound(blocks.Keys);
      assert unused !in blocks;
      a :| a !in blocks;
      AddBlock(blocks, lists, refs, a, NewBlock(size, cls));
      blocks := blocks[a := NewBlock(size, cls)];
      refs := refs + multiset{a};
    }

    /** memcpy into a block just allocated. */
    method Fill(a: Addr, d: Bytes)
      requires Valid() && refs[a] == 1 && a in blocks && |d| <= blocks[a].capacity
      modifies this`blocks
      ensures Valid() && blocks == old(blocks)[a := old(blocks)[a].(data := d)]
    {
      SetBlock(blocks, lists, a, blocks[a].(data := d));
      blocks := blocks[a := blocks[a].(data := d)];
    }

    /** A new block with a copy of `d`. */
    method AllocateFilled(d: Bytes) returns (a: Addr)
      requires Valid() && |d| > 0
      modifies this`blocks, this`lists, this`refs, this`requests, this`totalRequests
      ensures Valid() && Grants(old(refs), a, |d|) && blocks[a].data == d
      ensures Figures() == Requested(old(Figures()), |d|) && HeldUnchanged(old(blocks), blocks, old(refs))
    {
      var r := Allocate(|d|);
      a := r.value;
      Fill(a, d);
    }

    method Retain(a: Addr)
      requires Valid() && a in refs
      modifies this`blocks, this`refs
      ensures Valid() && refs == old(refs) + multiset{a} && HeldUnchanged(old(blocks), blocks, refs)
    {
      SetBlock(blocks, lists, a, blocks[a].(refCount := blocks[a].refCount + 1));
      blocks := blocks[a := blocks[a].(refCount := blocks[a].refCount + 1)];
      refs := refs + multiset{a};
    }

    /** The first pass of a retune. */
    method AverageDemand() returns (sum: real)
      requires BooksOk(Figures())
      modifies this`requests, this`demand
      ensures Figures() == Averaged(old(Figures())) && sum == Total(demand, |demand|)
    {
      sum := 0.0;
      for i := 0 to CLASSES
        invariant |requests| == |demand| == CLASSES
        invariant forall j | 0 <= j < i :: requests[j] == 0 && demand[j] == Update(old(demand)[j], old(requests)[j])
        invariant forall j | i <= j < CLASSES :: requests[j] == old(requests)[j] && demand[j] == old(demand)[j]
        invariant sum == Total(demand, i)
      {
        var updated := demand[i] * 0.8 + (requests[i] as real) * 0.2;
        ghost var before := demand;
        demand := demand[i := updated];
        requests := requests[i := 0];
        TotalFrame(before, demand, i);
        sum := sum + updated;
      }
      assert demand == Averaged(old(Figures())).demand && requests == Averaged(old(Figures())).requests;
    }

    /** Frees cached blocks, last first, until the target is met. */
    method TrimClassCache(i: nat, target: nat)
      requires PoolOk(blocks, lists, refs) && i < CLASSES
      modifies this`lists, this`blocks
      ensures PoolOk(blocks, lists, refs) && lists == old(lists)[i := old(lists)[i][..Min(|old(lists)[i]|, target)]]
      ensures Survives(old(blocks), blocks)
    {
      ghost var list := lists[i];
      assert list[..|list|] == list;
      while |lists[i]| > target
        invariant PoolOk(blocks, lists, refs) && Survives(old(blocks), blocks)
        invariant Min(|list|, target) <= |lists[i]| <= |list|
        invariant lists[i] == list[..|lists[i]|] && lists == old(lists)[i := lists[i]]
        decreases |lists[i]|
      {
        DropLast(i);
      }
    }

    method DropLast(i: nat)
      requires PoolOk(blocks, lists, refs) && i < CLASSES && lists[i] != []
      modifies this`lists, this`blocks
      ensures PoolOk(blocks, lists, refs) && lists == old(lists)[i := Pop(old(lists)[i])]
      ensures Survives(old(blocks), blocks)
    {
      DropCached(blocks, lists, refs, i);
      blocks := blocks - {lists[i][|lists[i]| - 1]};
      lists := lists[i := Pop(lists[i])];
    }

    /** The second pass: new targets, and caches trimmed to them. */
    method ApplyTargets(sum: real)
      requires PoolOk(blocks, lists, refs) && BooksOk(Figures()) && sum > 0.0
      modifies this`targets, this`lists, this`blocks
      ensures PoolOk(blocks, lists, refs) && Survives(old(blocks), blocks)
      ensures Figures() == Shared(old(Figures()), sum)
    {
      for i := 0 to CLASSES
        invariant PoolOk(blocks, lists, refs) && Survives(old(blocks), blocks) && |targets| == CLASSES
        invariant forall j | 0 <= j < i :: targets[j] == NewTarget(demand[j], sum, ClassSize(j))
                                           && |lists[j]| == Min(|old(lists)[j]|, targets[j])
        invariant forall j | i <= j < CLASSES :: lists[j] == old(lists)[j]
      {
        var target := NewTarget(demand[i], sum, ClassSize(i));
        TrimClassCache(i, target);
        targets := targets[i := target];
      }
      assert targets == Shared(old(Figures()), sum).targets;
      assert Lengths(lists) == Shared(old(Figures()), sum).cached;
    }

    /** Averages the demand, divides the budget by it, and trims the caches to the new targets.  Does
        nothing further when there is no demand at all. */
    method RetuneTargets()
      requires Valid()
      modifies this`blocks, this`lists, this`targets, this`requests, this`demand
      ensures Valid() && Survives(old(blocks), blocks) && Figures() == Retune(old(Figures()))
      ensures PoolShares.AllDivided(old(Figures()), targets)
    {
      PoolShares.RetuneDividesAll(Figures());
      var sum := AverageDemand();
      if sum > 0.0 {
        ApplyTargets(sum);
      }
    }

    /** Gives up one reference.  Only the last one lets the block be cached or freed; the last one of a
        pooled block may set off a retune. */
    method Release(a: Addr)
      requires Valid() && a in refs
      modifies this`blocks, this`lists, this`targets, this`requests, this`demand, this`refs
      ensures Valid() && refs == old(refs) - multiset{a} && Kept(old(blocks), blocks)
      ensures Figures() == AfterRelease(old(Figures()), old(refs), old(blocks), a)
      ensures old(refs)[a] == 1 && old(blocks)[a].cls.None? ==> a !in blocks
    {
      var b := blocks[a];
      if b.refCount != 1 {
        Unshare(a);
      } else if b.cls.None? {
        Free(a);
      } else {
        ReleasePooled(a, b.cls.value);
      }
    }

    /** The last reference to a pooled block: cached if there is room, freed if not. */
    method ReleasePooled(a: Addr, i: nat)
      requires Valid() && refs[a] == 1 && a in blocks && i < CLASSES && blocks[a].cls == Some(i)
      modifies this`blocks, this`lists, this`targets, this`requests, this`demand, this`refs
      ensures Valid() && refs == old(refs) - multiset{a} && Kept(old(blocks), blocks)
      ensures Figures() == Returned(old(Figures()), i)
    {
      ReleaseLast(a, i);
      MaybeRetune(old(blocks));
    }

    method ReleaseLast(a: Addr, i: nat)
      requires Valid() && refs[a] == 1 && a in blocks && i < CLASSES && blocks[a].cls == Some(i)
      modifies this`blocks, this`lists, this`refs
      ensures Valid() && refs == old(refs) - multiset{a} && Kept(old(blocks), blocks)
      ensures Figures() == Stored(old(Figures()), i)
    {
      StoredBlock(Figures(), lists, a, i);
      if |lists[i]| < targets[i] {
        Cache(a, i);
      } else {
        Free(a);
      }
    }

    /** Retunes every 4096 requests. */
    method MaybeRetune(ghost was: Blocks)
      requires Valid() && Kept(was, blocks)
      modifies this`blocks, this`lists, this`targets, this`requests, this`demand
      ensures Valid() && Kept(was, blocks)
      ensures Figures() == if RetuneDue(totalRequests) then Retune(old(Figures())) else old(Figures())
    {
      if totalRequests < RETUNE_PERIOD || totalRequests % RETUNE_PERIOD != 0 {
        return;
      }
      RetuneTargets();
    }

    method Unshare(a: Addr)
      requires Valid() && a in refs && blocks[a].refCount != 1
      modifies this`blocks, this`refs
      ensures Valid() && refs == old(refs) - multiset{a} && Kept(old(blocks), blocks)
    {
      SetBlock(blocks, lists, a, blocks[a].(refCount := blocks[a].refCount - 1));
      blocks := blocks[a := blocks[a].(refCount := blocks[a].refCount - 1)];
      refs := refs - multiset{a};
    }

    method Free(a: Addr)
      requires Valid() && refs[a] == 1 && a in blocks
      modifies this`blocks, this`refs
      ensures Valid() && refs == old(refs) - multiset{a} && blocks == old(blocks) - {a}
    {
      FreeBlock(blocks, lists, a);
      blocks := blocks - {a};
      refs := refs - multiset{a};
    }

    method Cache(a: Addr, i: nat)
      requires Valid() && refs[a] == 1 && a in blocks && i < CLASSES && blocks[a].cls == Some(i)
      modifies this`blocks, this`refs, this`lists
      ensures PoolOk(blocks, lists, refs) && refs == old(refs) - multiset{a}
      ensures lists == old(lists)[i := old(lists)[i] + [a]]
      ensures blocks == old(blocks)[a := old(blocks)[a].(refCount := 0)]
    {
      CacheBlock(blocks, lists, a, i);
      blocks := blocks[a := blocks[a].(refCount := 0)];
      lists := lists[i := lists[i] + [a]];
      refs := refs - multiset{a};
    }

    /** Raises the cache target of the smallest class that fits, if it is lower. */
    method BoostClassCacheForSize(size: nat, minTarget: nat)
      requires Valid()
      modifies this`targets
      ensures Valid() && Figures() == Boosted(old(Figures()), size, minTarget)
    {
      if minTarget == 0 {
        assert forall i | 0 <= i < CLASSES :: targets[i := targets[i]] == targets;
        return;
      }
      var index := SizeToClassIndex(size);
      if index.None? {
        return;
      }
      if targets[index.value] < minTarget {
        targets := targets[index.value := minTarget];
      } else {
        assert targets[index.value := targets[index.value]] == targets;
      }
    }

    method ResetStats()
      requires Valid()
      modifies this`totalRequests, this`requests, this`demand
      ensures Valid() && Figures() == Cleared(old(Figures()))
    {
      totalRequests, requests, demand := 0, seq(CLASSES, _ => 0), seq(CLASSES, _ => 0.0);
    }
  }

  /** Taking the last cached block of class `i`, or none, is what a request does to the accounts. */
  lemma PooledRequest(b: Books, lists: seq<seq<Addr>>, size: nat, i: nat)
    requires BooksOk(b) && b.cached == Lengths(lists) && ClassOf(size) == Some(i)
    ensures var lists' := if lists[i] != [] then lists[i := Pop(lists[i])] else lists;
            Requested(b, size)
              == Books(b.targets, Lengths(lists'), b.requests[i := b.requests[i] + 1], b.demand, b.total + 1)
  {
    if lists[i] != [] {
      LengthsUpdate(lists, i, Pop(lists[i]));
    } else {
      assert Lengths(lists)[i := 0] == Lengths(lists);
    }
  }

  lemma StoredBlock(b: Books, lists: seq<seq<Addr>>, a: Addr, i: nat)
    requires BooksOk(b) && b.cached == Lengths(lists) && i < CLASSES
    ensures Stored(b, i)
              == b.(cached := Lengths(if |lists[i]| < b.targets[i] then lists[i := lists[i] + [a]] else lists))
  {
    LengthsUpdate(lists, i, lists[i] + [a]);
  }

  /** The accounts after one reference to `a` is given up. */
  ghost function AfterRelease(b: Books, refs: multiset<Addr>, blocks: Blocks, a: Addr): Books
    requires BooksOk(b) && a in blocks && BlockOk(blocks[a])
  {
    if refs[a] == 1 && blocks[a].cls.Some? then Returned(b, blocks[a].cls.value) else b
  }

  lemma {:induction false} TotalFrame(d: seq<real>, d': seq<real>, n: nat)
    requires n <= |d| && n <= |d'| && forall j | 0 <= j < n :: d[j] == d'[j]
    ensures Total(d, n) == Total(d', n)
  {
    if n > 0 { TotalFrame(d, d', n - 1); }
  }
}
