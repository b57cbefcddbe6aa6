/** The map as a mutable object: every operation refines the insertion-ordered map. */
module SequentialMap {
  import opened Common
  import opened OrderedMap

  // ----- Chain surgery -----

  lemma BucketFrame<K, V>(heap: map<Id, Node<K, V>>, heap': map<Id, Node<K, V>>, head: Option<Id>, ids: seq<Id>)
    requires BucketChain(heap, head, ids)
    requires forall n | n in ids :: n in heap' && (n in heap ==> heap'[n].bucketNext == heap[n].bucketNext)
    ensures BucketChain(heap', head, ids)
  {
    forall i | 0 <= i < |ids| ensures BucketAt(heap', ids, i) { assert BucketAt(heap, ids, i); }
  }

  lemma BucketPush<K, V>(heap: map<Id, Node<K, V>>, heap': map<Id, Node<K, V>>, head: Option<Id>, ids: seq<Id>, n: Id)
    requires BucketChain(heap, head, ids) && n !in ids && n in heap' && heap'[n].bucketNext == head
    requires forall x | x in ids :: x in heap' && (x in heap ==> heap'[x].bucketNext == heap[x].bucketNext)
    ensures BucketChain(heap', Some(n), [n] + ids)
  {
    forall i | 0 <= i < |ids| + 1 ensures BucketAt(heap', [n] + ids, i) {
      if i > 0 { assert BucketAt(heap, ids, i - 1); }
    }
  }

  /** Swinging the predecessor (or the head) past position `at` takes that node off the chain. */
  lemma BucketUnlink<K, V>(heap: map<Id, Node<K, V>>, heap': map<Id, Node<K, V>>, head: Option<Id>, head': Option<Id>,
                           ids: seq<Id>, at: nat)
    requires BucketChain(heap, head, ids) && at < |ids|
    requires forall x | x in ids :: x in heap && x in heap'
    requires forall i | 0 <= i < |ids| && i + 1 != at :: heap'[ids[i]].bucketNext == heap[ids[i]].bucketNext
    requires at > 0 ==> head' == head && heap'[ids[at - 1]].bucketNext == heap[ids[at]].bucketNext
    requires at == 0 ==> head' == heap[ids[0]].bucketNext
    ensures BucketChain(heap', head', Without(ids, at))
  {
    assert BucketAt(heap, ids, at);
    forall i | 0 <= i < |ids| - 1 ensures BucketAt(heap', Without(ids, at), i) {
      assert BucketAt(heap, ids, i);
      if i >= at { assert BucketAt(heap, ids, i + 1); }
    }
  }

  lemma OrderFrame<K, V>(heap: map<Id, Node<K, V>>, heap': map<Id, Node<K, V>>, head: Option<Id>, ids: seq<Id>)
    requires OrderChain(heap, head, ids)
    requires forall n | n in ids :: n in heap' && (n in heap ==> heap'[n].orderNext == heap[n].orderNext)
    ensures OrderChain(heap', head, ids)
  {
    forall i | 0 <= i < |ids| ensures OrderAt(heap', ids, i) { assert OrderAt(heap, ids, i); }
  }

  lemma OrderAppend<K, V>(heap: map<Id, Node<K, V>>, heap': map<Id, Node<K, V>>, head: Option<Id>, head': Option<Id>,
                          ids: seq<Id>, n: Id)
    requires OrderChain(heap, head, ids) && n !in ids && n in heap' && heap'[n].orderNext == None
    requires forall x | x in ids :: x in heap && x in heap'
    requires forall i | 0 <= i < |ids| - 1 :: heap'[ids[i]].orderNext == heap[ids[i]].orderNext
    requires if ids == [] then head' == Some(n) else head' == head && heap'[ids[|ids| - 1]].orderNext == Some(n)
    ensures OrderChain(heap', head', ids + [n])
  {
    forall i | 0 <= i < |ids| + 1 ensures OrderAt(heap', ids + [n], i) {
      if i < |ids| { assert OrderAt(heap, ids, i); }
    }
  }

  lemma OrderUnlink<K, V>(heap: map<Id, Node<K, V>>, heap': map<Id, Node<K, V>>, head: Option<Id>, head': Option<Id>,
                          ids: seq<Id>, at: nat)
    requires OrderChain(heap, head, ids) && at < |ids|
    requires forall x | x in ids :: x in heap && x in heap'
    requires forall i | 0 <= i < |ids| && i + 1 != at :: heap'[ids[i]].orderNext == heap[ids[i]].orderNext
    requires at > 0 ==> head' == head && heap'[ids[at - 1]].orderNext == heap[ids[at]].orderNext
    requires at == 0 ==> head' == heap[ids[0]].orderNext
    ensures OrderChain(heap', head', Without(ids, at))
  {
    assert OrderAt(heap, ids, at);
    forall i | 0 <= i < |ids| - 1 ensures OrderAt(heap', Without(ids, at), i) {
      assert OrderAt(heap, ids, i);
      if i >= at { assert OrderAt(heap, ids, i + 1); }
    }
  }

  function Last(ids: seq<Id>): Option<Id> { if ids == [] then None else Some(ids[|ids| - 1]) }

  /** The chains of the buckets from `b` on, one after the other. */
  function Flatten(chains: seq<seq<Id>>, b: nat): (r: seq<Id>)
    decreases |chains| - b
  {
    if b >= |chains| then [] else chains[b] + Flatten(chains, b + 1)
  }

  lemma {:induction false} FlattenFrame(chains: seq<seq<Id>>, chains': seq<seq<Id>>, b: nat)
    requires |chains| == |chains'| && forall i | b <= i < |chains| :: chains[i] == chains'[i]
    ensures Flatten(chains, b) == Flatten(chains', b)
    decreases |chains| - b
  {
    if b < |chains| { FlattenFrame(chains, chains', b + 1); }
  }

  // ----- The two halves of the representation invariant -----

  datatype Hashing<!K> = Hashing(count: nat, hash: K -> nat) {
    predicate Valid() { count > 0 }
    function Index(key: K): (b: nat)
      requires Valid()
      ensures b < count
    {
      hash(key) % count
    }
  }

  /** The chain of bucket `b` holds exactly the live nodes that hash to `b`. */
  ghost predicate BucketOk<K, V>(h: Hashing<K>, heap: map<Id, Node<K, V>>, head: Option<Id>, chain: seq<Id>, b: nat)
    requires h.Valid()
  {
    && BucketChain(heap, head, chain)
    && forall n :: n in chain <==> n in heap && !heap[n].deleted && h.Index(heap[n].key) == b
  }

  ghost predicate BucketsOk<K, V>(h: Hashing<K>, heap: map<Id, Node<K, V>>, heads: seq<Option<Id>>,
                                  chains: seq<seq<Id>>) {
    && h.Valid() && |heads| == |chains| == h.count
    && forall b | 0 <= b < h.count :: BucketOk(h, heap, heads[b], chains[b], b)
  }

  /** The order chain holds every allocated node once, and live keys are unique. */
  ghost predicate OrderOk<K, V>(heap: map<Id, Node<K, V>>, head: Option<Id>, tail: Option<Id>, ids: seq<Id>) {
    && (forall n :: n in ids <==> n in heap)
    && OrderChain(heap, head, ids) && tail == Last(ids)
    && UniqueKeys(heap, ids)
  }

  lemma InsertBuckets<K, V>(h: Hashing<K>, heap: map<Id, Node<K, V>>, heap': map<Id, Node<K, V>>,
                            heads: seq<Option<Id>>, chains: seq<seq<Id>>, n: Id)
    requires BucketsOk(h, heap, heads, chains) && n !in heap && heap'.Keys == heap.Keys + {n} && !heap'[n].deleted
    requires heap'[n].bucketNext == heads[h.Index(heap'[n].key)]
    requires forall x | x in heap :: heap'[x].key == heap[x].key && heap'[x].deleted == heap[x].deleted
               && heap'[x].bucketNext == heap[x].bucketNext
    ensures var b := h.Index(heap'[n].key); BucketsOk(h, heap', heads[b := Some(n)], chains[b := [n] + chains[b]])
  {
    var b := h.Index(heap'[n].key);
    var heads', chains' := heads[b := Some(n)], chains[b := [n] + chains[b]];
    forall c | 0 <= c < h.count ensures BucketOk(h, heap', heads'[c], chains'[c], c) {
      assert BucketOk(h, heap, heads[c], chains[c], c);
      if c == b {
        BucketPush(heap, heap', heads[b], chains[b], n);
      } else {
        BucketFrame(heap, heap', heads[c], chains[c]);
      }
    }
  }

  lemma InsertOrder<K, V>(heap: map<Id, Node<K, V>>, heap': map<Id, Node<K, V>>, head: Option<Id>, tail: Option<Id>,
                          ids: seq<Id>, n: Id)
    requires OrderOk(heap, head, tail, ids) && n !in heap && heap'.Keys == heap.Keys + {n}
    requires !heap'[n].deleted && heap'[n].orderNext == None
    requires forall x | x in heap && heap[x].key == heap'[n].key :: heap[x].deleted
    requires forall x | x in heap :: heap'[x] == if tail == Some(x) then heap[x].(orderNext := Some(n)) else heap[x]
    ensures OrderOk(heap', if tail.None? then Some(n) else head, Some(n), ids + [n])
    ensures EntriesOf(heap', ids + [n]) == EntriesOf(heap, ids) + [(heap'[n].key, heap'[n].value)]
  {
    assert forall x | x in ids :: x in heap && x in heap' && heap'[x].(orderNext := heap[x].orderNext) == heap[x];
    InsertChain(heap, heap', head, tail, ids, n);
    InsertEntries(heap, heap', ids, n);
  }

  lemma InsertChain<K, V>(heap: map<Id, Node<K, V>>, heap': map<Id, Node<K, V>>, head: Option<Id>, tail: Option<Id>,
                          ids: seq<Id>, n: Id)
    requires OrderChain(heap, head, ids) && tail == Last(ids) && n !in ids && n in heap' && heap'[n].orderNext == None
    requires forall x | x in ids :: x in heap && x in heap'
               && heap'[x].orderNext == if tail == Some(x) then Some(n) else heap[x].orderNext
    ensures OrderChain(heap', if tail.None? then Some(n) else head, ids + [n])
  {
    OrderAppend(heap, heap', head, if tail.None? then Some(n) else head, ids, n);
  }

  lemma InsertEntries<K, V>(heap: map<Id, Node<K, V>>, heap': map<Id, Node<K, V>>, ids: seq<Id>, n: Id)
    requires (forall x | x in ids :: x in heap) && UniqueKeys(heap, ids) && n in heap' && !heap'[n].deleted
    requires forall x | x in ids :: x in heap' && heap'[x].(orderNext := heap[x].orderNext) == heap[x]
    requires forall x | x in ids && heap[x].key == heap'[n].key :: heap[x].deleted
    ensures UniqueKeys(heap', ids + [n])
    ensures EntriesOf(heap', ids + [n]) == EntriesOf(heap, ids) + [(heap'[n].key, heap'[n].value)]
  {
    EntriesFrame(heap, heap', ids);
    assert (ids + [n])[..|ids|] == ids;
  }

  lemma UnlinkBuckets<K, V>(h: Hashing<K>, heap: map<Id, Node<K, V>>, heap': map<Id, Node<K, V>>,
                            heads: seq<Option<Id>>, heads': seq<Option<Id>>, chains: seq<seq<Id>>, n: Id, at: nat)
    requires BucketsOk(h, heap, heads, chains) && n in heap && heap'.Keys == heap.Keys
    requires var b := h.Index(heap[n].key);
             && at < |chains[b]| && chains[b][at] == n
             && heads' == (if at == 0 then heads[b := heap[n].bucketNext] else heads)
             && forall x | x in heap :: heap'[x] ==
                  if x == n then heap[n].(deleted := true)
                  else if at > 0 && x == chains[b][at - 1] then heap[x].(bucketNext := heap[n].bucketNext)
                  else heap[x]
    ensures var b := h.Index(heap[n].key); BucketsOk(h, heap', heads', chains[b := Without(chains[b], at)])
  {
    var b := h.Index(heap[n].key);
    assert BucketOk(h, heap, heads[b], chains[b], b);
    var chains' := chains[b := Without(chains[b], at)];
    forall c | 0 <= c < h.count ensures BucketOk(h, heap', heads'[c], chains'[c], c) {
      assert BucketOk(h, heap, heads[c], chains[c], c);
      if c == b {
        BucketUnlink(heap, heap', heads[b], heads'[b], chains[b], at);
        WithoutMembers(chains[b], at);
      } else {
        BucketFrame(heap, heap', heads[c], chains[c]);
      }
    }
  }

  /** Marking a node, whatever happens to bucket links, removes its entry and nothing else. */
  lemma MarkOrder<K, V>(heap: map<Id, Node<K, V>>, heap': map<Id, Node<K, V>>, head: Option<Id>, tail: Option<Id>,
                        ids: seq<Id>, n: Id)
    requires OrderOk(heap, head, tail, ids) && n in heap && !heap[n].deleted && heap'.Keys == heap.Keys
    requires forall x | x in heap ::
               heap'[x].(bucketNext := heap[x].bucketNext) == heap[x].(deleted := x == n || heap[x].deleted)
    ensures OrderOk(heap', head, tail, ids)
    ensures EntriesOf(heap', ids) == Removed(EntriesOf(heap, ids), heap[n].key)
  {
    OrderFrame(heap, heap', head, ids);
    EntriesMark(heap, ids, n);
    EntriesFrame(heap[n := heap[n].(deleted := true)], heap', ids);
  }

  lemma WithoutMembers(ids: seq<Id>, at: nat)
    requires Distinct(ids) && at < |ids|
    ensures forall n :: n in Without(ids, at) <==> n in ids && n != ids[at]
  {
    forall n | n in ids && n != ids[at] ensures n in Without(ids, at) {
      var i :| 0 <= i < |ids| && ids[i] == n;
      assert n == Without(ids, at)[if i < at then i else i - 1];
    }
  }

  /** The bucket chains together list every live node exactly once. */
  lemma {:induction false} FlattenLive<K, V>(h: Hashing<K>, heap: map<Id, Node<K, V>>, heads: seq<Option<Id>>,
                                             chains: seq<seq<Id>>, b: nat)
    requires BucketsOk(h, heap, heads, chains) && b <= h.count
    ensures Distinct(Flatten(chains, b))
    ensures forall n :: n in Flatten(chains, b) <==> IsLive(heap, n) && h.Index(heap[n].key) >= b
    decreases h.count - b
  {
    if b < h.count {
      FlattenLive(h, heap, heads, chains, b + 1);
      assert BucketOk(h, heap, heads[b], chains[b], b);
      DistinctConcat(chains[b], Flatten(chains, b + 1));
    }
  }

  lemma DistinctConcat(a: seq<Id>, b: seq<Id>)
    requires Distinct(a) && Distinct(b) && forall n | n in a :: n !in b
    ensures Distinct(a + b)
  {
    forall i, j | 0 <= i < j < |a + b| ensures (a + b)[i] != (a + b)[j] {
      if i < |a| <= j { assert a[i] in a && (a + b)[j] in b; }
    }
  }

  /** Two positions of a chain that hold the same key are the same position. */
  lemma SamePosition<K, V>(h: Hashing<K>, heap: map<Id, Node<K, V>>, head: Option<Id>, chain: seq<Id>, b: nat,
                           ids: seq<Id>, i: nat, j: nat)
    requires h.Valid() && BucketOk(h, heap, head, chain, b) && UniqueKeys(heap, ids)
    requires (forall n | n in heap :: n in ids)
    requires i < |chain| && j < |chain| && chain[i] in heap && chain[j] in heap
    requires heap[chain[i]].key == heap[chain[j]].key
    ensures i == j
  {
    assert IsLive(heap, chain[i]) && IsLive(heap, chain[j]);
  }

  class LockFreeOrderedHashMap<K(!new,==), V(!new)> {
    const hashing: Hashing<K>
    var heap: map<Id, Node<K, V>>
    var buckets: seq<Option<Id>>
    var orderHead: Option<Id>
    var orderTail: Option<Id>
    var allNodes: seq<Id>
    ghost var chains: seq<seq<Id>>

    ghost predicate Valid()
      reads this
    {
      BucketsOk(hashing, heap, buckets, chains) && OrderOk(heap, orderHead, orderTail, allNodes)
    }

    /** The abstract value: live entries in insertion order. */
    ghost function Entries(): seq<(K, V)>
      requires Valid()
      reads this
    {
      EntriesOf(heap, allNodes)
    }

    constructor (count: nat, hash: K -> nat)
      ensures Valid() && Entries() == [] && heap == map[]
      ensures hashing == Hashing(if count > 0 then count else 1, hash)
    {
      var n := if count > 0 then count else 1;
      hashing := Hashing(n, hash);
      heap := map[];
      buckets := seq(n, _ => None);
      orderHead, orderTail, allNodes := None, None, [];
      chains := seq(n, _ => []);
    }

    /** Any address not in use. */
    method NewAddress() returns (addr: Id)
      ensures addr !in heap
    {
      ghost var unused := Bound(heap.Keys);
      assert unused !in heap;
      addr :| addr !in heap;
    }

    /** Walks one bucket chain; `at` is the position where it stopped. */
    method FindInBucket(key: K) returns (prev: Ptr, node: Option<Id>, ghost at: nat)
      requires Valid()
      ensures at <= |chains[hashing.Index(key)]| && node == Get(chains[hashing.Index(key)], at)
      ensures prev == if at == 0 then Head(hashing.Index(key)) else Next(chains[hashing.Index(key)][at - 1])
      ensures node.Some? ==> node.value in heap && heap[node.value].key == key && !heap[node.value].deleted
      ensures node.None? ==> forall n | n in heap && heap[n].key == key :: heap[n].deleted
    {
      var b := hashing.Index(key);
      prev, node, at := Head(b), buckets[b], 0;
      assert BucketOk(hashing, heap, buckets[b], chains[b], b);
      while node.Some?
        invariant at <= |chains[b]| && node == Get(chains[b], at)
        invariant prev == if at == 0 then Head(b) else Next(chains[b][at - 1])
        invariant forall i | 0 <= i < at :: heap[chains[b][i]].key != key
        decreases |chains[b]| - at
      {
        assert BucketAt(heap, chains[b], at);
        if heap[node.value].key == key {
          return;
        }
        prev, node, at := Next(node.value), heap[node.value].bucketNext, at + 1;
      }
    }

    /** Copies the value of a live key. */
    method Find(key: K) returns (value: Option<V>)
      requires Valid()
      ensures value.Some? <==> HasKey(Entries(), key)
      ensures value.Some? ==> (key, value.value) in Entries()
    {
      var prev, node, at := FindInBucket(key);
      EntriesHaveKey(heap, allNodes, key);
      if node.Some? && !heap[node.value].deleted {
        value := Some(heap[node.value].value);
        EntryOf(heap, allNodes, node.value);
      } else {
        value := None;
      }
    }

    /** Inserts unless the key is present; `addr` is the address the allocator returns. */
    method Insert(key: K, value: V, addr: Id) returns (ok: bool)
      requires Valid() && addr !in heap
      modifies this
      ensures Valid() && Entries() == Inserted(old(Entries()), key, value)
      ensures ok <==> !HasKey(old(Entries()), key)
      ensures heap.Keys == old(heap.Keys) + if ok then {addr} else {}
    {
      var prev, node, at := FindInBucket(key);
      EntriesHaveKey(heap, allNodes, key);
      if node.Some? {
        return false;
      }
      assert orderTail.Some? ==> orderTail.value in heap by {
        assert orderTail.Some? ==> orderTail.value in allNodes;
      }
      LinkNew(key, value, addr);
      InsertBuckets(hashing, old(heap), heap, old(buckets), old(chains), addr);
      InsertOrder(old(heap), heap, old(orderHead), old(orderTail), old(allNodes), addr);
      return true;
    }

    /** Phase 1 publishes at the head of the bucket chain, phase 2 appends to the order chain. */
    method LinkNew(key: K, value: V, addr: Id)
      requires hashing.Valid() && |buckets| == |chains| == hashing.count
      requires addr !in heap && (orderTail.Some? ==> orderTail.value in heap)
      modifies this
      ensures var b := hashing.Index(key);
        && buckets == old(buckets)[b := Some(addr)] && chains == old(chains)[b := [addr] + old(chains)[b]]
        && heap.Keys == old(heap.Keys) + {addr} && heap[addr] == Node(key, value, old(buckets)[b], None, false)
        && (forall x | x in old(heap) ::
              heap[x] == if old(orderTail) == Some(x) then old(heap)[x].(orderNext := Some(addr)) else old(heap)[x])
      ensures allNodes == old(allNodes) + [addr] && orderTail == Some(addr)
      ensures orderHead == if old(orderTail).None? then Some(addr) else old(orderHead)
    {
      var b := hashing.Index(key);
      heap := heap[addr := Node(key, value, buckets[b], None, false)];
      allNodes := allNodes + [addr];
      buckets := buckets[b := Some(addr)];
      chains := chains[b := [addr] + chains[b]];
      if orderTail.None? {
        orderHead := Some(addr);
      } else {
        heap := heap[orderTail.value := heap[orderTail.value].(orderNext := Some(addr))];
      }
      orderTail := Some(addr);
    }

    /** Marks the holder of the key deleted and unlinks it from its bucket.  The node keeps its
        own link, so an iterator standing on it can still move on. */
    method Remove(key: K) returns (ok: bool, ghost at: nat)
      requires Valid()
      modifies this
      ensures Valid() && Entries() == Removed(old(Entries()), key)
      ensures ok <==> HasKey(old(Entries()), key)
      ensures heap.Keys == old(heap.Keys) && allNodes == old(allNodes)
      ensures forall n | n in heap && old(heap)[n].key == key && !old(heap)[n].deleted ::
                heap[n] == old(heap)[n].(deleted := true)
      ensures forall n | n in heap :: heap[n].key == old(heap)[n].key
      ensures ok ==> var chain := old(chains)[hashing.Index(key)];
                && at < |chain| && chain[at] in heap && old(heap)[chain[at]].key == key
                && chains == old(chains)[hashing.Index(key) := Without(chain, at)]
    {
      var prev, node;
      prev, node, at := FindInBucket(key);
      EntriesHaveKey(heap, allNodes, key);
      if node.None? {
        RemovedAbsent(Entries(), key);
        return false, at;
      }
      assert prev.Next? ==> BucketAt(heap, chains[hashing.Index(key)], at - 1) by {
        var b := hashing.Index(key);
        assert BucketOk(hashing, heap, buckets[b], chains[b], b);
      }
      MarkAndUnlink(prev, node.value, hashing.Index(key), at);
      UnlinkBuckets(hashing, old(heap), heap, old(buckets), buckets, old(chains), node.value, at);
      MarkOrder(old(heap), heap, orderHead, orderTail, allNodes, node.value);
      return true, at;
    }

    /** The CAS on is_deleted followed by try_unlink_bucket. */
    method MarkAndUnlink(prev: Ptr, node: Id, ghost b: nat, ghost at: nat)
      requires node in heap && |buckets| == |chains| && b < |chains| && at < |chains[b]|
      requires prev.Head? ==> prev.bucket < |buckets| && buckets[prev.bucket] == Some(node)
      requires prev.Next? ==> prev.node in heap && prev.node != node && heap[prev.node].bucketNext == Some(node)
      modifies this`heap, this`buckets, this`chains
      ensures heap.Keys == old(heap.Keys)
      ensures forall x | x in heap :: heap[x] ==
                if x == node then old(heap)[x].(deleted := true)
                else if prev == Next(x) then old(heap)[x].(bucketNext := old(heap)[node].bucketNext)
                else old(heap)[x]
      ensures buckets == if prev.Head? then old(buckets)[prev.bucket := old(heap)[node].bucketNext] else old(buckets)
      ensures chains == old(chains)[b := Without(old(chains)[b], at)]
    {
      heap := heap[node := heap[node].(deleted := true)];
      var next := heap[node].bucketNext;
      match prev {
        case Head(h) =>
          if buckets[h] == Some(node) { buckets := buckets[h := next]; }
        case Next(p) =>
          if heap[p].bucketNext == Some(node) { heap := heap[p := heap[p].(bucketNext := next)]; }
      }
      chains := chains[b := Without(chains[b], at)];
    }

    // ----- collect_garbage -----

    /** Unlinks deleted nodes from the order chain, then frees exactly them.  The abstract map is
        unchanged, the order chain becomes the live nodes, and no link leads to freed memory. */
    method CollectGarbage()
      requires Valid()
      modifies this
      ensures Valid() && Entries() == old(Entries())
      ensures heap.Keys == set n | n in old(heap) && !old(heap)[n].deleted
      ensures allNodes == Live(old(heap), old(allNodes))
      ensures forall n | n in heap :: heap[n].(orderNext := old(heap)[n].orderNext) == old(heap)[n]
      ensures forall b | 0 <= b < |buckets| :: NotDangling(heap, buckets[b])
      ensures forall n | n in heap :: NotDangling(heap, heap[n].bucketNext) && NotDangling(heap, heap[n].orderNext)
    {
      CollectNodes(allNodes);
      AfterSweepBuckets(hashing, old(heap), heap, buckets, chains);
    }

    /** What that does to the nodes and the order chain, whatever the bucket links are; `order` is the order chain, and
        the list of allocated nodes may be in any order. */
    method CollectNodes(ghost order: seq<Id>)
      requires OrderOk(heap, orderHead, orderTail, order) && Distinct(allNodes)
      requires forall n :: n in allNodes <==> n in order
      modifies this`heap, this`orderHead, this`orderTail, this`allNodes
      ensures Collected(old(heap), heap) && allNodes == Live(old(heap), old(allNodes))
      ensures OrderOk(heap, orderHead, orderTail, Live(old(heap), order))
      ensures EntriesOf(heap, Live(old(heap), order)) == EntriesOf(old(heap), order)
      ensures forall n | n in heap :: NotDangling(heap, heap[n].orderNext)
    {
      UnlinkDeleted(order);
      ghost var heap1 := heap;
      Sweep();
      AfterCollect(old(heap), heap1, heap, orderHead, order, old(allNodes));
    }

    method UnlinkDeleted(ghost order: seq<Id>)
      requires OrderChain(heap, orderHead, order) && orderTail == Last(order)
      modifies this`heap, this`orderHead, this`orderTail
      ensures SameButOrder(old(heap), heap)
      ensures OrderChain(heap, orderHead, Live(old(heap), order)) && orderTail == Last(Live(old(heap), order))
    {
      ghost var done: seq<Id>, rest := [], order;
      var prev: Option<Id>, curr := None, orderHead;
      assert done + rest == order;
      while curr.Some?
        invariant curr == Get(rest, 0) && prev == Last(done)
        invariant SameButOrder(old(heap), heap)
        invariant OrderChain(heap, orderHead, done + rest) && orderTail == Last(done + rest)
        invariant LiveSplit(old(heap), order, done, rest)
        decreases |rest|
      {
        ghost var heap1, head1 := heap, orderHead;
        ChainCursor(heap, orderHead, done, rest);
        LiveAdvance(old(heap), order, done, rest);
        var next := heap[curr.value].orderNext;
        if heap[curr.value].deleted {
          UnlinkFromOrder(prev, curr.value);
          if prev.Some? { SameButOrderStep(old(heap), heap1, prev.value, next); }
          ChainSkip(heap1, heap, head1, orderHead, done, rest);
          rest := rest[1..];
        } else {
          prev := curr;
          Regroup(done, rest);
          done, rest := done + [rest[0]], rest[1..];
        }
        curr := next;
      }
      assert rest == [] && done + rest == done;
    }

    method UnlinkFromOrder(prev: Option<Id>, curr: Id)
      requires curr in heap && NotDangling(heap, prev)
      modifies this`heap, this`orderHead, this`orderTail
      ensures heap == if prev.None? then old(heap)
                      else old(heap)[prev.value := old(heap)[prev.value].(orderNext := old(heap)[curr].orderNext)]
      ensures orderHead == if prev.None? then old(heap)[curr].orderNext else old(orderHead)
      ensures orderTail == if old(orderTail) == Some(curr) then prev else old(orderTail)
    {
      var next := heap[curr].orderNext;
      if prev.Some? {
        heap := heap[prev.value := heap[prev.value].(orderNext := next)];
      } else {
        orderHead := next;
      }
      if orderTail == Some(curr) {
        orderTail := prev;
      }
    }

    /** Frees the deleted nodes and compacts the list of allocated nodes in place. */
    method Sweep()
      requires forall n | n in allNodes :: n in heap
      requires Distinct(allNodes)
      modifies this`heap, this`allNodes
      ensures allNodes == Live(old(heap), old(allNodes))
      ensures heap == old(heap) - Dead(old(heap), old(allNodes))
    {
      ghost var heap0, ids := heap, allNodes;
      var write, read := 0, 0;
      while read < |allNodes|
        invariant 0 <= write <= read <= |allNodes| == |ids|
        invariant allNodes[..write] == Live(heap0, ids[..read]) && allNodes[read..] == ids[read..]
        invariant heap == heap0 - Dead(heap0, ids[..read])
      {
        LiveStep(heap0, ids, read);
        DeadStep(heap0, ids, read);
        SameRest(allNodes, ids, read);
        if heap[allNodes[read]].deleted {
          heap := heap - {allNodes[read]};
        } else {
          Compacted(allNodes, write, read);
          allNodes := allNodes[write := allNodes[read]];
          write := write + 1;
        }
        read := read + 1;
      }
      assert ids[..read] == ids;
      allNodes := allNodes[..write];
    }

    // ----- Bucket iteration -----

    /** The iterator stands on a node whose next link leads to position `k` of its bucket chain,
        or it is the end iterator. */
    ghost predicate At(it: Iterator, k: nat)
      requires Valid()
      reads this
    {
      if it.currentNode.None? then it == End()
      else && it.bucketIndex < hashing.count && it.currentNode.value in heap
           && k <= |chains[it.bucketIndex]|
           && heap[it.currentNode.value].bucketNext == Get(chains[it.bucketIndex], k)
    }

    /** The nodes the iteration has yet to visit, the current one first. */
    ghost function Remaining(it: Iterator, k: nat): seq<Id>
      requires Valid() && At(it, k)
      reads this
    {
      if it.currentNode.None? then []
      else [it.currentNode.value] + (chains[it.bucketIndex][k..] + Flatten(chains, it.bucketIndex + 1))
    }

    /** The current node is live and still on its chain, just before position `k`. */
    ghost predicate OnLive(it: Iterator, k: nat)
      requires Valid() && At(it, k)
      reads this
    {
      it.currentNode.Some? ==> k > 0 && chains[it.bucketIndex][k - 1] == it.currentNode.value
                               && IsLive(heap, it.currentNode.value)
    }

    function End(): Iterator { Iterator(hashing.count, None) }

    method Begin() returns (it: Iterator, ghost k: nat)
      requires Valid()
      ensures At(it, k) && OnLive(it, k) && Remaining(it, k) == Flatten(chains, 0)
    {
      it, k := FirstFrom(0);
    }

    /** The first node of the first non-empty bucket from `b` on, or the end iterator. */
    method FirstFrom(b: nat) returns (it: Iterator, ghost k: nat)
      requires Valid() && b <= hashing.count
      ensures At(it, k) && OnLive(it, k) && Remaining(it, k) == Flatten(chains, b)
    {
      var i := b;
      while i < hashing.count && buckets[i].None?
        invariant b <= i <= hashing.count && Flatten(chains, b) == Flatten(chains, i)
      {
        assert BucketOk(hashing, heap, buckets[i], chains[i], i);
        i := i + 1;
      }
      if i == hashing.count {
        return End(), 0;
      }
      assert BucketOk(hashing, heap, buckets[i], chains[i], i);
      assert BucketAt(heap, chains[i], 0);
      it, k := Iterator(i, buckets[i]), 1;
      assert chains[i] == [chains[i][0]] + chains[i][1..];
    }

    /** operator++: the next node of the chain, or of the next non-empty bucket.  It is live,
        so the loop that skips deleted nodes has nothing to do. */
    method Advance(it: Iterator, ghost k: nat) returns (it': Iterator, ghost k': nat)
      requires Valid() && At(it, k) && it.currentNode.Some?
      ensures At(it', k') && OnLive(it', k') && Remaining(it', k') == Remaining(it, k)[1..]
    {
      var b, next := it.bucketIndex, heap[it.currentNode.value].bucketNext;
      if next.Some? {
        assert BucketOk(hashing, heap, buckets[b], chains[b], b);
        assert BucketAt(heap, chains[b], k);
        it', k' := Iterator(b, next), k + 1;
        assert chains[b][k..] == [chains[b][k]] + chains[b][k + 1..];
      } else {
        it', k' := FirstFrom(b + 1);
        assert chains[b][k..] == [];
      }
    }

    /** A loop body may remove the entry being visited: what remains is unaffected. */
    method RemoveVisited(it: Iterator, ghost k: nat) returns (ghost k': nat)
      requires Valid() && At(it, k) && OnLive(it, k) && it.currentNode.Some?
      modifies this
      ensures Valid() && At(it, k') && Remaining(it, k') == old(Remaining(it, k))
      ensures Entries() == Removed(old(Entries()), old(heap[it.currentNode.value].key))
      ensures heap.Keys == old(heap.Keys) && forall n | n in heap :: heap[n].key == old(heap)[n].key
    {
      var n := it.currentNode.value;
      ghost var b, chain := it.bucketIndex, chains[it.bucketIndex];
      assert BucketOk(hashing, heap, buckets[b], chain, b);
      EntriesHaveKey(heap, allNodes, heap[n].key);
      var ok, at := Remove(heap[n].key);
      SamePosition(hashing, old(heap), old(buckets)[b], chain, b, allNodes, at, k - 1);
      k' := k - 1;
      assert Without(chain, at)[k'..] == chain[k..];
      FlattenFrame(old(chains), chains, b + 1);
    }

    /** A loop body may overwrite the value being visited. */
    method SetVisited(it: Iterator, ghost k: nat, value: V)
      requires Valid() && At(it, k) && OnLive(it, k) && it.currentNode.Some?
      modifies this`heap
      ensures Valid() && At(it, k) && Remaining(it, k) == old(Remaining(it, k))
      ensures Entries() == Updated(old(Entries()), old(heap[it.currentNode.value].key), value)
      ensures heap == old(heap)[it.currentNode.value := old(heap)[it.currentNode.value].(value := value)]
    {
      var n := it.currentNode.value;
      EntriesSet(heap, allNodes, n, value);
      heap := heap[n := heap[n].(value := value)];
      OrderFrame(old(heap), heap, orderHead, allNodes);
      forall b | 0 <= b < hashing.count ensures BucketOk(hashing, heap, buckets[b], chains[b], b) {
        assert BucketOk(hashing, old(heap), buckets[b], chains[b], b);
        BucketFrame(old(heap), heap, buckets[b], chains[b]);
      }
    }
  }

  /** Only orderNext links may differ. */
  ghost predicate SameButOrder<K, V>(heap: map<Id, Node<K, V>>, heap': map<Id, Node<K, V>>) {
    heap'.Keys == heap.Keys && forall x | x in heap :: heap'[x].(orderNext := heap[x].orderNext) == heap[x]
  }

  /** `done` is the live part of what precedes the suffix `rest` of `ids`. */
  ghost predicate LiveSplit<K, V>(heap: map<Id, Node<K, V>>, ids: seq<Id>, done: seq<Id>, rest: seq<Id>) {
    Live(heap, ids) == done + Live(heap, rest)
  }

  lemma {:induction false} LiveFront<K, V>(heap: map<Id, Node<K, V>>, ids: seq<Id>)
    requires ids != []
    ensures Live(heap, ids) == (if IsLive(heap, ids[0]) then [ids[0]] else []) + Live(heap, ids[1..])
  {
    if |ids| == 1 {
      assert Live(heap, ids[..0]) == [];
    } else {
      LiveFront(heap, ids[..|ids| - 1]);
      assert ids[..|ids| - 1][1..] == ids[1..][..|ids| - 2];
    }
  }

  lemma LiveAdvance<K, V>(heap: map<Id, Node<K, V>>, ids: seq<Id>, done: seq<Id>, rest: seq<Id>)
    requires LiveSplit(heap, ids, done, rest) && rest != []
    ensures LiveSplit(heap, ids, if IsLive(heap, rest[0]) then done + [rest[0]] else done, rest[1..])
  {
    LiveFront(heap, rest);
  }

  lemma Regroup(done: seq<Id>, rest: seq<Id>)
    requires rest != []
    ensures done + [rest[0]] + rest[1..] == done + rest && Last(done + [rest[0]]) == Some(rest[0])
    ensures Get(rest[1..], 0) == Get(rest, 1)
  {
  }

  /** The node after `done` on the chain, and the link it holds. */
  lemma ChainCursor<K, V>(heap: map<Id, Node<K, V>>, head: Option<Id>, done: seq<Id>, rest: seq<Id>)
    requires OrderChain(heap, head, done + rest) && rest != []
    ensures rest[0] in heap && heap[rest[0]].orderNext == Get(rest, 1)
    ensures NotDangling(heap, Last(done))
  {
    assert OrderAt(heap, done + rest, |done|);
    assert done != [] ==> OrderAt(heap, done + rest, |done| - 1);
  }

  lemma SameButOrderStep<K, V>(heap: map<Id, Node<K, V>>, heap1: map<Id, Node<K, V>>, n: Id, next: Option<Id>)
    requires SameButOrder(heap, heap1) && n in heap1
    ensures SameButOrder(heap, heap1[n := heap1[n].(orderNext := next)])
  {
  }

  lemma ChainSkip<K, V>(heap: map<Id, Node<K, V>>, heap': map<Id, Node<K, V>>, head: Option<Id>, head': Option<Id>,
                        done: seq<Id>, rest: seq<Id>)
    requires OrderChain(heap, head, done + rest) && rest != [] && rest[0] in heap && NotDangling(heap, Last(done))
    requires head' == if done == [] then heap[rest[0]].orderNext else head
    requires heap' == if done == [] then heap
                      else heap[Last(done).value := heap[Last(done).value].(orderNext := heap[rest[0]].orderNext)]
    ensures OrderChain(heap', head', done + rest[1..])
    ensures Last(done + rest[1..]) == if Last(done + rest) == Some(rest[0]) then Last(done) else Last(done + rest)
  {
    var c := done + rest;
    assert c[|done|] == rest[0] && Without(c, |done|) == done + rest[1..];
    forall i | 0 <= i < |c| ensures c[i] in heap { assert OrderAt(heap, c, i); }
    OrderUnlink(heap, heap', head, head', c, |done|);
  }

  /** The deleted nodes among `ids`. */
  function Dead<K, V>(heap: map<Id, Node<K, V>>, ids: seq<Id>): set<Id>
  {
    set n | n in ids && n in heap && heap[n].deleted
  }

  lemma DeadStep<K, V>(heap: map<Id, Node<K, V>>, ids: seq<Id>, i: nat)
    requires Distinct(ids) && i < |ids| && ids[i] in heap
    ensures Dead(heap, ids[..i + 1]) == Dead(heap, ids[..i]) + if heap[ids[i]].deleted then {ids[i]} else {}
    ensures ids[i] !in Dead(heap, ids[..i])
  {
    assert ids[..i + 1] == ids[..i] + [ids[i]];
  }

  lemma SameRest(a: seq<Id>, b: seq<Id>, i: nat)
    requires i < |a| == |b| && a[i..] == b[i..]
    ensures a[i] == b[i] && a[i + 1..] == b[i + 1..]
  {
    assert a[i] == a[i..][0] && b[i] == b[i..][0];
    assert a[i + 1..] == a[i..][1..] && b[i + 1..] == b[i..][1..];
  }

  lemma Compacted(ids: seq<Id>, write: nat, read: nat)
    requires write <= read < |ids|
    ensures var ids' := ids[write := ids[read]];
            ids'[..write + 1] == ids[..write] + [ids[read]] && ids'[read + 1..] == ids[read + 1..]
  {
  }

  predicate NotDangling<K, V>(heap: map<Id, Node<K, V>>, o: Option<Id>) { o.Some? ==> o.value in heap }

  lemma LiveStep<K, V>(heap: map<Id, Node<K, V>>, ids: seq<Id>, i: nat)
    requires i < |ids|
    ensures Live(heap, ids[..i + 1]) == Live(heap, ids[..i]) + if IsLive(heap, ids[i]) then [ids[i]] else []
  {
    assert ids[..i + 1][..i] == ids[..i];
  }

  /** Exactly the live nodes are left, with their keys, values and bucket links. */
  ghost predicate Collected<K, V>(heap: map<Id, Node<K, V>>, heap2: map<Id, Node<K, V>>) {
    && (heap2.Keys == set n | n in heap && !heap[n].deleted)
    && forall n | n in heap2 :: heap2[n].(orderNext := heap[n].orderNext) == heap[n]
  }

  lemma AfterCollect<K, V>(heap: map<Id, Node<K, V>>, heap1: map<Id, Node<K, V>>, heap2: map<Id, Node<K, V>>,
                           head: Option<Id>, order: seq<Id>, ids: seq<Id>)
    requires (forall n :: n in order <==> n in heap) && Distinct(order) && UniqueKeys(heap, order)
    requires forall n :: n in ids <==> n in order
    requires SameButOrder(heap, heap1) && OrderChain(heap1, head, Live(heap, order))
    requires heap2 == heap1 - Dead(heap1, ids)
    ensures Collected(heap, heap2) && Live(heap1, ids) == Live(heap, ids)
    ensures OrderOk(heap2, head, Last(Live(heap, order)), Live(heap, order))
    ensures EntriesOf(heap2, Live(heap, order)) == EntriesOf(heap, order)
    ensures forall n | n in heap2 :: NotDangling(heap2, heap2[n].orderNext)
  {
    DeadMembers(heap1, ids, order);
    AfterSweepOrder(heap, heap1, heap2, head, order);
    Swept(heap, heap1, heap2, order);
    LiveMembers(heap, order);
    LiveSame(heap, heap1, ids);
  }

  lemma DeadMembers<K, V>(heap: map<Id, Node<K, V>>, ids: seq<Id>, order: seq<Id>)
    requires forall n :: n in ids <==> n in order
    ensures Dead(heap, ids) == Dead(heap, order)
  {
  }

  lemma {:induction false} LiveSame<K, V>(heap: map<Id, Node<K, V>>, heap': map<Id, Node<K, V>>, ids: seq<Id>)
    requires SameButOrder(heap, heap')
    ensures Live(heap', ids) == Live(heap, ids)
  {
    if ids != [] { LiveSame(heap, heap', ids[..|ids| - 1]); }
  }

  /** What the sweep leaves: the live nodes, with their keys and values. */
  lemma Swept<K, V>(heap: map<Id, Node<K, V>>, heap1: map<Id, Node<K, V>>, heap2: map<Id, Node<K, V>>, ids: seq<Id>)
    requires (forall n :: n in ids <==> n in heap) && SameButOrder(heap, heap1) && heap2 == heap1 - Dead(heap1, ids)
    ensures forall n :: n in Live(heap, ids) <==> n in heap2
    ensures forall n | n in heap2 ::
              n in heap && n in heap1 && heap2[n] == heap1[n] && heap2[n].(orderNext := heap[n].orderNext) == heap[n]
  {
    LiveMembers(heap, ids);
  }

  lemma SweptEntries<K, V>(heap: map<Id, Node<K, V>>, heap2: map<Id, Node<K, V>>, ids: seq<Id>)
    requires forall n :: n in Live(heap, ids) <==> n in heap2
    requires forall n | n in heap2 :: n in heap && heap2[n].(orderNext := heap[n].orderNext) == heap[n]
    ensures EntriesOf(heap2, Live(heap, ids)) == EntriesOf(heap, ids)
  {
    LiveEntries(heap, ids);
    EntriesFrame(heap, heap2, Live(heap, ids));
  }

  lemma SweptKeys<K, V>(heap: map<Id, Node<K, V>>, heap2: map<Id, Node<K, V>>, ids: seq<Id>)
    requires UniqueKeys(heap, ids)
    requires forall n | n in heap2 :: n in heap && n in ids && heap2[n].(orderNext := heap[n].orderNext) == heap[n]
    requires forall n :: n in Live(heap, ids) ==> n in heap2
    ensures UniqueKeys(heap2, Live(heap, ids))
  {
  }

  lemma AfterSweepOrder<K, V>(heap: map<Id, Node<K, V>>, heap1: map<Id, Node<K, V>>, heap2: map<Id, Node<K, V>>,
                              head: Option<Id>, ids: seq<Id>)
    requires (forall n :: n in ids <==> n in heap) && Distinct(ids) && UniqueKeys(heap, ids)
    requires SameButOrder(heap, heap1)
    requires heap2 == heap1 - Dead(heap1, ids)
    requires OrderChain(heap1, head, Live(heap, ids))
    ensures OrderOk(heap2, head, Last(Live(heap, ids)), Live(heap, ids))
    ensures EntriesOf(heap2, Live(heap, ids)) == EntriesOf(heap, ids)
    ensures forall n | n in heap2 :: NotDangling(heap2, heap2[n].orderNext)
  {
    var live := Live(heap, ids);
    Swept(heap, heap1, heap2, ids);
    assert OrderChain(heap2, head, live) by { OrderFrame(heap1, heap2, head, live); }
    assert EntriesOf(heap2, live) == EntriesOf(heap, ids) by { SweptEntries(heap, heap2, ids); }
    assert UniqueKeys(heap2, live) by { SweptKeys(heap, heap2, ids); }
    ChainNotDangling(heap2, head, live);
  }

  lemma ChainNotDangling<K, V>(heap: map<Id, Node<K, V>>, head: Option<Id>, ids: seq<Id>)
    requires OrderChain(heap, head, ids)
    ensures forall n | n in ids :: n in heap && NotDangling(heap, heap[n].orderNext)
  {
    forall n | n in ids ensures n in heap && NotDangling(heap, heap[n].orderNext) {
      var i :| 0 <= i < |ids| && ids[i] == n;
      assert OrderAt(heap, ids, i);
      assert i + 1 < |ids| ==> OrderAt(heap, ids, i + 1);
    }
  }

  lemma AfterSweepBuckets<K, V>(h: Hashing<K>, heap: map<Id, Node<K, V>>, heap2: map<Id, Node<K, V>>,
                                heads: seq<Option<Id>>, chains: seq<seq<Id>>)
    requires BucketsOk(h, heap, heads, chains)
    requires heap2.Keys == set n | n in heap && !heap[n].deleted
    requires forall n | n in heap2 :: heap2[n].(orderNext := heap[n].orderNext) == heap[n]
    ensures BucketsOk(h, heap2, heads, chains)
    ensures forall b | 0 <= b < |heads| :: NotDangling(heap2, heads[b])
    ensures forall n | n in heap2 :: NotDangling(heap2, heap2[n].bucketNext)
  {
    forall b | 0 <= b < h.count ensures BucketOk(h, heap2, heads[b], chains[b], b) {
      assert BucketOk(h, heap, heads[b], chains[b], b);
      BucketFrame(heap, heap2, heads[b], chains[b]);
    }
    forall n | n in heap2 ensures NotDangling(heap2, heap2[n].bucketNext) {
      var b := h.Index(heap[n].key);
      assert BucketOk(h, heap2, heads[b], chains[b], b);
      var i :| 0 <= i < |chains[b]| && chains[b][i] == n;
      assert BucketAt(heap2, chains[b], i);
    }
  }

  lemma {:induction false} EntryOf<K, V>(heap: map<Id, Node<K, V>>, ids: seq<Id>, n: Id)
    requires n in ids && IsLive(heap, n)
    ensures (heap[n].key, heap[n].value) in EntriesOf(heap, ids)
  {
    if ids[|ids| - 1] != n { EntryOf(heap, ids[..|ids| - 1], n); }
  }
}
