/**
 * The lock-free ordered hash map of znet/fancy_queue.h run by a single thread, with its
 * collector and its bucket iterator.
 *
 * Nodes live in `heap`, keyed by address; `delete` removes an address, so a link to freed
 * memory is a link to an address outside `heap`.
 */
module OrderedMap {
  import opened Common

  type Id = nat

  datatype Node<K, V> = Node(key: K, value: V, bucketNext: Option<Id>, orderNext: Option<Id>, deleted: bool)

  datatype Ptr = Head(bucket: nat) | Next(node: Id)

  datatype Iterator = Iterator(bucketIndex: nat, currentNode: Option<Id>)

  // ----- Chains as sequences of addresses -----

  function Get(ids: seq<Id>, i: nat): Option<Id> { if i < |ids| then Some(ids[i]) else None }

  predicate OrderAt<K, V>(heap: map<Id, Node<K, V>>, ids: seq<Id>, i: nat)
    requires i < |ids|
  {
    ids[i] in heap && heap[ids[i]].orderNext == Get(ids, i + 1)
  }

  predicate BucketAt<K, V>(heap: map<Id, Node<K, V>>, ids: seq<Id>, i: nat)
    requires i < |ids|
  {
    ids[i] in heap && heap[ids[i]].bucketNext == Get(ids, i + 1)
  }

  /** Following orderNext from `head` visits exactly `ids`. */
  predicate OrderChain<K, V>(heap: map<Id, Node<K, V>>, head: Option<Id>, ids: seq<Id>) {
    head == Get(ids, 0) && Distinct(ids) && forall i | 0 <= i < |ids| :: OrderAt(heap, ids, i)
  }

  /** Following bucketNext from `head` visits exactly `ids`. */
  predicate BucketChain<K, V>(heap: map<Id, Node<K, V>>, head: Option<Id>, ids: seq<Id>) {
    head == Get(ids, 0) && Distinct(ids) && forall i | 0 <= i < |ids| :: BucketAt(heap, ids, i)
  }

  function Without<T>(s: seq<T>, i: nat): seq<T>
    requires i < |s|
  {
    s[..i] + s[i + 1..]
  }

  predicate IsLive<K, V>(heap: map<Id, Node<K, V>>, n: Id) { n in heap && !heap[n].deleted }

  /** The live nodes among `ids`, in order. */
  function Live<K, V>(heap: map<Id, Node<K, V>>, ids: seq<Id>): (r: seq<Id>) {
    if ids == [] then []
    else Live(heap, ids[..|ids| - 1]) + if IsLive(heap, ids[|ids| - 1]) then [ids[|ids| - 1]] else []
  }

  /** The abstract value of live nodes: their entries, in order. */
  function EntriesOf<K, V>(heap: map<Id, Node<K, V>>, ids: seq<Id>): (r: seq<(K, V)>) {
    if ids == [] then []
    else EntriesOf(heap, ids[..|ids| - 1]) +
         var n := ids[|ids| - 1]; if IsLive(heap, n) then [(heap[n].key, heap[n].value)] else []
  }

  // ----- The abstract insertion-ordered map -----

  predicate HasKey<K(==), V>(es: seq<(K, V)>, k: K) { exists i :: 0 <= i < |es| && es[i].0 == k }

  predicate DistinctKeys<K(==), V>(es: seq<(K, V)>) {
    forall i, j | 0 <= i < j < |es| :: es[i].0 != es[j].0
  }

  function Inserted<K(==), V>(es: seq<(K, V)>, k: K, v: V): seq<(K, V)> {
    if HasKey(es, k) then es else es + [(k, v)]
  }

  function Removed<K(==), V>(es: seq<(K, V)>, k: K): (r: seq<(K, V)>) {
    if es == [] then []
    else Removed(es[..|es| - 1], k) + if es[|es| - 1].0 == k then [] else [es[|es| - 1]]
  }

  function Updated<K(==), V>(es: seq<(K, V)>, k: K, v: V): (r: seq<(K, V)>) {
    seq(|es|, i requires 0 <= i < |es| => if es[i].0 == k then (k, v) else es[i])
  }

  function Lookup<K(==), V>(es: seq<(K, V)>, k: K): (r: Option<V>)
    ensures r.Some? <==> HasKey(es, k)
    ensures r.Some? ==> (k, r.value) in es
  {
    if es == [] then None
    else
      LastKey(es, k);
      if es[|es| - 1].0 == k then Some(es[|es| - 1].1) else Lookup(es[..|es| - 1], k)
  }

  lemma LastKey<K, V>(es: seq<(K, V)>, k: K)
    requires es != []
    ensures HasKey(es, k) <==> es[|es| - 1].0 == k || HasKey(es[..|es| - 1], k)
  {
    var front := es[..|es| - 1];
    if i :| 0 <= i < |es| && es[i].0 == k { assert i < |front| ==> front[i].0 == k; }
    if i :| 0 <= i < |front| && front[i].0 == k { assert es[i].0 == k; }
  }

  lemma {:induction false} LookupMember<K, V>(es: seq<(K, V)>, k: K, v: V)
    requires DistinctKeys(es) && (k, v) in es
    ensures Lookup(es, k) == Some(v)
  {
    if es[|es| - 1].0 != k {
      LookupMember(es[..|es| - 1], k, v);
    } else {
      var i :| 0 <= i < |es| && es[i] == (k, v);
      assert i == |es| - 1;
    }
  }

  lemma {:induction false} RemovedAbsent<K, V>(es: seq<(K, V)>, k: K)
    requires !HasKey(es, k)
    ensures Removed(es, k) == es
  {
    if es != [] {
      LastKey(es, k);
      RemovedAbsent(es[..|es| - 1], k);
    }
  }

  // ----- Facts about live nodes -----

  lemma {:induction false} LiveMembers<K, V>(heap: map<Id, Node<K, V>>, ids: seq<Id>)
    ensures forall n :: n in Live(heap, ids) <==> n in ids && IsLive(heap, n)
  {
    if ids != [] { LiveMembers(heap, ids[..|ids| - 1]); }
  }

  /** Links, and nodes outside `ids`, do not matter to the abstract value. */
  lemma {:induction false} EntriesFrame<K, V>(heap: map<Id, Node<K, V>>, heap': map<Id, Node<K, V>>, ids: seq<Id>)
    requires forall n | n in ids :: n in heap && n in heap' && heap'[n].deleted == heap[n].deleted
               && heap'[n].key == heap[n].key && heap'[n].value == heap[n].value
    ensures EntriesOf(heap', ids) == EntriesOf(heap, ids)
    ensures Live(heap', ids) == Live(heap, ids)
  {
    if ids != [] { EntriesFrame(heap, heap', ids[..|ids| - 1]); }
  }

  /** Dropping deleted nodes from the list keeps the abstract value. */
  lemma {:induction false} LiveEntries<K, V>(heap: map<Id, Node<K, V>>, ids: seq<Id>)
    ensures EntriesOf(heap, Live(heap, ids)) == EntriesOf(heap, ids)
  {
    if ids != [] {
      var front, last := ids[..|ids| - 1], ids[|ids| - 1];
      LiveEntries(heap, front);
      var l := Live(heap, ids);
      if IsLive(heap, last) {
        assert l[..|l| - 1] == Live(heap, front) && l[|l| - 1] == last;
      } else {
        assert l == Live(heap, front);
      }
    }
  }

  lemma {:induction false} EntriesHaveKey<K, V>(heap: map<Id, Node<K, V>>, ids: seq<Id>, k: K)
    ensures HasKey(EntriesOf(heap, ids), k) <==> exists n :: n in ids && IsLive(heap, n) && heap[n].key == k
  {
    if ids != [] {
      var front, last := ids[..|ids| - 1], ids[|ids| - 1];
      EntriesHaveKey(heap, front, k);
      var fs, es := EntriesOf(heap, front), EntriesOf(heap, ids);
      if HasKey(es, k) {
        var i :| 0 <= i < |es| && es[i].0 == k;
        if i < |fs| {
          assert fs[i].0 == k;
          var n :| n in front && IsLive(heap, n) && heap[n].key == k;
          assert n in ids;
        } else {
          assert last in ids;
        }
      }
      if n :| n in ids && IsLive(heap, n) && heap[n].key == k {
        if n in front {
          var i :| 0 <= i < |fs| && fs[i].0 == k;
          assert es[i].0 == k;
        } else {
          assert n == last;
          assert es[|es| - 1].0 == k;
        }
      }
    }
  }

  predicate UniqueKeys<K(==), V>(heap: map<Id, Node<K, V>>, ids: seq<Id>) {
    forall x, y | x in ids && y in ids && x != y && IsLive(heap, x) && IsLive(heap, y) :: heap[x].key != heap[y].key
  }

  /** No live node of `ids` other than `n` holds the key of `n`. */
  predicate SoleHolder<K(==), V>(heap: map<Id, Node<K, V>>, ids: seq<Id>, n: Id)
    requires n in heap
  {
    forall x | x in ids && x != n && IsLive(heap, x) :: heap[x].key != heap[n].key
  }

  /** Marking the holder of a key deleted removes that key's entry. */
  lemma {:induction false} EntriesMark<K, V>(heap: map<Id, Node<K, V>>, ids: seq<Id>, n: Id)
    requires n in heap && !heap[n].deleted && SoleHolder(heap, ids, n)
    ensures EntriesOf(heap[n := heap[n].(deleted := true)], ids) == Removed(EntriesOf(heap, ids), heap[n].key)
  {
    if ids != [] {
      var front, last := ids[..|ids| - 1], ids[|ids| - 1];
      EntriesMark(heap, front, n);
      var es := EntriesOf(heap, ids);
      if IsLive(heap, last) {
        assert es[..|es| - 1] == EntriesOf(heap, front);
        assert last in ids;
      } else {
        assert es == EntriesOf(heap, front);
      }
    }
  }

  /** Overwriting the value of the holder of a key updates that key's entry in place. */
  lemma {:induction false} EntriesSet<K, V>(heap: map<Id, Node<K, V>>, ids: seq<Id>, n: Id, v: V)
    requires n in heap && !heap[n].deleted && SoleHolder(heap, ids, n)
    ensures EntriesOf(heap[n := heap[n].(value := v)], ids) == Updated(EntriesOf(heap, ids), heap[n].key, v)
  {
    if ids != [] {
      assert ids[|ids| - 1] in ids;
      EntriesSet(heap, ids[..|ids| - 1], n, v);
    }
  }

  lemma {:induction false} EntriesDistinct<K, V>(heap: map<Id, Node<K, V>>, ids: seq<Id>)
    requires UniqueKeys(heap, ids) && Distinct(ids)
    ensures DistinctKeys(EntriesOf(heap, ids))
  {
    if ids != [] {
      var front, last := ids[..|ids| - 1], ids[|ids| - 1];
      EntriesDistinct(heap, front);
      var fs := EntriesOf(heap, front);
      if IsLive(heap, last) {
        EntriesHaveKey(heap, front, heap[last].key);
        assert forall n | n in front && IsLive(heap, n) :: n in ids && n != last && heap[n].key != heap[last].key;
      }
    }
  }
}
