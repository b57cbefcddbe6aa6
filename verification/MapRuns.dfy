/** Whole runs of the map: sequences of operations, and iteration whose body changes the map. */
module MapRuns {
  import opened Common
  import opened OrderedMap
  import opened SequentialMap

  // ----- Any sequence of operations refines the insertion-ordered map -----

  datatype Op<K, V> = InsertOp(key: K, value: V) | FindOp(key: K) | RemoveOp(key: K) | CollectOp

  datatype Answer<V> = Done(ok: bool) | Got(value: Option<V>) | Silent

  function ApplyOp<K(==), V>(es: seq<(K, V)>, op: Op<K, V>): seq<(K, V)> {
    match op
    case InsertOp(k, v) => Inserted(es, k, v)
    case RemoveOp(k) => Removed(es, k)
    case _ => es
  }

  function AnswerOf<K(==), V>(es: seq<(K, V)>, op: Op<K, V>): Answer<V> {
    match op
    case InsertOp(k, _) => Done(!HasKey(es, k))
    case RemoveOp(k) => Done(HasKey(es, k))
    case FindOp(k) => Got(Lookup(es, k))
    case CollectOp => Silent
  }

  function Apply<K(==), V>(ops: seq<Op<K, V>>): seq<(K, V)> {
    if ops == [] then [] else ApplyOp(Apply(ops[..|ops| - 1]), ops[|ops| - 1])
  }

  function Answers<K(==), V>(ops: seq<Op<K, V>>): (r: seq<Answer<V>>)
    ensures |r| == |ops|
  {
    if ops == [] then [] else Answers(ops[..|ops| - 1]) + [AnswerOf(Apply(ops[..|ops| - 1]), ops[|ops| - 1])]
  }

  method Perform<K(!new, ==), V(!new)>(m: LockFreeOrderedHashMap<K, V>, op: Op<K, V>) returns (a: Answer<V>)
    requires m.Valid()
    modifies m
    ensures m.Valid() && m.Entries() == ApplyOp(old(m.Entries()), op) && a == AnswerOf(old(m.Entries()), op)
  {
    match op {
      case InsertOp(k, v) =>
        var addr := m.NewAddress();
        var ok := m.Insert(k, v, addr);
        a := Done(ok);
      case RemoveOp(k) =>
        var ok, at := m.Remove(k);
        a := Done(ok);
      case FindOp(k) =>
        var v := m.Find(k);
        EntriesDistinct(m.heap, m.allNodes);
        if v.Some? { LookupMember(m.Entries(), k, v.value); }
        a := Got(v);
      case CollectOp =>
        m.CollectGarbage();
        a := Silent;
    }
  }

  /** Every single-threaded run, from a fresh map, with the collector run at any point. */
  method Run<K(!new, ==), V(!new)>(count: nat, hash: K -> nat, ops: seq<Op<K, V>>)
    returns (m: LockFreeOrderedHashMap<K, V>, answers: seq<Answer<V>>)
    ensures m.Valid() && m.Entries() == Apply(ops) && answers == Answers(ops)
  {
    m := new LockFreeOrderedHashMap(count, hash);
    answers := [];
    for i := 0 to |ops|
      invariant fresh(m) && m.Valid() && m.Entries() == Apply(ops[..i]) && answers == Answers(ops[..i])
    {
      assert ops[..i + 1][..i] == ops[..i];
      var a := Perform(m, ops[i]);
      answers := answers + [a];
    }
    assert ops[..|ops|] == ops;
  }

  // ----- Iteration with a body that removes or overwrites the visited entry -----

  /** The entries once all those whose keys are not in `todo` have been through `f`, which drops an
      entry or gives it a value. */
  function Visited<K(==), V>(es: seq<(K, V)>, todo: set<K>, f: (K, V) -> Option<V>): (r: seq<(K, V)>) {
    if es == [] then [] else Visited(es[..|es| - 1], todo, f) + Fate(es[|es| - 1], todo, f)
  }

  function Fate<K(==), V>(e: (K, V), todo: set<K>, f: (K, V) -> Option<V>): (r: seq<(K, V)>)
    ensures |r| <= 1 && (|r| == 1 ==> r[0].0 == e.0)
  {
    if e.0 in todo then [e] else match f(e.0, e.1) { case None => [] case Some(v) => [(e.0, v)] }
  }

  lemma {:induction false} VisitedAll<K, V>(es: seq<(K, V)>, todo: set<K>, f: (K, V) -> Option<V>)
    requires forall i | 0 <= i < |es| :: es[i].0 in todo
    ensures Visited(es, todo, f) == es
  {
    if es != [] { VisitedAll(es[..|es| - 1], todo, f); }
  }

  lemma {:induction false} VisitedKeys<K, V>(es: seq<(K, V)>, todo: set<K>, f: (K, V) -> Option<V>)
    ensures forall x | x in Visited(es, todo, f) :: (x.0 in todo && x in es) || (x.0 !in todo && HasKey(es, x.0))
  {
    if es != [] {
      var front, last := es[..|es| - 1], es[|es| - 1];
      VisitedKeys(front, todo, f);
      forall x | x in Visited(es, todo, f) ensures (x.0 in todo && x in es) || (x.0 !in todo && HasKey(es, x.0)) {
        if x in Visited(front, todo, f) {
          if HasKey(front, x.0) {
            var i :| 0 <= i < |front| && front[i].0 == x.0;
            assert es[i].0 == x.0;
          }
        } else {
          assert es[|es| - 1].0 == x.0;
        }
      }
    }
  }

  lemma {:induction false} VisitedFrame<K, V>(es: seq<(K, V)>, todo: set<K>, f: (K, V) -> Option<V>, k: K)
    requires forall i | 0 <= i < |es| :: es[i].0 != k
    ensures Visited(es, todo - {k}, f) == Visited(es, todo, f)
    ensures forall i | 0 <= i < |Visited(es, todo, f)| :: Visited(es, todo, f)[i].0 != k
  {
    if es != [] { VisitedFrame(es[..|es| - 1], todo, f, k); }
  }

  lemma VisitedStepLast<K, V>(es: seq<(K, V)>, todo: set<K>, f: (K, V) -> Option<V>, k: K, v: V)
    requires DistinctKeys(es) && es != [] && es[|es| - 1] == (k, v) && k in todo
    ensures f(k, v).None? ==> Visited(es, todo - {k}, f) == Removed(Visited(es, todo, f), k)
    ensures f(k, v).Some? ==> Visited(es, todo - {k}, f) == Updated(Visited(es, todo, f), k, f(k, v).value)
  {
    var front := es[..|es| - 1];
    VisitedFrame(front, todo, f, k);
    var vf, vs := Visited(front, todo, f), Visited(es, todo, f);
    RemovedAbsent(vf, k);
    assert f(k, v).Some? ==> Updated(vf, k, f(k, v).value) == vf;
    assert vs == vf + [(k, v)] && vs[..|vs| - 1] == vf;
  }

  /** Visiting one more key drops or overwrites exactly its entry. */
  lemma {:induction false} VisitedStep<K, V>(es: seq<(K, V)>, todo: set<K>, f: (K, V) -> Option<V>, k: K, v: V)
    requires DistinctKeys(es) && (k, v) in es && k in todo
    ensures f(k, v).None? ==> Visited(es, todo - {k}, f) == Removed(Visited(es, todo, f), k)
    ensures f(k, v).Some? ==> Visited(es, todo - {k}, f) == Updated(Visited(es, todo, f), k, f(k, v).value)
  {
    var front, last := es[..|es| - 1], es[|es| - 1];
    if last == (k, v) {
      VisitedStepLast(es, todo, f, k, v);
    } else {
      var i :| 0 <= i < |es| && es[i] == (k, v);
      assert front[i] == (k, v) && es[i].0 != last.0;
      VisitedStep(front, todo, f, k, v);
      assert Fate(last, todo - {k}, f) == Fate(last, todo, f);
      OtherKey(Visited(front, todo, f), Fate(last, todo, f), k);
      if f(k, v).Some? { OtherKeyUpdated(Visited(front, todo, f), Fate(last, todo, f), k, f(k, v).value); }
    }
  }

  /** Removing or overwriting a key leaves a last entry with another key alone. */
  lemma OtherKey<K, V>(es: seq<(K, V)>, tail: seq<(K, V)>, k: K)
    requires |tail| <= 1 && (|tail| == 1 ==> tail[0].0 != k)
    ensures Removed(es + tail, k) == Removed(es, k) + tail
  {
    if tail == [] {
      assert es + tail == es;
    } else {
      var all := es + tail;
      assert all[..|es|] == es && all[|es|] == tail[0] && [tail[0]] == tail;
    }
  }

  lemma OtherKeyUpdated<K, V>(es: seq<(K, V)>, tail: seq<(K, V)>, k: K, v: V)
    requires |tail| <= 1 && (|tail| == 1 ==> tail[0].0 != k)
    ensures Updated(es + tail, k, v) == Updated(es, k, v) + tail
  {
  }

  /** `todo` holds exactly the keys of the nodes still to be visited. */
  ghost predicate Todo<K, V>(heap: map<Id, Node<K, V>>, ids: seq<Id>, todo: set<K>) {
    && Distinct(ids) && (forall n | n in ids :: IsLive(heap, n) && heap[n].key in todo)
    && forall k | k in todo :: exists n :: n in ids && n in heap && heap[n].key == k
  }

  lemma TodoStart<K(!new), V(!new)>(m: LockFreeOrderedHashMap<K, V>, todo: set<K>)
    requires m.Valid() && todo == set x | x in m.Entries() :: x.0
    ensures Todo(m.heap, Flatten(m.chains, 0), todo)
  {
    var ids := Flatten(m.chains, 0);
    FlattenLive(m.hashing, m.heap, m.buckets, m.chains, 0);
    forall n | n in ids ensures m.heap[n].key in todo { EntryOf(m.heap, m.allNodes, n); }
    forall k | k in todo ensures exists n :: n in ids && n in m.heap && m.heap[n].key == k {
      var x :| x in m.Entries() && x.0 == k;
      var i :| 0 <= i < |m.Entries()| && m.Entries()[i] == x;
      EntriesHaveKey(m.heap, m.allNodes, k);
    }
  }

  lemma RemainingLive<K(!new), V(!new)>(m: LockFreeOrderedHashMap<K, V>, it: Iterator, k: nat)
    requires m.Valid() && m.At(it, k) && m.OnLive(it, k)
    ensures forall n | n in m.Remaining(it, k) :: IsLive(m.heap, n)
  {
    if it.currentNode.Some? {
      var b := it.bucketIndex;
      FlattenLive(m.hashing, m.heap, m.buckets, m.chains, b + 1);
      assert BucketOk(m.hashing, m.heap, m.buckets[b], m.chains[b], b);
    }
  }

  /** Moving on from the first node takes its key off the list. */
  lemma TodoStep<K, V>(heap: map<Id, Node<K, V>>, heap': map<Id, Node<K, V>>, ids: seq<Id>, todo: set<K>,
                       allNodes: seq<Id>)
    requires Todo(heap, ids, todo) && ids != [] && ids[0] in heap && heap'.Keys == heap.Keys
    requires UniqueKeys(heap, allNodes) && forall n | n in heap :: n in allNodes
    requires forall n | n in heap :: heap'[n].key == heap[n].key
    requires forall n | n in ids[1..] :: IsLive(heap', n)
    ensures Todo(heap', ids[1..], todo - {heap[ids[0]].key})
  {
    var k0 := heap[ids[0]].key;
    forall n | n in ids[1..] ensures heap'[n].key in todo - {k0} {
      assert n in ids && ids[0] in ids && n != ids[0];
    }
    forall k | k in todo - {k0} ensures exists n :: n in ids[1..] && n in heap' && heap'[n].key == k {
      var n :| n in ids && n in heap && heap[n].key == k;
      assert n in ids[1..];
    }
  }

  /** The body of the loop: drop the visited entry or give it a value. */
  method VisitOne<K(!new, ==), V(!new)>(m: LockFreeOrderedHashMap<K, V>, it: Iterator, ghost k: nat, fate: Option<V>)
    returns (ghost k': nat)
    requires m.Valid() && m.At(it, k) && m.OnLive(it, k) && it.currentNode.Some?
    modifies m
    ensures m.Valid() && m.At(it, k') && m.Remaining(it, k') == old(m.Remaining(it, k))
    ensures m.heap.Keys == old(m.heap.Keys) && forall n | n in m.heap :: m.heap[n].key == old(m.heap)[n].key
    ensures var key := old(m.heap[it.currentNode.value].key);
            m.Entries()
              == if fate.None? then Removed(old(m.Entries()), key)
                 else Updated(old(m.Entries()), key, fate.value)
  {
    match fate {
      case None => k' := m.RemoveVisited(it, k);
      case Some(v) => m.SetVisited(it, k, v); k' := k;
    }
  }

  /** The loop over `es` has put everything but `todo` through `f` and stands at `it`. */
  ghost predicate Looping<K(!new), V(!new)>(m: LockFreeOrderedHashMap<K, V>, it: Iterator, k: nat, es: seq<(K, V)>,
                                            todo: set<K>, f: (K, V) -> Option<V>)
    reads m
  {
    && m.Valid() && m.At(it, k) && m.OnLive(it, k) && DistinctKeys(es)
    && m.Entries() == Visited(es, todo, f) && Todo(m.heap, m.Remaining(it, k), todo)
    && (it == m.End() <==> todo == {}) && (it == m.End() <==> it.currentNode.None?)
  }

  /** The end iterator is reached exactly when nothing is left to visit. */
  lemma AtEnd<K(!new), V(!new)>(m: LockFreeOrderedHashMap<K, V>, it: Iterator, k: nat, todo: set<K>)
    requires m.Valid() && m.At(it, k) && Todo(m.heap, m.Remaining(it, k), todo)
    ensures it == m.End() <==> todo == {}
    ensures it == m.End() <==> it.currentNode.None?
  {
    if it.currentNode.Some? { assert m.Remaining(it, k)[0] == it.currentNode.value; }
  }

  method Start<K(!new, ==), V(!new)>(m: LockFreeOrderedHashMap<K, V>, ghost f: (K, V) -> Option<V>)
    returns (it: Iterator, ghost k: nat, ghost todo: set<K>)
    requires m.Valid()
    ensures todo == (set x | x in m.Entries() :: x.0) && Looping(m, it, k, m.Entries(), todo, f)
  {
    EntriesDistinct(m.heap, m.allNodes);
    todo := set x | x in m.Entries() :: x.0;
    VisitedAll(m.Entries(), todo, f);
    TodoStart(m, todo);
    it, k := m.Begin();
    AtEnd(m, it, k, todo);
  }

  /** One iteration: deal with the visited entry, then move on. */
  method Visit<K(!new, ==), V(!new)>(m: LockFreeOrderedHashMap<K, V>, it: Iterator, ghost k: nat,
                                     f: (K, V) -> Option<V>, ghost es: seq<(K, V)>, ghost todo: set<K>)
    returns (it': Iterator, ghost k': nat, ghost todo': set<K>)
    requires Looping(m, it, k, es, todo, f) && it.currentNode.Some?
    modifies m
    ensures var n := old(m.heap[it.currentNode.value]);
            n.key in todo && todo' == todo - {n.key} && (n.key, n.value) in es
    ensures Looping(m, it', k', es, todo', f)
  {
    var n := m.heap[it.currentNode.value];
    ghost var ids := m.Remaining(it, k);
    assert ids[0] == it.currentNode.value && ids[0] in ids;
    CurrentEntry(m, it, k, es, todo, f);
    VisitedStep(es, todo, f, n.key, n.value);
    k' := VisitOne(m, it, k, f(n.key, n.value));
    it', k' := MoveOn(m, it, k', old(m.heap), old(m.allNodes), todo);
    todo' := todo - {n.key};
  }

  method MoveOn<K(!new, ==), V(!new)>(m: LockFreeOrderedHashMap<K, V>, it: Iterator, ghost k: nat,
                                      ghost heap: map<Id, Node<K, V>>, ghost nodes: seq<Id>, ghost todo: set<K>)
    returns (it': Iterator, ghost k': nat)
    requires m.Valid() && m.At(it, k) && it.currentNode.Some? && it.currentNode.value in heap
    requires m.heap.Keys == heap.Keys && forall n | n in heap :: m.heap[n].key == heap[n].key
    requires Todo(heap, m.Remaining(it, k), todo) && UniqueKeys(heap, nodes) && forall n | n in heap :: n in nodes
    ensures m.At(it', k') && m.OnLive(it', k')
    ensures Todo(m.heap, m.Remaining(it', k'), todo - {heap[it.currentNode.value].key})
    ensures it' == m.End() <==> todo - {heap[it.currentNode.value].key} == {}
    ensures it' == m.End() <==> it'.currentNode.None?
  {
    ghost var ids := m.Remaining(it, k);
    assert ids[0] == it.currentNode.value;
    it', k' := m.Advance(it, k);
    RemainingLive(m, it', k');
    TodoStep(heap, m.heap, ids, todo, nodes);
    AtEnd(m, it', k', todo - {heap[it.currentNode.value].key});
  }

  /** A loop over the map whose body may remove or overwrite the entry it stands on: every live entry
      is visited exactly once, with the value it had, and the loop then stands at the end. */
  method ForEach<K(!new, ==), V(!new)>(m: LockFreeOrderedHashMap<K, V>, f: (K, V) -> Option<V>)
    returns (visited: seq<(K, V)>)
    requires m.Valid()
    modifies m
    ensures m.Valid() && m.Entries() == Visited(old(m.Entries()), {}, f)
    ensures DistinctKeys(visited) && forall x :: x in visited <==> x in old(m.Entries())
  {
    ghost var es := m.Entries();
    visited := [];
    var it, k, todo := Start(m, f);
    while it != m.End()
      invariant Looping(m, it, k, es, todo, f)
      invariant SeenAllBut(es, visited, todo)
      decreases todo
    {
      var n := m.heap[it.currentNode.value];
      ghost var before := todo;
      it, k, todo := Visit(m, it, k, f, es, todo);
      SeenOneMore(es, visited, before, n.key, n.value);
      visited := visited + [(n.key, n.value)];
    }
  }

  /** The entry under the iterator has not been touched by the loop. */
  lemma CurrentEntry<K(!new), V(!new)>(m: LockFreeOrderedHashMap<K, V>, it: Iterator, k: nat, es: seq<(K, V)>,
                                       todo: set<K>, f: (K, V) -> Option<V>)
    requires m.Valid() && m.At(it, k) && m.OnLive(it, k) && it.currentNode.Some?
    requires m.Entries() == Visited(es, todo, f) && m.heap[it.currentNode.value].key in todo
    ensures var n := m.heap[it.currentNode.value]; (n.key, n.value) in es
  {
    EntryOf(m.heap, m.allNodes, it.currentNode.value);
    VisitedKeys(es, todo, f);
  }

  /** Exactly the entries of `es` whose keys are not in `todo`, each once. */
  ghost predicate SeenAllBut<K(!new), V(!new)>(es: seq<(K, V)>, visited: seq<(K, V)>, todo: set<K>) {
    DistinctKeys(visited) && forall x :: x in visited <==> x in es && x.0 !in todo
  }

  lemma SeenOneMore<K(!new), V(!new)>(es: seq<(K, V)>, visited: seq<(K, V)>, todo: set<K>, k: K, v: V)
    requires DistinctKeys(es) && SeenAllBut(es, visited, todo) && (k, v) in es && k in todo
    ensures SeenAllBut(es, visited + [(k, v)], todo - {k})
  {
    forall i | 0 <= i < |visited| ensures visited[i].0 != k { assert visited[i] in visited; }
    forall x | x in es && x.0 == k ensures x == (k, v) { }
  }
}
