/** What a single-threaded run of the map leaves in it, said by what happened in the run: for every key the value of the
    insert that counts, and the entries in the order of those inserts. */
module MapLaws {
  import opened Common
  import opened OrderedMap
  import opened MapRuns

  /** The operation whose insert of `k` counts: the first since `k` was last removed. */
  function Origin<K(==), V>(ops: seq<Op<K, V>>, k: K): (r: Option<nat>)
    ensures r.Some? ==> r.value < |ops| && ops[r.value].InsertOp? && ops[r.value].key == k
  {
    if ops == [] then None
    else
      var op, before := ops[|ops| - 1], Origin(ops[..|ops| - 1], k);
      if op.RemoveOp? && op.key == k then None
      else if op.InsertOp? && op.key == k && before.None? then Some(|ops| - 1)
      else before
  }

  lemma {:induction false} RemovedAre<K(!new), V(!new)>(es: seq<(K, V)>, k: K)
    ensures forall e :: e in Removed(es, k) <==> e in es && e.0 != k
  {
    if es != [] { RemovedAre(es[..|es| - 1], k); }
  }

  predicate Before<K(==), V>(ops: seq<Op<K, V>>, x: (K, V), y: (K, V)) {
    Origin(ops, x.0).Some? && Origin(ops, y.0).Some? && Origin(ops, x.0).value < Origin(ops, y.0).value
  }

  /** The entries stand in the order of the operations they come from. */
  predicate Sorted<K(==), V>(ops: seq<Op<K, V>>, es: seq<(K, V)>) {
    forall i, j | 0 <= i < j < |es| :: Before(ops, es[i], es[j])
  }

  /** Removing keeps the order. */
  lemma {:induction false} RemovedSorted<K(!new), V(!new)>(ops: seq<Op<K, V>>, es: seq<(K, V)>, k: K)
    requires Sorted(ops, es)
    ensures Sorted(ops, Removed(es, k))
  {
    if es != [] {
      var front := es[..|es| - 1];
      assert Sorted(ops, front) by { assert forall i | 0 <= i < |front| :: front[i] == es[i]; }
      RemovedSorted(ops, front, k);
      RemovedAre(front, k);
      var r := Removed(front, k);
      forall i | 0 <= i < |r| ensures Before(ops, r[i], es[|es| - 1]) {
        assert r[i] in r && r[i] in front;
        var j :| 0 <= j < |front| && front[j] == r[i];
        assert Before(ops, es[j], es[|es| - 1]);
      }
    }
  }

  ghost predicate Leaves<K(!new), V(!new)>(ops: seq<Op<K, V>>, es: seq<(K, V)>) {
    forall k, v :: (k, v) in es <==> Origin(ops, k).Some? && ops[Origin(ops, k).value].value == v
  }

  lemma KeyIffOrigin<K(!new), V(!new)>(ops: seq<Op<K, V>>, es: seq<(K, V)>, k: K)
    requires Leaves(ops, es)
    ensures HasKey(es, k) <==> Origin(ops, k).Some?
  {
    if i :| 0 <= i < |es| && es[i].0 == k { assert (k, es[i].1) in es; }
    if Origin(ops, k).Some? {
      var e := (k, ops[Origin(ops, k).value].value);
      var i :| 0 <= i < |es| && es[i] == e;
    }
  }

  /** An operation changes the origin of no key but its own. */
  lemma OriginStep<K, V>(ops: seq<Op<K, V>>, k: K)
    requires ops != []
    ensures var op, front := ops[|ops| - 1], ops[..|ops| - 1];
            Origin(ops, k) == if op.RemoveOp? && op.key == k then None
                              else if op.InsertOp? && op.key == k && Origin(front, k).None? then Some(|ops| - 1)
                              else Origin(front, k)
    ensures Origin(ops[..|ops| - 1], k).Some? ==>
              ops[Origin(ops[..|ops| - 1], k).value] == ops[..|ops| - 1][Origin(ops[..|ops| - 1], k).value]
  {
  }

  lemma OneMore<K(!new), V(!new)>(ops: seq<Op<K, V>>, es: seq<(K, V)>)
    requires ops != [] && Leaves(ops[..|ops| - 1], es)
    ensures Leaves(ops, ApplyOp(es, ops[|ops| - 1]))
  {
    var front, op, es' := ops[..|ops| - 1], ops[|ops| - 1], ApplyOp(es, ops[|ops| - 1]);
    if op.RemoveOp? { RemovedAre(es, op.key); }
    if op.InsertOp? { KeyIffOrigin(front, es, op.key); }
    forall k, v ensures (k, v) in es' <==> Origin(ops, k).Some? && ops[Origin(ops, k).value].value == v {
      OriginStep(ops, k);
      assert (k, v) in es <==> Origin(front, k).Some? && front[Origin(front, k).value].value == v;
    }
  }

  lemma BeforeStill<K, V>(ops: seq<Op<K, V>>, x: (K, V), y: (K, V))
    requires ops != [] && Before(ops[..|ops| - 1], x, y)
    requires ops[|ops| - 1].RemoveOp? ==> ops[|ops| - 1].key != x.0 && ops[|ops| - 1].key != y.0
    ensures Before(ops, x, y)
  {
    OriginStep(ops, x.0);
    OriginStep(ops, y.0);
  }

  lemma OneMoreSorted<K(!new), V(!new)>(ops: seq<Op<K, V>>, es: seq<(K, V)>)
    requires ops != [] && Leaves(ops[..|ops| - 1], es) && Sorted(ops[..|ops| - 1], es)
    ensures Sorted(ops, ApplyOp(es, ops[|ops| - 1]))
  {
    var front, op, es' := ops[..|ops| - 1], ops[|ops| - 1], ApplyOp(es, ops[|ops| - 1]);
    if op.RemoveOp? {
      RemovedAre(es, op.key);
      RemovedSorted(front, es, op.key);
    }
    if op.InsertOp? { KeyIffOrigin(front, es, op.key); }
    forall i, j | 0 <= i < j < |es'| ensures Before(ops, es'[i], es'[j]) {
      assert es'[i] in es' && es'[j] in es';
      if op.InsertOp? && j == |es| {
        assert es'[i] in es && (es'[i].0, es'[i].1) == es'[i];
        OriginStep(ops, es'[i].0);
        OriginStep(ops, op.key);
      } else {
        assert Before(front, es'[i], es'[j]);
        BeforeStill(ops, es'[i], es'[j]);
      }
    }
  }

  /** After every run the map has exactly the keys with an origin, each with the value inserted there, in the order of
      their origins. */
  lemma {:induction false} RunLeaves<K(!new), V(!new)>(ops: seq<Op<K, V>>)
    ensures Leaves(ops, Apply(ops)) && Sorted(ops, Apply(ops))
  {
    if ops != [] {
      RunLeaves(ops[..|ops| - 1]);
      OneMore(ops, Apply(ops[..|ops| - 1]));
      OneMoreSorted(ops, Apply(ops[..|ops| - 1]));
    }
  }

  lemma {:induction false} AnswerAt<K, V>(ops: seq<Op<K, V>>, i: nat)
    requires i < |ops|
    ensures Answers(ops)[i] == AnswerOf(Apply(ops[..i]), ops[i])
  {
    if i < |ops| - 1 {
      AnswerAt(ops[..|ops| - 1], i);
      assert ops[..|ops| - 1][..i] == ops[..i];
    }
  }

  /** Every operation answers by the origin of its key: an insert succeeds if there is none, a remove if there is one,
      a find reports the value inserted there. */
  lemma AnswersFollow<K(!new), V(!new)>(ops: seq<Op<K, V>>, i: nat)
    requires i < |ops| && !ops[i].CollectOp?
    ensures var o := Origin(ops[..i], ops[i].key);
            Answers(ops)[i] == match ops[i]
                               case InsertOp(_, _) => Done(o.None?)
                               case RemoveOp(_) => Done(o.Some?)
                               case FindOp(_) => Got(if o.None? then None else Some(ops[o.value].value))
  {
    var before, k := ops[..i], ops[i].key;
    AnswerAt(ops, i);
    RunLeaves(before);
    KeyIffOrigin(before, Apply(before), k);
    if Lookup(Apply(before), k).Some? { assert (k, Lookup(Apply(before), k).value) in Apply(before); }
  }
}
