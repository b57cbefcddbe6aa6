/** Values in the concurrent map: a node holds what its insert was called with, for ever, and a find reports the value
    of the insert that published the node it found. */
module HashMapValues {
  import opened Common
  import opened HashMapProtocol
  import opened HashMapTheorems
  import opened HashMapLinearization
  import HashMapRefusal

  /** Node `n` has that key and that value. */
  predicate Holds(m: Memory, n: Id, key: int, value: int) {
    n < |m.nodes| && m.nodes[n].key == key && m.nodes[n].value == value
  }

  /** No step of any thread, from now on, changes the key or the value of a node, published or not. */
  lemma EntryNeverChanges(e: Execution, i: nat, j: nat, n: Id)
    requires i <= j < |e.run| && n < |e.run[i].mem.nodes|
    ensures Holds(e.run[j].mem, n, e.run[i].mem.nodes[n].key, e.run[i].mem.nodes[n].value)
  {
    RunGrows(e, i, j);
  }

  // ----- What an insert carries -----

  /** The entry a thread is trying to publish. */
  function Entry(pc: Pc): Option<(int, int)> {
    match pc
    case Start(op) => if op.Insert? then Some((op.key, op.value)) else None
    case Walk(op, _, _) => if op.Insert? then Some((op.key, op.value)) else None
    case LoadHead(k, v, _) => Some((k, v))
    case CasHead(k, v, _, _) => Some((k, v))
    case _ => None
  }

  /** The insert has the entry in hand, and in its node once it has one; at the end it keeps the node, or gives up. */
  predicate Carries(m: Memory, pc: Pc, key: int, value: int) {
    && (Entry(pc).Some? ==> Entry(pc) == Some((key, value)))
    && (Entry(pc).None? && NodeOf(pc).None? ==> pc == Idle(NotInserted))
    && (NodeOf(pc).Some? ==> Holds(m, NodeOf(pc).value, key, value))
  }

  lemma LoadHeadCarries(cfg: Config, m: Memory, pc: Pc, key: int, value: int)
    requires ValidConfig(cfg) && Allocated(cfg, m) && PcAllocated(m, pc) && pc.LoadHead? && Carries(m, pc, key, value)
    ensures Carries(LoadHeadStep(cfg, m, pc).0, LoadHeadStep(cfg, m, pc).1, key, value)
  {
  }

  lemma CasHeadCarries(cfg: Config, m: Memory, pc: Pc, spurious: bool, key: int, value: int)
    requires ValidConfig(cfg) && Allocated(cfg, m) && PcAllocated(m, pc) && pc.CasHead? && Carries(m, pc, key, value)
    ensures Carries(CasHeadStep(cfg, m, pc, spurious).0, CasHeadStep(cfg, m, pc, spurious).1, key, value)
  {
  }

  lemma WalkCarries(cfg: Config, m: Memory, pc: Pc, a: Action, key: int, value: int)
    requires ValidConfig(cfg) && Allocated(cfg, m) && PcAllocated(m, pc) && (pc.Start? || pc.Walk?)
    requires Entry(pc).Some? && Carries(m, pc, key, value)
    ensures Carries(Step(cfg, m, pc, a).0, Step(cfg, m, pc, a).1, key, value)
  {
  }

  lemma LinkingStaysLinking(cfg: Config, m: Memory, pc: Pc, a: Action)
    requires ValidConfig(cfg) && Allocated(cfg, m) && PcAllocated(m, pc) && !pc.Idle?
    requires Entry(pc).None? && NodeOf(pc).Some?
    ensures Entry(Step(cfg, m, pc, a).1).None?
  {
  }

  lemma CarriesOwn(cfg: Config, m: Memory, pc: Pc, a: Action, key: int, value: int)
    requires ValidConfig(cfg) && Allocated(cfg, m) && PcAllocated(m, pc) && !pc.Idle? && Carries(m, pc, key, value)
    requires Grows(m, Step(cfg, m, pc, a).0)
    ensures Carries(Step(cfg, m, pc, a).0, Step(cfg, m, pc, a).1, key, value)
  {
    if pc.LoadHead? {
      LoadHeadCarries(cfg, m, pc, key, value);
    } else if pc.CasHead? {
      CasHeadCarries(cfg, m, pc, a.spurious, key, value);
    } else if Entry(pc).Some? {
      WalkCarries(cfg, m, pc, a, key, value);
    } else {
      LinkingGoesOn(cfg, m, pc, a);
      LinkingStaysLinking(cfg, m, pc, a);
    }
  }

  lemma CarriesOther(m: Memory, m': Memory, pc: Pc, key: int, value: int)
    requires Grows(m, m') && Carries(m, pc, key, value)
    ensures Carries(m', pc, key, value)
  {
  }

  lemma CarriesNext(e: Execution, t: Tid, x: nat, key: int, value: int)
    requires x + 1 < |e.run| && t in e.run[x].threads && !e.run[x].threads[t].Idle?
    requires Carries(e.run[x].mem, e.run[x].threads[t], key, value)
    ensures t in e.run[x + 1].threads && Carries(e.run[x + 1].mem, e.run[x + 1].threads[t], key, value)
  {
    assert StepAt(e, x);
    RunStepGrows(e, x);
    if e.acts[x].tid == t {
      CarriesOwn(e.cfg, e.run[x].mem, e.run[x].threads[t], e.acts[x], key, value);
    } else {
      CarriesOther(e.run[x].mem, e.run[x + 1].mem, e.run[x].threads[t], key, value);
    }
  }

  lemma {:induction false} StillCarries(e: Execution, t: Tid, i: nat, x: nat, key: int, value: int)
    requires Within(e, t, i, x) && Carries(e.run[i].mem, e.run[i].threads[t], key, value)
    ensures Carries(e.run[x].mem, e.run[x].threads[t], key, value)
    decreases x
  {
    if i < x {
      StillCarries(e, t, i, x - 1, key, value);
      CarriesNext(e, t, x - 1, key, value);
    }
  }

  /** Thread `t` was idle, began an insert of that entry by action `i`, and is inside it, or back, in state `k`. */
  predicate InsertCalled(e: Execution, t: Tid, i: nat, k: nat, key: int, value: int) {
    && i < k < |e.run| && t in e.run[i].threads && e.run[i].threads[t].Idle? && Within(e, t, i + 1, k)
    && e.acts[i].tid == t && e.acts[i].op.Insert? && e.acts[i].op.key == key && e.acts[i].op.value == value
  }

  lemma CalledCarries(e: Execution, t: Tid, i: nat, k: nat, key: int, value: int)
    requires InsertCalled(e, t, i, k, key, value)
    ensures Carries(e.run[k].mem, e.run[k].threads[t], key, value)
  {
    assert StepAt(e, i);
    StillCarries(e, t, i + 1, k, key, value);
  }

  /** The node of an insert that reports success holds the key and the value it was called with, whatever the other
      threads do, and keeps them. */
  lemma InsertStoresValue(e: Execution, t: Tid, i: nat, k: nat, j: nat, key: int, value: int, n: Id)
    requires InsertCalled(e, t, i, k, key, value) && e.run[k].threads[t] == Idle(Inserted(n)) && k <= j < |e.run|
    ensures Holds(e.run[j].mem, n, key, value)
  {
    CalledCarries(e, t, i, k, key, value);
    RunGrows(e, k, j);
  }

  // ----- Where a node comes from -----

  /** A busy thread has begun its operation at some time. */
  lemma {:induction false} WasCalled(e: Execution, t: Tid, x: nat) returns (i: nat)
    requires x < |e.run| && t in e.run[x].threads && !e.run[x].threads[t].Idle?
    ensures i < x && t in e.run[i].threads && e.run[i].threads[t].Idle? && e.acts[i].tid == t && Within(e, t, i + 1, x)
    decreases x
  {
    assert x > 0;
    assert StepAt(e, x - 1);
    if e.run[x - 1].threads[t].Idle? { i := x - 1; } else { i := WasCalled(e, t, x - 1); }
  }

  /** What a thread is trying to publish it was trying from the start. */
  lemma {:induction false} TryingBefore(e: Execution, t: Tid, i: nat, x: nat)
    requires Within(e, t, i, x) && InsertKey(e.run[x].threads[t]).Some?
    ensures InsertKey(e.run[i].threads[t]) == InsertKey(e.run[x].threads[t])
    decreases x
  {
    if i < x {
      assert StepAt(e, x - 1);
      if e.acts[x - 1].tid == t {
        OwnedAfter(e.cfg, e.run[x - 1].mem, e.run[x - 1].threads[t], e.acts[x - 1]);
      }
      TryingBefore(e, t, i, x - 1);
    }
  }

  /** Between states `y` and `y + 1` node `n` is published. */
  predicate PublishedAt(e: Execution, y: nat, n: Id) {
    && y + 1 < |e.run| && n < |e.run[y + 1].mem.nodes| && e.run[y + 1].mem.nodes[n].rank > 0
    && (n < |e.run[y].mem.nodes| ==> e.run[y].mem.nodes[n].rank == 0)
  }

  lemma {:induction false} WasPublished(e: Execution, k: nat, n: Id) returns (y: nat)
    requires k < |e.run| && n < |e.run[k].mem.nodes| && e.run[k].mem.nodes[n].rank > 0
    ensures y < k && PublishedAt(e, y, n)
  {
    assert k > 0;
    if n < |e.run[k - 1].mem.nodes| && e.run[k - 1].mem.nodes[n].rank > 0 {
      y := WasPublished(e, k - 1, n);
    } else {
      y := k - 1;
    }
  }

  /** The thread that publishes a node has it in hand. */
  lemma PublisherOwns(e: Execution, y: nat, n: Id)
    requires PublishedAt(e, y, n)
    ensures e.acts[y].tid in e.run[y].threads
    ensures var pc := e.run[y].threads[e.acts[y].tid]; pc.CasHead? && pc.node == n
  {
    assert StepAt(e, y);
    HashMapRefusal.RankedByCas(e.cfg, e.run[y].mem, e.run[y].threads[e.acts[y].tid], e.acts[y], n);
  }

  /** Every published node was published inside an insert called with its key and its value. */
  lemma NodeHasInsert(e: Execution, k: nat, n: Id) returns (t: Tid, i: nat, y: nat)
    requires k < |e.run| && n < |e.run[k].mem.nodes| && e.run[k].mem.nodes[n].rank > 0
    ensures y < k && PublishedAt(e, y, n) && e.acts[y].tid == t
    ensures InsertCalled(e, t, i, y, e.run[k].mem.nodes[n].key, e.run[k].mem.nodes[n].value)
  {
    y := WasPublished(e, k, n);
    t := e.acts[y].tid;
    PublisherOwns(e, y, n);
    i := WasCalled(e, t, y);
    TryingBefore(e, t, i + 1, y);
    assert StepAt(e, i);
    var op := e.acts[i].op;
    assert InsertCalled(e, t, i, y, op.key, op.value);
    CalledCarries(e, t, i, y, op.key, op.value);
    RunGrows(e, y, k);
  }

  /** A find that reports a node reports the value that an insert of the sought key was called with, the one that
      published the node before the find returned; and the node still holds it then. */
  lemma FoundValueWasInserted(e: Execution, u: Tid, key: int, j: nat, k: nat, n: Id)
    returns (t: Tid, i: nat, y: nat, value: int)
    requires Within(e, u, j, k) && e.run[j].threads[u] == Start(Find(key)) && e.run[k].threads[u] == Idle(Found(n))
    ensures y < k && PublishedAt(e, y, n) && e.acts[y].tid == t && InsertCalled(e, t, i, y, key, value)
    ensures Holds(e.run[k].mem, n, key, value)
  {
    StillSeeking(e, u, key, j, k);
    value := e.run[k].mem.nodes[n].value;
    t, i, y := NodeHasInsert(e, k, n);
  }
}
