/** What holds in every reachable state, and over every run, of the concurrent map. */
module HashMapTheorems {
  import opened Common
  import opened HashMapProtocol
  import opened HashMapInvariants
  import opened HashMapSteps

  /** No two threads own the same node or insert the same key. */
  predicate Exclusive(sys: System) {
    forall t, u | t in sys.threads && u in sys.threads && t != u ::
      && (Owned(sys.threads[t]).Some? ==> Owned(sys.threads[t]) != Owned(sys.threads[u]))
      && (InsertKey(sys.threads[t]).Some? ==> InsertKey(sys.threads[t]) != InsertKey(sys.threads[u]))
  }

  predicate Inv(cfg: Config, sys: System) {
    && BucketInv(cfg, sys.mem) && OrderInv(sys.mem) && Exclusive(sys)
    && forall t | t in sys.threads :: PreBucket(cfg, sys.mem, sys.threads[t]) && PreOrder(sys.mem, sys.threads[t])
  }

  lemma InitialInv(cfg: Config, sys: System)
    requires Initial(cfg, sys)
    ensures Inv(cfg, sys)
  {
  }

  /** What the others know survives the step. */
  lemma OthersKeep(cfg: Config, sys: System, a: Action, t: Tid)
    requires Inv(cfg, sys) && MayMove(sys, a) && t in sys.threads && t != a.tid
    ensures var sys' := SystemStep(cfg, sys, a);
            && Rely(sys.mem, sys'.mem, Owned(sys.threads[t]), InsertKey(sys.threads[t]))
            && PreBucket(cfg, sys'.mem, sys.threads[t]) && PreOrder(sys'.mem, sys.threads[t])
  {
    var pc, other := sys.threads[a.tid], sys.threads[t];
    StepBucket(cfg, sys.mem, pc, a);
    StepOrder(cfg, sys.mem, pc, a);
    Guarantee(cfg, sys.mem, pc, a, Owned(other), InsertKey(other));
    Stable(cfg, sys.mem, Step(cfg, sys.mem, pc, a).0, other);
  }

  /** A thread's next node is the one it had, none, or one just allocated. */
  lemma OwnedAfter(cfg: Config, m: Memory, pc: Pc, a: Action)
    requires ValidConfig(cfg) && Allocated(cfg, m) && PcAllocated(m, pc)
    ensures var own := Owned(Step(cfg, m, pc, a).1); own == Owned(pc) || own == None || own == Some(|m.nodes|)
    ensures var key := InsertKey(Step(cfg, m, pc, a).1);
            key == InsertKey(pc) || key == None || (pc.Idle? && a.op.Insert? && key == Some(a.op.key))
  {
  }

  lemma StepExclusive(cfg: Config, sys: System, a: Action)
    requires SystemAllocated(cfg, sys) && MayMove(sys, a) && Exclusive(sys)
    ensures Exclusive(SystemStep(cfg, sys, a))
  {
    OwnedAfter(cfg, sys.mem, sys.threads[a.tid], a);
    forall t | t in sys.threads ensures Owned(sys.threads[t]) != Some(|sys.mem.nodes|) {
      assert PcAllocated(sys.mem, sys.threads[t]);
    }
  }

  lemma StepInv(cfg: Config, sys: System, a: Action)
    requires Inv(cfg, sys) && MayMove(sys, a)
    ensures Inv(cfg, SystemStep(cfg, sys, a))
  {
    var sys' := SystemStep(cfg, sys, a);
    StepBucket(cfg, sys.mem, sys.threads[a.tid], a);
    StepOrder(cfg, sys.mem, sys.threads[a.tid], a);
    StepExclusive(cfg, sys, a);
    forall t | t in sys'.threads
      ensures PreBucket(cfg, sys'.mem, sys'.threads[t]) && PreOrder(sys'.mem, sys'.threads[t])
    {
      if t != a.tid { OthersKeep(cfg, sys, a, t); }
    }
  }

  /** The invariant holds in every state of every run. */
  lemma {:induction false} RunInv(e: Execution, i: nat)
    requires i < |e.run|
    ensures Inv(e.cfg, e.run[i])
  {
    if i == 0 {
      InitialInv(e.cfg, e.run[0]);
    } else {
      RunInv(e, i - 1);
      assert StepAt(e, i - 1);
      StepInv(e.cfg, e.run[i - 1], e.acts[i - 1]);
    }
  }

  /** Any permitted action extends the run: no reachable thread holds a dangling pointer. */
  lemma RunExtends(e: Execution, a: Action)
    requires MayMove(e.run[|e.run| - 1], a)
    ensures SystemAllocated(e.cfg, e.run[|e.run| - 1])
    ensures IsRun(Trace(e.cfg, e.run + [SystemStep(e.cfg, e.run[|e.run| - 1], a)], e.acts + [a]))
  {
    RunInv(e, |e.run| - 1);
    var e' := Trace(e.cfg, e.run + [SystemStep(e.cfg, e.run[|e.run| - 1], a)], e.acts + [a]);
    forall i | 0 <= i < |e'.acts| ensures StepAt(e', i) {
      if i < |e.acts| { assert StepAt(e, i); }
    }
  }

  // ----- Memory only grows -----

  /** Keys and values are fixed, marks and history positions are permanent. */
  predicate Grows(m: Memory, m': Memory) {
    && |m.nodes| <= |m'.nodes|
    && m.linked <= m'.linked
    && forall n | 0 <= n < |m.nodes| ::
         && m'.nodes[n].key == m.nodes[n].key && m'.nodes[n].value == m.nodes[n].value
         && (m.nodes[n].deleted ==> m'.nodes[n].deleted)
         && (m.nodes[n].rank > 0 ==> m'.nodes[n].rank == m.nodes[n].rank)
         && (m.nodes[n].slot > 0 ==> m'.nodes[n].slot == m.nodes[n].slot)
  }

  lemma StepGrows(cfg: Config, sys: System, a: Action)
    requires Inv(cfg, sys) && MayMove(sys, a)
    ensures Grows(sys.mem, SystemStep(cfg, sys, a).mem)
  {
    var pc := sys.threads[a.tid];
    StepOrder(cfg, sys.mem, pc, a);
    Guarantee(cfg, sys.mem, pc, a, None, None);
  }

  lemma GrowsTwice(m: Memory, m': Memory, m'': Memory)
    requires Grows(m, m') && Grows(m', m'')
    ensures Grows(m, m'')
  {
  }

  lemma RunStepGrows(e: Execution, i: nat)
    requires i + 1 < |e.run|
    ensures Grows(e.run[i].mem, e.run[i + 1].mem)
  {
    RunInv(e, i);
    assert StepAt(e, i);
    StepGrows(e.cfg, e.run[i], e.acts[i]);
  }

  lemma {:induction false} RunGrows(e: Execution, i: nat, j: nat)
    requires i <= j < |e.run|
    ensures Grows(e.run[i].mem, e.run[j].mem)
  {
    if i < j {
      RunGrows(e, i, j - 1);
      RunStepGrows(e, j - 1);
      GrowsTwice(e.run[i].mem, e.run[j - 1].mem, e.run[j].mem);
    }
  }

  /** What `RunGrows` says about one published node. */
  lemma NodePersists(e: Execution, i: nat, j: nat, n: Id)
    requires i <= j < |e.run| && n < |e.run[i].mem.nodes| && e.run[i].mem.nodes[n].rank > 0
    ensures n < |e.run[j].mem.nodes|
    ensures e.run[j].mem.nodes[n].key == e.run[i].mem.nodes[n].key
    ensures e.run[j].mem.nodes[n].rank == e.run[i].mem.nodes[n].rank
    ensures e.run[i].mem.nodes[n].deleted ==> e.run[j].mem.nodes[n].deleted
    ensures e.run[i].mem.nodes[n].slot > 0 ==> e.run[j].mem.nodes[n].slot == e.run[i].mem.nodes[n].slot
  {
    RunGrows(e, i, j);
  }

  // ----- Live nodes stay reachable -----

  /** `path` follows bucketNext links from the pointer `from` to the node `to`. */
  predicate BucketPath(m: Memory, from: Option<Id>, path: seq<Id>, to: Id) {
    && path != [] && from == Some(path[0]) && path[|path| - 1] == to
    && (forall i | 0 <= i < |path| :: path[i] < |m.nodes|)
    && (forall i | 0 < i < |path| :: m.nodes[path[i - 1]].bucketNext == Some(path[i]))
  }

  lemma {:induction false} PathDown(cfg: Config, m: Memory, b: nat, from: Option<Id>, n: Id) returns (path: seq<Id>)
    requires BucketInv(cfg, m) && Published(cfg, m, n, b) && !m.nodes[n].deleted
    requires In(cfg, m, b, from) && Rank(m, from) >= m.nodes[n].rank
    ensures BucketPath(m, from, path, n)
    decreases Rank(m, from)
  {
    var c := from.value;
    if m.nodes[c].rank == m.nodes[n].rank {
      path := [c];
    } else {
      assert Link(cfg, m, b, m.nodes[c].rank, m.nodes[c].bucketNext);
      var rest := PathDown(cfg, m, b, m.nodes[c].bucketNext, n);
      path := [c] + rest;
    }
  }

  /** In every run, a node published by some insert and not deleted since is reachable
      from its bucket head, whatever unlinks, even stale ones, the other threads perform. */
  lemma LiveNodesReachable(e: Execution, i: nat, j: nat, n: Id)
    requires i <= j < |e.run|
    requires n < |e.run[i].mem.nodes| && e.run[i].mem.nodes[n].rank > 0
    requires n < |e.run[j].mem.nodes| ==> !e.run[j].mem.nodes[n].deleted
    ensures n < |e.run[j].mem.nodes| && |e.run[j].mem.heads| == e.cfg.bucketCount > 0
    ensures var m := e.run[j].mem;
            exists path :: BucketPath(m, m.heads[Bucket(e.cfg, m.nodes[n].key)], path, n)
  {
    RunInv(e, j);
    RunGrows(e, i, j);
    var m := e.run[j].mem;
    var b := Bucket(e.cfg, m.nodes[n].key);
    assert Link(e.cfg, m, b, m.clock + 1, m.heads[b]);
    var path := PathDown(e.cfg, m, b, m.heads[b], n);
  }

  /** An unlink CAS, even with a stale successor, bypasses deleted nodes only: every node of
      the bucket between the pointer's old owner and its new target is marked deleted. */
  lemma UnlinkBypassesDeleted(cfg: Config, m: Memory, pc: Pc, n: Id)
    requires PreBucket(cfg, m, pc) && pc.UnlinkCas? && Load(m, pc.prev) == Some(pc.node)
    requires Published(cfg, m, n, Bucket(cfg, m.nodes[pc.node].key)) && !m.nodes[n].deleted
    ensures Load(Store(m, pc.prev, pc.next), pc.prev) == pc.next
    ensures m.nodes[n].rank < m.nodes[pc.node].rank ==> m.nodes[n].rank <= Rank(m, pc.next) < m.nodes[pc.node].rank
    ensures m.nodes[n].rank >= m.nodes[pc.node].rank ==> pc.prev.Next? && m.nodes[n].rank >= m.nodes[pc.prev.node].rank
  {
    var hi := if pc.prev.Head? then m.clock + 1 else m.nodes[pc.prev.node].rank;
    assert Link(cfg, m, Bucket(cfg, m.nodes[pc.node].key), hi, Some(pc.node));
    assert m.nodes[n].rank != m.nodes[pc.node].rank;
  }

  // ----- A lookup never misses a live key -----

  /** Between states `i` and `j` thread `t` is inside one walk that `e.acts[i]` started. */
  predicate Walking(e: Execution, t: Tid, i: nat, j: nat, op: Op) {
    && i < j < |e.run|
    && t in e.run[i].threads && e.run[i].threads[t] == Start(op) && e.acts[i].tid == t
    && forall x | i < x <= j :: t in e.run[x].threads && e.run[x].threads[t].Walk?
  }

  /** The walker stands at or above node `n` in the bucket. */
  predicate AtOrAbove(sys: System, t: Tid, op: Op, n: Id) {
    && t in sys.threads && sys.threads[t].Walk? && sys.threads[t].op == op
    && sys.threads[t].curr.Some? && sys.threads[t].curr.value < |sys.mem.nodes| && n < |sys.mem.nodes|
    && sys.mem.nodes[sys.threads[t].curr.value].rank >= sys.mem.nodes[n].rank > 0
    && sys.mem.nodes[n].key == op.key
  }

  /** The first node with the sought key at or above a live holder of it is that holder. */
  lemma FoundIsLive(cfg: Config, sys: System, t: Tid, op: Op, n: Id)
    requires Inv(cfg, sys) && AtOrAbove(sys, t, op, n) && !sys.mem.nodes[n].deleted
    requires sys.mem.nodes[sys.threads[t].curr.value].key == op.key
    ensures sys.threads[t].curr == Some(n)
  {
    assert KeyInv(sys.mem) && RankInv(sys.mem);
  }

  lemma {:induction false} WalkAbove(e: Execution, t: Tid, i: nat, j: nat, op: Op, n: Id)
    requires Walking(e, t, i, j, op)
    requires n < |e.run[i].mem.nodes| && e.run[i].mem.nodes[n].rank > 0 && e.run[i].mem.nodes[n].key == op.key
    requires n < |e.run[j].mem.nodes| ==> !e.run[j].mem.nodes[n].deleted
    ensures AtOrAbove(e.run[j], t, op, n)
    decreases j
  {
    NodePersists(e, i, j - 1, n);
    NodePersists(e, j - 1, j, n);
    if j == i + 1 {
      WalkAboveStart(e, i, op, n);
    } else {
      WalkAbove(e, t, i, j - 1, op, n);
      WalkAboveStep(e, t, j - 1, op, n);
    }
  }

  lemma WalkAboveStart(e: Execution, i: nat, op: Op, n: Id)
    requires i < |e.acts| && e.acts[i].tid in e.run[i].threads && e.run[i].threads[e.acts[i].tid] == Start(op)
    requires n < |e.run[i].mem.nodes| && e.run[i].mem.nodes[n].rank > 0 && e.run[i].mem.nodes[n].key == op.key
    requires !e.run[i].mem.nodes[n].deleted
    ensures AtOrAbove(e.run[i + 1], e.acts[i].tid, op, n)
  {
    assert StepAt(e, i);
    var m, b := e.run[i].mem, Bucket(e.cfg, op.key);
    assert Ok(m, m.heads[b]) && Rank(m, m.heads[b]) >= m.nodes[n].rank by {
      RunInv(e, i);
      assert Link(e.cfg, m, b, m.clock + 1, m.heads[b]);
    }
  }

  lemma WalkAboveStep(e: Execution, t: Tid, j: nat, op: Op, n: Id)
    requires j < |e.acts| && AtOrAbove(e.run[j], t, op, n)
    requires t in e.run[j + 1].threads && e.run[j + 1].threads[t].Walk? && !e.run[j].mem.nodes[n].deleted
    ensures AtOrAbove(e.run[j + 1], t, op, n)
  {
    NodePersists(e, j, j + 1, n);
    NodePersists(e, j, j + 1, e.run[j].threads[t].curr.value);
    assert StepAt(e, j);
    if e.acts[j].tid == t {
      var m, c := e.run[j].mem, e.run[j].threads[t].curr.value;
      assert m.nodes[c].rank > m.nodes[n].rank ==>
          (Ok(m, m.nodes[c].bucketNext) && Rank(m, m.nodes[c].bucketNext) >= m.nodes[n].rank) by {
        RunInv(e, j);
        assert Link(e.cfg, m, Bucket(e.cfg, op.key), m.nodes[c].rank, m.nodes[c].bucketNext);
      }
      assert m.nodes[c].rank == m.nodes[n].rank ==> c == n by { RunInv(e, j); }
    }
  }

  /** A node holding the sought key that is live from the start to the end of the walk is
      never passed over: the walk is not at null, it can only end at that very node, and the
      operation then acts on that node. */
  lemma LookupNeverMisses(e: Execution, t: Tid, i: nat, j: nat, op: Op, n: Id)
    requires Walking(e, t, i, j, op)
    requires n < |e.run[i].mem.nodes| && e.run[i].mem.nodes[n].rank > 0 && e.run[i].mem.nodes[n].key == op.key
    requires n < |e.run[j].mem.nodes| ==> !e.run[j].mem.nodes[n].deleted
    ensures e.run[j].threads[t].curr.Some? && PcAllocated(e.run[j].mem, e.run[j].threads[t])
    ensures var m, pc := e.run[j].mem, e.run[j].threads[t];
            if m.nodes[pc.curr.value].key != op.key then WalkStep(m, pc).Walk?
            else && pc.curr == Some(n)
                 && WalkStep(m, pc) == (match op case Find(_) => CheckDeleted(n)
                                                 case Remove(k) => Mark(k, pc.prev, n)
                                                 case Insert(_, _, _) => Idle(NotInserted))
  {
    WalkAbove(e, t, i, j, op, n);
    assert PcAllocated(e.run[j].mem, e.run[j].threads[t]) by { RunInv(e, j); }
    if e.run[j].mem.nodes[e.run[j].threads[t].curr.value].key == op.key {
      assert e.run[j].threads[t].curr == Some(n) by {
        RunInv(e, j);
        FoundIsLive(e.cfg, e.run[j], t, op, n);
      }
    }
  }

  /** Steps taken by thread `t` in `e.acts[i..j]`. */
  function StepsOf(acts: seq<Action>, t: Tid, i: nat, j: nat): nat
    requires i <= j <= |acts|
    decreases j
  {
    if i == j then 0 else StepsOf(acts, t, i, j - 1) + (if acts[j - 1].tid == t then 1 else 0)
  }

  /** The rank of the node a walking thread stands on; 0 at the end of the chain. */
  function Height(sys: System, t: Tid): nat {
    if && t in sys.threads && sys.threads[t].Walk? && sys.threads[t].curr.Some?
       && sys.threads[t].curr.value < |sys.mem.nodes|
    then sys.mem.nodes[sys.threads[t].curr.value].rank
    else 0
  }

  /** The walk terminates: each of its own steps lowers the rank of the node it stands on. */
  lemma {:induction false} WalkTerminates(e: Execution, t: Tid, i: nat, j: nat, op: Op)
    requires Walking(e, t, i, j, op)
    ensures StepsOf(e.acts, t, i + 1, j) + Height(e.run[j], t) <= Height(e.run[i + 1], t) <= e.run[i].mem.clock
    decreases j
  {
    if j == i + 1 {
      WalkStartHeight(e, i);
    } else {
      WalkTerminates(e, t, i, j - 1, op);
      WalkStepHeight(e, t, j - 1);
    }
  }

  lemma WalkStartHeight(e: Execution, i: nat)
    requires i < |e.acts| && e.acts[i].tid in e.run[i].threads && e.run[i].threads[e.acts[i].tid].Start?
    ensures Height(e.run[i + 1], e.acts[i].tid) <= e.run[i].mem.clock
  {
    RunInv(e, i);
    assert StepAt(e, i);
  }

  lemma WalkStepHeight(e: Execution, t: Tid, j: nat)
    requires j < |e.acts| && t in e.run[j].threads && e.run[j].threads[t].Walk?
    requires t in e.run[j + 1].threads && e.run[j + 1].threads[t].Walk?
    ensures Height(e.run[j + 1], t) + (if e.acts[j].tid == t then 1 else 0) <= Height(e.run[j], t)
  {
    var m, pc := e.run[j].mem, e.run[j].threads[t];
    assert StepAt(e, j);
    if pc.curr.Some? {
      var c := pc.curr.value;
      assert c < |m.nodes| && m.nodes[c].rank > 0 && Ok(m, m.nodes[c].bucketNext)
          && Rank(m, m.nodes[c].bucketNext) < m.nodes[c].rank by {
        RunInv(e, j);
        assert PreBucket(e.cfg, m, pc);
        assert Link(e.cfg, m, Bucket(e.cfg, pc.op.key), m.nodes[c].rank, m.nodes[c].bucketNext);
      }
      NodePersists(e, j, j + 1, c);
    }
  }

  // ----- The insertion-order chain -----

  /** The chain from orderHead is exactly `linked`, without repetition, and orderTail is null
      (with at most one node linked) or one of its last two nodes. */
  predicate ChainSound(m: Memory) {
    && m.orderHead == (if m.linked == [] then None else Some(m.linked[0]))
    && (forall k | 0 <= k < |m.linked| :: m.linked[k] < |m.nodes|)
    && (forall k | 0 < k < |m.linked| :: m.nodes[m.linked[k - 1]].orderNext == Some(m.linked[k]))
    && (m.linked != [] ==> m.nodes[m.linked[|m.linked| - 1]].orderNext == None)
    && (forall x, y | 0 <= x < y < |m.linked| :: m.linked[x] != m.linked[y])
    && (m.orderTail.None? ==> |m.linked| <= 1)
    && (m.orderTail.Some? ==> m.linked != [] && (|| m.orderTail.value == m.linked[|m.linked| - 1]
                                                 || (|m.linked| > 1 && m.orderTail.value == m.linked[|m.linked| - 2])))
  }

  lemma ChainIsSound(m: Memory)
    requires OrderInv(m)
    ensures ChainSound(m)
  {
    forall k | 0 <= k < |m.linked| ensures m.linked[k] < |m.nodes| && m.nodes[m.linked[k]].slot == k + 1 {
      assert ChainAt(m, k);
    }
    forall k | 0 < k < |m.linked| ensures m.nodes[m.linked[k - 1]].orderNext == Some(m.linked[k]) {
      assert ChainAt(m, k - 1);
    }
    assert m.linked != [] ==> ChainAt(m, |m.linked| - 1);
    assert m.orderTail.Some? ==> SlotAt(m, m.orderTail.value);
  }

  /** In every reachable state the order chain is sound and holds the node of every insert
      that has returned true. */
  lemma OrderChainSound(e: Execution, i: nat)
    requires i < |e.run|
    ensures ChainSound(e.run[i].mem)
    ensures forall t | t in e.run[i].threads && e.run[i].threads[t].Idle? && e.run[i].threads[t].last.Inserted? ::
              e.run[i].threads[t].last.node in e.run[i].mem.linked
  {
    assert ChainSound(e.run[i].mem) by {
      RunInv(e, i);
      ChainIsSound(e.run[i].mem);
    }
    forall t | t in e.run[i].threads && e.run[i].threads[t].Idle? && e.run[i].threads[t].last.Inserted?
      ensures e.run[i].threads[t].last.node in e.run[i].mem.linked
    {
      InsertedIsLinked(e, i, t);
    }
  }

  lemma InsertedIsLinked(e: Execution, i: nat, t: Tid)
    requires i < |e.run| && t in e.run[i].threads
    requires e.run[i].threads[t].Idle? && e.run[i].threads[t].last.Inserted?
    ensures var n, m := e.run[i].threads[t].last.node, e.run[i].mem;
            && n < |m.nodes| && m.nodes[n].rank > 0
            && 0 < m.nodes[n].slot <= |m.linked| && m.linked[m.nodes[n].slot - 1] == n
  {
    RunInv(e, i);
    assert PreBucket(e.cfg, e.run[i].mem, e.run[i].threads[t]) && PreOrder(e.run[i].mem, e.run[i].threads[t]);
    assert SlotAt(e.run[i].mem, e.run[i].threads[t].last.node);
  }

  /** The node an insert has allocated so far, if any. */
  function NodeOf(pc: Pc): Option<Id> {
    match pc
    case Idle(Inserted(n)) => Some(n)
    case CasNullTail(n) => Some(n)
    case SwingTail(n, _) => Some(n)
    case _ => Owned(pc)
  }

  /** Thread `t` is inside one operation from state `i` to state `j`, where it may return. */
  predicate Within(e: Execution, t: Tid, i: nat, j: nat) {
    && i <= j < |e.run| && (forall x | i <= x <= j :: t in e.run[x].threads)
    && forall x | i <= x < j :: !e.run[x].threads[t].Idle?
  }

  lemma {:induction false} NodeIsFresh(e: Execution, t: Tid, i: nat, j: nat)
    requires Within(e, t, i, j) && NodeOf(e.run[i].threads[t]) == None
    ensures NodeOf(e.run[j].threads[t]).Some? ==> NodeOf(e.run[j].threads[t]).value >= |e.run[i].mem.nodes|
    decreases j
  {
    if i < j {
      NodeIsFresh(e, t, i, j - 1);
      var sys, a := e.run[j - 1], e.acts[j - 1];
      assert |e.run[i].mem.nodes| <= |sys.mem.nodes| by { RunGrows(e, i, j - 1); }
      assert StepAt(e, j - 1);
      if a.tid == t {
        NodeAfter(e.cfg, sys.mem, sys.threads[t], a);
      }
    }
  }

  lemma NodeAfter(cfg: Config, m: Memory, pc: Pc, a: Action)
    requires ValidConfig(cfg) && Allocated(cfg, m) && PcAllocated(m, pc) && !pc.Idle?
    ensures var n := NodeOf(Step(cfg, m, pc, a).1); n == NodeOf(pc) || n == None || n == Some(|m.nodes|)
  {
  }

  /** Real-time order: an insert that returned before another began precedes it on the chain. */
  lemma RealTimeOrder(e: Execution,
                      t: Tid, i: nat, u: Tid, j: nat, k: nat, x: Id, y: Id)
    requires i <= j && Within(e, u, j, k)
    requires t in e.run[i].threads && e.run[i].threads[t] == Idle(Inserted(x))
    requires e.run[j].threads[u].Start? && e.run[j].threads[u].op.Insert? && e.run[j].threads[u].op.made == None
    requires e.run[k].threads[u] == Idle(Inserted(y))
    ensures exists p, q ::
              0 <= p < q < |e.run[k].mem.linked| && e.run[k].mem.linked[p] == x && e.run[k].mem.linked[q] == y
  {
    var m, m' := e.run[j].mem, e.run[k].mem;
    EarlierIsLinked(e, t, i, j, k, x);
    InsertedIsLinked(e, k, u);
    var p, q := m'.nodes[x].slot - 1, m'.nodes[y].slot - 1;
    assert y >= |m.nodes| by { NodeIsFresh(e, u, j, k); }
    assert m.linked <= m'.linked by { RunGrows(e, j, k); }
    assert forall s | 0 <= s < |m.linked| :: m.linked[s] < |m.nodes| by { OrderChainSound(e, j); }
    assert p < |m.linked| <= q;
  }

  /** A node whose insert returned by state `i` has its place on the chain from then on. */
  lemma EarlierIsLinked(e: Execution, t: Tid, i: nat, j: nat, k: nat, x: Id)
    requires i <= j <= k < |e.run| && t in e.run[i].threads && e.run[i].threads[t] == Idle(Inserted(x))
    ensures x < |e.run[k].mem.nodes| && 0 < e.run[k].mem.nodes[x].slot <= |e.run[j].mem.linked|
    ensures |e.run[j].mem.linked| <= |e.run[k].mem.linked| && e.run[k].mem.linked[e.run[k].mem.nodes[x].slot - 1] == x
  {
    InsertedIsLinked(e, i, t);
    NodePersists(e, i, j, x);
    NodePersists(e, j, k, x);
    var m := e.run[j].mem;
    assert x < |m.nodes| && 0 < m.nodes[x].slot <= |m.linked| && m.linked[m.nodes[x].slot - 1] == x by {
      RunInv(e, j);
      assert SlotAt(m, x);
    }
    RunGrows(e, j, k);
  }
}
