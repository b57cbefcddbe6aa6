/** Each operation of the concurrent map takes effect at some moment between its start and its end. */
module HashMapLinearization {
  import opened Common
  import opened HashMapProtocol
  import opened HashMapInvariants
  import opened HashMapSteps
  import opened HashMapTheorems

  /** Node `n` is published, not deleted, and holds `key`. */
  predicate IsLive(m: Memory, key: int, n: Id) {
    n < |m.nodes| && m.nodes[n].rank > 0 && !m.nodes[n].deleted && m.nodes[n].key == key
  }

  /** The abstract map does not have `key`. */
  predicate NoLive(m: Memory, key: int) { forall n | 0 <= n < |m.nodes| :: !IsLive(m, key, n) }

  /** A key has one live holder. */
  lemma OneHolder(cfg: Config, m: Memory, key: int, n: Id, x: Id)
    requires BucketInv(cfg, m) && IsLive(m, key, n) && IsLive(m, key, x)
    ensures n == x
  {
    assert RankInv(m) && KeyInv(m);
  }

  // ----- The moment a key disappears -----

  /** Only marking deletes a node. */
  lemma DeletedByMark(cfg: Config, m: Memory, pc: Pc, a: Action, n: Id)
    requires ValidConfig(cfg) && Allocated(cfg, m) && PcAllocated(m, pc) && n < |m.nodes| && !m.nodes[n].deleted
    requires n < |Step(cfg, m, pc, a).0.nodes| && Step(cfg, m, pc, a).0.nodes[n].deleted
    ensures pc.Mark? && pc.node == n && Step(cfg, m, pc, a).0 == m.(nodes := m.nodes[n := m.nodes[n].(deleted := true)])
  {
  }

  /** When the live holder of a key is deleted, the key is gone. */
  lemma LiveLost(cfg: Config, sys: System, a: Action, key: int, n: Id)
    requires Inv(cfg, sys) && MayMove(sys, a) && IsLive(sys.mem, key, n) && !IsLive(SystemStep(cfg, sys, a).mem, key, n)
    ensures NoLive(SystemStep(cfg, sys, a).mem, key)
  {
    var m, m' := sys.mem, SystemStep(cfg, sys, a).mem;
    StepGrows(cfg, sys, a);
    DeletedByMark(cfg, m, sys.threads[a.tid], a, n);
    forall x: Id | IsLive(m, key, x) ensures x == n { OneHolder(cfg, m, key, n, x); }
    assert forall x: Id | IsLive(m', key, x) :: IsLive(m, key, x);
  }

  // ----- Finding and removing -----

  /** The walker has not yet passed the live holder `n` of the key it looks for. */
  predicate NotPassed(m: Memory, c: Option<Id>, key: int, n: Id) {
    IsLive(m, key, n) && c.Some? && c.value < |m.nodes| && m.nodes[c.value].rank >= m.nodes[n].rank
  }

  /** Where a find or remove stands that has seen the key present ever since it started. */
  ghost predicate Chasing(m: Memory, pc: Pc, op: Op) {
    match pc
    case Start(o) => o == op
    case Walk(o, _, c) => o == op && exists n :: NotPassed(m, c, op.key, n)
    case CheckDeleted(c) => op.Find? && IsLive(m, op.key, c)
    case Mark(k, _, c) => op == Remove(k) && IsLive(m, k, c)
    case Idle(r) => r.Found?
    case _ => false
  }

  lemma StartChase(cfg: Config, m: Memory, op: Op, a: Action)
    requires BucketInv(cfg, m) && PcAllocated(m, Start(op)) && !NoLive(m, op.key)
    ensures Chasing(m, Step(cfg, m, Start(op), a).1, op)
  {
    var n :| 0 <= n < |m.nodes| && IsLive(m, op.key, n);
    var b := Bucket(cfg, op.key);
    assert Link(cfg, m, b, m.clock + 1, m.heads[b]);
    assert RankBounded(m);
    assert NotPassed(m, m.heads[b], op.key, n);
  }

  lemma WalkChase(cfg: Config, m: Memory, pc: Pc, op: Op, n: Id)
    requires PreBucket(cfg, m, pc) && pc.Walk? && pc.op == op && !op.Insert? && NotPassed(m, pc.curr, op.key, n)
    ensures Chasing(m, WalkStep(m, pc), op)
  {
    var c := pc.curr.value;
    assert RankInv(m) && KeyInv(m);
    if m.nodes[c].key == op.key {
      assert c == n;
    } else {
      assert Link(cfg, m, Bucket(cfg, op.key), m.nodes[c].rank, m.nodes[c].bucketNext);
      assert NotPassed(m, m.nodes[c].bucketNext, op.key, n);
    }
  }

  /** A step of the thread itself: the key was absent just before or just after, or the chase goes on. */
  lemma ChaseOwnStep(cfg: Config, sys: System, a: Action, op: Op)
    requires Inv(cfg, sys) && MayMove(sys, a) && !sys.threads[a.tid].Idle? && !op.Insert?
    requires Chasing(sys.mem, sys.threads[a.tid], op)
    ensures var sys' := SystemStep(cfg, sys, a);
            NoLive(sys.mem, op.key) || NoLive(sys'.mem, op.key) || Chasing(sys'.mem, sys'.threads[a.tid], op)
  {
    var m, pc := sys.mem, sys.threads[a.tid];
    match pc
    case Start(_) => if !NoLive(m, op.key) { StartChase(cfg, m, op, a); }
    case Walk(_, _, c) =>
      var n :| NotPassed(m, c, op.key, n);
      WalkChase(cfg, m, pc, op, n);
    case Mark(k, _, c) => if !a.spurious { LiveLost(cfg, sys, a, op.key, c); }
    case _ =>
  }

  /** A step of another thread. */
  lemma ChaseOtherStep(cfg: Config, sys: System, a: Action, t: Tid, op: Op)
    requires Inv(cfg, sys) && MayMove(sys, a) && t in sys.threads && t != a.tid && Chasing(sys.mem, sys.threads[t], op)
    ensures var m' := SystemStep(cfg, sys, a).mem; NoLive(m', op.key) || Chasing(m', sys.threads[t], op)
  {
    var m, m', pc := sys.mem, SystemStep(cfg, sys, a).mem, sys.threads[t];
    StepGrows(cfg, sys, a);
    match pc
    case Walk(_, _, c) =>
      var n :| NotPassed(m, c, op.key, n);
      if IsLive(m', op.key, n) { assert NotPassed(m', c, op.key, n); } else { LiveLost(cfg, sys, a, op.key, n); }
    case CheckDeleted(c) => if !IsLive(m', op.key, c) { LiveLost(cfg, sys, a, op.key, c); }
    case Mark(_, _, c) => if !IsLive(m', op.key, c) { LiveLost(cfg, sys, a, op.key, c); }
    case _ =>
  }

  /** In some state from `i` to `x` the key was absent. */
  ghost predicate AbsentAt(e: Execution, key: int, i: nat, x: nat)
    requires x < |e.run|
  {
    exists y :: i <= y <= x && NoLive(e.run[y].mem, key)
  }

  lemma {:induction false} AbsentOrChasing(e: Execution, t: Tid, op: Op, i: nat, x: nat)
    requires Within(e, t, i, x) && e.run[i].threads[t] == Start(op) && !op.Insert?
    ensures AbsentAt(e, op.key, i, x) || Chasing(e.run[x].mem, e.run[x].threads[t], op)
    decreases x
  {
    if i < x {
      AbsentOrChasing(e, t, op, i, x - 1);
      RunInv(e, x - 1);
      assert StepAt(e, x - 1);
      if AbsentAt(e, op.key, i, x - 1) {
        var y :| i <= y <= x - 1 && NoLive(e.run[y].mem, op.key);
      } else if e.acts[x - 1].tid == t {
        ChaseOwnStep(e.cfg, e.run[x - 1], e.acts[x - 1], op);
      } else {
        ChaseOtherStep(e.cfg, e.run[x - 1], e.acts[x - 1], t, op);
      }
    }
  }

  /** A find that reports a miss, and a remove whatever it reports, has a moment between its start and its end at
      which no live node holds the key. */
  lemma MissOrRemoveTakesEffect(e: Execution, t: Tid, op: Op, i: nat, k: nat)
    requires Within(e, t, i, k) && e.run[i].threads[t] == Start(op) && !op.Insert?
    requires e.run[k].threads[t] in {Idle(Missed), Idle(NotRemoved), Idle(Removed)}
    ensures exists y :: i <= y <= k && NoLive(e.run[y].mem, op.key)
  {
    AbsentOrChasing(e, t, op, i, k);
  }

  /** Where a find stands, and what it answers with. */
  ghost predicate Seeking(m: Memory, pc: Pc, key: int) {
    match pc
    case Start(o) => o == Find(key)
    case Walk(o, _, _) => o == Find(key)
    case CheckDeleted(c) => c < |m.nodes| && m.nodes[c].rank > 0 && m.nodes[c].key == key
    case Idle(r) => r.Missed? || (r.Found? && IsLive(m, key, r.node))
    case _ => false
  }

  lemma SeekOwnStep(cfg: Config, sys: System, a: Action, key: int)
    requires Inv(cfg, sys) && MayMove(sys, a) && !sys.threads[a.tid].Idle? && Seeking(sys.mem, sys.threads[a.tid], key)
    ensures var sys' := SystemStep(cfg, sys, a); Seeking(sys'.mem, sys'.threads[a.tid], key)
  {
    assert PreBucket(cfg, sys.mem, sys.threads[a.tid]);
  }

  lemma SeekOtherStep(cfg: Config, sys: System, a: Action, t: Tid, key: int)
    requires Inv(cfg, sys) && MayMove(sys, a) && t in sys.threads && t != a.tid && !sys.threads[t].Idle?
    requires Seeking(sys.mem, sys.threads[t], key)
    ensures Seeking(SystemStep(cfg, sys, a).mem, sys.threads[t], key)
  {
    StepGrows(cfg, sys, a);
  }

  lemma {:induction false} StillSeeking(e: Execution, t: Tid, key: int, i: nat, x: nat)
    requires Within(e, t, i, x) && e.run[i].threads[t] == Start(Find(key))
    ensures Seeking(e.run[x].mem, e.run[x].threads[t], key)
    decreases x
  {
    if i < x {
      StillSeeking(e, t, key, i, x - 1);
      RunInv(e, x - 1);
      assert StepAt(e, x - 1);
      if e.acts[x - 1].tid == t {
        SeekOwnStep(e.cfg, e.run[x - 1], e.acts[x - 1], key);
      } else {
        SeekOtherStep(e.cfg, e.run[x - 1], e.acts[x - 1], t, key);
      }
    }
  }

  /** A find that reports a node has a moment at which that node is live with the key. */
  lemma FoundTakesEffect(e: Execution, t: Tid, key: int, i: nat, k: nat, n: Id)
    requires Within(e, t, i, k) && e.run[i].threads[t] == Start(Find(key)) && e.run[k].threads[t] == Idle(Found(n))
    ensures exists y :: i <= y <= k && IsLive(e.run[y].mem, key, n)
  {
    StillSeeking(e, t, key, i, k);
  }

  /** A find reports a node or a miss: the node with the key that is live from its start to its end, if there is one. */
  lemma LiveIsFound(e: Execution, t: Tid, key: int, i: nat, k: nat, n: Id)
    requires Within(e, t, i, k) && e.run[i].threads[t] == Start(Find(key)) && e.run[k].threads[t].Idle?
    requires IsLive(e.run[i].mem, key, n) && (n < |e.run[k].mem.nodes| ==> !e.run[k].mem.nodes[n].deleted)
    ensures e.run[k].threads[t] == Idle(Found(n))
  {
    forall y | i <= y <= k ensures IsLive(e.run[y].mem, key, n) {
      NodePersists(e, i, y, n);
      NodePersists(e, y, k, n);
    }
    AbsentOrChasing(e, t, Find(key), i, k);
    StillSeeking(e, t, key, i, k);
    RunInv(e, k);
    OneHolder(e.cfg, e.run[k].mem, key, n, e.run[k].threads[t].last.node);
  }

  /** A find of a key that has no live holder from its start to its end reports a miss. */
  lemma AbsentIsMissed(e: Execution, t: Tid, key: int, i: nat, k: nat)
    requires Within(e, t, i, k) && e.run[i].threads[t] == Start(Find(key)) && e.run[k].threads[t].Idle?
    requires forall y | i <= y <= k :: NoLive(e.run[y].mem, key)
    ensures e.run[k].threads[t] == Idle(Missed)
  {
    StillSeeking(e, t, key, i, k);
  }

  // ----- Inserting -----

  /** Between states `y` and `y + 1` node `n` makes the absent key present. */
  ghost predicate AppearsAt(e: Execution, key: int, n: Id, y: nat)
    requires y + 1 < |e.run|
  {
    NoLive(e.run[y].mem, key) && IsLive(e.run[y + 1].mem, key, n)
  }

  ghost predicate Appeared(e: Execution, key: int, n: Id, i: nat, x: nat)
    requires x < |e.run|
  {
    exists y :: i <= y < x && AppearsAt(e, key, n, y)
  }

  /** A node not yet published is not deleted. */
  predicate FreshNotDeleted(m: Memory) { forall n | 0 <= n < |m.nodes| && m.nodes[n].rank == 0 :: !m.nodes[n].deleted }

  lemma NewNotDeleted(cfg: Config, m: Memory, pc: Pc, a: Action, n: Id)
    requires ValidConfig(cfg) && Allocated(cfg, m) && PcAllocated(m, pc)
    requires |m.nodes| <= n < |Step(cfg, m, pc, a).0.nodes|
    ensures !Step(cfg, m, pc, a).0.nodes[n].deleted
  {
  }

  lemma FreshNode(cfg: Config, m: Memory, pc: Pc, a: Action, n: Id)
    requires PreBucket(cfg, m, pc) && FreshNotDeleted(m) && Grows(m, Step(cfg, m, pc, a).0)
    requires n < |Step(cfg, m, pc, a).0.nodes| && Step(cfg, m, pc, a).0.nodes[n].deleted
    ensures Step(cfg, m, pc, a).0.nodes[n].rank > 0
  {
    if n >= |m.nodes| {
      NewNotDeleted(cfg, m, pc, a, n);
    } else if !m.nodes[n].deleted {
      DeletedByMark(cfg, m, pc, a, n);
    }
  }

  lemma FreshStep(cfg: Config, sys: System, a: Action)
    requires Inv(cfg, sys) && MayMove(sys, a) && FreshNotDeleted(sys.mem)
    ensures FreshNotDeleted(SystemStep(cfg, sys, a).mem)
  {
    StepGrows(cfg, sys, a);
    var m' := SystemStep(cfg, sys, a).mem;
    forall n: Id | n < |m'.nodes| && m'.nodes[n].deleted ensures m'.nodes[n].rank > 0 {
      FreshNode(cfg, sys.mem, sys.threads[a.tid], a, n);
    }
  }

  lemma {:induction false} FreshInv(e: Execution, i: nat)
    requires i < |e.run|
    ensures FreshNotDeleted(e.run[i].mem)
  {
    if i > 0 {
      FreshInv(e, i - 1);
      RunInv(e, i - 1);
      assert StepAt(e, i - 1);
      FreshStep(e.cfg, e.run[i - 1], e.acts[i - 1]);
    }
  }

  /** The publishing compare-and-swap turns an absent key into a present one. */
  lemma PublishAppears(cfg: Config, m: Memory, pc: Pc)
    requires PreBucket(cfg, m, pc) && FreshNotDeleted(m) && pc.CasHead?
    requires CasHeadStep(cfg, m, pc, false).1.LoadTail?
    ensures NoLive(m, pc.key) && IsLive(CasHeadStep(cfg, m, pc, false).0, pc.key, pc.node)
  {
    assert Ahead(m, pc.key, None);
  }

  /** Where an insert stands: still trying to publish, or its node has made the key present. */
  ghost predicate Inserting(e: Execution, pc: Pc, key: int, i: nat, x: nat)
    requires x < |e.run|
  {
    || InsertKey(pc) == Some(key)
    || (NodeOf(pc).Some? && Appeared(e, key, NodeOf(pc).value, i, x))
    || pc == Idle(NotInserted)
  }

  lemma Later(e: Execution, pc: Pc, key: int, i: nat, x: nat)
    requires x + 1 < |e.run| && Inserting(e, pc, key, i, x)
    ensures Inserting(e, pc, key, i, x + 1)
  {
    if NodeOf(pc).Some? && Appeared(e, key, NodeOf(pc).value, i, x) {
      var y :| i <= y < x && AppearsAt(e, key, NodeOf(pc).value, y);
      assert AppearsAt(e, key, NodeOf(pc).value, y);
    }
  }

  /** An insert goes on trying, gives up, or publishes its node. */
  lemma TryingGoesOn(cfg: Config, m: Memory, pc: Pc, a: Action)
    requires ValidConfig(cfg) && Allocated(cfg, m) && PcAllocated(m, pc) && InsertKey(pc).Some?
    ensures var pc' := Step(cfg, m, pc, a).1;
            || InsertKey(pc') == InsertKey(pc) || pc' == Idle(NotInserted)
            || (pc.CasHead? && pc' == LoadTail(pc.node) && Step(cfg, m, pc, a) == CasHeadStep(cfg, m, pc, false))
  {
  }

  /** Once published, it keeps its node to the end. */
  lemma LinkingGoesOn(cfg: Config, m: Memory, pc: Pc, a: Action)
    requires ValidConfig(cfg) && Allocated(cfg, m) && PcAllocated(m, pc) && !pc.Idle?
    requires InsertKey(pc).None? && NodeOf(pc).Some?
    ensures NodeOf(Step(cfg, m, pc, a).1) == NodeOf(pc)
  {
  }

  lemma InsertOwnStep(e: Execution, t: Tid, key: int, i: nat, x: nat)
    requires i <= x && x + 1 < |e.run| && t in e.run[x].threads && e.acts[x].tid == t && !e.run[x].threads[t].Idle?
    requires Inserting(e, e.run[x].threads[t], key, i, x)
    ensures t in e.run[x + 1].threads && Inserting(e, e.run[x + 1].threads[t], key, i, x + 1)
  {
    assert StepAt(e, x);
    var m, pc := e.run[x].mem, e.run[x].threads[t];
    if InsertKey(pc).None? {
      LinkingGoesOn(e.cfg, m, pc, e.acts[x]);
      Later(e, pc, key, i, x);
    } else {
      TryingGoesOn(e.cfg, m, pc, e.acts[x]);
      if pc.CasHead? && e.run[x + 1].threads[t] == LoadTail(pc.node) { PublishStep(e, t, x); }
    }
  }

  lemma PublishStep(e: Execution, t: Tid, x: nat)
    requires x + 1 < |e.run| && t in e.run[x].threads && e.acts[x].tid == t && StepAt(e, x)
    requires var pc := e.run[x].threads[t];
             pc.CasHead? && t in e.run[x + 1].threads && e.run[x + 1].threads[t] == LoadTail(pc.node)
    ensures AppearsAt(e, e.run[x].threads[t].key, e.run[x].threads[t].node, x)
  {
    var m, pc := e.run[x].mem, e.run[x].threads[t];
    assert PreBucket(e.cfg, m, pc) by { RunInv(e, x); }
    FreshInv(e, x);
    PublishAppears(e.cfg, m, pc);
  }

  lemma {:induction false} StillInserting(e: Execution, t: Tid, key: int, i: nat, x: nat)
    requires Within(e, t, i, x) && InsertKey(e.run[i].threads[t]) == Some(key)
    ensures Inserting(e, e.run[x].threads[t], key, i, x)
    decreases x
  {
    if i < x {
      StillInserting(e, t, key, i, x - 1);
      if e.acts[x - 1].tid == t {
        InsertOwnStep(e, t, key, i, x - 1);
      } else {
        assert StepAt(e, x - 1);
        Later(e, e.run[x - 1].threads[t], key, i, x - 1);
      }
    }
  }

  /** An insert that reports success has a moment at which its node makes the absent key present. */
  lemma InsertTakesEffect(e: Execution, t: Tid, key: int, i: nat, k: nat, n: Id)
    requires Within(e, t, i, k) && e.run[i].threads[t].Start? && e.run[i].threads[t].op.Insert?
    requires e.run[i].threads[t].op.key == key && e.run[k].threads[t] == Idle(Inserted(n))
    ensures exists y :: i <= y < k && NoLive(e.run[y].mem, key) && IsLive(e.run[y + 1].mem, key, n)
  {
    StillInserting(e, t, key, i, k);
    var y :| i <= y < k && AppearsAt(e, key, n, y);
  }

  // ----- Refusing to insert -----

  /** A published node holds the key, deleted or not. */
  predicate Occupied(m: Memory, key: int, n: Id) { n < |m.nodes| && m.nodes[n].rank > 0 && m.nodes[n].key == key }

  /** A step that refuses an insert has come to a node with the key. */
  lemma RefusalStep(cfg: Config, m: Memory, pc: Pc, a: Action)
    requires ValidConfig(cfg) && Allocated(cfg, m) && PcAllocated(m, pc) && !pc.Idle?
    requires Step(cfg, m, pc, a).1 == Idle(NotInserted)
    ensures pc.Walk? && pc.op.Insert? && pc.curr.Some? && m.nodes[pc.curr.value].key == pc.op.key
  {
  }

  /** An insert that reports failure has a moment at which a node with the key was there; it may have been deleted. */
  lemma RefusalTakesEffect(e: Execution, t: Tid, key: int, i: nat, k: nat)
    requires Within(e, t, i, k) && InsertKey(e.run[i].threads[t]) == Some(key)
    requires e.run[k].threads[t] == Idle(NotInserted)
    ensures exists y, n :: i <= y <= k && Occupied(e.run[y].mem, key, n)
  {
    var m, pc := e.run[k - 1].mem, e.run[k - 1].threads[t];
    assert StepAt(e, k - 1);
    RefusalStep(e.cfg, m, pc, e.acts[k - 1]);
    StillTrying(e, t, key, i, k - 1);
    assert Occupied(m, key, pc.curr.value) by { RunInv(e, k - 1); }
  }

  /** While it walks, an insert looks for its key. */
  lemma {:induction false} StillTrying(e: Execution, t: Tid, key: int, i: nat, x: nat)
    requires Within(e, t, i, x) && InsertKey(e.run[i].threads[t]) == Some(key) && InsertKey(e.run[x].threads[t]).Some?
    ensures InsertKey(e.run[x].threads[t]) == Some(key)
    decreases x
  {
    if i < x {
      assert StepAt(e, x - 1);
      if e.acts[x - 1].tid == t {
        OwnedAfter(e.cfg, e.run[x - 1].mem, e.run[x - 1].threads[t], e.acts[x - 1]);
      }
      StillTrying(e, t, key, i, x - 1);
    }
  }
}
