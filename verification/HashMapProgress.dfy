/**
 * Whether a thread that runs alone comes to the end of its operation.  Every find and every remove does.  An insert
 * does unless the order chain has a head and no tail, because another thread stopped between setting the one and the
 * other: then every insert that has to append waits for that thread.
 */
module HashMapProgress {
  import opened Common
  import opened HashMapProtocol
  import opened HashMapInvariants
  import opened HashMapSteps
  import opened HashMapTheorems
  import RefusedInsert

  function Last(e: Execution): System { e.run[|e.run| - 1] }

  /** The first node is linked, but the tail does not lead to it yet. */
  predicate TailMissing(m: Memory) { m.orderHead.Some? && m.orderTail.None? }

  /** `e'` goes on from `e` with steps of thread `t` only, within one operation, no compare-and-swap failing
      spuriously. */
  ghost predicate Alone(e: Execution, e': Execution, t: Tid) {
    && e'.cfg == e.cfg && e.run <= e'.run && e.acts <= e'.acts
    && forall i | |e.acts| <= i < |e'.acts| ::
         e'.acts[i].tid == t && !e'.acts[i].spurious && t in e'.run[i].threads && !e'.run[i].threads[t].Idle?
  }

  lemma AloneTwice(e: Execution, e1: Execution, e': Execution, t: Tid)
    requires Alone(e, e1, t) && Alone(e1, e', t)
    ensures Alone(e, e', t)
  {
    forall i | |e.acts| <= i < |e'.acts|
      ensures e'.acts[i].tid == t && !e'.acts[i].spurious && t in e'.run[i].threads && !e'.run[i].threads[t].Idle?
    {
      if i < |e1.acts| { assert e'.acts[i] == e1.acts[i] && e'.run[i] == e1.run[i]; }
    }
  }

  predicate Busy(e: Execution, t: Tid) { t in Last(e).threads && !Last(e).threads[t].Idle? }

  /** The operation has ended, or waits for a tail that was missing when it began to run alone. */
  ghost predicate Finishes(e: Execution, e': Execution, t: Tid) {
    && Alone(e, e', t) && t in Last(e').threads
    && (Last(e').threads[t].Idle? ||
        (Last(e').threads[t].LoadTail? && TailMissing(Last(e').mem) && TailMissing(Last(e).mem)))
  }

  function Act(t: Tid): Action { Action(t, false, Find(0)) }

  /** One step. */
  lemma OneStep(e: Execution, t: Tid) returns (e': Execution)
    requires Busy(e, t)
    ensures SystemAllocated(e.cfg, Last(e)) && Alone(e, e', t) && t in Last(e').threads
    ensures |e'.acts| == |e.acts| + 1 && Last(e').threads == Last(e).threads[t := Last(e').threads[t]]
    ensures (Last(e').mem, Last(e').threads[t]) == Step(e.cfg, Last(e).mem, Last(e).threads[t], Act(t))
  {
    RunExtends(e, Act(t));
    e' := Trace(e.cfg, e.run + [SystemStep(e.cfg, Last(e), Act(t))], e.acts + [Act(t)]);
  }

  lemma FinishLater(e: Execution, e1: Execution, e': Execution, t: Tid)
    requires Alone(e, e1, t) && Finishes(e1, e', t) && (TailMissing(Last(e1).mem) ==> TailMissing(Last(e).mem))
    ensures Finishes(e, e', t)
  {
    AloneTwice(e, e1, e', t);
  }

  // ----- The last steps of each operation -----

  lemma FromCheck(e: Execution, t: Tid) returns (e': Execution)
    requires Busy(e, t) && Last(e).threads[t].CheckDeleted?
    ensures Finishes(e, e', t) && Last(e').threads[t].Idle?
  {
    e' := OneStep(e, t);
  }

  lemma FromUnlink(e: Execution, t: Tid) returns (e': Execution)
    requires Busy(e, t)
    requires var pc := Last(e).threads[t]; pc.UnlinkRead? || pc.UnlinkLoad? || pc.UnlinkCas?
    ensures Finishes(e, e', t) && Last(e').threads[t].Idle?
    decreases if Last(e).threads[t].UnlinkRead? then 2 else if Last(e).threads[t].UnlinkLoad? then 1 else 0
  {
    e' := OneStep(e, t);
    if !Last(e').threads[t].Idle? {
      var e1 := e';
      e' := FromUnlink(e1, t);
      FinishLater(e, e1, e', t);
    }
  }

  lemma FromMark(e: Execution, t: Tid) returns (e': Execution)
    requires Busy(e, t) && Last(e).threads[t].Mark?
    ensures Finishes(e, e', t) && Last(e').threads[t].Idle?
  {
    var e1 := OneStep(e, t);
    e' := FromUnlink(e1, t);
    FinishLater(e, e1, e', t);
  }

  lemma FromTailCas(e: Execution, t: Tid) returns (e': Execution)
    requires Busy(e, t) && (Last(e).threads[t].CasNullTail? || Last(e).threads[t].SwingTail?)
    ensures Finishes(e, e', t) && Last(e').threads[t].Idle?
  {
    e' := OneStep(e, t);
  }

  // ----- Appending to the order chain -----

  /** What follows the tail is the last node. */
  lemma AfterTail(m: Memory)
    requires OrderInv(m) && m.orderTail.Some? && m.nodes[m.orderTail.value].orderNext.Some?
    ensures var x := m.nodes[m.orderTail.value].orderNext.value; x < |m.nodes| && m.nodes[x].orderNext == None
  {
    var t := m.orderTail.value;
    assert SlotAt(m, t) && ChainAt(m, m.nodes[t].slot - 1);
    assert ChainAt(m, m.nodes[t].slot);
  }

  /** With a tail that nothing follows. */
  lemma FromFreshTail(e: Execution, t: Tid) returns (e': Execution)
    requires Busy(e, t) && Last(e).threads[t].LoadTail? && Last(e).mem.orderTail.Some?
    requires SystemAllocated(e.cfg, Last(e)) && Last(e).mem.nodes[Last(e).mem.orderTail.value].orderNext == None
    ensures Finishes(e, e', t) && Last(e').threads[t].Idle?
  {
    var e1 := OneStep(e, t);
    var e2 := OneStep(e1, t);
    var e3 := OneStep(e2, t);
    var e4 := OneStep(e3, t);
    e' := FromTailCas(e4, t);
    FinishLater(e3, e4, e', t);
    FinishLater(e2, e3, e', t);
    FinishLater(e1, e2, e', t);
    FinishLater(e, e1, e', t);
  }

  /** With a tail that something follows, the thread first moves it there. */
  lemma MovesTail(e: Execution, t: Tid) returns (e': Execution)
    requires Busy(e, t) && Last(e).threads[t].LoadTail? && Last(e).mem.orderTail.Some?
    requires SystemAllocated(e.cfg, Last(e)) && Last(e).mem.nodes[Last(e).mem.orderTail.value].orderNext.Some?
    ensures Alone(e, e', t) && t in Last(e').threads && Last(e').threads[t].LoadTail?
    ensures Last(e').mem == Last(e).mem.(orderTail := Last(e).mem.nodes[Last(e).mem.orderTail.value].orderNext)
  {
    var e1 := OneStep(e, t);
    var e2 := OneStep(e1, t);
    AloneTwice(e, e1, e2, t);
    var e3 := OneStep(e2, t);
    AloneTwice(e, e2, e3, t);
    e' := OneStep(e3, t);
    AloneTwice(e, e3, e', t);
  }

  lemma FromOldTail(e: Execution, t: Tid) returns (e': Execution)
    requires Busy(e, t) && Last(e).threads[t].LoadTail? && Last(e).mem.orderTail.Some?
    requires SystemAllocated(e.cfg, Last(e)) && Last(e).mem.nodes[Last(e).mem.orderTail.value].orderNext.Some?
    ensures Finishes(e, e', t) && Last(e').threads[t].Idle?
  {
    assert OrderInv(Last(e).mem) by { RunInv(e, |e.run| - 1); }
    AfterTail(Last(e).mem);
    var e1 := MovesTail(e, t);
    assert SystemAllocated(e1.cfg, Last(e1)) by { var e2 := OneStep(e1, t); }
    e' := FromFreshTail(e1, t);
    FinishLater(e, e1, e', t);
  }

  /** With neither head nor tail. */
  lemma FromEmpty(e: Execution, t: Tid) returns (e': Execution)
    requires Busy(e, t) && Last(e).threads[t].LoadTail? && Last(e).mem.orderTail.None? && Last(e).mem.orderHead.None?
    ensures Finishes(e, e', t) && Last(e').threads[t].Idle?
  {
    var e1 := OneStep(e, t);
    var e2 := OneStep(e1, t);
    e' := FromTailCas(e2, t);
    AloneTwice(e1, e2, e', t);
    AloneTwice(e, e1, e', t);
  }

  lemma FromLoadTail(e: Execution, t: Tid) returns (e': Execution)
    requires Busy(e, t) && Last(e).threads[t].LoadTail?
    ensures Finishes(e, e', t) && (TailMissing(Last(e).mem) || Last(e').threads[t].Idle?)
  {
    if TailMissing(Last(e).mem) {
      e' := e;
    } else if Last(e).mem.orderTail.None? {
      e' := FromEmpty(e, t);
    } else {
      assert SystemAllocated(e.cfg, Last(e)) by { var e1 := OneStep(e, t); }
      if Last(e).mem.nodes[Last(e).mem.orderTail.value].orderNext.None? {
        e' := FromFreshTail(e, t);
      } else {
        e' := FromOldTail(e, t);
      }
    }
  }

  /** From the compare-and-swaps in between. */
  lemma FromLink(e: Execution, t: Tid) returns (e': Execution)
    requires Busy(e, t)
    requires Last(e).threads[t].CasOrderHead? || Last(e).threads[t].HelpTail? || Last(e).threads[t].LinkAfter?
    ensures Finishes(e, e', t) && (TailMissing(Last(e).mem) || Last(e').threads[t].Idle?)
  {
    var e1 := OneStep(e, t);
    if Last(e1).threads[t].LoadTail? {
      e' := FromLoadTail(e1, t);
      FinishLater(e, e1, e', t);
    } else {
      e' := FromTailCas(e1, t);
      AloneTwice(e, e1, e', t);
    }
  }

  lemma FromRecheck(e: Execution, t: Tid) returns (e': Execution)
    requires Busy(e, t) && Last(e).threads[t].RecheckTail?
    ensures Finishes(e, e', t) && (TailMissing(Last(e).mem) || Last(e').threads[t].Idle?)
  {
    var e1 := OneStep(e, t);
    if Last(e1).threads[t].LoadTail? { e' := FromLoadTail(e1, t); } else { e' := FromLink(e1, t); }
    FinishLater(e, e1, e', t);
  }

  /** From anywhere in between. */
  lemma FromAppend(e: Execution, t: Tid) returns (e': Execution)
    requires Busy(e, t)
    requires var pc := Last(e).threads[t];
             pc.CasOrderHead? || pc.LoadTailNext? || pc.RecheckTail? || pc.HelpTail? || pc.LinkAfter?
    ensures Finishes(e, e', t) && (TailMissing(Last(e).mem) || Last(e').threads[t].Idle?)
  {
    if Last(e).threads[t].LoadTailNext? {
      var e1 := OneStep(e, t);
      e' := FromRecheck(e1, t);
      FinishLater(e, e1, e', t);
    } else if Last(e).threads[t].RecheckTail? {
      e' := FromRecheck(e, t);
    } else {
      e' := FromLink(e, t);
    }
  }

  // ----- Publishing -----

  lemma FromLoadHead(e: Execution, t: Tid) returns (e': Execution)
    requires Busy(e, t) && Last(e).threads[t].LoadHead?
    ensures Finishes(e, e', t) && (TailMissing(Last(e).mem) || Last(e').threads[t].Idle?)
  {
    var e1 := OneStep(e, t);
    var e2 := OneStep(e1, t);
    e' := FromLoadTail(e2, t);
    FinishLater(e1, e2, e', t);
    FinishLater(e, e1, e', t);
  }

  // ----- Walking -----

  /** The chain ahead of a walk gets shorter. */
  lemma WalkDown(e: Execution, t: Tid)
    requires Busy(e, t) && Last(e).threads[t].Walk? && Last(e).threads[t].curr.Some?
    ensures var m, c := Last(e).mem, Last(e).threads[t].curr.value;
            c < |m.nodes| && Ok(m, m.nodes[c].bucketNext) && Rank(m, m.nodes[c].bucketNext) < m.nodes[c].rank
  {
    RunInv(e, |e.run| - 1);
    var m, pc := Last(e).mem, Last(e).threads[t];
    assert PreBucket(e.cfg, m, pc);
    assert Link(e.cfg, m, Bucket(e.cfg, pc.op.key), m.nodes[pc.curr.value].rank, m.nodes[pc.curr.value].bucketNext);
  }

  /** Where the walk ends: for an insert it may go on to publish. */
  lemma {:induction false} FromWalk(e: Execution, t: Tid, rank: nat) returns (e': Execution)
    requires Busy(e, t) && Last(e).threads[t].Walk? && Ok(Last(e).mem, Last(e).threads[t].curr)
    requires Rank(Last(e).mem, Last(e).threads[t].curr) <= rank
    ensures Finishes(e, e', t)
    ensures Last(e').threads[t].Idle? || (TailMissing(Last(e).mem) && Last(e).threads[t].op.Insert?)
    decreases rank
  {
    if Last(e).threads[t].curr.Some? { WalkDown(e, t); }
    var e1 := OneStep(e, t);
    var pc := Last(e1).threads[t];
    if pc.Idle? {
      e' := e1;
    } else {
      if pc.Walk? {
        e' := FromWalk(e1, t, rank - 1);
      } else if pc.CheckDeleted? {
        e' := FromCheck(e1, t);
      } else if pc.Mark? {
        e' := FromMark(e1, t);
      } else {
        e' := FromLoadHead(e1, t);
      }
      FinishLater(e, e1, e', t);
    }
  }

  lemma FromStart(e: Execution, t: Tid) returns (e': Execution)
    requires Busy(e, t) && Last(e).threads[t].Start?
    ensures Finishes(e, e', t)
    ensures Last(e').threads[t].Idle? || (TailMissing(Last(e).mem) && Last(e).threads[t].op.Insert?)
  {
    var e1 := OneStep(e, t);
    e' := FromWalk(e1, t, Rank(Last(e1).mem, Last(e1).threads[t].curr));
    FinishLater(e, e1, e', t);
  }

  lemma FromCasHead(e: Execution, t: Tid) returns (e': Execution)
    requires Busy(e, t) && Last(e).threads[t].CasHead?
    ensures Finishes(e, e', t) && (TailMissing(Last(e).mem) || Last(e').threads[t].Idle?)
  {
    var e1 := OneStep(e, t);
    if Last(e1).threads[t].Start? { e' := FromStart(e1, t); } else { e' := FromLoadTail(e1, t); }
    FinishLater(e, e1, e', t);
  }

  /** The thread is inside an insert. */
  predicate InInsert(pc: Pc) { InsertKey(pc).Some? || NodeOf(pc).Some? }

  /** From every reachable state, a thread that from then on runs alone ends its operation: always if it is a find or a
      remove, and if it is an insert unless the tail is missing; then it may come to wait for it. */
  lemma AloneFinishes(e: Execution, t: Tid) returns (e': Execution)
    requires Busy(e, t)
    ensures Alone(e, e', t) && t in Last(e').threads
    ensures || Last(e').threads[t].Idle?
            || (TailMissing(Last(e).mem) && InInsert(Last(e).threads[t])
                && TailMissing(Last(e').mem) && Last(e').threads[t].LoadTail?)
  {
    match Last(e).threads[t]
    case Start(_) => e' := FromStart(e, t);
    case Walk(_, _, c) =>
      assert Ok(Last(e).mem, c) by { var e1 := OneStep(e, t); }
      e' := FromWalk(e, t, Rank(Last(e).mem, c));
    case CheckDeleted(_) => e' := FromCheck(e, t);
    case LoadHead(_, _, _) => e' := FromLoadHead(e, t);
    case CasHead(_, _, _, _) => e' := FromCasHead(e, t);
    case LoadTail(_) => e' := FromLoadTail(e, t);
    case CasNullTail(_) => e' := FromTailCas(e, t);
    case SwingTail(_, _) => e' := FromTailCas(e, t);
    case Mark(_, _, _) => e' := FromMark(e, t);
    case UnlinkRead(_, _) => e' := FromUnlink(e, t);
    case UnlinkLoad(_, _) => e' := FromUnlink(e, t);
    case UnlinkCas(_, _, _) => e' := FromUnlink(e, t);
    case _ => e' := FromAppend(e, t);
  }

  // ----- Waiting for the tail -----

  predicate SetsTail(sys: System, u: Tid) { u in sys.threads && sys.threads[u].CasNullTail? }

  predicate Waits(sys: System, t: Tid) {
    t in sys.threads && (sys.threads[t].LoadTail? || sys.threads[t].CasOrderHead?)
  }

  /** Only linking the first node leads there. */
  lemma BecomesSetter(cfg: Config, m: Memory, pc: Pc, a: Action)
    requires ValidConfig(cfg) && Allocated(cfg, m) && PcAllocated(m, pc) && Step(cfg, m, pc, a).1.CasNullTail?
    ensures pc.CasOrderHead? && m.orderHead.None?
  {
  }

  lemma SetterHasHead(m: Memory, pc: Pc)
    requires PreOrder(m, pc) && pc.CasNullTail?
    ensures m.orderHead.Some?
  {
    assert SlotAt(m, pc.node);
  }

  /** At most one thread is between setting the head and setting the tail. */
  lemma {:induction false} OneSetter(e: Execution, x: nat, u: Tid, v: Tid)
    requires x < |e.run| && SetsTail(e.run[x], u) && SetsTail(e.run[x], v)
    ensures u == v
    decreases x
  {
    if x > 0 {
      assert StepAt(e, x - 1);
      var sys, a := e.run[x - 1], e.acts[x - 1];
      if a.tid == u || a.tid == v {
        var w := if a.tid == u then v else u;
        BecomesSetter(e.cfg, sys.mem, sys.threads[a.tid], a);
        if w != a.tid {
          assert PreOrder(sys.mem, sys.threads[w]) by { RunInv(e, x - 1); }
          SetterHasHead(sys.mem, sys.threads[w]);
        }
      } else {
        OneSetter(e, x - 1, u, v);
      }
    }
  }

  /** The tail stays missing until that thread sets it. */
  lemma TailStaysMissing(cfg: Config, m: Memory, pc: Pc, a: Action)
    requires ValidConfig(cfg) && Allocated(cfg, m) && PcAllocated(m, pc) && TailMissing(m)
    ensures pc.CasNullTail? <==> !TailMissing(Step(cfg, m, pc, a).0)
  {
  }

  lemma TailGoesMissing(cfg: Config, m: Memory, pc: Pc, a: Action)
    requires ValidConfig(cfg) && Allocated(cfg, m) && PcAllocated(m, pc) && !TailMissing(m)
    requires TailMissing(Step(cfg, m, pc, a).0)
    ensures Step(cfg, m, pc, a).1.CasNullTail?
  {
  }

  /** When the tail is missing there is such a thread. */
  lemma {:induction false} HasSetter(e: Execution, x: nat) returns (u: Tid)
    requires x < |e.run| && TailMissing(e.run[x].mem)
    ensures SetsTail(e.run[x], u)
    decreases x
  {
    assert x > 0;
    assert StepAt(e, x - 1);
    var sys, a := e.run[x - 1], e.acts[x - 1];
    if TailMissing(sys.mem) {
      TailStaysMissing(e.cfg, sys.mem, sys.threads[a.tid], a);
      u := HasSetter(e, x - 1);
    } else {
      TailGoesMissing(e.cfg, sys.mem, sys.threads[a.tid], a);
      u := a.tid;
    }
  }

  lemma WaitStep(cfg: Config, m: Memory, pc: Pc, a: Action)
    requires ValidConfig(cfg) && Allocated(cfg, m) && PcAllocated(m, pc) && TailMissing(m)
    requires pc.LoadTail? || pc.CasOrderHead?
    ensures Step(cfg, m, pc, a).1.LoadTail? || Step(cfg, m, pc, a).1.CasOrderHead?
  {
  }

  /** An insert that has come to wait for the tail waits for that one thread: as long as it does not move, whatever all
      others do, the insert does not end. */
  lemma {:induction false} WaitsForSetter(e: Execution, t: Tid, u: Tid, i: nat, k: nat)
    requires i <= k < |e.run| && TailMissing(e.run[i].mem) && Waits(e.run[i], t) && SetsTail(e.run[i], u)
    requires forall x | i <= x < k :: e.acts[x].tid != u
    ensures TailMissing(e.run[k].mem) && Waits(e.run[k], t) && SetsTail(e.run[k], u)
    decreases k
  {
    if i < k {
      WaitsForSetter(e, t, u, i, k - 1);
      assert StepAt(e, k - 1);
      var sys, a := e.run[k - 1], e.acts[k - 1];
      if SetsTail(sys, a.tid) { OneSetter(e, k - 1, u, a.tid); }
      TailStaysMissing(e.cfg, sys.mem, sys.threads[a.tid], a);
      if a.tid == t { WaitStep(e.cfg, sys.mem, sys.threads[t], a); }
    }
  }

  /** Alone, it takes as many steps as one likes without ending. */
  lemma {:induction false} WaitsOn(e: Execution, t: Tid, u: Tid, n: nat) returns (e': Execution)
    requires TailMissing(Last(e).mem) && Waits(Last(e), t) && SetsTail(Last(e), u) && t != u
    ensures Alone(e, e', t) && |e'.acts| == |e.acts| + n && Waits(Last(e'), t)
    decreases n
  {
    e' := e;
    if n > 0 {
      var e1 := OneStep(e, t);
      assert e1.acts[|e.acts|].tid == t && e1.run[|e.run| - 1] == Last(e);
      assert Waits(Last(e1), t) && TailMissing(Last(e1).mem) && SetsTail(Last(e1), u) by {
        WaitsForSetter(e1, t, u, |e.run| - 1, |e1.run| - 1);
      }
      e' := WaitsOn(e1, t, u, n - 1);
      AloneTwice(e, e1, e', t);
    }
  }

  // ----- Such a state is reachable -----

  const FIRST: HashMapProtocol.Node := Node(0, 7, None, None, false, 1, 1)

  /** The first node linked and no tail; a second node, not on any chain, or published above the first. */
  const MISSING: Memory := Memory([FIRST], [Some(0)], 1, Some(0), None, [0])
  const MADE: Memory := Memory([FIRST, Node(1, 8, Some(0), None, false, 0, 0)], [Some(0)], 1, Some(0), None, [0])
  const SHOWN: Memory := Memory([FIRST, Node(1, 8, Some(0), None, false, 2, 0)], [Some(1)], 2, Some(0), None, [0])

  const OTHER: Op := RefusedInsert.OTHER

  lemma OtherReads()
    ensures RefusedInsert.Steps(MISSING, Idle(NoOutcome), OTHER, MISSING, Start(OTHER))
    ensures RefusedInsert.Steps(MISSING, Start(OTHER), OTHER, MISSING, Walk(OTHER, Head(0), Some(0)))
    ensures RefusedInsert.Steps(MISSING, Walk(OTHER, Head(0), Some(0)), OTHER, MISSING, Walk(OTHER, Next(0), None))
    ensures RefusedInsert.Steps(MISSING, Walk(OTHER, Next(0), None), OTHER, MISSING, LoadHead(1, 8, None))
  {
  }

  lemma OtherWrites()
    ensures RefusedInsert.Steps(MISSING, LoadHead(1, 8, None), OTHER, MADE, CasHead(1, 8, 1, Some(0)))
    ensures RefusedInsert.Steps(MADE, CasHead(1, 8, 1, Some(0)), OTHER, SHOWN, LoadTail(1))
  {
    assert MISSING.nodes + [MADE.nodes[1]] == MADE.nodes;
    assert MADE.nodes[1 := SHOWN.nodes[1]] == SHOWN.nodes && MADE.heads[0 := Some(1)] == SHOWN.heads;
  }

  /** One thread stops after setting the head; the insert of another then publishes its node and waits, for as many
      steps of its own as one likes. */
  lemma InsertWaits(n: nat) returns (e: Execution, e': Execution)
    ensures 0 in Last(e).threads && Last(e).threads[0] == CasNullTail(0) && TailMissing(Last(e).mem)
    ensures Alone(e, e', 1) && |e'.acts| == |e.acts| + n && Waits(Last(e'), 1)
  {
    OtherReads();
    OtherWrites();
    var stop, first, second := CasNullTail(0), Walk(OTHER, Head(0), Some(0)), Walk(OTHER, Next(0), None);
    e := RefusedInsert.HeadLinked();
    e := RefusedInsert.Second(e, OTHER, MISSING, Idle(NoOutcome), MISSING, Start(OTHER), stop);
    e := RefusedInsert.Second(e, OTHER, MISSING, Start(OTHER), MISSING, first, stop);
    e := RefusedInsert.Second(e, OTHER, MISSING, first, MISSING, second, stop);
    e := RefusedInsert.Second(e, OTHER, MISSING, second, MISSING, LoadHead(1, 8, None), stop);
    e := RefusedInsert.Second(e, OTHER, MISSING, LoadHead(1, 8, None), MADE, CasHead(1, 8, 1, Some(0)), stop);
    e := RefusedInsert.Second(e, OTHER, MADE, CasHead(1, 8, 1, Some(0)), SHOWN, LoadTail(1), stop);
    e' := WaitsOn(e, 1, 0, n);
  }
}
