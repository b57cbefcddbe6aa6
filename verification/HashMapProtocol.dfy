/**
 * The lock-free ordered hash map of znet/fancy_queue.h as a transition system.
 *
 * Any number of threads interleave single atomic loads, stores and
 * compare-and-swaps of `insert`, `find` and `remove`.  A weak CAS may fail
 * spuriously.  Atomics are sequentially consistent and the collector does not
 * run, so a node is never reused.
 *
 * Two history values are kept in every node and never read by a step: `rank`,
 * its position in the order of successful bucket-head CASes (0 = not yet
 * published), and `slot`, its position in the insertion-order chain (0 = not
 * yet linked).
 */
module HashMapProtocol {
  import opened Common

  type Id = nat
  type Tid = nat

  datatype Config = Config(bucketCount: nat, hash: int -> nat)

  predicate ValidConfig(cfg: Config) { cfg.bucketCount > 0 }

  function Bucket(cfg: Config, key: int): (b: nat)
    requires ValidConfig(cfg)
    ensures b < cfg.bucketCount
  {
    cfg.hash(key) % cfg.bucketCount
  }

  datatype Node = Node(key: int, value: int, bucketNext: Option<Id>, orderNext: Option<Id>,
                       deleted: bool, rank: nat, slot: nat)

  /** The address of an atomic bucket link: a bucket head or some node's `bucketNext`. */
  datatype Ptr = Head(bucket: nat) | Next(node: Id)

  /** `linked` is the history of order-chain links, `clock` the number of published nodes. */
  datatype Memory = Memory(nodes: seq<Node>, heads: seq<Option<Id>>, clock: nat,
                           orderHead: Option<Id>, orderTail: Option<Id>, linked: seq<Id>)

  datatype Op =
    | Find(key: int)
    | Remove(key: int)
    | Insert(key: int, value: int, made: Option<Id>)

  datatype Outcome = NoOutcome | Found(node: Id) | Missed | Removed | NotRemoved
                   | Inserted(node: Id) | NotInserted

  /** Program counters; each names the atomic access the thread performs next. */
  datatype Pc =
    | Idle(last: Outcome)
    | Start(op: Op)                                        // load the bucket head
    | Walk(op: Op, prev: Ptr, curr: Option<Id>)            // compare, then load bucketNext
    | CheckDeleted(node: Id)                               // find: load is_deleted
    | LoadHead(key: int, value: int, made: Option<Id>)    // allocate if needed, load head
    | CasHead(key: int, value: int, node: Id, expected: Option<Id>)
    | LoadTail(node: Id)
    | CasOrderHead(node: Id)
    | CasNullTail(node: Id)
    | LoadTailNext(node: Id, tail: Id)
    | RecheckTail(node: Id, tail: Id, next: Option<Id>)
    | HelpTail(node: Id, tail: Id, ahead: Id)
    | LinkAfter(node: Id, tail: Id)
    | SwingTail(node: Id, tail: Id)
    | Mark(key: int, prev: Ptr, node: Id)                  // remove: CAS is_deleted
    | UnlinkRead(prev: Ptr, node: Id)
    | UnlinkLoad(prev: Ptr, node: Id)
    | UnlinkCas(prev: Ptr, node: Id, next: Option<Id>)

  datatype System = System(mem: Memory, threads: map<Tid, Pc>)

  /** The scheduler's choice: who moves, whether a weak CAS fails spuriously, and
      which operation an idle thread begins. */
  datatype Action = Action(tid: Tid, spurious: bool, op: Op)

  // ----- Steps -----

  function Load(m: Memory, p: Ptr): Option<Id>
    requires p.Head? ==> p.bucket < |m.heads|
    requires p.Next? ==> p.node < |m.nodes|
  {
    match p
    case Head(b) => m.heads[b]
    case Next(n) => m.nodes[n].bucketNext
  }

  function Store(m: Memory, p: Ptr, v: Option<Id>): Memory
    requires p.Head? ==> p.bucket < |m.heads|
    requires p.Next? ==> p.node < |m.nodes|
  {
    match p
    case Head(b) => m.(heads := m.heads[b := v])
    case Next(n) => m.(nodes := m.nodes[n := m.nodes[n].(bucketNext := v)])
  }

  /** A null pointer or an allocated node. */
  predicate Ok(m: Memory, o: Option<Id>) { o.Some? ==> o.value < |m.nodes| }

  predicate PtrAllocated(m: Memory, p: Ptr) {
    match p
    case Head(b) => b < |m.heads|
    case Next(n) => n < |m.nodes|
  }

  predicate OpAllocated(m: Memory, op: Op) {
    op.Insert? ==> Ok(m, op.made)
  }

  /** Every node a thread may dereference has been allocated. */
  predicate PcAllocated(m: Memory, pc: Pc) {
    match pc
    case Idle(_) => true
    case Start(op) => OpAllocated(m, op)
    case Walk(op, p, c) => OpAllocated(m, op) && PtrAllocated(m, p) && Ok(m, c)
    case CheckDeleted(n) => n < |m.nodes|
    case LoadHead(_, _, f) => Ok(m, f)
    case CasHead(_, _, n, e) => n < |m.nodes| && Ok(m, e)
    case LoadTail(n) => n < |m.nodes|
    case CasOrderHead(n) => n < |m.nodes|
    case CasNullTail(n) => n < |m.nodes|
    case LoadTailNext(n, t) => n < |m.nodes| && t < |m.nodes|
    case RecheckTail(n, t, x) => n < |m.nodes| && t < |m.nodes| && Ok(m, x)
    case HelpTail(n, t, x) => n < |m.nodes| && t < |m.nodes| && x < |m.nodes|
    case LinkAfter(n, t) => n < |m.nodes| && t < |m.nodes|
    case SwingTail(n, t) => n < |m.nodes| && t < |m.nodes|
    case Mark(_, p, n) => PtrAllocated(m, p) && n < |m.nodes|
    case UnlinkRead(p, n) => PtrAllocated(m, p) && n < |m.nodes|
    case UnlinkLoad(p, n) => PtrAllocated(m, p) && n < |m.nodes|
    case UnlinkCas(p, n, x) => PtrAllocated(m, p) && n < |m.nodes| && Ok(m, x)
  }

  /** Every pointer held in shared memory is null or allocated. */
  predicate Allocated(cfg: Config, m: Memory) {
    && |m.heads| == cfg.bucketCount
    && (forall b | 0 <= b < |m.heads| :: Ok(m, m.heads[b]))
    && (forall n | 0 <= n < |m.nodes| :: Ok(m, m.nodes[n].bucketNext) && Ok(m, m.nodes[n].orderNext))
    && Ok(m, m.orderHead) && Ok(m, m.orderTail)
  }

  /** One iteration of find_in_bucket, or the branch its caller takes when it ends. */
  function WalkStep(m: Memory, pc: Pc): Pc
    requires pc.Walk? && PcAllocated(m, pc)
  {
    match pc.curr
    case None =>
      (match pc.op
       case Find(_) => Idle(Missed)
       case Remove(_) => Idle(NotRemoved)
       case Insert(k, v, f) => LoadHead(k, v, f))
    case Some(c) =>
      if m.nodes[c].key == pc.op.key then
        (match pc.op
         case Find(_) => CheckDeleted(c)
         case Remove(k) => Mark(k, pc.prev, c)
         case Insert(_, _, _) => Idle(NotInserted))
      else
        Walk(pc.op, Next(c), m.nodes[c].bucketNext)
  }

  /** Allocate the node if this is the first attempt, then aim it at the current head. */
  function LoadHeadStep(cfg: Config, m: Memory, pc: Pc): (Memory, Pc)
    requires ValidConfig(cfg) && Allocated(cfg, m) && pc.LoadHead? && PcAllocated(m, pc)
  {
    var head := m.heads[Bucket(cfg, pc.key)];
    match pc.made
    case None =>
      (m.(nodes := m.nodes + [Node(pc.key, pc.value, head, None, false, 0, 0)]),
       CasHead(pc.key, pc.value, |m.nodes|, head))
    case Some(f) =>
      (m.(nodes := m.nodes[f := m.nodes[f].(bucketNext := head)]), CasHead(pc.key, pc.value, f, head))
  }

  function CasHeadStep(cfg: Config, m: Memory, pc: Pc, spurious: bool): (Memory, Pc)
    requires ValidConfig(cfg) && Allocated(cfg, m) && pc.CasHead? && PcAllocated(m, pc)
  {
    var b := Bucket(cfg, pc.key);
    if spurious || m.heads[b] != pc.expected then
      (m, Start(Insert(pc.key, pc.value, Some(pc.node))))
    else
      (m.(heads := m.heads[b := Some(pc.node)], clock := m.clock + 1,
          nodes := m.nodes[pc.node := m.nodes[pc.node].(rank := m.clock + 1)]),
       LoadTail(pc.node))
  }

  function CasOrderHeadStep(m: Memory, pc: Pc, spurious: bool): (Memory, Pc)
    requires pc.CasOrderHead? && PcAllocated(m, pc)
  {
    if spurious || m.orderHead != None then
      (m, LoadTail(pc.node))
    else
      (m.(orderHead := Some(pc.node), linked := m.linked + [pc.node],
          nodes := m.nodes[pc.node := m.nodes[pc.node].(slot := |m.linked| + 1)]),
       CasNullTail(pc.node))
  }

  function LinkAfterStep(m: Memory, pc: Pc, spurious: bool): (Memory, Pc)
    requires pc.LinkAfter? && PcAllocated(m, pc)
  {
    if spurious || m.nodes[pc.tail].orderNext != None then
      (m, LoadTail(pc.node))
    else
      var nodes := m.nodes[pc.tail := m.nodes[pc.tail].(orderNext := Some(pc.node))];
      (m.(linked := m.linked + [pc.node],
          nodes := nodes[pc.node := nodes[pc.node].(slot := |m.linked| + 1)]),
       SwingTail(pc.node, pc.tail))
  }

  function CasTail(m: Memory, expected: Option<Id>, desired: Id): Memory {
    if m.orderTail == expected then m.(orderTail := Some(desired)) else m
  }

  /** One atomic step of a thread at `pc`. */
  function Step(cfg: Config, m: Memory, pc: Pc, a: Action): (Memory, Pc)
    requires ValidConfig(cfg) && Allocated(cfg, m) && PcAllocated(m, pc)
  {
    match pc
    case Idle(_) => (m, Start(if a.op.Insert? then a.op.(made := None) else a.op))
    case Start(op) =>
      var b := Bucket(cfg, op.key);
      (m, Walk(op, Head(b), m.heads[b]))
    case Walk(_, _, _) => (m, WalkStep(m, pc))
    case CheckDeleted(n) => (m, Idle(if m.nodes[n].deleted then Missed else Found(n)))
    case LoadHead(_, _, _) => LoadHeadStep(cfg, m, pc)
    case CasHead(_, _, _, _) => CasHeadStep(cfg, m, pc, a.spurious)
    case LoadTail(n) =>
      (m, if m.orderTail.None? then CasOrderHead(n) else LoadTailNext(n, m.orderTail.value))
    case CasOrderHead(_) => CasOrderHeadStep(m, pc, a.spurious)
    case CasNullTail(n) => (CasTail(m, None, n), Idle(Inserted(n)))
    case LoadTailNext(n, t) => (m, RecheckTail(n, t, m.nodes[t].orderNext))
    case RecheckTail(n, t, next) =>
      (m, if m.orderTail != Some(t) then LoadTail(n)
          else if next.Some? then HelpTail(n, t, next.value)
          else LinkAfter(n, t))
    case HelpTail(n, t, next) => (if a.spurious then m else CasTail(m, Some(t), next), LoadTail(n))
    case LinkAfter(_, _) => LinkAfterStep(m, pc, a.spurious)
    case SwingTail(n, t) => (CasTail(m, Some(t), n), Idle(Inserted(n)))
    case Mark(k, p, n) =>
      if a.spurious && !m.nodes[n].deleted then (m, Start(Remove(k)))
      else (m.(nodes := m.nodes[n := m.nodes[n].(deleted := true)]), UnlinkRead(p, n))
    case UnlinkRead(p, n) => (m, if Load(m, p) == Some(n) then UnlinkLoad(p, n) else Idle(Removed))
    case UnlinkLoad(p, n) => (m, UnlinkCas(p, n, m.nodes[n].bucketNext))
    case UnlinkCas(p, n, next) =>
      (if Load(m, p) == Some(n) then Store(m, p, next) else m, Idle(Removed))
  }

  /** The key a thread is currently trying to publish. */
  function InsertKey(pc: Pc): Option<int> {
    match pc
    case Start(op) => if op.Insert? then Some(op.key) else None
    case Walk(op, _, _) => if op.Insert? then Some(op.key) else None
    case LoadHead(k, _, _) => Some(k)
    case CasHead(k, _, _, _) => Some(k)
    case _ => None
  }

  /** An idle thread may begin any operation, except that two threads never insert the
      same key at once. */
  predicate MayMove(sys: System, a: Action) {
    && a.tid in sys.threads
    && (sys.threads[a.tid].Idle? && a.op.Insert? ==>
          forall t | t in sys.threads && t != a.tid :: InsertKey(sys.threads[t]) != Some(a.op.key))
  }

  predicate SystemAllocated(cfg: Config, sys: System) {
    && ValidConfig(cfg) && Allocated(cfg, sys.mem)
    && forall t | t in sys.threads :: PcAllocated(sys.mem, sys.threads[t])
  }

  function SystemStep(cfg: Config, sys: System, a: Action): System
    requires SystemAllocated(cfg, sys) && MayMove(sys, a)
  {
    var (mem, pc) := Step(cfg, sys.mem, sys.threads[a.tid], a);
    System(mem, sys.threads[a.tid := pc])
  }

  predicate Initial(cfg: Config, sys: System) {
    && ValidConfig(cfg)
    && sys.mem == Memory([], seq(cfg.bucketCount, _ => None), 0, None, None, [])
    && forall t | t in sys.threads :: sys.threads[t] == Idle(NoOutcome)
  }

  datatype Trace = Trace(cfg: Config, run: seq<System>, acts: seq<Action>)

  /** State `i + 1` follows from state `i` by action `i`. */
  predicate StepAt(e: Trace, i: nat)
    requires |e.run| == |e.acts| + 1 && i < |e.acts|
  {
    && SystemAllocated(e.cfg, e.run[i])
    && MayMove(e.run[i], e.acts[i])
    && e.run[i + 1] == SystemStep(e.cfg, e.run[i], e.acts[i])
  }

  predicate IsRun(e: Trace) {
    && |e.run| == |e.acts| + 1
    && Initial(e.cfg, e.run[0])
    && forall i | 0 <= i < |e.acts| :: StepAt(e, i)
  }

  /** An execution from an initial state. */
  type Execution = e: Trace | IsRun(e)
    witness Trace(Config(1, _ => 0), [System(Memory([], seq(1, _ => None), 0, None, None, []), map[])], [])
}
