/** What a remove must do: mark the live holder of the key, and, left alone, take the first node with the key off its
    bucket chain and nothing else. */
module HashMapRemoval {
  import opened Common
  import opened HashMapProtocol
  import opened HashMapInvariants
  import opened HashMapSteps
  import opened HashMapTheorems
  import opened HashMapLinearization
  import opened HashMapRefusal
  import OrderedMap

  // ----- Whatever the others do -----

  /** Where a remove stands that is after the live node `n`: it will come to it, has marked it, or is done with it. */
  predicate Hunting(m: Memory, pc: Pc, key: int, n: Id) {
    match pc
    case Start(o) => o == Remove(key) && IsLive(m, key, n)
    case Walk(o, _, c) => o == Remove(key) && NotPassed(m, c, key, n)
    case Mark(k, _, c) => k == key && c == n && IsLive(m, key, n)
    case UnlinkRead(_, c) => c == n < |m.nodes| && m.nodes[n].deleted
    case UnlinkLoad(_, c) => c == n < |m.nodes| && m.nodes[n].deleted
    case UnlinkCas(_, c, _) => c == n < |m.nodes| && m.nodes[n].deleted
    case Idle(r) => r.Removed? && n < |m.nodes| && m.nodes[n].deleted
    case _ => false
  }

  lemma StartHunt(cfg: Config, m: Memory, key: int, a: Action, n: Id)
    requires BucketInv(cfg, m) && IsLive(m, key, n)
    ensures Hunting(m, Step(cfg, m, Start(Remove(key)), a).1, key, n)
  {
    var b := Bucket(cfg, key);
    assert Link(cfg, m, b, m.clock + 1, m.heads[b]);
    assert RankBounded(m);
  }

  lemma WalkHunt(cfg: Config, m: Memory, pc: Pc, key: int, n: Id)
    requires PreBucket(cfg, m, pc) && pc.Walk? && Hunting(m, pc, key, n)
    ensures Hunting(m, WalkStep(m, pc), key, n)
  {
    var c := pc.curr.value;
    assert RankInv(m) && KeyInv(m);
    if m.nodes[c].key == key {
      assert c == n;
    } else {
      assert Link(cfg, m, Bucket(cfg, key), m.nodes[c].rank, m.nodes[c].bucketNext);
    }
  }

  lemma LastHunt(cfg: Config, m: Memory, pc: Pc, a: Action, key: int, n: Id)
    requires ValidConfig(cfg) && Allocated(cfg, m) && PcAllocated(m, pc) && Hunting(m, pc, key, n)
    requires pc.Mark? || pc.UnlinkRead? || pc.UnlinkLoad? || pc.UnlinkCas?
    ensures Hunting(Step(cfg, m, pc, a).0, Step(cfg, m, pc, a).1, key, n)
  {
  }

  lemma OwnHunt(cfg: Config, m: Memory, pc: Pc, a: Action, key: int, n: Id)
    requires PreBucket(cfg, m, pc) && !pc.Idle? && Hunting(m, pc, key, n)
    ensures Hunting(Step(cfg, m, pc, a).0, Step(cfg, m, pc, a).1, key, n)
  {
    if pc.Start? {
      StartHunt(cfg, m, key, a, n);
    } else if pc.Walk? {
      WalkHunt(cfg, m, pc, key, n);
    } else {
      LastHunt(cfg, m, pc, a, key, n);
    }
  }

  lemma OtherHunt(m: Memory, m': Memory, pc: Pc, key: int, n: Id)
    requires Grows(m, m') && Hunting(m, pc, key, n) && (IsLive(m, key, n) ==> IsLive(m', key, n))
    ensures Hunting(m', pc, key, n)
  {
  }

  /** No thread but `t` marks the node. */
  predicate Spared(e: Execution, t: Tid, key: int, n: Id, i: nat, k: nat) {
    forall x | i <= x < k && x + 1 < |e.run| && e.acts[x].tid != t && IsLive(e.run[x].mem, key, n) ::
      IsLive(e.run[x + 1].mem, key, n)
  }

  lemma HuntNext(e: Execution, t: Tid, key: int, n: Id, x: nat)
    requires x + 1 < |e.run| && t in e.run[x].threads && !e.run[x].threads[t].Idle?
    requires Hunting(e.run[x].mem, e.run[x].threads[t], key, n)
    requires e.acts[x].tid != t && IsLive(e.run[x].mem, key, n) ==> IsLive(e.run[x + 1].mem, key, n)
    ensures t in e.run[x + 1].threads && Hunting(e.run[x + 1].mem, e.run[x + 1].threads[t], key, n)
  {
    assert PreBucket(e.cfg, e.run[x].mem, e.run[x].threads[t]) by { RunInv(e, x); }
    RunStepGrows(e, x);
    assert StepAt(e, x);
    if e.acts[x].tid == t {
      OwnHunt(e.cfg, e.run[x].mem, e.run[x].threads[t], e.acts[x], key, n);
    } else {
      OtherHunt(e.run[x].mem, e.run[x + 1].mem, e.run[x].threads[t], key, n);
    }
  }

  lemma {:induction false} StillHunting(e: Execution, t: Tid, key: int, n: Id, i: nat, x: nat)
    requires Within(e, t, i, x) && Hunting(e.run[i].mem, e.run[i].threads[t], key, n) && Spared(e, t, key, n, i, x)
    ensures Hunting(e.run[x].mem, e.run[x].threads[t], key, n)
    decreases x
  {
    if i < x {
      StillHunting(e, t, key, n, i, x - 1);
      HuntNext(e, t, key, n, x - 1);
    }
  }

  /** A remove that begins while a node with its key is live, and no other thread marks that node, reports success, and
      has marked it. */
  lemma LiveIsRemoved(e: Execution, t: Tid, key: int, i: nat, k: nat, n: Id)
    requires Within(e, t, i, k) && e.run[i].threads[t] == Start(Remove(key)) && e.run[k].threads[t].Idle?
    requires IsLive(e.run[i].mem, key, n) && Spared(e, t, key, n, i, k)
    ensures e.run[k].threads[t] == Idle(Removed) && n < |e.run[k].mem.nodes| && e.run[k].mem.nodes[n].deleted
  {
    StillHunting(e, t, key, n, i, k);
  }

  /** Where a remove stands, whatever it comes to. */
  ghost predicate Removing(m: Memory, pc: Pc, key: int) {
    match pc
    case Start(o) => o == Remove(key)
    case Walk(o, _, _) => o == Remove(key)
    case Mark(k, _, c) => k == key && Occupied(m, key, c)
    case UnlinkRead(_, c) => Occupied(m, key, c) && m.nodes[c].deleted
    case UnlinkLoad(_, c) => Occupied(m, key, c) && m.nodes[c].deleted
    case UnlinkCas(_, c, _) => Occupied(m, key, c) && m.nodes[c].deleted
    case Idle(r) => r.NotRemoved? || (r.Removed? && exists n: Id :: Occupied(m, key, n) && m.nodes[n].deleted)
    case _ => false
  }

  lemma RemovingWalk(cfg: Config, m: Memory, pc: Pc, key: int)
    requires ValidConfig(cfg) && PcAllocated(m, pc) && PcBucket(cfg, m, pc) && pc.Walk? && Removing(m, pc, key)
    ensures Removing(m, WalkStep(m, pc), key)
  {
  }

  lemma RemovingLast(cfg: Config, m: Memory, pc: Pc, a: Action, key: int)
    requires ValidConfig(cfg) && Allocated(cfg, m) && PcAllocated(m, pc) && Removing(m, pc, key)
    requires pc.Mark? || pc.UnlinkRead? || pc.UnlinkLoad? || pc.UnlinkCas?
    ensures Removing(Step(cfg, m, pc, a).0, Step(cfg, m, pc, a).1, key)
  {
    var m' := Step(cfg, m, pc, a).0;
    if !pc.Mark? { assert Occupied(m', key, pc.node) && m'.nodes[pc.node].deleted; }
  }

  lemma RemovingOwn(cfg: Config, m: Memory, pc: Pc, a: Action, key: int)
    requires ValidConfig(cfg) && Allocated(cfg, m) && PcAllocated(m, pc) && PcBucket(cfg, m, pc)
    requires !pc.Idle? && Removing(m, pc, key)
    ensures Removing(Step(cfg, m, pc, a).0, Step(cfg, m, pc, a).1, key)
  {
    if pc.Walk? {
      RemovingWalk(cfg, m, pc, key);
    } else if !pc.Start? {
      RemovingLast(cfg, m, pc, a, key);
    }
  }

  lemma RemovingOther(m: Memory, m': Memory, pc: Pc, key: int)
    requires Grows(m, m') && !pc.Idle? && Removing(m, pc, key)
    ensures Removing(m', pc, key)
  {
  }

  lemma RemovingNext(e: Execution, t: Tid, key: int, x: nat)
    requires x + 1 < |e.run| && t in e.run[x].threads && !e.run[x].threads[t].Idle?
    requires Removing(e.run[x].mem, e.run[x].threads[t], key)
    ensures t in e.run[x + 1].threads && Removing(e.run[x + 1].mem, e.run[x + 1].threads[t], key)
  {
    var pc := e.run[x].threads[t];
    assert PcAllocated(e.run[x].mem, pc) && ValidConfig(e.cfg) && PcBucket(e.cfg, e.run[x].mem, pc) by {
      RunInv(e, x);
      assert PreBucket(e.cfg, e.run[x].mem, pc);
    }
    RunStepGrows(e, x);
    assert StepAt(e, x);
    if e.acts[x].tid == t {
      RemovingOwn(e.cfg, e.run[x].mem, pc, e.acts[x], key);
    } else {
      RemovingOther(e.run[x].mem, e.run[x + 1].mem, pc, key);
    }
  }

  lemma {:induction false} StillRemoving(e: Execution, t: Tid, key: int, i: nat, x: nat)
    requires Within(e, t, i, x) && Removing(e.run[i].mem, e.run[i].threads[t], key)
    ensures Removing(e.run[x].mem, e.run[x].threads[t], key)
    decreases x
  {
    if i < x {
      StillRemoving(e, t, key, i, x - 1);
      RemovingNext(e, t, key, x - 1);
    }
  }

  /** A remove reports success or failure, success only if a published node with the key is marked deleted by then. */
  lemma RemovedIsMarked(e: Execution, t: Tid, key: int, i: nat, k: nat)
    requires Within(e, t, i, k) && e.run[i].threads[t] == Start(Remove(key)) && e.run[k].threads[t].Idle?
    ensures e.run[k].threads[t] == Idle(NotRemoved) || e.run[k].threads[t] == Idle(Removed)
    ensures e.run[k].threads[t] == Idle(Removed) ==>
              exists n: Id :: Occupied(e.run[k].mem, key, n) && e.run[k].mem.nodes[n].deleted
  {
    StillRemoving(e, t, key, i, k);
  }

  // ----- Left alone -----

  /** The node at place `j` links to the next. */
  predicate LinkAt(m: Memory, ids: seq<Id>, j: nat)
    requires j < |ids|
  {
    ids[j] < |m.nodes| && m.nodes[ids[j]].bucketNext == OrderedMap.Get(ids, j + 1)
  }

  /** Following bucket links from `from` visits exactly `ids`. */
  predicate ChainIs(m: Memory, from: Option<Id>, ids: seq<Id>) {
    from == OrderedMap.Get(ids, 0) && forall j | 0 <= j < |ids| :: LinkAt(m, ids, j)
  }

  /** In bucket `b` every link leads down, to a node of the bucket or to the end. */
  ghost predicate Down(cfg: Config, m: Memory, b: nat) {
    && ValidConfig(cfg) && Allocated(cfg, m)
    && forall c: Id | Published(cfg, m, c, b) ::
         In(cfg, m, b, m.nodes[c].bucketNext) && Rank(m, m.nodes[c].bucketNext) < m.nodes[c].rank
  }

  lemma LinksLeadDown(cfg: Config, m: Memory, b: nat)
    requires BucketInv(cfg, m) && b < |m.heads|
    ensures Down(cfg, m, b) && In(cfg, m, b, m.heads[b])
  {
    assert Link(cfg, m, b, m.clock + 1, m.heads[b]);
    forall c: Id | Published(cfg, m, c, b)
      ensures In(cfg, m, b, m.nodes[c].bucketNext) && Rank(m, m.nodes[c].bucketNext) < m.nodes[c].rank
    {
      assert Link(cfg, m, b, m.nodes[c].rank, m.nodes[c].bucketNext);
    }
  }

  /** The nodes are published in the bucket, and different. */
  predicate InBucket(cfg: Config, m: Memory, b: nat, ids: seq<Id>)
    requires ValidConfig(cfg)
  {
    Distinct(ids) && forall j | 0 <= j < |ids| :: Published(cfg, m, ids[j], b)
  }

  /** All are lower than rank `hi`. */
  predicate Below(m: Memory, ids: seq<Id>, hi: nat) {
    forall j | 0 <= j < |ids| :: ids[j] < |m.nodes| && m.nodes[ids[j]].rank < hi
  }

  lemma ChainPrepend(cfg: Config, m: Memory, b: nat, c: Id, rest: seq<Id>)
    requires ValidConfig(cfg) && Published(cfg, m, c, b) && ChainIs(m, m.nodes[c].bucketNext, rest)
    requires InBucket(cfg, m, b, rest) && Below(m, rest, m.nodes[c].rank)
    ensures ChainIs(m, Some(c), [c] + rest) && InBucket(cfg, m, b, [c] + rest)
    ensures Below(m, [c] + rest, m.nodes[c].rank + 1)
  {
    var ids := [c] + rest;
    forall j | 0 <= j < |ids|
      ensures LinkAt(m, ids, j) && Published(cfg, m, ids[j], b) && m.nodes[ids[j]].rank <= m.nodes[c].rank
    {
      if j > 0 { assert ids[j] == rest[j - 1] && LinkAt(m, rest, j - 1); }
    }
  }

  lemma BelowMore(m: Memory, ids: seq<Id>, low: nat, hi: nat)
    requires Below(m, ids, low) && low <= hi
    ensures Below(m, ids, hi)
  {
  }

  lemma NextDown(cfg: Config, m: Memory, b: nat, c: Id)
    requires Down(cfg, m, b) && Published(cfg, m, c, b)
    ensures In(cfg, m, b, m.nodes[c].bucketNext) && Ok(m, m.nodes[c].bucketNext)
    ensures Rank(m, m.nodes[c].bucketNext) < m.nodes[c].rank
  {
  }

  /** Every bucket has its chain. */
  lemma {:induction false} HasChain(cfg: Config, m: Memory, b: nat, from: Option<Id>) returns (ids: seq<Id>)
    requires Down(cfg, m, b) && In(cfg, m, b, from)
    ensures ChainIs(m, from, ids) && InBucket(cfg, m, b, ids) && Below(m, ids, Rank(m, from) + 1)
    decreases Rank(m, from)
  {
    ids := [];
    if from.Some? {
      var c := from.value;
      NextDown(cfg, m, b, c);
      var rest := HasChain(cfg, m, b, m.nodes[c].bucketNext);
      BelowMore(m, rest, Rank(m, m.nodes[c].bucketNext) + 1, m.nodes[c].rank);
      ChainPrepend(cfg, m, b, c, rest);
      ids := [c] + rest;
    }
  }

  lemma ChainFrame(cfg: Config, m: Memory, m': Memory, b: nat, from: Option<Id>, ids: seq<Id>)
    requires ValidConfig(cfg) && InBucket(cfg, m, b, ids) && ChainIs(m, from, ids) && SameBucket(cfg, m, m', b)
    ensures ChainIs(m', from, ids)
  {
    forall j | 0 <= j < |ids| ensures LinkAt(m', ids, j) { assert LinkAt(m, ids, j) && Published(cfg, m, ids[j], b); }
  }

  lemma StillInBucket(cfg: Config, m: Memory, m': Memory, b: nat, ids: seq<Id>)
    requires ValidConfig(cfg) && InBucket(cfg, m, b, ids) && Grows(m, m')
    ensures InBucket(cfg, m', b, ids)
  {
    forall j | 0 <= j < |ids| ensures Published(cfg, m', ids[j], b) { assert Published(cfg, m, ids[j], b); }
  }

  /** Place `p` is the first with the key, or the end. */
  predicate FirstAt(m: Memory, ids: seq<Id>, key: int, p: nat) {
    && p <= |ids| && (forall j | 0 <= j < |ids| :: ids[j] < |m.nodes|)
    && (forall j | 0 <= j < p :: m.nodes[ids[j]].key != key) && (p < |ids| ==> m.nodes[ids[p]].key == key)
  }

  /** The link that leads to place `q`. */
  function LinkTo(b: nat, ids: seq<Id>, q: nat): Ptr
    requires q <= |ids|
  {
    if q == 0 then Head(b) else Next(ids[q - 1])
  }

  /** The remove has come to place `p` and found its key there. */
  predicate AtPlace(b: nat, ids: seq<Id>, p: nat, prev: Ptr, n: Id) {
    p < |ids| && prev == LinkTo(b, ids, p) && n == ids[p]
  }

  predicate OnTheWay(b: nat, ids: seq<Id>, p: nat, prev: Ptr, curr: Option<Id>, q: nat) {
    q <= p <= |ids| && prev == LinkTo(b, ids, q) && curr == OrderedMap.Get(ids, q)
  }

  /** Where a remove stands in bucket `b` whose chain was `ids`, the first node with the key at place `p`. */
  ghost predicate Plan(m: Memory, pc: Pc, b: nat, ids: seq<Id>, key: int, p: nat)
    requires b < |m.heads|
  {
    && FirstAt(m, ids, key, p) && Distinct(ids) && (!pc.Idle? ==> ChainIs(m, m.heads[b], ids))
    && match pc
       case Start(o) => o == Remove(key)
       case Walk(o, prev, c) => o == Remove(key) && exists q: nat :: OnTheWay(b, ids, p, prev, c, q)
       case Mark(k, prev, n) => k == key && AtPlace(b, ids, p, prev, n)
       case UnlinkRead(prev, n) => AtPlace(b, ids, p, prev, n) && m.nodes[n].deleted
       case UnlinkLoad(prev, n) => AtPlace(b, ids, p, prev, n) && m.nodes[n].deleted
       case UnlinkCas(prev, n, x) =>
         AtPlace(b, ids, p, prev, n) && m.nodes[n].deleted && x == OrderedMap.Get(ids, p + 1)
       case Idle(r) => Carried(m, r, b, ids, p)
       case _ => false
  }

  /** What such a remove comes to: the first node with the key is marked and off the chain, the others still on it in
      their order; or there is none and nothing has changed. */
  predicate Carried(m: Memory, r: Outcome, b: nat, ids: seq<Id>, p: nat)
    requires b < |m.heads| && p <= |ids| && forall j | 0 <= j < |ids| :: ids[j] < |m.nodes|
  {
    if p < |ids| then r.Removed? && m.nodes[ids[p]].deleted && ChainIs(m, m.heads[b], OrderedMap.Without(ids, p))
    else r.NotRemoved? && ChainIs(m, m.heads[b], ids)
  }

  lemma StartPlan(cfg: Config, m: Memory, a: Action, ids: seq<Id>, key: int, p: nat)
    requires ValidConfig(cfg) && Allocated(cfg, m) && Plan(m, Start(Remove(key)), Bucket(cfg, key), ids, key, p)
    ensures Plan(m, Step(cfg, m, Start(Remove(key)), a).1, Bucket(cfg, key), ids, key, p)
  {
    assert OnTheWay(Bucket(cfg, key), ids, p, Head(Bucket(cfg, key)), m.heads[Bucket(cfg, key)], 0);
  }

  lemma WalkPlan(m: Memory, pc: Pc, b: nat, ids: seq<Id>, key: int, p: nat)
    requires PcAllocated(m, pc) && pc.Walk? && b < |m.heads| && Plan(m, pc, b, ids, key, p)
    ensures Plan(m, WalkStep(m, pc), b, ids, key, p)
  {
    var q: nat :| OnTheWay(b, ids, p, pc.prev, pc.curr, q);
    if q < |ids| { assert LinkAt(m, ids, q); }
    if q < p { assert OnTheWay(b, ids, p, Next(ids[q]), m.nodes[ids[q]].bucketNext, q + 1); }
  }

  lemma WithoutAt(ids: seq<Id>, p: nat, j: nat)
    requires p < |ids| && j < |ids| - 1
    ensures var rest := OrderedMap.Without(ids, p);
            && |rest| == |ids| - 1 && rest[j] == ids[if j < p then j else j + 1]
            && OrderedMap.Get(rest, j + 1) == OrderedMap.Get(ids, if j + 1 < p then j + 1 else j + 2)
  {
  }

  /** The link at place `j` is that of the chain, but the one to place `p` goes one further. */
  predicate SkipAt(m: Memory, ids: seq<Id>, p: nat, j: nat)
    requires j < |ids|
  {
    ids[j] < |m.nodes| && m.nodes[ids[j]].bucketNext == OrderedMap.Get(ids, if j + 1 == p then j + 2 else j + 1)
  }

  lemma SkippedIsOff(m: Memory, from: Option<Id>, ids: seq<Id>, p: nat)
    requires p < |ids| && (forall j | 0 <= j < |ids| :: SkipAt(m, ids, p, j))
    requires from == OrderedMap.Get(ids, if p == 0 then 1 else 0)
    ensures ChainIs(m, from, OrderedMap.Without(ids, p))
  {
    var rest := OrderedMap.Without(ids, p);
    forall j | 0 <= j < |rest| ensures LinkAt(m, rest, j) {
      WithoutAt(ids, p, j);
      assert SkipAt(m, ids, p, if j < p then j else j + 1);
    }
  }

  lemma StoreSkips(m: Memory, ids: seq<Id>, p: nat, j: nat)
    requires 0 < p < |ids| && Distinct(ids) && j < |ids| && LinkAt(m, ids, j) && ids[p - 1] < |m.nodes|
    ensures SkipAt(Store(m, Next(ids[p - 1]), OrderedMap.Get(ids, p + 1)), ids, p, j)
  {
  }

  /** Storing its successor into the link to a node takes the node off the chain. */
  lemma StoreTakesOff(m: Memory, b: nat, ids: seq<Id>, p: nat)
    requires b < |m.heads| && ChainIs(m, m.heads[b], ids) && Distinct(ids) && p < |ids|
    ensures PtrAllocated(m, LinkTo(b, ids, p)) && Load(m, LinkTo(b, ids, p)) == Some(ids[p])
    ensures var m' := Store(m, LinkTo(b, ids, p), OrderedMap.Get(ids, p + 1));
            b < |m'.heads| && ChainIs(m', m'.heads[b], OrderedMap.Without(ids, p))
  {
    if p > 0 { assert LinkAt(m, ids, p - 1); }
    var m' := Store(m, LinkTo(b, ids, p), OrderedMap.Get(ids, p + 1));
    forall j | 0 <= j < |ids| ensures SkipAt(m', ids, p, j) {
      assert LinkAt(m, ids, j);
      if p > 0 { StoreSkips(m, ids, p, j); }
    }
    SkippedIsOff(m', m'.heads[b], ids, p);
  }

  lemma SameLinks(m: Memory, m': Memory, from: Option<Id>, ids: seq<Id>)
    requires ChainIs(m, from, ids) && |m.nodes| == |m'.nodes|
    requires forall n | 0 <= n < |m.nodes| :: m'.nodes[n].bucketNext == m.nodes[n].bucketNext
    ensures ChainIs(m', from, ids)
  {
    forall j | 0 <= j < |ids| ensures LinkAt(m', ids, j) { assert LinkAt(m, ids, j); }
  }

  lemma MarkPlan(cfg: Config, m: Memory, pc: Pc, a: Action, b: nat, ids: seq<Id>, key: int, p: nat)
    requires ValidConfig(cfg) && Allocated(cfg, m) && PcAllocated(m, pc) && pc.Mark?
    requires b < |m.heads| && Plan(m, pc, b, ids, key, p)
    ensures Plan(Step(cfg, m, pc, a).0, Step(cfg, m, pc, a).1, b, ids, key, p)
  {
    SameLinks(m, Step(cfg, m, pc, a).0, m.heads[b], ids);
  }

  lemma UnlinkPlan(cfg: Config, m: Memory, pc: Pc, a: Action, b: nat, ids: seq<Id>, key: int, p: nat)
    requires ValidConfig(cfg) && Allocated(cfg, m) && PcAllocated(m, pc)
    requires pc.UnlinkRead? || pc.UnlinkLoad?
    requires b < |m.heads| && Plan(m, pc, b, ids, key, p)
    ensures Plan(Step(cfg, m, pc, a).0, Step(cfg, m, pc, a).1, b, ids, key, p)
  {
    StoreTakesOff(m, b, ids, p);
    assert LinkAt(m, ids, p);
  }

  lemma CasPlan(cfg: Config, m: Memory, pc: Pc, a: Action, b: nat, ids: seq<Id>, key: int, p: nat)
    requires ValidConfig(cfg) && Allocated(cfg, m) && PcAllocated(m, pc) && pc.UnlinkCas?
    requires b < |m.heads| && Plan(m, pc, b, ids, key, p)
    ensures b < |Step(cfg, m, pc, a).0.heads| && Plan(Step(cfg, m, pc, a).0, Step(cfg, m, pc, a).1, b, ids, key, p)
  {
    StoreTakesOff(m, b, ids, p);
    var m' := Store(m, pc.prev, pc.next);
    assert Step(cfg, m, pc, a) == (m', Idle(Removed));
    assert FirstAt(m', ids, key, p);
  }

  lemma OwnPlan(cfg: Config, m: Memory, pc: Pc, a: Action, ids: seq<Id>, key: int, p: nat)
    requires ValidConfig(cfg) && Allocated(cfg, m) && PcAllocated(m, pc)
    requires !pc.Idle? && Plan(m, pc, Bucket(cfg, key), ids, key, p)
    ensures var (m', pc') := Step(cfg, m, pc, a);
            Bucket(cfg, key) < |m'.heads| && Plan(m', pc', Bucket(cfg, key), ids, key, p)
  {
    var b := Bucket(cfg, key);
    if pc.Start? {
      StartPlan(cfg, m, a, ids, key, p);
    } else if pc.Walk? {
      WalkPlan(m, pc, b, ids, key, p);
    } else if pc.Mark? {
      MarkPlan(cfg, m, pc, a, b, ids, key, p);
    } else if pc.UnlinkCas? {
      CasPlan(cfg, m, pc, a, b, ids, key, p);
    } else {
      UnlinkPlan(cfg, m, pc, a, b, ids, key, p);
    }
  }

  lemma OtherPlan(cfg: Config, m: Memory, m': Memory, pc: Pc, b: nat, ids: seq<Id>, key: int, p: nat)
    requires ValidConfig(cfg) && !pc.Idle? && b < |m.heads| && Plan(m, pc, b, ids, key, p) && InBucket(cfg, m, b, ids)
    requires SameBucket(cfg, m, m', b) && Grows(m, m')
    ensures Plan(m', pc, b, ids, key, p)
  {
    ChainFrame(cfg, m, m', b, m.heads[b], ids);
  }

  /** No other thread changes a link of bucket `b`. */
  ghost predicate LeftAlone(e: Execution, t: Tid, b: nat, i: nat, k: nat) {
    forall x | i <= x < k && x + 1 < |e.run| && e.acts[x].tid != t ::
      ValidConfig(e.cfg) && SameBucket(e.cfg, e.run[x].mem, e.run[x + 1].mem, b)
  }

  ghost predicate Planned(e: Execution, x: nat, t: Tid, ids: seq<Id>, key: int, p: nat) {
    && x < |e.run| && t in e.run[x].threads && ValidConfig(e.cfg) && Bucket(e.cfg, key) < |e.run[x].mem.heads|
    && Plan(e.run[x].mem, e.run[x].threads[t], Bucket(e.cfg, key), ids, key, p)
    && InBucket(e.cfg, e.run[x].mem, Bucket(e.cfg, key), ids)
  }

  lemma PlanNext(e: Execution, t: Tid, x: nat, ids: seq<Id>, key: int, p: nat)
    requires x + 1 < |e.run| && Planned(e, x, t, ids, key, p) && !e.run[x].threads[t].Idle?
    requires e.acts[x].tid != t ==> SameBucket(e.cfg, e.run[x].mem, e.run[x + 1].mem, Bucket(e.cfg, key))
    ensures Planned(e, x + 1, t, ids, key, p)
  {
    RunStepGrows(e, x);
    StillInBucket(e.cfg, e.run[x].mem, e.run[x + 1].mem, Bucket(e.cfg, key), ids);
    assert StepAt(e, x);
    if e.acts[x].tid == t {
      OwnPlan(e.cfg, e.run[x].mem, e.run[x].threads[t], e.acts[x], ids, key, p);
    } else {
      OtherPlan(e.cfg, e.run[x].mem, e.run[x + 1].mem, e.run[x].threads[t], Bucket(e.cfg, key), ids, key, p);
    }
  }

  lemma {:induction false} StillPlanned(e: Execution, t: Tid, i: nat, x: nat, ids: seq<Id>, key: int, p: nat)
    requires Within(e, t, i, x) && Planned(e, i, t, ids, key, p) && LeftAlone(e, t, Bucket(e.cfg, key), i, x)
    ensures Planned(e, x, t, ids, key, p)
    decreases x
  {
    if i < x {
      StillPlanned(e, t, i, x - 1, ids, key, p);
      PlanNext(e, t, x - 1, ids, key, p);
    }
  }

  lemma {:induction false} FirstPlace(m: Memory, ids: seq<Id>, key: int, n: nat) returns (p: nat)
    requires n <= |ids| && (forall j | 0 <= j < |ids| :: ids[j] < |m.nodes|)
    requires forall j | 0 <= j < n :: m.nodes[ids[j]].key != key
    ensures FirstAt(m, ids, key, p)
    decreases |ids| - n
  {
    if n == |ids| || m.nodes[ids[n]].key == key { p := n; } else { p := FirstPlace(m, ids, key, n + 1); }
  }

  /** A remove whose bucket the others leave alone does what a remove from a list does: with `ids` the chain of the
      bucket when it began, it succeeds if and only if a node of the chain, live or deleted, has the key; it marks the
      first such node and takes it, and nothing else, off the chain. */
  lemma RemovesExactly(e: Execution, t: Tid, key: int, i: nat, k: nat) returns (ids: seq<Id>, p: nat)
    requires Within(e, t, i, k) && e.run[i].threads[t] == Start(Remove(key)) && e.run[k].threads[t].Idle?
    requires ValidConfig(e.cfg) && LeftAlone(e, t, Bucket(e.cfg, key), i, k)
    ensures var b, m, m' := Bucket(e.cfg, key), e.run[i].mem, e.run[k].mem;
            && b < |m.heads| && b < |m'.heads| && ChainIs(m, m.heads[b], ids) && FirstAt(m, ids, key, p)
            && (forall j | 0 <= j < |ids| :: ids[j] < |m'.nodes|) && Carried(m', e.run[k].threads[t].last, b, ids, p)
  {
    var b, m := Bucket(e.cfg, key), e.run[i].mem;
    assert BucketInv(e.cfg, m) by { RunInv(e, i); }
    LinksLeadDown(e.cfg, m, b);
    ids := HasChain(e.cfg, m, b, m.heads[b]);
    p := FirstPlace(m, ids, key, 0);
    StillPlanned(e, t, i, k, ids, key, p);
  }
}
