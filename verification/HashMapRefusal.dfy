/** When an insert is refused: exactly when its bucket chain leads to a node with its key, live or deleted. */
module HashMapRefusal {
  import opened Common
  import opened HashMapProtocol
  import opened HashMapInvariants
  import opened HashMapSteps
  import opened HashMapTheorems
  import opened HashMapLinearization

  // ----- What a walk comes to -----

  /** Following bucket links from `from` one comes to a node with the key. */
  ghost predicate Leads(m: Memory, from: Option<Id>, key: int) {
    exists path, n: Id :: BucketPath(m, from, path, n) && m.nodes[n].key == key
  }

  lemma LeadsStep(m: Memory, c: Id, key: int)
    requires c < |m.nodes|
    ensures Leads(m, Some(c), key) <==> m.nodes[c].key == key || Leads(m, m.nodes[c].bucketNext, key)
  {
    if Leads(m, Some(c), key) && m.nodes[c].key != key {
      var path, n: Id :| BucketPath(m, Some(c), path, n) && m.nodes[n].key == key;
      assert BucketPath(m, m.nodes[c].bucketNext, path[1..], n);
    }
    if m.nodes[c].key == key {
      assert BucketPath(m, Some(c), [c], c);
    } else if Leads(m, m.nodes[c].bucketNext, key) {
      var path, n: Id :| BucketPath(m, m.nodes[c].bucketNext, path, n) && m.nodes[n].key == key;
      assert BucketPath(m, Some(c), [c] + path, n);
    }
  }

  /** The chain of the key's bucket holds a node with the key. */
  ghost predicate Chained(cfg: Config, m: Memory, key: int)
    requires ValidConfig(cfg) && Allocated(cfg, m)
  {
    Leads(m, m.heads[Bucket(cfg, key)], key)
  }

  /** The links of bucket `b` are the same in both memories. */
  ghost predicate SameBucket(cfg: Config, m: Memory, m': Memory, b: nat)
    requires ValidConfig(cfg)
  {
    && b < |m.heads| && b < |m'.heads| && m'.heads[b] == m.heads[b]
    && forall n | 0 <= n < |m.nodes| && Published(cfg, m, n, b) ::
         n < |m'.nodes| && m'.nodes[n].bucketNext == m.nodes[n].bucketNext
  }

  lemma {:induction false} LeadsFrame(cfg: Config, m: Memory, m': Memory, b: nat, from: Option<Id>, key: int)
    requires BucketInv(cfg, m) && In(cfg, m, b, from) && SameBucket(cfg, m, m', b) && Grows(m, m')
    ensures Leads(m', from, key) <==> Leads(m, from, key)
    decreases Rank(m, from)
  {
    if from.Some? {
      var c := from.value;
      assert Link(cfg, m, b, m.nodes[c].rank, m.nodes[c].bucketNext);
      LeadsFrame(cfg, m, m', b, m.nodes[c].bucketNext, key);
      LeadsStep(m, c, key);
      LeadsStep(m', c, key);
    }
  }

  lemma SameBucketTwice(cfg: Config, m: Memory, m': Memory, m'': Memory, b: nat)
    requires ValidConfig(cfg) && SameBucket(cfg, m, m', b) && SameBucket(cfg, m', m'', b) && Grows(m, m')
    ensures SameBucket(cfg, m, m'', b)
  {
    forall n | 0 <= n < |m.nodes| && Published(cfg, m, n, b)
      ensures n < |m''.nodes| && m''.nodes[n].bucketNext == m.nodes[n].bucketNext
    {
      assert Published(cfg, m', n, b);
    }
  }

  // ----- The fate of an insert -----

  /** Where an insert of `key` stands that began in memory `m0`: still trying, and its walk will tell what the chain
      held then, or decided accordingly. */
  ghost predicate Foretold(cfg: Config, m0: Memory, m: Memory, pc: Pc, key: int)
    requires ValidConfig(cfg) && Allocated(cfg, m0)
  {
    if InsertKey(pc) == Some(key) then
      && SameBucket(cfg, m0, m, Bucket(cfg, key))
      && (pc.Walk? ==> (Leads(m, pc.curr, key) <==> Chained(cfg, m0, key)))
      && (pc.LoadHead? || pc.CasHead? ==> !Chained(cfg, m0, key))
    else
      && InsertKey(pc).None? && (pc.Idle? ==> pc.last.NotInserted? || pc.last.Inserted?)
      && if Chained(cfg, m0, key) then pc == Idle(NotInserted) else NodeOf(pc).Some?
  }

  /** The walk begins at the head the chain had. */
  lemma StartForetold(cfg: Config, m0: Memory, m: Memory, pc: Pc, a: Action, key: int)
    requires BucketInv(cfg, m0) && Grows(m0, m) && PreBucket(cfg, m, pc) && pc.Start?
    requires InsertKey(pc) == Some(key) && Foretold(cfg, m0, m, pc, key)
    ensures Foretold(cfg, m0, Step(cfg, m, pc, a).0, Step(cfg, m, pc, a).1, key)
  {
    var b := Bucket(cfg, key);
    assert Link(cfg, m0, b, m0.clock + 1, m0.heads[b]);
    LeadsFrame(cfg, m0, m, b, m0.heads[b], key);
  }

  lemma WalkForetold(cfg: Config, m0: Memory, m: Memory, pc: Pc, key: int)
    requires ValidConfig(cfg) && Allocated(cfg, m0) && PcAllocated(m, pc) && pc.Walk?
    requires InsertKey(pc) == Some(key) && Foretold(cfg, m0, m, pc, key)
    ensures Foretold(cfg, m0, m, WalkStep(m, pc), key)
  {
    if pc.curr.Some? {
      LeadsStep(m, pc.curr.value, key);
    } else {
      assert !Leads(m, None, key);
    }
  }

  /** Allocating or aiming the node leaves the bucket alone. */
  lemma LoadHeadSame(cfg: Config, m: Memory, pc: Pc)
    requires PreBucket(cfg, m, pc) && pc.LoadHead?
    ensures SameBucket(cfg, m, LoadHeadStep(cfg, m, pc).0, Bucket(cfg, pc.key))
  {
  }

  lemma LoadHeadForetold(cfg: Config, m0: Memory, m: Memory, pc: Pc, key: int)
    requires ValidConfig(cfg) && Allocated(cfg, m0) && Grows(m0, m) && PreBucket(cfg, m, pc) && pc.LoadHead?
    requires InsertKey(pc) == Some(key) && Foretold(cfg, m0, m, pc, key)
    ensures Foretold(cfg, m0, LoadHeadStep(cfg, m, pc).0, LoadHeadStep(cfg, m, pc).1, key)
  {
    LoadHeadSame(cfg, m, pc);
    SameBucketTwice(cfg, m0, m, LoadHeadStep(cfg, m, pc).0, Bucket(cfg, key));
  }

  /** The compare-and-swap publishes, or changes nothing. */
  lemma CasHeadForetold(cfg: Config, m0: Memory, m: Memory, pc: Pc, spurious: bool, key: int)
    requires ValidConfig(cfg) && Allocated(cfg, m0) && Allocated(cfg, m) && PcAllocated(m, pc) && pc.CasHead?
    requires InsertKey(pc) == Some(key) && Foretold(cfg, m0, m, pc, key)
    ensures Foretold(cfg, m0, CasHeadStep(cfg, m, pc, spurious).0, CasHeadStep(cfg, m, pc, spurious).1, key)
  {
  }

  lemma LinkingStays(cfg: Config, m: Memory, pc: Pc, a: Action)
    requires ValidConfig(cfg) && Allocated(cfg, m) && PcAllocated(m, pc) && !pc.Idle?
    requires InsertKey(pc).None? && NodeOf(pc).Some?
    ensures var pc' := Step(cfg, m, pc, a).1;
            InsertKey(pc').None? && NodeOf(pc').Some? && (pc'.Idle? ==> pc'.last.Inserted?)
  {
  }

  lemma OwnForetold(cfg: Config, m0: Memory, m: Memory, pc: Pc, a: Action, key: int)
    requires BucketInv(cfg, m0) && Grows(m0, m) && PreBucket(cfg, m, pc) && !pc.Idle?
    requires Foretold(cfg, m0, m, pc, key)
    ensures Foretold(cfg, m0, Step(cfg, m, pc, a).0, Step(cfg, m, pc, a).1, key)
  {
    if InsertKey(pc).None? {
      LinkingStays(cfg, m, pc, a);
    } else if pc.Start? {
      StartForetold(cfg, m0, m, pc, a, key);
    } else if pc.Walk? {
      WalkForetold(cfg, m0, m, pc, key);
    } else if pc.LoadHead? {
      LoadHeadForetold(cfg, m0, m, pc, key);
    } else {
      CasHeadForetold(cfg, m0, m, pc, a.spurious, key);
    }
  }

  /** A step of another thread that leaves the bucket alone while the insert is trying. */
  lemma OtherForetold(cfg: Config, m0: Memory, m: Memory, m': Memory, pc: Pc, key: int)
    requires ValidConfig(cfg) && Allocated(cfg, m0) && Grows(m0, m) && Grows(m, m') && PreBucket(cfg, m, pc)
    requires Foretold(cfg, m0, m, pc, key)
    requires InsertKey(pc) == Some(key) ==> SameBucket(cfg, m, m', Bucket(cfg, key))
    ensures Foretold(cfg, m0, m', pc, key)
  {
    if InsertKey(pc) == Some(key) {
      SameBucketTwice(cfg, m0, m, m', Bucket(cfg, key));
      if pc.Walk? { LeadsFrame(cfg, m, m', Bucket(cfg, key), pc.curr, key); }
    }
  }

  /** While thread `t` is trying to publish `key`, no other thread changes a link of the key's bucket. */
  ghost predicate Undisturbed(e: Execution, t: Tid, key: int, i: nat, k: nat) {
    forall x | i <= x < k && x + 1 < |e.run| && t in e.run[x].threads && InsertKey(e.run[x].threads[t]) == Some(key)
               && e.acts[x].tid != t ::
      ValidConfig(e.cfg) && SameBucket(e.cfg, e.run[x].mem, e.run[x + 1].mem, Bucket(e.cfg, key))
  }

  lemma ForetoldStep(cfg: Config, m0: Memory, sys: System, a: Action, t: Tid, key: int)
    requires BucketInv(cfg, m0) && Inv(cfg, sys) && MayMove(sys, a) && Grows(m0, sys.mem)
    requires t in sys.threads && !sys.threads[t].Idle? && Foretold(cfg, m0, sys.mem, sys.threads[t], key)
    requires a.tid != t && InsertKey(sys.threads[t]) == Some(key) ==>
               SameBucket(cfg, sys.mem, SystemStep(cfg, sys, a).mem, Bucket(cfg, key))
    ensures var sys' := SystemStep(cfg, sys, a); Foretold(cfg, m0, sys'.mem, sys'.threads[t], key)
  {
    if a.tid == t {
      OwnForetold(cfg, m0, sys.mem, sys.threads[t], a, key);
    } else {
      StepGrows(cfg, sys, a);
      OtherForetold(cfg, m0, sys.mem, SystemStep(cfg, sys, a).mem, sys.threads[t], key);
    }
  }

  lemma SameAtStart(cfg: Config, m: Memory, b: nat)
    requires ValidConfig(cfg) && b < |m.heads|
    ensures SameBucket(cfg, m, m, b)
  {
  }

  lemma ForetoldNext(e: Execution, t: Tid, key: int, i: nat, x: nat)
    requires i <= x && x + 1 < |e.run| && t in e.run[x].threads && !e.run[x].threads[t].Idle?
    requires BucketInv(e.cfg, e.run[i].mem) && Foretold(e.cfg, e.run[i].mem, e.run[x].mem, e.run[x].threads[t], key)
    requires e.acts[x].tid != t && InsertKey(e.run[x].threads[t]) == Some(key) ==>
               SameBucket(e.cfg, e.run[x].mem, e.run[x + 1].mem, Bucket(e.cfg, key))
    ensures t in e.run[x + 1].threads
    ensures Foretold(e.cfg, e.run[i].mem, e.run[x + 1].mem, e.run[x + 1].threads[t], key)
  {
    assert Inv(e.cfg, e.run[x]) by { RunInv(e, x); }
    RunGrows(e, i, x);
    assert StepAt(e, x);
    var sys' := SystemStep(e.cfg, e.run[x], e.acts[x]);
    assert e.run[x + 1] == sys';
    ForetoldStep(e.cfg, e.run[i].mem, e.run[x], e.acts[x], t, key);
  }

  lemma {:induction false} StillForetold(e: Execution, t: Tid, key: int, i: nat, x: nat)
    requires Within(e, t, i, x) && e.run[i].threads[t].Start? && InsertKey(e.run[i].threads[t]) == Some(key)
    requires BucketInv(e.cfg, e.run[i].mem) && Undisturbed(e, t, key, i, x)
    ensures Foretold(e.cfg, e.run[i].mem, e.run[x].mem, e.run[x].threads[t], key)
    decreases x
  {
    if i == x {
      SameAtStart(e.cfg, e.run[i].mem, Bucket(e.cfg, key));
    } else {
      StillForetold(e, t, key, i, x - 1);
      ForetoldNext(e, t, key, i, x - 1);
    }
  }

  /** An insert whose bucket the others leave alone until it has decided, over all its retries, is refused if and only
      if the chain of its bucket held a node with the key, live or deleted, when it began; otherwise it succeeds. */
  lemma RefusedExactly(e: Execution, t: Tid, key: int, i: nat, k: nat)
    requires Within(e, t, i, k) && e.run[i].threads[t].Start? && InsertKey(e.run[i].threads[t]) == Some(key)
    requires e.run[k].threads[t].Idle? && Undisturbed(e, t, key, i, k)
    ensures ValidConfig(e.cfg) && Allocated(e.cfg, e.run[i].mem)
    ensures e.run[k].threads[t] == Idle(NotInserted) <==> Chained(e.cfg, e.run[i].mem, key)
    ensures e.run[k].threads[t].last.NotInserted? || e.run[k].threads[t].last.Inserted?
  {
    RunInv(e, i);
    StillForetold(e, t, key, i, k);
  }

  // ----- Whatever the others do -----

  /** No published node, live or deleted, has the key. */
  predicate NeverPublished(m: Memory, key: int) { forall n | 0 <= n < |m.nodes| :: !Occupied(m, key, n) }

  /** Only the compare-and-swap on a head publishes, and then its own node. */
  lemma RankedByCas(cfg: Config, m: Memory, pc: Pc, a: Action, n: Id)
    requires ValidConfig(cfg) && Allocated(cfg, m) && PcAllocated(m, pc) && (n < |m.nodes| ==> m.nodes[n].rank == 0)
    requires n < |Step(cfg, m, pc, a).0.nodes| && Step(cfg, m, pc, a).0.nodes[n].rank > 0
    ensures pc.CasHead? && n == pc.node && Step(cfg, m, pc, a) == CasHeadStep(cfg, m, pc, false)
    ensures Step(cfg, m, pc, a).1 == LoadTail(n) && Step(cfg, m, pc, a).0.nodes[n].key == m.nodes[n].key
  {
  }

  lemma PublishedByCas(cfg: Config, sys: System, a: Action, key: int)
    requires Inv(cfg, sys) && MayMove(sys, a)
    requires NeverPublished(sys.mem, key) && !NeverPublished(SystemStep(cfg, sys, a).mem, key)
    ensures var pc := sys.threads[a.tid];
            pc.CasHead? && pc.key == key && Step(cfg, sys.mem, pc, a).1 == LoadTail(pc.node)
  {
    var m, m', pc := sys.mem, SystemStep(cfg, sys, a).mem, sys.threads[a.tid];
    var n :| 0 <= n < |m'.nodes| && Occupied(m', key, n);
    StepGrows(cfg, sys, a);
    assert n < |m.nodes| ==> !Occupied(m, key, n);
    RankedByCas(cfg, m, pc, a, n);
    assert PcBucket(cfg, m, pc);
  }

  lemma {:induction false} StillUnpublished(e: Execution, t: Tid, key: int, i: nat, x: nat)
    requires Within(e, t, i, x) && InsertKey(e.run[i].threads[t]) == Some(key)
    requires NeverPublished(e.run[i].mem, key) && InsertKey(e.run[x].threads[t]).Some?
    ensures NeverPublished(e.run[x].mem, key) && InsertKey(e.run[x].threads[t]) == Some(key)
    decreases x
  {
    if i < x {
      assert StepAt(e, x - 1);
      var sys, a := e.run[x - 1], e.acts[x - 1];
      if a.tid == t { OwnedAfter(e.cfg, sys.mem, sys.threads[t], a); }
      StillUnpublished(e, t, key, i, x - 1);
      RunInv(e, x - 1);
      if !NeverPublished(e.run[x].mem, key) { PublishedByCas(e.cfg, sys, a, key); }
      StillTrying(e, t, key, i, x);
    }
  }

  /** A key never published before an insert of it begins is never refused, whatever the other threads do. */
  lemma NeverPublishedIsAccepted(e: Execution, t: Tid, key: int, i: nat, k: nat)
    requires Within(e, t, i, k) && InsertKey(e.run[i].threads[t]) == Some(key) && NeverPublished(e.run[i].mem, key)
    ensures e.run[k].threads[t] != Idle(NotInserted)
  {
    if e.run[k].threads[t] == Idle(NotInserted) {
      var m, pc := e.run[k - 1].mem, e.run[k - 1].threads[t];
      assert StepAt(e, k - 1);
      RefusalStep(e.cfg, m, pc, e.acts[k - 1]);
      StillTrying(e, t, key, i, k - 1);
      assert Occupied(m, key, pc.curr.value) by { RunInv(e, k - 1); }
      StillUnpublished(e, t, key, i, k - 1);
    }
  }

  /** A key that is live from the start of an insert of it to its end is always refused. */
  lemma LiveIsRefused(e: Execution, t: Tid, key: int, i: nat, k: nat, n: Id)
    requires Within(e, t, i, k) && e.run[i].threads[t].Start? && InsertKey(e.run[i].threads[t]) == Some(key)
    requires e.run[k].threads[t].Idle? && IsLive(e.run[i].mem, key, n)
    requires n < |e.run[k].mem.nodes| ==> !e.run[k].mem.nodes[n].deleted
    ensures e.run[k].threads[t] == Idle(NotInserted)
  {
    StillInserting(e, t, key, i, k);
    if e.run[k].threads[t] != Idle(NotInserted) {
      var x := e.run[k].threads[t].last.node;
      InsertTakesEffect(e, t, key, i, k, x);
      var y :| i <= y < k && NoLive(e.run[y].mem, key) && IsLive(e.run[y + 1].mem, key, x);
      NodePersists(e, i, y, n);
      NodePersists(e, y, k, n);
      assert IsLive(e.run[y].mem, key, n);
    }
  }
}
