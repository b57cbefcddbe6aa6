/**
 * Why a retune restores the byte budget only if a pooled size was asked for since the last reset: programs that
 * boost a class, fill its cache, reset the figures, ask for large blocks only, and then set off a retune.
 */
module IdleRetune {
  import opened Common
  import opened PoolTuning
  import opened PacketPrograms

  const TOP: nat := CLASSES - 1

  /** Enough 64 KiB blocks to exceed the budget. */
  const TOO_MANY: nat := 300

  function Pooled(p: PacketId): Op { ConstructOp(p, Zeros(MAX_CLASS_SIZE)) }

  function Large(p: PacketId): Op { ConstructOp(p, Zeros(MAX_CLASS_SIZE + 1)) }

  lemma TopClass()
    ensures ClassOf(MAX_CLASS_SIZE) == Some(TOP) && ClassOf(MAX_CLASS_SIZE + 1) == None
  {
    LargestClass();
    assert ClassSize(TOP) == 2 * ClassSize(TOP - 1);
    UniqueFit(MAX_CLASS_SIZE, TOP, ClassOf(MAX_CLASS_SIZE).value);
  }

  /** Packet `p` comes from construction `p`, so nothing is shared. */
  predicate Unshared(packets: Packets, next: nat) {
    forall p | p in packets :: p < next && packets[p].Filled? && packets[p].origin == p
  }

  predicate Sized(packets: Packets, p: PacketId, n: nat) { p in packets && packets[p].Filled? && |packets[p].d| == n }

  /** Target and cache of the top class, and the number of requests. */
  ghost predicate AtTop(b: Books, target: nat, cached: nat, total: nat)
    requires BooksOk(b)
  {
    b.targets[TOP] == target && b.cached[TOP] == cached && b.total == total
  }

  // ----- Boost, then construct that many packets of the top class -----

  function Filling(boost: nat, n: nat): seq<Op> {
    if n == 0 then [BoostOp(MAX_CLASS_SIZE, boost)] else Filling(boost, n - 1) + [Pooled(n - 1)]
  }

  ghost predicate Ready(w: World, boost: nat, n: nat)
    requires WorldOk(w)
  {
    && AtTop(w.books, boost, 0, n) && w.next == n && Unshared(w.packets, n)
    && forall p | 0 <= p < n :: Sized(w.packets, p, MAX_CLASS_SIZE)
  }

  lemma StartReady(boost: nat)
    requires boost >= MIN_TARGET
    ensures Ready(Meaning(Start(), BoostOp(MAX_CLASS_SIZE, boost)), boost, 0)
  {
    TopClass();
  }

  lemma ReadyStep(w: World, boost: nat, n: nat)
    requires WorldOk(w) && Ready(w, boost, n)
    ensures n !in w.packets && Ready(Meaning(w, Pooled(n)), boost, n + 1)
  {
    TopClass();
    var after := Meaning(w, Pooled(n)).packets;
    assert after == w.packets[n := Filled(n, Pooled(n).d)];
    forall p | 0 <= p < n ensures Sized(after, p, MAX_CLASS_SIZE) { assert Sized(w.packets, p, MAX_CLASS_SIZE); }
  }

  lemma {:induction false} Fill(boost: nat, n: nat) returns (ws: seq<World>)
    requires boost >= MIN_TARGET
    ensures Trace(Filling(boost, n), ws) && Ready(Last(ws), boost, n)
  {
    if n == 0 {
      StartReady(boost);
      TraceExtends([], [Start()], BoostOp(MAX_CLASS_SIZE, boost));
      ws := [Start()] + [Meaning(Start(), BoostOp(MAX_CLASS_SIZE, boost))];
      assert Filling(boost, n) == [] + [BoostOp(MAX_CLASS_SIZE, boost)];
    } else {
      var before := Fill(boost, n - 1);
      ReadyStep(Last(before), boost, n - 1);
      TraceExtends(Filling(boost, n - 1), before, Pooled(n - 1));
      ws := before + [Meaning(Last(before), Pooled(n - 1))];
    }
  }

  // ----- Give back all blocks but one -----

  function Emptying(boost: nat, n: nat): seq<Op> {
    if n == 0 then Filling(boost, boost) else Emptying(boost, n - 1) + [DestroyOp(n - 1)]
  }

  ghost predicate Emptied(w: World, boost: nat, n: nat)
    requires WorldOk(w)
  {
    && AtTop(w.books, boost, n, boost) && w.next == boost && Unshared(w.packets, boost)
    && forall p | n <= p < boost :: Sized(w.packets, p, MAX_CLASS_SIZE)
  }

  /** Giving up an unshared block of the top class caches it. */
  lemma GiveBack(w: World, p: PacketId, target: nat, cached: nat, total: nat)
    requires WorldOk(w) && AtTop(w.books, target, cached, total) && cached < target && Unshared(w.packets, w.next)
    requires Sized(w.packets, p, MAX_CLASS_SIZE) && (RetuneDue(total) ==> !HasDemand(w.books))
    ensures AtTop(GivenUp(w, p), target, cached + 1, total) && LastPooled(w.packets, p)
  {
    TopClass();
    StoredDemand(w.books, TOP);
    RetuneEffect(Stored(w.books, TOP));
  }

  lemma EmptiedStep(w: World, boost: nat, n: nat)
    requires WorldOk(w) && n < boost < RETUNE_PERIOD && Emptied(w, boost, n)
    ensures n in w.packets && Emptied(Meaning(w, DestroyOp(n)), boost, n + 1)
  {
    assert Sized(w.packets, n, MAX_CLASS_SIZE);
    GiveBack(w, n, boost, n, boost);
    forall p | n + 1 <= p < boost ensures Sized(Meaning(w, DestroyOp(n)).packets, p, MAX_CLASS_SIZE) {
      assert Sized(w.packets, p, MAX_CLASS_SIZE);
    }
  }

  lemma {:induction false} Empty(boost: nat, n: nat) returns (ws: seq<World>)
    requires n < boost && MIN_TARGET <= boost < RETUNE_PERIOD
    ensures Trace(Emptying(boost, n), ws) && Emptied(Last(ws), boost, n)
  {
    if n == 0 {
      ws := Fill(boost, boost);
    } else {
      var before := Empty(boost, n - 1);
      EmptiedStep(Last(before), boost, n - 1);
      TraceExtends(Emptying(boost, n - 1), before, DestroyOp(n - 1));
      ws := before + [Meaning(Last(before), DestroyOp(n - 1))];
    }
  }

  // ----- Reset, then large requests only -----

  function Idling(boost: nat, n: nat): seq<Op>
    requires boost > 0
  {
    if n == 0 then Emptying(boost, boost - 1) + [ResetOp] else Idling(boost, n - 1) + [Large(boost + n - 1)]
  }

  ghost predicate Idle(w: World, boost: nat, n: nat)
    requires WorldOk(w) && boost > 0
  {
    && AtTop(w.books, boost, boost - 1, n) && w.next == boost + n && Unshared(w.packets, w.next)
    && Sized(w.packets, boost - 1, MAX_CLASS_SIZE)
  }

  lemma StartIdle(w: World, boost: nat)
    requires WorldOk(w) && boost > 0 && Emptied(w, boost, boost - 1)
    ensures Idle(Meaning(w, ResetOp), boost, 0)
  {
    assert Sized(w.packets, boost - 1, MAX_CLASS_SIZE);
  }

  lemma IdleStep(w: World, boost: nat, n: nat)
    requires WorldOk(w) && boost > 0 && Idle(w, boost, n)
    ensures boost + n !in w.packets && Idle(Meaning(w, Large(boost + n)), boost, n + 1)
  {
    TopClass();
  }

  lemma {:induction false} StayIdle(boost: nat, n: nat) returns (ws: seq<World>)
    requires MIN_TARGET <= boost < RETUNE_PERIOD
    ensures Trace(Idling(boost, n), ws) && Idle(Last(ws), boost, n)
  {
    if n == 0 {
      var before := Empty(boost, boost - 1);
      StartIdle(Last(before), boost);
      TraceExtends(Emptying(boost, boost - 1), before, ResetOp);
      ws := before + [Meaning(Last(before), ResetOp)];
    } else {
      var before := StayIdle(boost, n - 1);
      IdleStep(Last(before), boost, n - 1);
      TraceExtends(Idling(boost, n - 1), before, Large(boost + n - 1));
      ws := before + [Meaning(Last(before), Large(boost + n - 1))];
    }
  }

  lemma NotAsked(ops: seq<Op>, op: Op)
    requires op == ResetOp || (!AskedSinceReset(ops) && !AsksPool(op))
    ensures !AskedSinceReset(ops + [op])
  {
    assert (ops + [op])[..|ops|] == ops;
  }

  lemma {:induction false} NeverAsked(boost: nat, n: nat)
    requires boost > 0
    ensures !AskedSinceReset(Idling(boost, n))
  {
    if n == 0 {
      NotAsked(Emptying(boost, boost - 1), ResetOp);
    } else {
      NeverAsked(boost, n - 1);
      NotAsked(Idling(boost, n - 1), Large(boost + n - 1));
    }
  }

  // ----- The retune that does nothing -----

  lemma FloorOfAll()
    ensures FloorBytes(CLASSES) == 1048064
  {
    assert ClassSize(3) == 512 && ClassSize(6) == 4096 && ClassSize(9) == 32768;
    assert FloorBytes(3) == 8 * 448 && FloorBytes(6) == 8 * 4032 && FloorBytes(9) == 8 * 32704;
  }

  lemma TopIsUnaffordable(counts: seq<nat>)
    requires |counts| == CLASSES && counts[TOP] >= TOO_MANY
    ensures !Affordable(counts)
  {
    FloorOfAll();
    LargestClass();
    assert Worth(counts, |counts|) >= counts[TOP] * MAX_CLASS_SIZE;
  }

  /** Targets and cached blocks are both worth more than the budget and eight blocks of each class. */
  ghost predicate OverBudget(b: Books) { !Affordable(b.targets) && !Affordable(b.cached) }

  lemma TopOverBudget(b: Books, boost: nat, n: nat)
    requires BooksOk(b) && AtTop(b, boost, boost, n) && TOO_MANY <= boost
    ensures OverBudget(b)
  {
    TopIsUnaffordable(b.targets);
    TopIsUnaffordable(b.cached);
  }

  lemma RetuneWhileIdle(w: World, boost: nat, n: nat)
    requires WorldOk(w) && TOO_MANY <= boost && RetuneDue(n) && Idle(w, boost, n) && !HasDemand(w.books)
    ensures var op := DestroyOp(boost - 1);
            Enabled(w.packets, op) && SetsOffRetune(w, op) && OverBudget(Meaning(w, op).books)
  {
    DropBooks(w, DestroyOp(boost - 1));
    GiveBack(w, boost - 1, boost, boost - 1, n);
    TopOverBudget(GivenUp(w, boost - 1), boost, n);
  }

  lemma IdleShowsNoDemand(boost: nat, n: nat, ws: seq<World>)
    requires boost > 0 && Trace(Idling(boost, n), ws)
    ensures !HasDemand(Last(ws).books)
  {
    NeverAsked(boost, n);
    TraceIsMeaning(Idling(boost, n), ws);
    DemandIsAsked(Idling(boost, n));
  }

  /** Boost the top class to `boost` blocks, construct `boost` packets of 64 KiB, destroy all but one, reset the
      figures, construct `n` larger packets where a retune is due after `n` requests, and destroy the last packet of
      64 KiB: that sets off a retune, which leaves the pool over its budget. */
  lemma IdleRetuneKeepsBoost(boost: nat, n: nat) returns (ws: seq<World>)
    requires TOO_MANY <= boost < RETUNE_PERIOD && RetuneDue(n)
    ensures Trace(Idling(boost, n) + [DestroyOp(boost - 1)], ws)
    ensures SetsOffRetune(ws[|ws| - 2], DestroyOp(boost - 1)) && OverBudget(Last(ws).books)
  {
    var before := StayIdle(boost, n);
    IdleShowsNoDemand(boost, n, before);
    RetuneWhileIdle(Last(before), boost, n);
    TraceExtends(Idling(boost, n), before, DestroyOp(boost - 1));
    ws := before + [Meaning(Last(before), DestroyOp(boost - 1))];
  }
}
