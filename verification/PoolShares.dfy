/** How a retune divides the byte budget, with the numbers of the source written out: the exact target of every class,
    what all targets are worth, and which programs lead to which targets. */
module PoolShares {
  import opened Common
  import opened PoolTuning
  import opened PacketPrograms

  const SIZES: seq<nat> := [64, 128, 256, 512, 1024, 2048, 4096, 8192, 16384, 32768, 65536]

  lemma ClassSizesAre(i: nat)
    requires i < 11
    ensures CLASSES == |SIZES| && ClassSize(i) == SIZES[i]
  {
    assert ClassSize(3) == 512 && ClassSize(6) == 8 * ClassSize(3) && ClassSize(9) == 8 * ClassSize(6);
  }

  /** A request goes to the smallest of these sizes that holds it. */
  lemma ClassIs(size: nat, i: nat)
    requires i < 11
    ensures ClassOf(size) == Some(i) <==> size <= SIZES[i] && (i > 0 ==> SIZES[i - 1] < size)
  {
    ClassSizesAre(i);
    if i > 0 { ClassSizesAre(i - 1); }
    LargestClass();
    if SmallestFit(i, size) {
      ClassSizesGrow(i, 10);
      UniqueFit(size, i, ClassOf(size).value);
    }
  }

  // ----- The target of one class -----

  /** What the demand for class `i` comes to at a retune. */
  function DemandNow(b: Books, i: nat): (d: real)
    requires BooksOk(b) && i < 11
    ensures d >= 0.0
  {
    b.demand[i] * 0.8 + (b.requests[i] as real) * 0.2
  }

  /** The demand for the first `n` classes together. */
  function AllDemand(b: Books, n: nat): (d: real)
    requires BooksOk(b) && n <= 11
    ensures d >= 0.0
  {
    if n == 0 then 0.0 else AllDemand(b, n - 1) + DemandNow(b, n - 1)
  }

  /** `k` is the largest number of blocks of `size` bytes within that part of 16 MiB that `demand` is of `sum`. */
  predicate IsShare(k: nat, size: nat, demand: real, sum: real)
    requires sum > 0.0
  {
    (k * size) as real <= demand / sum * 16777216.0 < ((k + 1) * size) as real
  }

  lemma ShareIsShare(demand: real, sum: real, size: nat)
    requires demand >= 0.0 && sum > 0.0 && size > 0
    ensures IsShare(Share(demand, sum, size), size, demand, sum)
  {
    var y, s, k := demand / sum * 16777216.0, size as real, Share(demand, sum, size);
    FloorOf(y, s, k);
    assert (k * size) as real == k as real * s && (k + 1) * size == k * size + size;
  }

  lemma FloorOf(y: real, s: real, k: nat)
    requires s > 0.0 && k == (y / s).Floor
    ensures k as real * s <= y < k as real * s + s
  {
    var x := y / s;
    assert x * s == y;
    Between(k as real, x, s, y);
  }

  lemma Between(low: real, x: real, s: real, y: real)
    requires s > 0.0 && low <= x < low + 1.0 && x * s == y
    ensures low * s <= y < low * s + s
  {
    var above, below := x - low, low + 1.0 - x;
    assert above * s >= 0.0;
    assert above * s == y - low * s;
    assert below * s > 0.0;
    assert below * s == low * s + s - y;
  }

  /** There is one such number. */
  lemma OneShare(j: nat, k: nat, size: nat, demand: real, sum: real)
    requires size > 0 && sum > 0.0 && IsShare(j, size, demand, sum) && IsShare(k, size, demand, sum)
    ensures j == k
  {
    if j < k { MoreBlocks(j + 1, k, size); }
    if k < j { MoreBlocks(k + 1, j, size); }
  }

  lemma MoreBlocks(j: nat, k: nat, size: nat)
    requires j <= k
    ensures j * size <= k * size
  {
    assert k * size == j * size + (k - j) * size;
  }

  lemma {:induction false} TotalIs(b: Books, n: nat)
    requires BooksOk(b) && n <= 11
    ensures Total(Averaged(b).demand, n) == AllDemand(b, n)
  {
    if n > 0 { TotalIs(b, n - 1); }
  }

  lemma TotalNow(b: Books)
    requires BooksOk(b)
    ensures Total(Averaged(b).demand, |Averaged(b).demand|) == AllDemand(b, 11)
  {
    TotalIs(b, 11);
  }

  lemma SharedAt(b: Books, sum: real, i: nat, demand: real)
    requires BooksOk(b) && sum > 0.0 && i < 11 && demand == b.demand[i]
    ensures demand >= 0.0 && Shared(b, sum).targets[i] == NewTarget(demand, sum, ClassSize(i))
  {
  }

  lemma TargetIs(b: Books, i: nat)
    requires BooksOk(b) && i < 11 && AllDemand(b, 11) > 0.0
    ensures Retune(b).targets[i] == NewTarget(DemandNow(b, i), AllDemand(b, 11), ClassSize(i))
  {
    assert Retune(b) == Shared(Averaged(b), AllDemand(b, 11)) by { TotalNow(b); }
    SharedAt(Averaged(b), AllDemand(b, 11), i, DemandNow(b, i));
  }

  /** A retune gives every class eight blocks or its share of the budget, whichever is more. */
  lemma TargetAnswer(b: Books, i: nat) returns (k: nat)
    requires BooksOk(b) && i < 11 && AllDemand(b, 11) > 0.0
    ensures IsShare(k, ClassSize(i), DemandNow(b, i), AllDemand(b, 11))
    ensures Retune(b).targets[i] == if k < 8 then 8 else k
  {
    TargetIs(b, i);
    k := Share(DemandNow(b, i), AllDemand(b, 11), ClassSize(i));
    ShareIsShare(DemandNow(b, i), AllDemand(b, 11), ClassSize(i));
  }

  /** It keeps what is cached up to the targets, and starts counting anew; without demand it leaves targets and caches
      alone. */
  lemma RetuneAnswer(b: Books, i: nat)
    requires BooksOk(b) && i < 11
    ensures var r := Retune(b);
            && r.demand[i] == DemandNow(b, i) && r.requests[i] == 0 && r.total == b.total
            && r.cached[i] == (if b.cached[i] < r.targets[i] then b.cached[i] else r.targets[i])
            && (AllDemand(b, 11) == 0.0 ==> r.targets == b.targets && r.cached == b.cached)
  {
    TotalNow(b);
  }

  // ----- Caching and boosting -----

  /** A block that comes back is cached if and only if its class is below its target, and then the next request of that
      class takes it. */
  lemma StoreThenTake(b: Books, size: nat, i: nat)
    requires BooksOk(b) && ClassOf(size) == Some(i)
    ensures var s := Stored(b, i);
            if b.cached[i] < b.targets[i]
            then s.cached == b.cached[i := b.cached[i] + 1] && Requested(s, size).cached == b.cached
            else s == b
  {
    if b.cached[i] < b.targets[i] { assert b.cached[i := b.cached[i] + 1][i := b.cached[i]] == b.cached; }
  }

  /** A boost lifts the target of the smallest class that fits to the number asked for, and no other. */
  lemma BoostAnswer(b: Books, size: nat, n: nat, i: nat)
    requires BooksOk(b) && i < 11
    ensures Boosted(b, size, n).targets[i]
            == if ClassOf(size) == Some(i) && b.targets[i] < n then n else b.targets[i]
  {
  }

  // ----- What all targets are worth -----

  function SizesBelow(n: nat): nat
    requires n <= 11
  {
    if n == 0 then 0 else SizesBelow(n - 1) + ClassSize(n - 1)
  }

  /** Each class's target and one block more are worth its share. */
  lemma AtLeastShare(target: nat, size: nat, k: nat, demand: real, sum: real)
    requires sum > 0.0 && k <= target && IsShare(k, size, demand, sum)
    ensures demand / sum * 16777216.0 < (target * size + size) as real
  {
    MoreBlocks(k + 1, target + 1, size);
    assert (target + 1) * size == target * size + size;
  }

  /** Every target below `n` and one block more are worth more than `shares` gives the class. */
  predicate CoversShares(targets: seq<nat>, shares: seq<real>, n: nat)
    requires n <= |targets| && n <= |shares|
  {
    forall i | 0 <= i < n :: shares[i] < (targets[i] * ClassSize(i) + ClassSize(i)) as real
  }

  lemma {:induction false} WorthAtLeast(targets: seq<nat>, shares: seq<real>, n: nat)
    requires n <= |targets| && n <= |shares| && n <= 11 && CoversShares(targets, shares, n)
    ensures Total(shares, n) <= (Worth(targets, n) + SizesBelow(n)) as real
    ensures n > 0 ==> Total(shares, n) < (Worth(targets, n) + SizesBelow(n)) as real
  {
    if n > 0 {
      WorthAtLeast(targets, shares, n - 1);
      assert shares[n - 1] < (targets[n - 1] * ClassSize(n - 1) + ClassSize(n - 1)) as real;
    }
  }

  function ShareOf(b: Books, i: nat): real
    requires BooksOk(b) && i < 11 && AllDemand(b, 11) > 0.0
  {
    DemandNow(b, i) / AllDemand(b, 11) * 16777216.0
  }

  function Shares(b: Books): (xs: seq<real>)
    requires BooksOk(b) && AllDemand(b, 11) > 0.0
    ensures |xs| == 11
  {
    seq(11, i requires 0 <= i < 11 => ShareOf(b, i))
  }

  /** The shares of the first `n` classes are that part of the budget. */
  lemma {:induction false} SharesTogether(b: Books, n: nat)
    requires BooksOk(b) && n <= 11 && AllDemand(b, 11) > 0.0
    ensures Total(Shares(b), n) == AllDemand(b, n) / AllDemand(b, 11) * 16777216.0
  {
    var sum := AllDemand(b, 11);
    DivideSum(0.0, 0.0, sum);
    if n > 0 {
      SharesTogether(b, n - 1);
      DivideSum(AllDemand(b, n - 1), DemandNow(b, n - 1), sum);
    }
  }

  lemma TargetsCover(b: Books)
    requires BooksOk(b) && AllDemand(b, 11) > 0.0
    ensures CoversShares(Retune(b).targets, Shares(b), 11)
  {
    var t := Retune(b).targets;
    forall i | 0 <= i < 11 ensures Shares(b)[i] < (t[i] * ClassSize(i) + ClassSize(i)) as real {
      var k := TargetAnswer(b, i);
      AtLeastShare(t[i], ClassSize(i), k, DemandNow(b, i), AllDemand(b, 11));
    }
  }

  lemma SizesTogether()
    ensures SizesBelow(11) == 131008
  {
    for n := 0 to 11
      invariant SizesBelow(n) + 64 == ClassSize(n)
    {
    }
    LargestClass();
  }

  lemma {:induction false} FloorIs(n: nat)
    requires n <= 11
    ensures FloorBytes(n) == 8 * SizesBelow(n)
  {
    if n > 0 { FloorIs(n - 1); }
  }

  lemma WorthAtMost(b: Books)
    requires BooksOk(b) && AllDemand(b, 11) > 0.0
    ensures Worth(Retune(b).targets, 11) <= 16777216 + FloorBytes(11)
  {
    TotalNow(b);
    RetunedWithinBudget(Retune(b).targets, Averaged(b).demand);
  }

  lemma WorthMoreThan(b: Books)
    requires BooksOk(b) && AllDemand(b, 11) > 0.0
    ensures 16777216 < Worth(Retune(b).targets, 11) + SizesBelow(11)
  {
    var targets := Retune(b).targets;
    TargetsCover(b);
    WorthAtLeast(targets, Shares(b), 11);
    assert Total(Shares(b), 11) == 16777216.0 by {
      SharesTogether(b, 11);
      DivideSum(0.0, 0.0, AllDemand(b, 11));
    }
  }

  /** All targets together spend the budget but for less than one block of each class, and exceed it by no more than
      eight blocks of each. */
  lemma BudgetIsSpent(b: Books)
    requires BooksOk(b) && AllDemand(b, 11) > 0.0
    ensures 16777216 - 131008 < Worth(Retune(b).targets, 11) <= 16777216 + 8 * 131008
  {
    WorthMoreThan(b);
    WorthAtMost(b);
    SizesTogether();
    FloorIs(11);
  }

  // ----- Programs -----

  /** A packet of a size of class `i` is constructed. */
  ghost predicate Asks(op: Op, i: nat) { op.ConstructOp? && |op.d| > 0 && ClassOf(|op.d|) == Some(i) }

  /** Since the last `ResetOp` such a packet was constructed. */
  ghost predicate AskedFor(ops: seq<Op>, i: nat) {
    ops != [] && (Asks(ops[|ops| - 1], i) || (ops[|ops| - 1] != ResetOp && AskedFor(ops[..|ops| - 1], i)))
  }

  /** How many packets with bytes were constructed since then. */
  function Constructed(ops: seq<Op>): nat {
    if ops == [] || ops[|ops| - 1] == ResetOp then 0
    else
      var op := ops[|ops| - 1];
      Constructed(ops[..|ops| - 1]) + if op.ConstructOp? && |op.d| % 0x1_0000_0000 > 0 then 1 else 0
  }

  lemma ReturnedBusy(b: Books, i: nat, j: nat)
    requires BooksOk(b) && i < 11 && j < 11
    ensures Busy(Returned(b, i), j) <==> Busy(b, j)
    ensures Returned(b, i).total == b.total
  {
    RetuneAnswer(Stored(b, i), j);
    assert DemandNow(Stored(b, i), j) > 0.0 <==> Busy(b, j);
  }

  lemma RequestedBusy(b: Books, size: nat, j: nat)
    requires BooksOk(b) && j < 11
    ensures Busy(Requested(b, size), j) <==> Busy(b, j) || ClassOf(size) == Some(j)
    ensures Requested(b, size).total == b.total + 1
  {
  }

  lemma OtherBusy(b: Books, size: nat, n: nat, j: nat)
    requires BooksOk(b) && j < 11
    ensures Busy(Boosted(b, size, n), j) <==> Busy(b, j)
    ensures !Busy(Cleared(b), j) && !Busy(Opened(), j) && Boosted(b, size, n).total == b.total
  {
  }

  lemma BusyStep(w: World, op: Op, j: nat)
    requires WorldOk(w) && Enabled(w.packets, op) && j < 11
    ensures Busy(Meaning(w, op).books, j) <==> Asks(op, j) || (op != ResetOp && Busy(w.books, j))
    ensures Meaning(w, op).books.total
            == if op == ResetOp then 0
               else w.books.total + if op.ConstructOp? && |op.d| % 0x1_0000_0000 > 0 then 1 else 0
  {
    if Drops(op).Some? {
      var p := Drops(op).value;
      DropBooks(w, op);
      if LastPooled(w.packets, p) { ReturnedBusy(w.books, ClassOf(|w.packets[p].d|).value, j); }
    } else if op.ConstructOp? {
      RequestedBusy(w.books, |op.d|, j);
    } else if op.BoostOp? {
      OtherBusy(w.books, op.size, op.blocks, j);
    } else if op.ResetOp? {
      OtherBusy(w.books, 0, 0, j);
    }
  }

  /** A class shows demand exactly when it was asked for since the last reset, and the requests counted are the packets
      with bytes constructed since then. */
  lemma {:induction false} BusyIsAsked(ops: seq<Op>, j: nat)
    requires Runnable(ops) && j < 11
    ensures Busy(MeaningOf(ops).books, j) <==> AskedFor(ops, j)
    ensures MeaningOf(ops).books.total == Constructed(ops)
  {
    if ops == [] {
      OtherBusy(Opened(), 0, 0, j);
    } else {
      Shorten(ops);
      BusyIsAsked(ops[..|ops| - 1], j);
      BusyStep(MeaningOf(ops[..|ops| - 1]), ops[|ops| - 1], j);
    }
  }

  /** The operation gives up the last reference to a pooled block just when the packets constructed come to a multiple
      of 4096. */
  ghost predicate Retunes(ops: seq<Op>, op: Op) {
    && Runnable(ops) && Enabled(MeaningOf(ops).packets, op)
    && Drops(op).Some? && LastPooled(MeaningOf(ops).packets, Drops(op).value)
    && Constructed(ops) > 0 && Constructed(ops) % 4096 == 0
  }

  lemma {:induction false} SameDemand(b: Books, b': Books, n: nat)
    requires BooksOk(b) && BooksOk(b') && b.demand == b'.demand && b.requests == b'.requests && n <= 11
    ensures AllDemand(b, n) == AllDemand(b', n)
  {
    if n > 0 { SameDemand(b, b', n - 1); }
  }

  lemma {:induction false} SomeDemand(b: Books, n: nat)
    requires BooksOk(b) && n <= 11
    ensures AllDemand(b, n) > 0.0 <==> exists i :: 0 <= i < n && Busy(b, i)
    ensures n == 11 ==> (AllDemand(b, n) > 0.0 <==> HasDemand(b))
  {
    if n > 0 {
      SomeDemand(b, n - 1);
      assert DemandNow(b, n - 1) > 0.0 <==> Busy(b, n - 1);
    }
  }

  /** The targets a retune leads to from accounts with that demand. */
  predicate Divided(b: Books, targets: seq<nat>, i: nat, k: nat)
    requires BooksOk(b) && i < 11 && |targets| == 11
  {
    if AllDemand(b, 11) > 0.0
    then IsShare(k, ClassSize(i), DemandNow(b, i), AllDemand(b, 11)) && targets[i] == (if k < 8 then 8 else k)
    else targets == b.targets
  }

  lemma DividesOwn(b: Books, i: nat) returns (k: nat)
    requires BooksOk(b) && i < 11
    ensures Divided(b, Retune(b).targets, i, k)
  {
    k := 0;
    if AllDemand(b, 11) > 0.0 { k := TargetAnswer(b, i); } else { RetuneAnswer(b, i); }
  }

  lemma DividedFrame(b: Books, b': Books, targets: seq<nat>, i: nat, k: nat)
    requires BooksOk(b) && BooksOk(b') && i < 11 && |targets| == 11 && Divided(b', targets, i, k)
    requires b'.demand == b.demand && b'.requests == b.requests && b'.targets == b.targets
    ensures Divided(b, targets, i, k)
  {
    SameDemand(b, b', 11);
  }

  lemma RetuneDivides(b: Books, b': Books, i: nat) returns (k: nat)
    requires BooksOk(b) && BooksOk(b') && i < 11
    requires b'.demand == b.demand && b'.requests == b.requests && b'.targets == b.targets
    ensures Divided(b, Retune(b').targets, i, k)
  {
    k := DividesOwn(b', i);
    DividedFrame(b, b', Retune(b').targets, i, k);
  }

  ghost predicate SomeDivided(b: Books, targets: seq<nat>, i: nat)
    requires BooksOk(b) && i < 11 && |targets| == 11
  {
    exists k :: Divided(b, targets, i, k)
  }

  /** Every target is eight blocks or the share of its class, whichever is more. */
  ghost predicate AllDivided(b: Books, targets: seq<nat>) {
    BooksOk(b) && |targets| == 11 && forall i | 0 <= i < 11 :: SomeDivided(b, targets, i)
  }

  lemma RetuneDividesAll(b: Books)
    requires BooksOk(b)
    ensures AllDivided(b, Retune(b).targets)
  {
    forall i | 0 <= i < 11 ensures SomeDivided(b, Retune(b).targets, i) {
      var k := RetuneDivides(b, b, i);
    }
  }

  lemma WorldRetunes(w: World, op: Op, i: nat) returns (k: nat)
    requires WorldOk(w) && Enabled(w.packets, op) && SetsOffRetune(w, op) && i < 11
    ensures Divided(w.books, Meaning(w, op).books.targets, i, k)
  {
    var p := Drops(op).value;
    DropBooks(w, op);
    k := RetuneDivides(w.books, Stored(w.books, ClassOf(|w.packets[p].d|).value), i);
  }

  /** In every program such an operation gives each class eight blocks or its share of the budget, whichever is more, if
      any pooled size was asked for since the last reset; otherwise the targets stay. */
  lemma ProgramTargets(ops: seq<Op>, op: Op, i: nat) returns (k: nat)
    requires Retunes(ops, op) && i < 11
    ensures AllDemand(MeaningOf(ops).books, 11) > 0.0 <==> AskedSinceReset(ops)
    ensures Divided(MeaningOf(ops).books, MeaningOf(ops + [op]).books.targets, i, k)
  {
    assert AllDemand(MeaningOf(ops).books, 11) > 0.0 <==> AskedSinceReset(ops) by {
      SomeDemand(MeaningOf(ops).books, 11);
      DemandIsAsked(ops);
    }
    assert MeaningOf(ops).books.total == Constructed(ops) by { BusyIsAsked(ops, 0); }
    k := WorldRetunes(MeaningOf(ops), op, i);
    Extend(ops, op);
  }

  /** At any other time, and if the block is still held or was never pooled, giving up bytes leaves the targets
      alone. */
  lemma OtherwiseTargetsStay(ops: seq<Op>, op: Op)
    requires Runnable(ops) && Enabled(MeaningOf(ops).packets, op) && Drops(op).Some? && !Retunes(ops, op)
    ensures MeaningOf(ops + [op]).books.targets == MeaningOf(ops).books.targets
  {
    BusyIsAsked(ops, 0);
    Extend(ops, op);
    DropBooks(MeaningOf(ops), op);
  }

  // ----- Asking for one size only -----

  lemma {:induction false} LoneDemand(b: Books, i: nat, n: nat)
    requires BooksOk(b) && i < 11 && n <= 11 && forall j | 0 <= j < 11 && j != i :: !Busy(b, j)
    ensures AllDemand(b, n) == if i < n then DemandNow(b, i) else 0.0
  {
    if n > 0 {
      LoneDemand(b, i, n - 1);
      assert n - 1 != i ==> !Busy(b, n - 1);
    }
  }

  lemma WholeShare(k: nat, size: nat, demand: real)
    requires demand > 0.0 && 0 < size <= 65536 && IsShare(k, size, demand, demand)
    ensures k >= 8 && k == 16777216 / size
  {
    DivideSum(0.0, 0.0, demand);
    assert k * size <= 16777216 < (k + 1) * size;
    if k < 8 { MoreBlocks(k + 1, 8, size); }
    Quotient(16777216, size, k);
  }

  lemma Quotient(n: nat, size: nat, k: nat)
    requires size > 0 && k * size <= n < (k + 1) * size
    ensures k == n / size
  {
    var q := n / size;
    assert n == q * size + n % size;
    if k < q { MoreBlocks(k + 1, q, size); }
    if q < k { MoreBlocks(q + 1, k, size); }
    assert (q + 1) * size == q * size + size;
  }

  lemma NoShare(k: nat, size: nat, sum: real)
    requires sum > 0.0 && size > 0 && IsShare(k, size, 0.0, sum)
    ensures k == 0
  {
    DivideSum(0.0, 0.0, sum);
    if k > 0 { MoreBlocks(1, k, size); }
  }

  /** A program that since the last reset asked for one class only gives it the whole budget: 256 blocks of the largest
      size, 512 of the next, and so on; every other class keeps eight. */
  lemma OneSizeGetsAll(ops: seq<Op>, op: Op, i: nat, j: nat)
    requires Retunes(ops, op) && i < 11 && j < 11 && AskedFor(ops, i)
    requires forall x | 0 <= x < 11 && x != i :: !AskedFor(ops, x)
    ensures MeaningOf(ops + [op]).books.targets[j] == if j == i then 16777216 / ClassSize(i) else 8
  {
    var b := MeaningOf(ops).books;
    forall x | 0 <= x < 11 ensures Busy(b, x) <==> AskedFor(ops, x) { BusyIsAsked(ops, x); }
    LoneDemand(b, i, 11);
    var k := ProgramTargets(ops, op, j);
    if j == i {
      LargestClass();
      ClassSizesGrow(i, 10);
      WholeShare(k, ClassSize(i), DemandNow(b, i));
    } else {
      assert DemandNow(b, j) == 0.0 by { assert !Busy(b, j); }
      NoShare(k, ClassSize(j), AllDemand(b, 11));
    }
  }
}
