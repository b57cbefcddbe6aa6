/**
 * The accounts of the packet buffer pool: what each operation does to the size-class targets, the numbers of
 * cached blocks, the request counts and the demand averages, and what the byte budget promises about them.
 */
module PoolTuning {
  import opened Common

  const CLASSES: nat := 11
  const MIN_CLASS_SIZE: nat := 64
  const MAX_CLASS_SIZE: nat := 65536
  const MIN_TARGET: nat := 8
  const RETUNE_PERIOD: nat := 4096
  const BUDGET: nat := 16777216

  // ----- Size classes -----

  function ClassSize(i: nat): (s: nat)
    ensures s > 0
  {
    if i == 0 then MIN_CLASS_SIZE else 2 * ClassSize(i - 1)
  }

  lemma LargestClass()
    ensures ClassSize(CLASSES - 1) == MAX_CLASS_SIZE
  {
    assert ClassSize(5) == 32 * ClassSize(0) && ClassSize(10) == 32 * ClassSize(5);
  }

  lemma {:induction false} ClassSizesGrow(i: nat, j: nat)
    requires i <= j
    ensures ClassSize(i) <= ClassSize(j)
  {
    if i < j { ClassSizesGrow(i, j - 1); }
  }

  /** Class `i` is the smallest that holds `size` bytes. */
  predicate SmallestFit(i: nat, size: nat) {
    i < CLASSES && size <= ClassSize(i) && (i > 0 ==> ClassSize(i - 1) < size)
  }

  /** There is one smallest class that fits. */
  lemma UniqueFit(size: nat, i: nat, j: nat)
    requires SmallestFit(i, size) && SmallestFit(j, size)
    ensures j == i
  {
    if j < i { ClassSizesGrow(j, i - 1); }
    if i < j { ClassSizesGrow(i, j - 1); }
  }

  /** The class a request of `size` bytes is served from; too large a request has none. */
  ghost function ClassOf(size: nat): (r: Option<nat>)
    ensures r.Some? <==> size <= MAX_CLASS_SIZE
    ensures r.Some? ==> SmallestFit(r.value, size)
  {
    if size > MAX_CLASS_SIZE then None
    else
      SomeFit(size);
      Some(var i :| SmallestFit(i, size); i)
  }

  lemma SomeFit(size: nat)
    requires size <= MAX_CLASS_SIZE
    ensures exists i :: SmallestFit(i, size)
  {
    LargestClass();
    var i := FitBelow(size, CLASSES - 1);
  }

  lemma {:induction false} FitBelow(size: nat, n: nat) returns (i: nat)
    requires n < CLASSES && size <= ClassSize(n)
    ensures SmallestFit(i, size)
  {
    if n == 0 || ClassSize(n - 1) < size { i := n; } else { i := FitBelow(size, n - 1); }
  }

  method SizeToClassIndex(size: nat) returns (r: Option<nat>)
    ensures r.Some? <==> size <= MAX_CLASS_SIZE
    ensures r.Some? ==> SmallestFit(r.value, size)
    ensures r == ClassOf(size)
  {
    if size > MAX_CLASS_SIZE {
      return None;
    }
    var classSize, index := MIN_CLASS_SIZE, 0;
    while classSize < size && index + 1 < CLASSES
      invariant index < CLASSES && classSize == ClassSize(index) && (index > 0 ==> ClassSize(index - 1) < size)
    {
      classSize := 2 * classSize;
      index := index + 1;
    }
    LargestClass();
    UniqueFit(size, index, ClassOf(size).value);
    return Some(index);
  }

  // ----- The accounts -----

  /** One entry per class: cache target, cached blocks, requests since the last retune, averaged demand. */
  datatype Books = Books(targets: seq<nat>, cached: seq<nat>, requests: seq<nat>, demand: seq<real>, total: nat)

  predicate NonNegative(demand: seq<real>) { forall i | 0 <= i < |demand| :: demand[i] >= 0.0 }

  /** No cache exceeds its target. */
  predicate WithinTargets(cached: seq<nat>, targets: seq<nat>) {
    |cached| == |targets| && forall i | 0 <= i < |cached| :: cached[i] <= targets[i]
  }

  predicate BooksOk(b: Books) {
    |b.targets| == |b.requests| == |b.demand| == CLASSES && NonNegative(b.demand) && WithinTargets(b.cached, b.targets)
  }

  function Opened(): (b: Books)
    ensures BooksOk(b)
  {
    Books(seq(CLASSES, _ => MIN_TARGET), seq(CLASSES, _ => 0), seq(CLASSES, _ => 0), seq(CLASSES, _ => 0.0), 0)
  }

  /** A request for `size` bytes; a pooled one takes a cached block if there is one. */
  ghost function Requested(b: Books, size: nat): (r: Books)
    requires BooksOk(b)
    ensures BooksOk(r) && r.targets == b.targets
  {
    match ClassOf(size)
    case None => b.(total := b.total + 1)
    case Some(i) => b.(total := b.total + 1, requests := b.requests[i := b.requests[i] + 1],
                       cached := b.cached[i := if b.cached[i] > 0 then b.cached[i] - 1 else 0])
  }

  /** A block of class `i` comes back and is cached if there is room. */
  function Stored(b: Books, i: nat): (r: Books)
    requires BooksOk(b) && i < CLASSES
    ensures BooksOk(r)
  {
    if b.cached[i] < b.targets[i] then b.(cached := b.cached[i := b.cached[i] + 1]) else b
  }

  predicate RetuneDue(total: nat) { total >= RETUNE_PERIOD && total % RETUNE_PERIOD == 0 }

  /** The last reference to a pooled block is given up; every 4096 requests the pool then retunes. */
  function Returned(b: Books, i: nat): (r: Books)
    requires BooksOk(b) && i < CLASSES
    ensures BooksOk(r)
  {
    if RetuneDue(b.total) then Retune(Stored(b, i)) else Stored(b, i)
  }

  function Update(demand: real, requests: nat): (r: real) { demand * 0.8 + (requests as real) * 0.2 }

  /** The first pass of a retune: requests are averaged into the demand. */
  function Averaged(b: Books): (r: Books)
    requires BooksOk(b)
    ensures BooksOk(r) && r.targets == b.targets && r.cached == b.cached
  {
    b.(requests := seq(CLASSES, _ => 0),
       demand := seq(CLASSES, i requires 0 <= i < CLASSES => Update(b.demand[i], b.requests[i])))
  }

  /** The second pass: each class gets its share of the budget, and its cache is trimmed to it. */
  function Shared(b: Books, sum: real): (r: Books)
    requires BooksOk(b) && sum > 0.0
    ensures BooksOk(r)
  {
    b.(targets := seq(CLASSES, i requires 0 <= i < CLASSES => NewTarget(b.demand[i], sum, ClassSize(i))),
       cached := seq(CLASSES,
                     i requires 0 <= i < CLASSES => Min(b.cached[i], NewTarget(b.demand[i], sum, ClassSize(i)))))
  }

  function Retune(b: Books): (r: Books)
    requires BooksOk(b)
    ensures BooksOk(r)
  {
    var a := Averaged(b);
    var sum := Total(a.demand, |a.demand|);
    if sum <= 0.0 then a else Shared(a, sum)
  }

  ghost function Boosted(b: Books, size: nat, n: nat): (r: Books)
    requires BooksOk(b)
    ensures BooksOk(r)
  {
    match ClassOf(size)
    case None => b
    case Some(i) => b.(targets := b.targets[i := if b.targets[i] < n then n else b.targets[i]])
  }

  function Cleared(b: Books): (r: Books)
    requires BooksOk(b)
    ensures BooksOk(r)
  {
    b.(requests := seq(CLASSES, _ => 0), demand := seq(CLASSES, _ => 0.0), total := 0)
  }

  // ----- The byte budget -----

  /** The bytes of `counts[i]` blocks of each class `i` below `n`. */
  function Worth(counts: seq<nat>, n: nat): nat
    requires n <= |counts|
  {
    if n == 0 then 0 else Worth(counts, n - 1) + counts[n - 1] * ClassSize(n - 1)
  }

  function FloorBytes(n: nat): nat { if n == 0 then 0 else FloorBytes(n - 1) + MIN_TARGET * ClassSize(n - 1) }

  /** Worth at most the budget and eight blocks of each class. */
  ghost predicate Affordable(counts: seq<nat>) {
    forall n | n == |counts| :: Worth(counts, n) <= BUDGET + FloorBytes(n)
  }

  function Total(demand: seq<real>, n: nat): real
    requires n <= |demand|
  {
    if n == 0 then 0.0 else Total(demand, n - 1) + demand[n - 1]
  }

  /** The share of the budget a class gets, in blocks. */
  function Share(demand: real, sum: real, size: nat): (t: nat)
    requires demand >= 0.0 && sum > 0.0 && size > 0
  {
    var x := demand / sum * (BUDGET as real) / (size as real);
    assert x >= 0.0 by { Quotients(demand, sum, size as real); }
    x.Floor
  }

  lemma Quotients(demand: real, sum: real, size: real)
    requires demand >= 0.0 && sum > 0.0 && size > 0.0
    ensures demand / sum >= 0.0 && demand / sum * (BUDGET as real) / size >= 0.0
  {
    var w := demand / sum;
    assert w * sum == demand;
    assert w >= 0.0;
    var y := w * (BUDGET as real);
    assert y >= 0.0;
    assert y / size * size == y;
  }

  function NewTarget(demand: real, sum: real, size: nat): (t: nat)
    requires demand >= 0.0 && sum > 0.0 && size > 0
  {
    if Share(demand, sum, size) < MIN_TARGET then MIN_TARGET else Share(demand, sum, size)
  }

  /** A class's target is worth at most its share of the budget plus eight blocks. */
  lemma TargetWorth(demand: real, sum: real, size: nat)
    requires demand >= 0.0 && sum > 0.0 && size > 0
    ensures (NewTarget(demand, sum, size) * size) as real
              <= demand / sum * (BUDGET as real) + (MIN_TARGET * size) as real
  {
    var y, s := demand / sum * (BUDGET as real), size as real;
    Quotients(demand, sum, s);
    var share := Share(demand, sum, size);
    assert share as real <= y / s;
    assert y / s * s == y;
    assert share as real * s <= y / s * s;
    assert (share * size) as real == share as real * s;
    assert y >= 0.0 by { assert y / s * s == y; }
  }

  ghost predicate TargetsFrom(targets: seq<nat>, demand: seq<real>, sum: real, n: nat)
    requires n <= |targets| && n <= |demand|
  {
    sum > 0.0 && NonNegative(demand) && forall i | 0 <= i < n :: targets[i] == NewTarget(demand[i], sum, ClassSize(i))
  }

  lemma DivideSum(a: real, b: real, s: real)
    requires s > 0.0
    ensures (a + b) / s == a / s + b / s && s / s == 1.0 && 0.0 / s == 0.0
  {
    assert (a / s + b / s) * s == a / s * s + b / s * s == a + b;
  }

  lemma {:induction false} TargetsWorth(targets: seq<nat>, demand: seq<real>, sum: real, n: nat)
    requires n <= |targets| && n <= |demand| && TargetsFrom(targets, demand, sum, n)
    ensures Worth(targets, n) as real <= Total(demand, n) / sum * (BUDGET as real) + FloorBytes(n) as real
  {
    if n > 0 {
      var t, d, size := Worth(targets, n - 1), demand[n - 1], ClassSize(n - 1);
      TargetsWorth(targets, demand, sum, n - 1);
      TargetWorth(d, sum, size);
      DivideSum(Total(demand, n - 1), d, sum);
      AddWorth(t, targets[n - 1] * size, Total(demand, n - 1) / sum, d / sum, FloorBytes(n - 1), MIN_TARGET * size);
    } else {
      DivideSum(0.0, 0.0, sum);
    }
  }

  lemma AddWorth(t: nat, u: nat, x: real, y: real, f: nat, g: nat)
    requires t as real <= x * (BUDGET as real) + f as real && u as real <= y * (BUDGET as real) + g as real
    ensures (t + u) as real <= (x + y) * (BUDGET as real) + (f + g) as real
  {
  }

  lemma RetunedWithinBudget(targets: seq<nat>, demand: seq<real>)
    requires |targets| == |demand| && TargetsFrom(targets, demand, Total(demand, |demand|), |targets|)
    ensures Affordable(targets)
  {
    var sum := Total(demand, |demand|);
    TargetsWorth(targets, demand, sum, |targets|);
    DivideSum(sum, 0.0, sum);
  }

  lemma {:induction false} WorthMonotone(a: seq<nat>, b: seq<nat>, n: nat)
    requires WithinTargets(a, b) && n <= |a|
    ensures Worth(a, n) <= Worth(b, n)
  {
    if n > 0 {
      WorthMonotone(a, b, n - 1);
      assert a[n - 1] * ClassSize(n - 1) <= b[n - 1] * ClassSize(n - 1);
    }
  }

  /** What is cached within affordable targets is affordable. */
  lemma CachedWithinBudget(cached: seq<nat>, targets: seq<nat>)
    requires WithinTargets(cached, targets) && Affordable(targets)
    ensures Affordable(cached)
  {
    WorthMonotone(cached, targets, |cached|);
    assert Worth(targets, |targets|) <= BUDGET + FloorBytes(|targets|);
  }

  lemma {:induction false} MinimalWorth(counts: seq<nat>, n: nat)
    requires n <= |counts| && forall i | 0 <= i < n :: counts[i] == MIN_TARGET
    ensures Worth(counts, n) == FloorBytes(n)
  {
    if n > 0 { MinimalWorth(counts, n - 1); }
  }

  /** A new pool is within the budget. */
  lemma OpenedAffordable()
    ensures Affordable(Opened().targets)
  {
    MinimalWorth(Opened().targets, |Opened().targets|);
  }

  /** Some class was asked for, now or in the average. */
  predicate HasDemand(b: Books)
    requires BooksOk(b)
  {
    exists i :: 0 <= i < CLASSES && Busy(b, i)
  }

  predicate Busy(b: Books, i: nat)
    requires BooksOk(b) && i < CLASSES
  {
    b.requests[i] > 0 || b.demand[i] > 0.0
  }

  lemma {:induction false} TotalPositive(d: seq<real>, n: nat)
    requires n <= |d| && NonNegative(d)
    ensures Total(d, n) >= 0.0 && (Total(d, n) > 0.0 <==> exists i :: 0 <= i < n && d[i] > 0.0)
  {
    if n > 0 { TotalPositive(d, n - 1); }
  }

  lemma DemandSum(b: Books)
    requires BooksOk(b)
    ensures Total(Averaged(b).demand, |Averaged(b).demand|) > 0.0 <==> HasDemand(b)
  {
    var d := Averaged(b).demand;
    TotalPositive(d, |d|);
    forall i | 0 <= i < CLASSES ensures d[i] > 0.0 <==> Busy(b, i) {
      assert d[i] == Update(b.demand[i], b.requests[i]);
    }
    if HasDemand(b) { var i :| 0 <= i < CLASSES && Busy(b, i); assert d[i] > 0.0; }
    if i :| 0 <= i < |d| && d[i] > 0.0 { assert Busy(b, i); }
  }

  /** A retune makes the targets affordable exactly when it does anything, which is when there is demand. */
  lemma RetuneEffect(b: Books)
    requires BooksOk(b)
    ensures HasDemand(b) ==> Affordable(Retune(b).targets)
    ensures !HasDemand(b) ==> Retune(b).targets == b.targets && Retune(b).cached == b.cached
  {
    DemandSum(b);
    var a := Averaged(b);
    if HasDemand(b) { RetunedWithinBudget(Retune(b).targets, a.demand); }
  }

  /** Demand, once there, stays until the figures are cleared. */
  lemma DemandStays(b: Books, i: nat)
    requires BooksOk(b) && i < CLASSES && Busy(b, i)
    ensures Busy(Retune(b), i)
  {
    assert Averaged(b).demand[i] == Update(b.demand[i], b.requests[i]) > 0.0;
  }
}
