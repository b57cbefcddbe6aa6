/** What a program of packet operations means: every packet is a value, and the pool is its accounts. */
module PacketPrograms {
  import opened Common
  import opened PoolTuning

  datatype Op =
    | ConstructOp(p: PacketId, d: Bytes)
    | CopyOp(p: PacketId, src: PacketId)
    | MoveOp(p: PacketId, src: PacketId)
    | CopyAssignOp(p: PacketId, src: PacketId)
    | MoveAssignOp(p: PacketId, src: PacketId)
    | DestroyOp(p: PacketId)
    | BoostOp(size: nat, blocks: nat)
    | ResetOp

  /** A packet with bytes also has the number of the construction they come from, which its copies share. */
  datatype Content = Empty | Filled(origin: nat, d: Bytes)

  type Packets = map<PacketId, Content>

  datatype World = World(packets: Packets, books: Books, next: nat)

  predicate WorldOk(w: World) { BooksOk(w.books) }

  function Start(): (w: World)
    ensures WorldOk(w)
  {
    World(map[], Opened(), 0)
  }

  /** The packets an operation names exist, or do not yet, as it needs. */
  predicate Enabled(packets: Packets, op: Op) {
    match op
    case ConstructOp(p, _) => p !in packets
    case CopyOp(p, src) => p !in packets && src in packets
    case MoveOp(p, src) => p !in packets && src in packets
    case CopyAssignOp(p, src) => p in packets && src in packets
    case MoveAssignOp(p, src) => p in packets && src in packets
    case DestroyOp(p) => p in packets
    case _ => true
  }

  /** No other packet has the bytes of the same construction. */
  predicate LastHolder(packets: Packets, p: PacketId) {
    && p in packets && packets[p].Filled?
    && forall q | q in packets && q != p && packets[q].Filled? :: packets[q].origin != packets[p].origin
  }

  /** Packet `p` holds the last reference to a block of a size class. */
  predicate LastPooled(packets: Packets, p: PacketId) {
    LastHolder(packets, p) && |packets[p].d| <= MAX_CLASS_SIZE
  }

  /** The accounts after packet `p` gives up its bytes. */
  ghost function GivenUp(w: World, p: PacketId): (r: Books)
    requires WorldOk(w)
    ensures BooksOk(r)
  {
    if LastPooled(w.packets, p) then Returned(w.books, ClassOf(|w.packets[p].d|).value) else w.books
  }

  function Taken(packets: Packets, p: PacketId, src: PacketId): Packets
    requires src in packets
  {
    packets[p := packets[src]][src := Empty]
  }

  ghost function Meaning(w: World, op: Op): (r: World)
    requires WorldOk(w) && Enabled(w.packets, op)
    ensures WorldOk(r)
  {
    match op
    case ConstructOp(p, d) =>
      if |d| % U32_SIZE > 0 then World(w.packets[p := Filled(w.next, d)], Requested(w.books, |d|), w.next + 1)
      else w.(packets := w.packets[p := Empty])
    case CopyOp(p, src) => w.(packets := w.packets[p := w.packets[src]])
    case MoveOp(p, src) => w.(packets := Taken(w.packets, p, src))
    case CopyAssignOp(p, src) =>
      if p == src then w else w.(packets := w.packets[p := w.packets[src]], books := GivenUp(w, p))
    case MoveAssignOp(p, src) =>
      if p == src then w else w.(packets := Taken(w.packets, p, src), books := GivenUp(w, p))
    case DestroyOp(p) => w.(packets := w.packets - {p}, books := GivenUp(w, p))
    case BoostOp(size, n) => w.(books := Boosted(w.books, size, n))
    case ResetOp => w.(books := Cleared(w.books))
  }

  ghost function MeaningOf(ops: seq<Op>): (w: World)
    ensures WorldOk(w)
  {
    if ops == [] then Start()
    else
      var w, op := MeaningOf(ops[..|ops| - 1]), ops[|ops| - 1];
      if Enabled(w.packets, op) then Meaning(w, op) else w
  }

  ghost predicate RunnableAt(ops: seq<Op>, i: nat)
    requires i < |ops|
  {
    Enabled(MeaningOf(ops[..i]).packets, ops[i])
  }

  /** A program can run these operations one after the other. */
  ghost predicate Runnable(ops: seq<Op>) { forall i | 0 <= i < |ops| :: RunnableAt(ops, i) }

  lemma Extend(ops: seq<Op>, op: Op)
    requires Runnable(ops) && Enabled(MeaningOf(ops).packets, op)
    ensures Runnable(ops + [op]) && MeaningOf(ops + [op]) == Meaning(MeaningOf(ops), op)
  {
    assert (ops + [op])[..|ops|] == ops;
    forall i | 0 <= i < |ops| + 1 ensures RunnableAt(ops + [op], i) {
      assert i < |ops| ==> RunnableAt(ops, i) && (ops + [op])[..i] == ops[..i];
    }
  }

  lemma Shorten(ops: seq<Op>)
    requires Runnable(ops) && ops != []
    ensures var front := ops[..|ops| - 1];
            && Runnable(front) && Enabled(MeaningOf(front).packets, ops[|ops| - 1])
            && MeaningOf(ops) == Meaning(MeaningOf(front), ops[|ops| - 1])
  {
    var front := ops[..|ops| - 1];
    forall i | 0 <= i < |front| ensures RunnableAt(front, i) { assert RunnableAt(ops, i) && front[..i] == ops[..i]; }
    assert RunnableAt(ops, |ops| - 1);
  }

  // ----- Programs step by step -----

  ghost predicate StepOk(ops: seq<Op>, ws: seq<World>, i: nat)
    requires i < |ops| < |ws|
  {
    WorldOk(ws[i]) && Enabled(ws[i].packets, ops[i]) && ws[i + 1] == Meaning(ws[i], ops[i])
  }

  /** The states a program goes through. */
  ghost predicate Trace(ops: seq<Op>, ws: seq<World>) {
    && |ws| == |ops| + 1 && ws[0] == Start() && WorldOk(ws[|ops|])
    && forall i | 0 <= i < |ops| :: StepOk(ops, ws, i)
  }

  function Last(ws: seq<World>): World
    requires ws != []
  {
    ws[|ws| - 1]
  }

  lemma TraceExtends(ops: seq<Op>, ws: seq<World>, op: Op)
    requires Trace(ops, ws) && Enabled(Last(ws).packets, op)
    ensures Trace(ops + [op], ws + [Meaning(Last(ws), op)])
  {
    var ops', ws' := ops + [op], ws + [Meaning(Last(ws), op)];
    forall i | 0 <= i < |ops'| ensures StepOk(ops', ws', i) { assert i < |ops| ==> StepOk(ops, ws, i); }
  }

  lemma {:induction false} TraceIsMeaning(ops: seq<Op>, ws: seq<World>)
    requires Trace(ops, ws)
    ensures Runnable(ops) && MeaningOf(ops) == Last(ws)
  {
    if ops != [] {
      var n := |ops| - 1;
      var front, earlier := ops[..n], ws[..n + 1];
      assert StepOk(ops, ws, n);
      forall i | 0 <= i < n ensures StepOk(front, earlier, i) { assert StepOk(ops, ws, i); }
      TraceIsMeaning(front, earlier);
      assert ops[..n] + [ops[n]] == ops;
      Extend(ops[..n], ops[n]);
    }
  }

  // ----- Sharing is invisible -----

  type Values = map<PacketId, Bytes>

  function Data(c: Content): Bytes { if c.Filled? then c.d else [] }

  function ValuesOf(packets: Packets): Values { map p | p in packets :: Data(packets[p]) }

  /** What the operations mean if every packet had its own bytes. */
  function ValueMeaning(vs: Values, op: Op): Values {
    match op
    case ConstructOp(p, d) => vs[p := if |d| % U32_SIZE > 0 then d else []]
    case CopyOp(p, src) => if src in vs then vs[p := vs[src]] else vs
    case MoveOp(p, src) => if src in vs then vs[p := vs[src]][src := []] else vs
    case CopyAssignOp(p, src) => if src in vs then vs[p := vs[src]] else vs
    case MoveAssignOp(p, src) => if p != src && src in vs then vs[p := vs[src]][src := []] else vs
    case DestroyOp(p) => vs - {p}
    case _ => vs
  }

  function ValueMeaningOf(ops: seq<Op>): Values {
    if ops == [] then map[] else ValueMeaning(ValueMeaningOf(ops[..|ops| - 1]), ops[|ops| - 1])
  }

  lemma SetValue(packets: Packets, p: PacketId, c: Content)
    ensures ValuesOf(packets[p := c]) == ValuesOf(packets)[p := Data(c)]
    ensures ValuesOf(packets - {p}) == ValuesOf(packets) - {p}
  {
  }

  lemma TakeValue(packets: Packets, p: PacketId, src: PacketId)
    requires src in packets
    ensures ValuesOf(packets[p := packets[src]]) == ValuesOf(packets)[p := ValuesOf(packets)[src]]
    ensures ValuesOf(Taken(packets, p, src)) == ValuesOf(packets)[p := ValuesOf(packets)[src]][src := []]
  {
    SetValue(packets, p, packets[src]);
    SetValue(packets[p := packets[src]], src, Empty);
  }

  lemma ValuesFollow(w: World, op: Op)
    requires WorldOk(w) && Enabled(w.packets, op)
    ensures ValuesOf(Meaning(w, op).packets) == ValueMeaning(ValuesOf(w.packets), op)
  {
    match op
    case ConstructOp(p, d) => SetValue(w.packets, p, if |d| % U32_SIZE > 0 then Filled(w.next, d) else Empty);
    case CopyOp(p, src) => TakeValue(w.packets, p, src);
    case MoveOp(p, src) => TakeValue(w.packets, p, src);
    case CopyAssignOp(p, src) => TakeValue(w.packets, p, src);
    case MoveAssignOp(p, src) => TakeValue(w.packets, p, src);
    case DestroyOp(p) => SetValue(w.packets, p, Empty);
    case _ =>
  }

  /** Sharing and recycling do not show: each packet has the bytes it would have if it owned them. */
  lemma {:induction false} PacketsAreValues(ops: seq<Op>)
    requires Runnable(ops)
    ensures ValuesOf(MeaningOf(ops).packets) == ValueMeaningOf(ops)
  {
    if ops != [] {
      Shorten(ops);
      PacketsAreValues(ops[..|ops| - 1]);
      ValuesFollow(MeaningOf(ops[..|ops| - 1]), ops[|ops| - 1]);
    }
  }

  // ----- The byte budget over a program -----

  /** The packet whose bytes an operation gives up. */
  function Drops(op: Op): Option<PacketId> {
    match op
    case CopyAssignOp(p, src) => if p == src then None else Some(p)
    case MoveAssignOp(p, src) => if p == src then None else Some(p)
    case DestroyOp(p) => Some(p)
    case _ => None
  }

  /** The operation gives up the last reference to a pooled block while a retune is due. */
  predicate SetsOffRetune(w: World, op: Op) {
    Drops(op).Some? && LastPooled(w.packets, Drops(op).value) && RetuneDue(w.books.total)
  }

  predicate AsksPool(op: Op) { op.ConstructOp? && 0 < |op.d| <= MAX_CLASS_SIZE }

  /** Since the last `ResetOp` a packet of a pooled size was constructed. */
  predicate AskedSinceReset(ops: seq<Op>) {
    ops != [] && (AsksPool(ops[|ops| - 1]) || (ops[|ops| - 1] != ResetOp && AskedSinceReset(ops[..|ops| - 1])))
  }

  /** A boost beyond the target of its class. */
  ghost predicate Raises(w: World, op: Op)
    requires WorldOk(w)
  {
    op.BoostOp? && ClassOf(op.size).Some? && op.blocks > w.books.targets[ClassOf(op.size).value]
  }

  lemma StoredDemand(b: Books, i: nat)
    requires BooksOk(b) && i < CLASSES
    ensures HasDemand(Stored(b, i)) <==> HasDemand(b)
  {
    forall j | 0 <= j < CLASSES ensures Busy(Stored(b, i), j) <==> Busy(b, j) { }
  }

  lemma RetunedDemand(b: Books)
    requires BooksOk(b)
    ensures HasDemand(Retune(b)) <==> HasDemand(b)
  {
    if i :| 0 <= i < CLASSES && Busy(b, i) { DemandStays(b, i); }
    if i :| 0 <= i < CLASSES && Busy(Retune(b), i) {
      var a := Averaged(b);
      assert Retune(b).demand == a.demand && Retune(b).requests == a.requests;
      assert a.demand[i] == Update(b.demand[i], b.requests[i]);
      assert Busy(b, i);
    }
  }

  /** Returning a block neither makes demand nor loses it; a retune makes the targets affordable if there is some. */
  lemma ReturnedEffect(b: Books, i: nat)
    requires BooksOk(b) && i < CLASSES
    ensures HasDemand(Returned(b, i)) <==> HasDemand(b)
    ensures RetuneDue(b.total) && HasDemand(b) ==> Affordable(Returned(b, i).targets)
    ensures !(RetuneDue(b.total) && HasDemand(b)) ==> Returned(b, i).targets == b.targets
  {
    StoredDemand(b, i);
    RetunedDemand(Stored(b, i));
    RetuneEffect(Stored(b, i));
  }

  lemma RequestedDemand(b: Books, size: nat)
    requires BooksOk(b)
    ensures HasDemand(Requested(b, size)) <==> HasDemand(b) || size <= MAX_CLASS_SIZE
  {
    var r := Requested(b, size);
    if size <= MAX_CLASS_SIZE {
      assert Busy(r, ClassOf(size).value);
    } else {
      forall j | 0 <= j < CLASSES ensures Busy(r, j) <==> Busy(b, j) { }
    }
  }

  lemma OtherDemand(b: Books, size: nat, n: nat)
    requires BooksOk(b)
    ensures HasDemand(Boosted(b, size, n)) <==> HasDemand(b)
    ensures !HasDemand(Cleared(b)) && !HasDemand(Opened())
  {
    forall j | 0 <= j < CLASSES ensures Busy(Boosted(b, size, n), j) <==> Busy(b, j) { }
  }

  lemma GivenUpEffect(w: World, p: PacketId)
    requires WorldOk(w)
    ensures HasDemand(GivenUp(w, p)) <==> HasDemand(w.books)
    ensures LastPooled(w.packets, p) && RetuneDue(w.books.total) && HasDemand(w.books)
            ==> Affordable(GivenUp(w, p).targets)
    ensures !(LastPooled(w.packets, p) && RetuneDue(w.books.total) && HasDemand(w.books))
            ==> GivenUp(w, p).targets == w.books.targets
  {
    if LastPooled(w.packets, p) { ReturnedEffect(w.books, ClassOf(|w.packets[p].d|).value); }
  }

  lemma DemandStep(w: World, op: Op)
    requires WorldOk(w) && Enabled(w.packets, op)
    ensures HasDemand(Meaning(w, op).books) <==> AsksPool(op) || (op != ResetOp && HasDemand(w.books))
  {
    match op
    case ConstructOp(p, d) => RequestedDemand(w.books, |d|);
    case BoostOp(size, n) => OtherDemand(w.books, size, n);
    case ResetOp => OtherDemand(w.books, 0, 0);
    case CopyAssignOp(p, _) => GivenUpEffect(w, p);
    case MoveAssignOp(p, _) => GivenUpEffect(w, p);
    case DestroyOp(p) => GivenUpEffect(w, p);
    case _ =>
  }

  /** The pool shows demand exactly when a pooled size was asked for since the last reset. */
  lemma {:induction false} DemandIsAsked(ops: seq<Op>)
    requires Runnable(ops)
    ensures HasDemand(MeaningOf(ops).books) <==> AskedSinceReset(ops)
  {
    if ops == [] {
      OtherDemand(Opened(), 0, 0);
    } else {
      Shorten(ops);
      DemandIsAsked(ops[..|ops| - 1]);
      DemandStep(MeaningOf(ops[..|ops| - 1]), ops[|ops| - 1]);
    }
  }

  lemma BoostEffect(b: Books, size: nat, n: nat)
    requires BooksOk(b)
    ensures (ClassOf(size).Some? ==> n <= b.targets[ClassOf(size).value]) ==> Boosted(b, size, n).targets == b.targets
  {
    if ClassOf(size).Some? {
      var i := ClassOf(size).value;
      assert b.targets[i := b.targets[i]] == b.targets;
    }
  }

  lemma DropBooks(w: World, op: Op)
    requires WorldOk(w) && Enabled(w.packets, op) && Drops(op).Some?
    ensures Meaning(w, op).books == GivenUp(w, Drops(op).value)
  {
  }

  lemma TargetsKept(w: World, op: Op)
    requires WorldOk(w) && Enabled(w.packets, op) && Drops(op).None? && !Raises(w, op)
    ensures Meaning(w, op).books.targets == w.books.targets
  {
    if op.BoostOp? { BoostEffect(w.books, op.size, op.blocks); }
  }

  /** One operation: a due retune of a pool with demand makes the targets affordable, and only a raising boost
      can make them cost more. */
  lemma TargetsStep(w: World, op: Op)
    requires WorldOk(w) && Enabled(w.packets, op)
    ensures SetsOffRetune(w, op) && HasDemand(w.books) ==> Affordable(Meaning(w, op).books.targets)
    ensures !(SetsOffRetune(w, op) && HasDemand(w.books)) && !Raises(w, op)
            ==> Meaning(w, op).books.targets == w.books.targets
  {
    if Drops(op).Some? {
      DropBooks(w, op);
      GivenUpEffect(w, Drops(op).value);
    } else if !Raises(w, op) {
      TargetsKept(w, op);
    }
  }

  /** The last operation sets off a retune, and a pooled size was asked for since the last reset. */
  ghost predicate EndsInRetune(ops: seq<Op>)
    requires ops != []
  {
    SetsOffRetune(MeaningOf(ops[..|ops| - 1]), ops[|ops| - 1]) && AskedSinceReset(ops[..|ops| - 1])
  }

  ghost predicate EndsInRaise(ops: seq<Op>)
    requires ops != []
  {
    Raises(MeaningOf(ops[..|ops| - 1]), ops[|ops| - 1])
  }

  /** No boost raised a target since the start of the program, or since such a retune. */
  ghost predicate KeepsBudget(ops: seq<Op>) {
    ops != [] ==> EndsInRetune(ops) || (!EndsInRaise(ops) && KeepsBudget(ops[..|ops| - 1]))
  }

  /** The targets are then worth at most the budget and eight blocks of each class, and so is what is cached. */
  lemma {:induction false} ProgramWithinBudget(ops: seq<Op>)
    requires Runnable(ops) && KeepsBudget(ops)
    ensures Affordable(MeaningOf(ops).books.targets) && Affordable(MeaningOf(ops).books.cached)
  {
    if ops == [] {
      OpenedAffordable();
    } else {
      var front, op := ops[..|ops| - 1], ops[|ops| - 1];
      Shorten(ops);
      DemandIsAsked(front);
      TargetsStep(MeaningOf(front), op);
      if !EndsInRetune(ops) { ProgramWithinBudget(front); }
    }
    CachedWithinBudget(MeaningOf(ops).books.cached, MeaningOf(ops).books.targets);
  }

  lemma RetuneStep(w: World, op: Op)
    requires WorldOk(w) && Enabled(w.packets, op) && SetsOffRetune(w, op)
    ensures Affordable(Meaning(w, op).books.targets) <==> HasDemand(w.books) || Affordable(w.books.targets)
  {
    TargetsStep(w, op);
    if !HasDemand(w.books) { assert Meaning(w, op).books.targets == w.books.targets by { assert !Raises(w, op); } }
  }

  /** What a retune does to the budget, exactly: after it the targets are affordable if and only if a pooled size
      was asked for since the last reset, or they were affordable before. */
  lemma RetuneRestoresBudget(ops: seq<Op>, op: Op)
    requires Runnable(ops) && Enabled(MeaningOf(ops).packets, op) && SetsOffRetune(MeaningOf(ops), op)
    ensures Affordable(MeaningOf(ops + [op]).books.targets)
            <==> AskedSinceReset(ops) || Affordable(MeaningOf(ops).books.targets)
  {
    Extend(ops, op);
    DemandIsAsked(ops);
    RetuneStep(MeaningOf(ops), op);
  }
}
