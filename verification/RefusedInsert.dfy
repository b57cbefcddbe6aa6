/**
 * A run after which every thread is idle, a key is absent, and every insert of it is refused.  One thread looks a key
 * up to remove it; another publishes a node above; the first marks its node, finds that the head no longer leads to
 * it, and gives up unlinking.  The deleted node stays on the chain.
 */
module RefusedInsert {
  import opened Common
  import opened HashMapProtocol
  import opened HashMapTheorems
  import opened HashMapLinearization
  import opened HashMapRefusal

  const CFG: Config := Config(1, _ => 0)
  const INSERT: Op := Insert(0, 7, None)
  const OTHER: Op := Insert(1, 8, None)
  const REMOVE: Op := Remove(0)

  function Last(e: Execution): System { e.run[|e.run| - 1] }

  /** The two threads and the only node, as the run goes on. */
  function Only(deleted: bool, rank: nat, slot: nat): Node { Node(0, 7, None, None, deleted, rank, slot) }

  function Mem(node: Node, tail: Option<Id>): Memory {
    Memory([node], [if node.rank > 0 then Some(0) else None], node.rank, if node.slot > 0 then Some(0) else None, tail,
           if node.slot > 0 then [0] else [])
  }

  const LINKED: Memory := Mem(Only(false, 1, 1), Some(0))

  /** Both nodes, once the second is allocated. */
  function Pair(rank: nat, slot: nat, dead: bool, tail: Id): Memory {
    var first := Node(0, 7, None, if slot > 0 then Some(1) else None, dead, 1, 1);
    Memory([first, Node(1, 8, Some(0), None, false, rank, slot)],
           [if rank > 0 then Some(1) else Some(0)], if rank > 0 then 2 else 1, Some(0), Some(tail),
           if slot > 0 then [0, 1] else [0])
  }

  const BOTH: Memory := Pair(2, 2, false, 1)

  /** The deleted node is still on the chain, below the live one. */
  const ABANDONED: Memory := Pair(2, 2, true, 1)

  ghost predicate At(e: Execution, m: Memory, first: Pc, second: Pc) {
    e.cfg == CFG && Last(e).mem == m && Last(e).threads == map[0 := first, 1 := second]
  }

  const REST: Pc := Idle(NoOutcome)

  /** One step of a thread, taken alone. */
  ghost predicate Steps(m: Memory, pc: Pc, op: Op, m': Memory, pc': Pc) {
    && Allocated(CFG, m) && PcAllocated(m, pc)
    && forall t: Tid :: Step(CFG, m, pc, Action(t, false, op)) == (m', pc')
  }

  /** Thread 0 moves. */
  lemma First(e: Execution, op: Op, m: Memory, pc: Pc, m': Memory, pc': Pc, other: Pc) returns (e': Execution)
    requires At(e, m, pc, other) && Steps(m, pc, op, m', pc') && InsertKey(other).None?
    ensures At(e', m', pc', other)
  {
    var a := Action(0, false, op);
    assert MayMove(Last(e), a);
    RunExtends(e, a);
    e' := Trace(e.cfg, e.run + [SystemStep(e.cfg, Last(e), a)], e.acts + [a]);
  }

  /** Thread 1 moves. */
  lemma Second(e: Execution, op: Op, m: Memory, pc: Pc, m': Memory, pc': Pc, other: Pc) returns (e': Execution)
    requires At(e, m, other, pc) && Steps(m, pc, op, m', pc') && InsertKey(other).None?
    ensures At(e', m', other, pc') && e'.run == e.run + [Last(e')]
  {
    var a := Action(1, false, op);
    assert MayMove(Last(e), a);
    RunExtends(e, a);
    e' := Trace(e.cfg, e.run + [SystemStep(e.cfg, Last(e), a)], e.acts + [a]);
  }

  lemma Begun() returns (e: Execution)
    ensures At(e, EMPTY, REST, REST)
  {
    assert seq<Option<Id>>(1, _ => None) == [None];
    e := Trace(CFG, [System(EMPTY, map[0 := REST, 1 := REST])], []);
  }

  const EMPTY: Memory := Memory([], [None], 0, None, None, [])

  lemma Single<T>(x: T, y: T)
    ensures [x][0 := y] == [y] && [] + [x] == [x]
  {
  }

  /** Allocating, publishing, linking, marking the node. */
  lemma Writes()
    ensures Steps(EMPTY, LoadHead(0, 7, None), INSERT, Mem(Only(false, 0, 0), None), CasHead(0, 7, 0, None))
    ensures Steps(Mem(Only(false, 0, 0), None), CasHead(0, 7, 0, None), INSERT, Mem(Only(false, 1, 0), None),
                  LoadTail(0))
  {
    Single(Only(false, 0, 0), Only(false, 1, 0));
    Single<Option<Id>>(None, Some(0));
  }

  lemma Links()
    ensures Steps(Mem(Only(false, 1, 0), None), CasOrderHead(0), INSERT, Mem(Only(false, 1, 1), None), CasNullTail(0))
    ensures Steps(Mem(Only(false, 1, 1), None), CasNullTail(0), INSERT, LINKED, Idle(Inserted(0)))
  {
    Single(Only(false, 1, 0), Only(false, 1, 1));
    Single<Id>(0, 0);
  }

  lemma Reads()
    ensures Steps(EMPTY, REST, INSERT, EMPTY, Start(INSERT))
    ensures Steps(EMPTY, Start(INSERT), INSERT, EMPTY, Walk(INSERT, Head(0), None))
    ensures Steps(EMPTY, Walk(INSERT, Head(0), None), INSERT, EMPTY, LoadHead(0, 7, None))
    ensures Steps(Mem(Only(false, 1, 0), None), LoadTail(0), INSERT, Mem(Only(false, 1, 0), None), CasOrderHead(0))
  {
  }

  lemma ReadsToRemove()
    ensures Steps(LINKED, Idle(Inserted(0)), REMOVE, LINKED, Start(REMOVE))
    ensures Steps(LINKED, Start(REMOVE), REMOVE, LINKED, Walk(REMOVE, Head(0), Some(0)))
    ensures Steps(LINKED, Walk(REMOVE, Head(0), Some(0)), REMOVE, LINKED, Mark(0, Head(0), 0))
  {
  }

  /** Thread 0 inserts the key, up to where its node is the first of the order chain but not yet its tail. */
  lemma HeadLinked() returns (e: Execution)
    ensures At(e, Mem(Only(false, 1, 1), None), CasNullTail(0), REST)
  {
    Reads();
    Writes();
    Links();
    var made, shown := Mem(Only(false, 0, 0), None), Mem(Only(false, 1, 0), None);
    e := Begun();
    e := First(e, INSERT, EMPTY, REST, EMPTY, Start(INSERT), REST);
    e := First(e, INSERT, EMPTY, Start(INSERT), EMPTY, Walk(INSERT, Head(0), None), REST);
    e := First(e, INSERT, EMPTY, Walk(INSERT, Head(0), None), EMPTY, LoadHead(0, 7, None), REST);
    e := First(e, INSERT, EMPTY, LoadHead(0, 7, None), made, CasHead(0, 7, 0, None), REST);
    e := First(e, INSERT, made, CasHead(0, 7, 0, None), shown, LoadTail(0), REST);
    e := First(e, INSERT, shown, LoadTail(0), shown, CasOrderHead(0), REST);
    e := First(e, INSERT, shown, CasOrderHead(0), Mem(Only(false, 1, 1), None), CasNullTail(0), REST);
  }

  lemma InsertedFirst() returns (e: Execution)
    ensures At(e, LINKED, Idle(Inserted(0)), REST)
  {
    Links();
    e := HeadLinked();
    e := First(e, INSERT, Mem(Only(false, 1, 1), None), CasNullTail(0), LINKED, Idle(Inserted(0)), REST);
  }

  const MARKING: Pc := Mark(0, Head(0), 0)

  /** Then it looks the key up to remove it, and stops before marking. */
  lemma AboutToMark() returns (e: Execution)
    ensures At(e, LINKED, MARKING, REST)
  {
    ReadsToRemove();
    e := InsertedFirst();
    e := First(e, REMOVE, LINKED, Idle(Inserted(0)), LINKED, Start(REMOVE), REST);
    e := First(e, REMOVE, LINKED, Start(REMOVE), LINKED, Walk(REMOVE, Head(0), Some(0)), REST);
    e := First(e, REMOVE, LINKED, Walk(REMOVE, Head(0), Some(0)), LINKED, MARKING, REST);
  }

  // ----- Thread 1 publishes above it -----

  lemma OtherReads()
    ensures Steps(LINKED, REST, OTHER, LINKED, Start(OTHER))
    ensures Steps(LINKED, Start(OTHER), OTHER, LINKED, Walk(OTHER, Head(0), Some(0)))
    ensures Steps(LINKED, Walk(OTHER, Head(0), Some(0)), OTHER, LINKED, Walk(OTHER, Next(0), None))
    ensures Steps(LINKED, Walk(OTHER, Next(0), None), OTHER, LINKED, LoadHead(1, 8, None))
  {
  }

  /** Writing to a list of two. */
  lemma Two<T>(x: T, y: T, z: T)
    ensures [x] + [y] == [x, y] && [x, y][1 := z] == [x, z] && [x, y][0 := z] == [z, y]
  {
  }

  lemma OtherPublishes()
    ensures Steps(LINKED, LoadHead(1, 8, None), OTHER, Pair(0, 0, false, 0), CasHead(1, 8, 1, Some(0)))
    ensures Steps(Pair(0, 0, false, 0), CasHead(1, 8, 1, Some(0)), OTHER, Pair(2, 0, false, 0), LoadTail(1))
  {
    var made, shown := Node(1, 8, Some(0), None, false, 0, 0), Node(1, 8, Some(0), None, false, 2, 0);
    Two(Only(false, 1, 1), made, shown);
    Single<Option<Id>>(Some(0), Some(1));
  }

  lemma OtherFindsTail()
    ensures Steps(Pair(2, 0, false, 0), LoadTail(1), OTHER, Pair(2, 0, false, 0), LoadTailNext(1, 0))
    ensures Steps(Pair(2, 0, false, 0), LoadTailNext(1, 0), OTHER, Pair(2, 0, false, 0), RecheckTail(1, 0, None))
    ensures Steps(Pair(2, 0, false, 0), RecheckTail(1, 0, None), OTHER, Pair(2, 0, false, 0), LinkAfter(1, 0))
  {
  }

  lemma OtherLinks()
    ensures Steps(Pair(2, 0, false, 0), LinkAfter(1, 0), OTHER, Pair(2, 2, false, 0), SwingTail(1, 0))
    ensures Steps(Pair(2, 2, false, 0), SwingTail(1, 0), OTHER, BOTH, Idle(Inserted(1)))
  {
    var linked := Node(0, 7, None, Some(1), false, 1, 1);
    var shown, placed := Node(1, 8, Some(0), None, false, 2, 0), Node(1, 8, Some(0), None, false, 2, 2);
    Two(Only(false, 1, 1), shown, linked);
    Two(linked, shown, placed);
    Two<Id>(0, 1, 1);
  }

  lemma OtherInserted() returns (e: Execution)
    ensures At(e, BOTH, MARKING, Idle(Inserted(1)))
  {
    OtherReads();
    OtherPublishes();
    var made, shown := Pair(0, 0, false, 0), Pair(2, 0, false, 0);
    e := AboutToMark();
    e := Second(e, OTHER, LINKED, REST, LINKED, Start(OTHER), MARKING);
    e := Second(e, OTHER, LINKED, Start(OTHER), LINKED, Walk(OTHER, Head(0), Some(0)), MARKING);
    e := Second(e, OTHER, LINKED, Walk(OTHER, Head(0), Some(0)), LINKED, Walk(OTHER, Next(0), None), MARKING);
    e := Second(e, OTHER, LINKED, Walk(OTHER, Next(0), None), LINKED, LoadHead(1, 8, None), MARKING);
    e := Second(e, OTHER, LINKED, LoadHead(1, 8, None), made, CasHead(1, 8, 1, Some(0)), MARKING);
    e := Second(e, OTHER, made, CasHead(1, 8, 1, Some(0)), shown, LoadTail(1), MARKING);
    e := OtherAppended(e);
  }

  lemma OtherAppended(e0: Execution) returns (e: Execution)
    requires At(e0, Pair(2, 0, false, 0), MARKING, LoadTail(1))
    ensures At(e, BOTH, MARKING, Idle(Inserted(1)))
  {
    OtherFindsTail();
    OtherLinks();
    var shown := Pair(2, 0, false, 0);
    e := Second(e0, OTHER, shown, LoadTail(1), shown, LoadTailNext(1, 0), MARKING);
    e := Second(e, OTHER, shown, LoadTailNext(1, 0), shown, RecheckTail(1, 0, None), MARKING);
    e := Second(e, OTHER, shown, RecheckTail(1, 0, None), shown, LinkAfter(1, 0), MARKING);
    e := Second(e, OTHER, shown, LinkAfter(1, 0), Pair(2, 2, false, 0), SwingTail(1, 0), MARKING);
    e := Second(e, OTHER, Pair(2, 2, false, 0), SwingTail(1, 0), BOTH, Idle(Inserted(1)), MARKING);
  }

  // ----- Thread 0 marks its node and gives up unlinking it -----

  lemma GivesUp()
    ensures Steps(BOTH, MARKING, REMOVE, ABANDONED, UnlinkRead(Head(0), 0))
    ensures Steps(ABANDONED, UnlinkRead(Head(0), 0), REMOVE, ABANDONED, Idle(Removed))
  {
    var linked, dead := Node(0, 7, None, Some(1), false, 1, 1), Node(0, 7, None, Some(1), true, 1, 1);
    Two(linked, Node(1, 8, Some(0), None, false, 2, 2), dead);
  }

  /** Every thread is idle, the key is absent, and its bucket chain leads to the deleted node. */
  ghost predicate LeftBehind(e: Execution, last: Outcome) {
    At(e, ABANDONED, Idle(Removed), Idle(last))
  }

  lemma UnlinkAbandoned() returns (e: Execution)
    ensures LeftBehind(e, Inserted(1))
  {
    GivesUp();
    e := OtherInserted();
    e := First(e, REMOVE, BOTH, MARKING, ABANDONED, UnlinkRead(Head(0), 0), Idle(Inserted(1)));
    e := First(e, REMOVE, ABANDONED, UnlinkRead(Head(0), 0), ABANDONED, Idle(Removed), Idle(Inserted(1)));
  }

  // ----- Every insert is refused -----

  lemma AbandonedIsChained()
    ensures Allocated(CFG, ABANDONED) && Chained(CFG, ABANDONED, INSERT.key) && NoLive(ABANDONED, INSERT.key)
  {
    assert BucketPath(ABANDONED, Some(1), [1, 0], 0);
  }

  lemma ReadsInVain(last: Outcome)
    ensures Steps(ABANDONED, Idle(last), INSERT, ABANDONED, Start(INSERT))
    ensures Steps(ABANDONED, Start(INSERT), INSERT, ABANDONED, Walk(INSERT, Head(0), Some(1)))
    ensures Steps(ABANDONED, Walk(INSERT, Head(0), Some(1)), INSERT, ABANDONED, Walk(INSERT, Next(1), Some(0)))
    ensures Steps(ABANDONED, Walk(INSERT, Next(1), Some(0)), INSERT, ABANDONED, Idle(NotInserted))
  {
  }

  function Standing(pc: Pc): System { System(ABANDONED, map[0 := Idle(Removed), 1 := pc]) }

  lemma InsertsInVain(e0: Execution, last: Outcome) returns (e: Execution)
    requires LeftBehind(e0, last)
    ensures LeftBehind(e, NotInserted)
    ensures e.run == e0.run + [Standing(Start(INSERT)), Standing(Walk(INSERT, Head(0), Some(1))),
                               Standing(Walk(INSERT, Next(1), Some(0))), Standing(Idle(NotInserted))]
  {
    ReadsInVain(last);
    var rest, down, low := Idle(Removed), Walk(INSERT, Head(0), Some(1)), Walk(INSERT, Next(1), Some(0));
    var e1 := Second(e0, INSERT, ABANDONED, Idle(last), ABANDONED, Start(INSERT), rest);
    var e2 := Second(e1, INSERT, ABANDONED, Start(INSERT), ABANDONED, down, rest);
    var e3 := Second(e2, INSERT, ABANDONED, down, ABANDONED, low, rest);
    e := Second(e3, INSERT, ABANDONED, low, ABANDONED, Idle(NotInserted), rest);
    assert e.run == e0.run + [Last(e1), Last(e2), Last(e3), Last(e)];
  }

  /** From there thread 1 can insert the key, undisturbed, as often as it likes: it is refused, and everything is as it
      was before. */
  lemma RefusedAgain(e0: Execution, last: Outcome) returns (e: Execution, i: nat, k: nat)
    requires LeftBehind(e0, last)
    ensures LeftBehind(e, NotInserted) && |e0.run| == i <= k == |e.run| - 1 && e.run[..i] == e0.run
    ensures Within(e, 1, i, k) && e.run[i].threads[1] == Start(INSERT) && e.run[k].threads[1] == Idle(NotInserted)
    ensures forall y | i <= y <= k :: NoLive(e.run[y].mem, INSERT.key)
  {
    AbandonedIsChained();
    e := InsertsInVain(e0, last);
    i, k := |e0.run|, |e0.run| + 3;
    assert e.run[i..] == [Standing(Start(INSERT)), Standing(Walk(INSERT, Head(0), Some(1))),
                          Standing(Walk(INSERT, Next(1), Some(0))), Standing(Idle(NotInserted))];
    forall y | i <= y <= k ensures e.run[y].mem == ABANDONED && 1 in e.run[y].threads {
      assert e.run[y] == e.run[i..][y - i];
    }
  }

  /** With every thread idle and the key absent, an insert of it is refused, although nothing live holds the key at any
      moment of it, and everything is left so that the next one is too. */
  lemma AbsentButRefused() returns (e: Execution, i: nat, k: nat)
    ensures LeftBehind(e, NotInserted) && Within(e, 1, i, k)
    ensures e.run[i].threads[1] == Start(INSERT) && e.run[k].threads[1] == Idle(NotInserted)
    ensures forall y | i <= y <= k :: NoLive(e.run[y].mem, INSERT.key)
  {
    var e0 := UnlinkAbandoned();
    e, i, k := RefusedAgain(e0, Inserted(1));
  }
}
