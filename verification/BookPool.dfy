/** The order pool: which slots are free, which hold resting orders, and what a cancel does to the two. */
module BookPool {
  import opened Bits
  import opened Options
  import opened Sequences
  import opened PriceLadder
  import opened BookModel
  import opened BookIndex

  /** The orders left resting and not cancelled since, as a map from their slots to their ids. */
  function Live(es: seq<Event>): map<nat, nat> {
    if es == [] then map[] else LiveAfter(Live(es[..|es| - 1]), es[|es| - 1])
  }

  function LiveAfter(live: map<nat, nat>, e: Event): map<nat, nat> {
    match e
    case Allocated(id, slot, rested) => if rested then live[slot := id] else live
    case Cancelled(id, slot) => live - {slot}
    case _ => live
  }

  /**
   Free slots and held slots split {0, ..., MAX_ORDERS - 2} between them, each slot once. The last
   slot takes no part: the ring of the free list holds one item fewer than the pool has orders.
   */
  ghost predicate Partition(b: Book, live: map<nat, nat>) {
    && Distinct(b.free)
    && (forall s :: s in b.free ==> s !in live)
    && (forall s: nat :: s in b.free || s in live <==> s < |b.pool| - 1)
    && |b.free| + |live| == |b.pool| - 1
    && (forall s :: s in live ==> s < |b.pool| && b.pool[s].id == live[s])
  }

  /** The id an operation sets out to cancel, if it is a cancel. */
  function Target(op: Op): Option<nat> {
    match op
    case CancelById(id) => Some(id)
    case Add(_, price, _, kind) => if kind.Cancel? then Some(price % TWO_64) else None
  }

  /** Taking a slot, and giving it back when the order is filled on entry, keeps the partition. */
  lemma AllocationKeeps(b: Book, b': Book, live: map<nat, nat>, e: Event)
    requires Shaped(b) && Partition(b, live) && e.Allocated? && PoolEffect(b, b', e)
    ensures Partition(b', LiveAfter(live, e))
  {
    var slot := e.slot;
    assert b.free == [slot] + b.free[1..];
    if e.rested {
      assert b'.free == b.free[1..];
    }
  }

  /** Cancelling a live order gives its slot back: the push finds room. */
  lemma LiveCancelKeeps(b: Book, b': Book, live: map<nat, nat>, e: Event)
    requires Shaped(b) && Partition(b, live) && e.Cancelled? && PoolEffect(b, b', e) && e.slot in live
    ensures Partition(b', LiveAfter(live, e)) && b'.free == b.free + [e.slot]
  {
    var live' := live - {e.slot};
    assert live'.Keys == live.Keys - {e.slot};
    assert |live'| == |live| - 1;
  }

  /** Cancelling an order that is not live duplicates its slot, unless the free list is full. */
  lemma DeadCancelBreaks(b: Book, b': Book, live: map<nat, nat>, e: Event)
    requires Shaped(b) && Partition(b, live) && e.Cancelled? && PoolEffect(b, b', e) && e.slot !in live
    requires e.slot < |b.pool| - 1
    ensures Partition(b', LiveAfter(live, e)) <==> live == map[]
  {
    assert live - {e.slot} == live;
    assert e.slot in b.free;
    var i :| 0 <= i < |b.free| && b.free[i] == e.slot;
    if |b.free| < |b.pool| - 1 {
      assert b'.free[i] == b'.free[|b.free|];
    }
    assert live == map[] <==> |live| == 0;
  }

  /** Every slot in sight is below the last one. */
  ghost predicate SlotInv(b: Book, es: seq<Event>) {
    && (forall i :: 0 <= i < |b.free| ==> b.free[i] < |b.pool| - 1)
    && (forall i :: 0 <= i < |es| && es[i].Allocated? ==> es[i].slot < |b.pool| - 1)
  }

  /** A successful cancel returns a slot that some earlier event handed out. */
  lemma CancelledSlotWasAllocated(b: Book, es: seq<Event>, id: nat)
    requires Shaped(b) && IndexInv(b, es) && CancelOrder(b, id).event.Cancelled?
    ensures exists k :: 0 <= k < |es| && es[k].Allocated? && es[k].slot == CancelOrder(b, id).event.slot
  {
    var k := LatestIn(es, id % |b.pool|, |b.pool|);
    assert IndexAgrees(b, es, id % |b.pool|);
  }

  lemma SlotsKept(b: Book, es: seq<Event>, op: Op)
    requires Shaped(b) && IndexInv(b, es) && SlotInv(b, es) && Apply(b, op).Done?
    ensures SlotInv(Apply(b, op).book, es + [Apply(b, op).event])
  {
    ApplyEffect(b, op);
    var Done(b', e) := Apply(b, op);
    if e.Cancelled? {
      CancelEvent(b, op);
      CancelledSlotWasAllocated(b, es, e.id);
    }
  }

  /** The event of a cancel is the one `cancel_order` gives on the book as it stands. */
  lemma CancelEvent(b: Book, op: Op)
    requires Shaped(b) && Apply(b, op).Done?
    ensures var e := Apply(b, op).event;
            && (e.Cancelled? ==> Target(op) == Some(e.id) && CancelOrder(b, e.id).event == e)
            && (Target(op).Some? ==> e == CancelOrder(b, Target(op).value).event)
  {
  }

  lemma {:induction false} HistorySlots(n: nat, ops: seq<Op>)
    requires IsPowerOfTwo(n) && n < NO_SLOT && Run(n, ops).Ran?
    ensures SlotInv(Run(n, ops).book, Run(n, ops).events)
  {
    if ops == [] {
    } else {
      var k := |ops| - 1;
      HistorySlots(n, ops[..k]);
      HistoryIndexed(n, ops[..k]);
      var Ran(b, es) := Run(n, ops[..k]);
      SlotsKept(b, es, ops[k]);
    }
  }

  /** Two slots never hold the same order. */
  lemma SlotOfId(b: Book, es: seq<Event>, s: nat, t: nat)
    requires Shaped(b) && IndexInv(b, es) && s < |b.pool| && t < |b.pool| && b.pool[s].id == b.pool[t].id != 0
    ensures s == t
  {
    assert PoolAgrees(b, es, s) && PoolAgrees(b, es, t);
  }

  /** What a step does to a partitioned pool: only a cancel that succeeds on a dead id can break it. */
  lemma StepOnPartition(b: Book, es: seq<Event>, op: Op)
    requires Shaped(b) && IndexInv(b, es) && SlotInv(b, es) && Partition(b, Live(es)) && Apply(b, op).Done?
    ensures var Done(b', e) := Apply(b, op);
            Partition(b', LiveAfter(Live(es), e)) <==> !e.Cancelled? || e.id in Live(es).Values || Live(es) == map[]
  {
    ApplyEffect(b, op);
    hide Live, Partition, IndexInv;
    var live := Live(es);
    var Done(b', e) := Apply(b, op);
    match e
    case Allocated(_, _, _) => AllocationKeeps(b, b', live, e);
    case Cancelled(id, slot) =>
      CancelEvent(b, op);
      CancelOnPartition(b, b', es, e);
    case _ => SamePoolKeeps(b, b', live);
  }

  lemma SamePoolKeeps(b: Book, b': Book, live: map<nat, nat>)
    requires Partition(b, live) && b'.free == b.free && b'.pool == b.pool
    ensures Partition(b', live)
  {
  }

  lemma CancelOnPartition(b: Book, b': Book, es: seq<Event>, e: Event)
    requires Shaped(b) && IndexInv(b, es) && SlotInv(b, es) && Partition(b, Live(es))
    requires e.Cancelled? && PoolEffect(b, b', e) && CancelOrder(b, e.id).event == e
    ensures Partition(b', LiveAfter(Live(es), e)) <==> e.id in Live(es).Values || Live(es) == map[]
  {
    hide Live, Partition, IndexInv;
    var live := Live(es);
    if e.id in live.Values {
      SlotOfLive(b, es, e);
      LiveCancelKeeps(b, b', live, e);
    } else {
      CancelledSlotWasAllocated(b, es, e.id);
      if e.slot in live { LiveSlotHoldsId(b, live, e.slot); }
      DeadCancelBreaks(b, b', live, e);
    }
  }

  lemma SlotOfLive(b: Book, es: seq<Event>, e: Event)
    requires Shaped(b) && IndexInv(b, es) && Partition(b, Live(es)) && e.Cancelled? && e.id in Live(es).Values
    requires e.slot < |b.pool| && b.pool[e.slot].id == e.id
    ensures e.slot in Live(es)
  {
    var s :| s in Live(es) && Live(es)[s] == e.id;
    LiveIdsPositive(es, s);
    SlotOfId(b, es, s, e.slot);
  }

  lemma LiveSlotHoldsId(b: Book, live: map<nat, nat>, s: nat)
    requires Partition(b, live) && s in live
    ensures s < |b.pool| && b.pool[s].id == live[s] && live[s] in live.Values
  {
  }

  lemma {:induction false} LiveIdsPositive(es: seq<Event>, s: nat)
    requires (forall i :: 0 <= i < |es| && es[i].Allocated? ==> 1 <= es[i].id) && s in Live(es)
    ensures Live(es)[s] >= 1
  {
    var k := |es| - 1;
    if s in Live(es[..k]) { LiveIdsPositive(es[..k], s); }
  }

  /** Every cancel of the history names an order that was left resting and not cancelled since. */
  ghost predicate Disciplined(n: nat, ops: seq<Op>)
    requires IsPowerOfTwo(n) && n < NO_SLOT
  {
    ops == [] ||
    var k := |ops| - 1;
    && Disciplined(n, ops[..k])
    && (Run(n, ops[..k]).Ran? && Target(ops[k]).Some? ==> Target(ops[k]).value in Live(Run(n, ops[..k]).events).Values)
  }

  lemma LiveGrows(es: seq<Event>, e: Event)
    ensures Live(es + [e]) == LiveAfter(Live(es), e)
  {
    assert (es + [e])[..|es|] == es;
  }

  lemma InitPartition(n: nat)
    requires IsPowerOfTwo(n) && n < NO_SLOT
    ensures Partition(Init(n), map[])
  {
    var b := Init(n);
    forall s: nat ensures s in b.free <==> s < n - 1 {
      assert s < n - 1 ==> b.free[s] == s;
    }
  }

  /**
   In every disciplined history the free list has no duplicates, free and held slots split
   {0, ..., MAX_ORDERS - 2}, and no slot is ever lost to a full free list.
   */
  lemma {:induction false} PoolStaysPartitioned(n: nat, ops: seq<Op>)
    requires IsPowerOfTwo(n) && n < NO_SLOT && Run(n, ops).Ran? && Disciplined(n, ops)
    ensures Partition(Run(n, ops).book, Live(Run(n, ops).events))
  {
    if ops == [] {
      InitPartition(n);
    } else {
      var k := |ops| - 1;
      PoolStaysPartitioned(n, ops[..k]);
      HistoryIndexed(n, ops[..k]);
      HistorySlots(n, ops[..k]);
      var Ran(b, es) := Run(n, ops[..k]);
      CancelEvent(b, ops[k]);
      StepOnPartition(b, es, ops[k]);
      LiveGrows(es, Apply(b, ops[k]).event);
    }
  }

  lemma {:induction false} RunPrefix(n: nat, ops: seq<Op>, k: nat)
    requires IsPowerOfTwo(n) && n < NO_SLOT && k <= |ops| && Run(n, ops).Ran?
    ensures Run(n, ops[..k]).Ran? && Run(n, ops[..k]).events == Run(n, ops).events[..k]
    decreases |ops|
  {
    if k == |ops| {
      assert ops[..k] == ops;
    } else {
      RunPrefix(n, ops[..|ops| - 1], k);
      assert ops[..|ops| - 1][..k] == ops[..k];
    }
  }

  lemma {:induction false} DisciplinedPrefix(n: nat, ops: seq<Op>, k: nat)
    requires IsPowerOfTwo(n) && n < NO_SLOT && k <= |ops| && Disciplined(n, ops)
    ensures Disciplined(n, ops[..k])
    decreases |ops|
  {
    if k == |ops| {
      assert ops[..k] == ops;
    } else {
      DisciplinedPrefix(n, ops[..|ops| - 1], k);
      assert ops[..|ops| - 1][..k] == ops[..k];
    }
  }

  /** The free list after a call, if every push onto it succeeded. */
  function FreeAfter(free: seq<nat>, e: Event): seq<nat> {
    match e
    case Allocated(_, slot, rested) => if free == [] then [] else free[1..] + (if rested then [] else [slot])
    case Cancelled(_, slot) => free + [slot]
    case _ => free
  }

  lemma LastPushSucceeds(n: nat, ops: seq<Op>, op: Op)
    requires IsPowerOfTwo(n) && n < NO_SLOT && Run(n, ops).Ran? && Disciplined(n, ops)
    requires Apply(Run(n, ops).book, op).Done?
    requires Target(op).Some? ==> Target(op).value in Live(Run(n, ops).events).Values
    ensures var Done(b', e) := Apply(Run(n, ops).book, op); b'.free == FreeAfter(Run(n, ops).book.free, e)
  {
    var Ran(b, es) := Run(n, ops);
    PoolStaysPartitioned(n, ops);
    HistoryIndexed(n, ops);
    ApplyEffect(b, op);
    CancelEvent(b, op);
    var Done(b', e) := Apply(b, op);
    if e.Cancelled? { CancelledIsLive(b, b', es, e); }
  }

  lemma CancelledIsLive(b: Book, b': Book, es: seq<Event>, e: Event)
    requires Shaped(b) && IndexInv(b, es) && Partition(b, Live(es))
    requires e.Cancelled? && PoolEffect(b, b', e) && e.id in Live(es).Values
    ensures b'.free == b.free + [e.slot]
  {
    SlotOfLive(b, es, e);
    LiveCancelKeeps(b, b', Live(es), e);
  }

  /** In every disciplined history every push onto the free list, at every call, succeeds. */
  lemma NoPushFails(n: nat, ops: seq<Op>, k: nat)
    requires IsPowerOfTwo(n) && n < NO_SLOT && Run(n, ops).Ran? && Disciplined(n, ops) && k < |ops|
    ensures Run(n, ops[..k]).Ran? && Run(n, ops[..k + 1]).Ran?
    ensures Run(n, ops[..k + 1]).book.free == FreeAfter(Run(n, ops[..k]).book.free, Run(n, ops).events[k])
  {
    RunPrefix(n, ops, k);
    RunPrefix(n, ops, k + 1);
    DisciplinedPrefix(n, ops, k + 1);
    assert ops[..k + 1][..k] == ops[..k];
    LastPushSucceeds(n, ops[..k], ops[k]);
  }

  lemma CancelStepIff(b: Book, es: seq<Event>, id: nat)
    requires Shaped(b) && IndexInv(b, es) && SlotInv(b, es) && Partition(b, Live(es))
    ensures var Done(b', e) := CancelOrder(b, id);
            Partition(b', Live(es + [e])) <==> !e.Cancelled? || id in Live(es).Values || Live(es) == map[]
  {
    var Done(b', e) := CancelOrder(b, id);
    StepOnPartition(b, es, CancelById(id));
    hide Partition, IndexInv, SlotInv, Live, LiveAfter, Pruned;
    LiveGrows(es, e);
  }

  /**
   The discipline is exactly what is needed: on a partitioned pool a cancel keeps the partition if
   and only if its id is not the newest of its residue class and of its slot, or its order is live,
   or nothing is live.
   */
  lemma CancelKeepsPartitionIff(n: nat, ops: seq<Op>, id: nat)
    requires IsPowerOfTwo(n) && n < NO_SLOT && Run(n, ops).Ran?
    requires Partition(Run(n, ops).book, Live(Run(n, ops).events))
    ensures var Ran(b, es) := Run(n, ops);
            var Done(b', e) := CancelOrder(b, id);
            Partition(b', Live(es + [e])) <==>
              || !(exists k: nat :: NewestOccupant(es, n, id, k))
              || id in Live(es).Values
              || Live(es) == map[]
  {
    HistoryIndexed(n, ops);
    HistorySlots(n, ops);
    CancelSucceedsIff(n, ops, id);
    var Ran(b, es) := Run(n, ops);
    hide Partition, IndexInv, SlotInv, Live, NewestOccupant, Run, CancelOrder;
    CancelStepIff(b, es, id);
  }

  // ----- Two histories that break it -----

  /** The free list once slots 0 and 1 have been taken. */
  function LaterSlots(n: nat): seq<nat>
    requires n >= 4
  {
    FirstSlots(n - 1)[2..]
  }

  /** The book after the first two orders took slots 0 and 1. */
  ghost predicate TwoTaken(b: Book, n: nat) {
    && Shaped(b) && |b.pool| == n >= 4
    && b.slotOf[1] == 0 && b.pool[0].id == 1 && b.slotOf[2] == 1 && b.pool[1].id == 2
  }

  lemma SmallIndex(n: nat, id: nat)
    requires id < n
    ensures id % n == id
  {
  }

  lemma TakeTwo(b0: Book, b1: Book, b2: Book, n: nat, rested: bool)
    requires Shaped(b0) && Shaped(b1) && Shaped(b2) && |b0.pool| == n >= 4 && b0.free == FirstSlots(n - 1)
    requires PoolEffect(b0, b1, Allocated(1, 0, true)) && PoolEffect(b1, b2, Allocated(2, 1, rested))
    ensures TwoTaken(b2, n) && b2.free == LaterSlots(n) + (if rested then [] else [1])
  {
    SmallIndex(n, 1);
    SmallIndex(n, 2);
    assert b0.free[1..][1..] == b0.free[2..];
    assert b1.free == b0.free[1..];
  }

  /** A cancel that finds its order, with room in the free list. */
  lemma CancelGivesBack(b: Book, n: nat, id: nat, slot: nat)
    requires TwoTaken(b, n) && ((id == 1 && slot == 0) || (id == 2 && slot == 1)) && |b.free| < n - 1
    ensures var r := Apply(b, CancelById(id));
            r.Done? && TwoTaken(r.book, n) && r.book.free == b.free + [slot] && r.event == Cancelled(id, slot)
  {
    SmallIndex(n, id);
    ApplyEffect(b, CancelById(id));
    ApplyKeepsShape(b, CancelById(id));
  }

  lemma FirstAdd(n: nat, op: Op)
    requires IsPowerOfTwo(n) && 4 <= n < NO_SLOT
    requires Apply(Init(n), op).Done? && Apply(Init(n), op).event == Allocated(1, 0, true)
    ensures Run(n, [op]) == Ran(Apply(Init(n), op).book, [Allocated(1, 0, true)])
    ensures PoolEffect(Init(n), Apply(Init(n), op).book, Allocated(1, 0, true)) && Shaped(Apply(Init(n), op).book)
  {
    ApplyEffect(Init(n), op);
    ApplyKeepsShape(Init(n), op);
    RunNext(n, [], op);
    assert [] + [op] == [op] && [] + [Allocated(1, 0, true)] == [Allocated(1, 0, true)];
  }

  lemma SecondAdd(n: nat, op: Op, op': Op, rested: bool)
    requires IsPowerOfTwo(n) && 4 <= n < NO_SLOT
    requires Apply(Init(n), op).Done? && Apply(Init(n), op).event == Allocated(1, 0, true)
    requires Shaped(Apply(Init(n), op).book)
    requires var r := Apply(Apply(Init(n), op).book, op'); r.Done? && r.event == Allocated(2, 1, rested)
    ensures var t := Run(n, [op, op']);
            && t.Ran? && t.book == Apply(Apply(Init(n), op).book, op').book
            && TwoTaken(t.book, n) && t.book.free == LaterSlots(n) + (if rested then [] else [1])
  {
    FirstAdd(n, op);
    var b1 := Apply(Init(n), op).book;
    ApplyEffect(b1, op');
    ApplyKeepsShape(b1, op');
    RunNext(n, [op], op');
    assert [op] + [op'] == [op, op'];
    hide Apply;
    TakeTwo(Init(n), b1, Apply(b1, op').book, n, rested);
  }

  lemma TwiceIn(a: seq<nat>, x: nat)
    ensures !Distinct(a + [x] + [x])
  {
    var s := a + [x] + [x];
    assert s[|a|] == s[|a| + 1];
  }

  /** Cancelling a resting order twice puts its slot into the free list twice. */
  lemma CancelledTwice(n: nat, p: int, q: nat, p': int, q': nat)
    requires IsPowerOfTwo(n) && 4 <= n < NO_SLOT && q > 0 && q' > 0
    ensures var t := Run(n, [Add(Buy, p, q, Limit), Add(Buy, p', q', Limit), CancelById(1), CancelById(1)]);
            t.Ran? && t.book.free == LaterSlots(n) + [0] + [0] && !Distinct(t.book.free)
  {
    var op, op' := Add(Buy, p, q, Limit), Add(Buy, p', q', Limit);
    NoAsks(Init(n), p, q);
    ApplyKeepsShape(Init(n), op);
    ApplyEffect(Init(n), op);
    NoAsks(Apply(Init(n), op).book, p', q');
    SecondAdd(n, op, op', true);
    hide Apply;
    var b := Run(n, [op, op']).book;
    CancelGivesBack(b, n, 1, 0);
    RunNext(n, [op, op'], CancelById(1));
    assert [op, op'] + [CancelById(1)] == [op, op', CancelById(1)];
    CancelGivesBack(Apply(b, CancelById(1)).book, n, 1, 0);
    RunNext(n, [op, op', CancelById(1)], CancelById(1));
    assert [op, op', CancelById(1)] + [CancelById(1)] == [op, op', CancelById(1), CancelById(1)];
    assert LaterSlots(n) + [] == LaterSlots(n);
    TwiceIn(LaterSlots(n), 0);
  }

  /** An ask that meets no bids rests whole. */
  lemma NoBids(n: nat, p: int, q: nat)
    requires IsPowerOfTwo(n) && 4 <= n < NO_SLOT && q > 0
    ensures var r := Apply(Init(n), Add(Sell, p, q, Limit));
            r.Done? && r.event == Allocated(1, 0, true) && Shaped(r.book) && r.book.asks == [Level(p, q, 1)]
            && r.book.nextId == 2 && r.book.free == FirstSlots(n - 1)[1..]
  {
    var op := Add(Sell, p, q, Limit);
    ApplyEffect(Init(n), op);
    ApplyKeepsShape(Init(n), op);
  }

  lemma FilledOnEntry(b: Book, p: int, q: nat)
    requires Shaped(b) && b.asks == [Level(p, q, 1)] && b.free != [] && 0 < q < TWO_32
    ensures var r := Apply(b, Add(Buy, p, q, Limit)); r.Done? && r.event == Allocated(b.nextId, b.free[0], false)
  {
    hide And, IsPowerOfTwo;
  }

  /** So does cancelling an order that was filled on entry, once. */
  lemma CancelledAfterFill(n: nat, p: int, q: nat)
    requires IsPowerOfTwo(n) && 4 <= n < NO_SLOT && 0 < q < TWO_32
    ensures var t := Run(n, [Add(Sell, p, q, Limit), Add(Buy, p, q, Limit), CancelById(2)]);
            t.Ran? && t.book.free == LaterSlots(n) + [1] + [1] && !Distinct(t.book.free)
  {
    var op, op' := Add(Sell, p, q, Limit), Add(Buy, p, q, Limit);
    NoBids(n, p, q);
    FilledOnEntry(Apply(Init(n), op).book, p, q);
    SecondAdd(n, op, op', false);
    hide Apply;
    var b := Run(n, [op, op']).book;
    CancelGivesBack(b, n, 2, 1);
    RunNext(n, [op, op'], CancelById(2));
    assert [op, op'] + [CancelById(2)] == [op, op', CancelById(2)];
    TwiceIn(LaterSlots(n), 1);
  }
}
