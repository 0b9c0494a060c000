/**
 The order book as a value: both ladders, the fills reported so far, the order pool with its free
 list, and the index from order ids to pool slots. `MAX_ORDERS` is the size of the pool.
 */
module BookModel {
  import opened Bits
  import opened PriceLadder
  import opened Matching

  const NO_SLOT: nat := 0xFFFF_FFFF

  datatype Side = Buy | Sell
  datatype OrderType = Limit | Market | Cancel
  datatype Order = Order(id: nat, price: int, qty: nat, side: Side, kind: OrderType)

  datatype Book = Book(
    bids: seq<Level>, asks: seq<Level>, fills: seq<Fill>,
    pool: seq<Order>, slotOf: seq<nat>, free: seq<nat>, nextId: nat)

  /** What every constructed book keeps: the table sizes, and a free list that fits its ring. */
  predicate Shaped(b: Book) {
    && IsPowerOfTwo(|b.pool|) && |b.pool| < NO_SLOT
    && |b.slotOf| == |b.pool|
    && |b.free| <= |b.pool| - 1
    && (forall i :: 0 <= i < |b.free| ==> b.free[i] < |b.pool|)
    && b.nextId >= 1
  }

  /** `id & (MAX_ORDERS - 1)`. */
  function Index(b: Book, id: nat): (k: nat)
    requires Shaped(b)
    ensures k < |b.slotOf| && k == id % |b.pool|
  {
    MaskIsRemainder(id, |b.pool|);
    And(id, |b.pool| - 1)
  }

  /** `free_list_.push(slot)`, whose failure is ignored. */
  function GiveBack(b: Book, slot: nat): Book
    requires |b.pool| > 0
  {
    if |b.free| < |b.pool| - 1 then b.(free := b.free + [slot]) else b
  }

  datatype Op = Add(side: Side, price: int, qty: nat, kind: OrderType) | CancelById(id: nat)

  /** What an operation did: `rested` tells an order left in the book from one filled on entry. */
  datatype Event =
    | Allocated(id: nat, slot: nat, rested: bool)
    | Exhausted(id: nat)
    | Cancelled(id: nat, slot: nat)
    | Missed(id: nat)

  datatype Outcome = Spins | Done(book: Book, event: Event)

  /** `cancel_order`. */
  function CancelOrder(b: Book, id: nat): Outcome
    requires Shaped(b)
  {
    var slot := b.slotOf[Index(b, id)];
    if slot >= |b.pool| || b.pool[slot].id != id then Done(b, Missed(id))
    else
      var o := b.pool[slot];
      var b' := if o.side.Buy? then b.(bids := Pruned(b.bids, o.price)) else b.(asks := Pruned(b.asks, o.price));
      Done(GiveBack(b', slot), Cancelled(id, slot))
  }

  /** The slot at the head of the free list, given to a new order and entered in the index. */
  function Allocate(b: Book, o: Order): Book
    requires Shaped(b) && b.free != []
  {
    var slot := b.free[0];
    b.(free := b.free[1..], pool := b.pool[slot := o], slotOf := b.slotOf[Index(b, o.id) := slot])
  }

  lemma AllocateGives(b: Book, b': Book, o: Order, k: nat, slot: nat)
    requires Shaped(b) && b.free != [] && k == Index(b, o.id) && slot == b.free[0]
    requires b' == b.(free := b.free[1..], pool := b.pool[slot := o], slotOf := b.slotOf[k := slot])
    ensures Shaped(b') && b' == Allocate(b, o)
  {
  }

  /** Matching the new order, then giving its slot back or resting what is left of it. */
  function Settle(b: Book, o: Order, slot: nat): Outcome
    requires |b.pool| > 0 && slot < |b.pool|
  {
    match o.side
    case Buy =>
      if !BuyHalts(b.asks, o.qty, o.price) then Spins
      else
        var s := BuySweep(b.asks, o.qty, o.price);
        var b' := b.(asks := s.levels, fills := b.fills + s.fills);
        if s.left == 0 then Done(GiveBack(b', slot), Allocated(o.id, slot, false))
        else Done(b'.(bids := Upserted(b.bids, o.price, s.left), pool := b.pool[slot := o.(qty := s.left)]),
                  Allocated(o.id, slot, true))
    case Sell =>
      if !SellHalts(b.bids, o.qty, o.price) then Spins
      else
        var s := SellSweep(b.bids, o.qty, o.price);
        var b' := b.(bids := s.levels, fills := b.fills + s.fills);
        if s.left == 0 then Done(GiveBack(b', slot), Allocated(o.id, slot, false))
        else Done(b'.(asks := Upserted(b.asks, o.price, s.left), pool := b.pool[slot := o.(qty := s.left)]),
                  Allocated(o.id, slot, true))
  }

  /** One call of `add_order` or `cancel_order`. An `add_order` of type Cancel takes its price for an id. */
  function Apply(b: Book, op: Op): Outcome
    requires Shaped(b)
  {
    match op
    case CancelById(id) => CancelOrder(b, id)
    case Add(side, price, qty, kind) =>
      var b' := b.(nextId := b.nextId + 1);
      if kind.Cancel? then CancelOrder(b', price % TWO_64)
      else if b.free == [] then Done(b', Exhausted(b.nextId))
      else
        var o := Order(b.nextId, price, qty, side, kind);
        Settle(Allocate(b', o), o, b.free[0])
  }

  /** What a call does to the pool, the index and the free list, given the event it reports. */
  ghost predicate PoolEffect(b: Book, b': Book, e: Event)
    requires Shaped(b)
  {
    && b'.nextId >= b.nextId
    && |b'.pool| == |b.pool|
    && match e
       case Allocated(id, slot, rested) =>
         && id == b.nextId < b'.nextId && b.free != [] && slot == b.free[0]
         && b'.slotOf == b.slotOf[id % |b.pool| := slot]
         && b'.pool[slot].id == id && (forall s :: 0 <= s < |b.pool| && s != slot ==> b'.pool[s] == b.pool[s])
         && b'.free == b.free[1..] + (if rested then [] else [slot])
       case Cancelled(id, slot) =>
         && b'.slotOf == b.slotOf && b'.pool == b.pool
         && slot == b.slotOf[Index(b, id)] && slot < |b.pool| && b.pool[slot].id == id
         && b'.free == if |b.free| < |b.pool| - 1 then b.free + [slot] else b.free
       case _ => b'.slotOf == b.slotOf && b'.pool == b.pool && b'.free == b.free
  }

  lemma SettlePool(b: Book, o: Order, slot: nat)
    requires |b.pool| > 0 && slot < |b.pool| && |b.free| < |b.pool| - 1 && Settle(b, o, slot).Done?
    ensures var Done(b', e) := Settle(b, o, slot);
            && e.Allocated? && e.id == o.id && e.slot == slot && b'.slotOf == b.slotOf && b'.nextId == b.nextId
            && b'.free == b.free + (if e.rested then [] else [slot])
            && (b'.pool == b.pool || exists q: nat :: b'.pool == b.pool[slot := o.(qty := q)])
  {
  }

  lemma ApplyEffect(b: Book, op: Op)
    requires Shaped(b) && Apply(b, op).Done?
    ensures PoolEffect(b, Apply(b, op).book, Apply(b, op).event)
  {
    hide And, IsPowerOfTwo, Pruned, Settle;
    if op.Add? && !op.kind.Cancel? && b.free != [] {
      var o := Order(b.nextId, op.price, op.qty, op.side, op.kind);
      SettlePool(Allocate(b.(nextId := b.nextId + 1), o), o, b.free[0]);
    }
  }

  lemma ApplyKeepsShape(b: Book, op: Op)
    requires Shaped(b) && Apply(b, op).Done?
    ensures Shaped(Apply(b, op).book) && |Apply(b, op).book.pool| == |b.pool|
  {
    ApplyEffect(b, op);
  }

  function Rested(ls: seq<Level>, p: int, q: nat): seq<Level> {
    if q == 0 then ls else Upserted(ls, p, q)
  }

  /** Matching `q` at `p` on this side returns. */
  predicate Returns(b: Book, side: Side, p: int, q: nat) {
    if side.Buy? then BuyHalts(b.asks, q, p) else SellHalts(b.bids, q, p)
  }

  function SweepFor(b: Book, side: Side, p: int, q: nat): Sweep
    requires Returns(b, side, p, q)
  {
    if side.Buy? then BuySweep(b.asks, q, p) else SellSweep(b.bids, q, p)
  }

  /** `b'` shows what is left of `b` once `q` was matched and its leftover rested. */
  ghost predicate Settled(b: Book, b': Book, side: Side, p: int, q: nat) {
    && Returns(b, side, p, q)
    && var s := SweepFor(b, side, p, q);
       && b'.fills == b.fills + s.fills
       && (if side.Buy? then b'.asks == s.levels && b'.bids == Rested(b.bids, p, s.left)
           else b'.bids == s.levels && b'.asks == Rested(b.asks, p, s.left))
  }

  /** An add that finds a free slot settles the ladders as they stand, and uses up one slot at most. */
  lemma AddSettles(b: Book, side: Side, p: int, q: nat, kind: OrderType)
    requires Shaped(b) && b.free != [] && !kind.Cancel?
    ensures var r := Apply(b, Add(side, p, q, kind));
            && (r.Done? <==> Returns(b, side, p, q))
            && (r.Done? ==> Settled(b, r.book, side, p, q) && Shaped(r.book) && |r.book.free| >= |b.free| - 1)
  {
    var op := Add(side, p, q, kind);
    if Apply(b, op).Done? { ApplyKeepsShape(b, op); }
  }

  /** A bid that meets no asks rests whole. */
  lemma NoAsks(b: Book, p: int, q: nat)
    requires Shaped(b) && b.free != [] && b.asks == [] && q > 0
    ensures var r := Apply(b, Add(Buy, p, q, Limit));
            && r.Done? && r.book.asks == [] && r.book.fills == b.fills && r.book.bids == Upserted(b.bids, p, q)
            && r.event == Allocated(b.nextId, b.free[0], true) && r.book.nextId == b.nextId + 1
            && r.book.pool[b.free[0]].side.Buy?
  {
    assert b.fills + [] == b.fills;
  }

  /** The slots the constructor's pushes put in the free list: all but the last. */
  function FirstSlots(k: nat): (s: seq<nat>)
    ensures |s| == k && forall i :: 0 <= i < k ==> s[i] == i
  {
    seq(k, i => i)
  }

  /** The book as constructed with a pool of `n` orders. */
  function Init(n: nat): (b: Book)
    requires IsPowerOfTwo(n) && n < NO_SLOT
    ensures Shaped(b)
  {
    Book([], [], [], seq(n, i => Order(0, 0, 0, Buy, Limit)), seq(n, i => NO_SLOT), FirstSlots(n - 1), 1)
  }

  /** A whole history: the book it leads to and what each call did, unless some call never returned. */
  datatype Trace = Stuck | Ran(book: Book, events: seq<Event>)

  function Run(n: nat, ops: seq<Op>): (t: Trace)
    requires IsPowerOfTwo(n) && n < NO_SLOT
    ensures t.Ran? ==> Shaped(t.book) && |t.book.pool| == n && |t.events| == |ops|
  {
    if ops == [] then Ran(Init(n), [])
    else
      match Run(n, ops[..|ops| - 1])
      case Stuck => Stuck
      case Ran(b, es) =>
        match Apply(b, ops[|ops| - 1])
        case Spins => Stuck
        case Done(b', e) =>
          ApplyKeepsShape(b, ops[|ops| - 1]);
          Ran(b', es + [e])
  }

  /** One more call at the end of a history. */
  lemma RunNext(n: nat, ops: seq<Op>, op: Op)
    requires IsPowerOfTwo(n) && n < NO_SLOT && Run(n, ops).Ran? && Apply(Run(n, ops).book, op).Done?
    ensures var Done(b', e) := Apply(Run(n, ops).book, op); Run(n, ops + [op]) == Ran(b', Run(n, ops).events + [e])
  {
    hide Apply, Shaped;
    assert (ops + [op])[..|ops|] == ops;
  }
}
