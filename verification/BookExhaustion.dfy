/** When the order pool runs out: an order that rested and was traded out later never gives its slot back. */
module BookExhaustion {
  import opened Bits
  import opened PriceLadder
  import opened Matching
  import opened BookModel
  import opened BookSafety
  import opened BookPool
  import opened BookReturns

  predicate Refused(r: Outcome) { r.Done? && r.event.Exhausted? }

  lemma RefusedIffNoSlot(b: Book, op: Op)
    requires Shaped(b) && op.Add? && !op.kind.Cancel?
    ensures Refused(Apply(b, op)) <==> b.free == []
  {
    if b.free != [] && Apply(b, op).Done? { AddAllocates(b, op); }
  }

  /**
   In a disciplined history an add is refused exactly when all MAX_ORDERS - 1 slots are held by
   orders that were left resting and not cancelled, whether or not they have been traded since.
   */
  lemma RefusedIffAllHeld(n: nat, ops: seq<Op>, op: Op)
    requires IsPowerOfTwo(n) && n < NO_SLOT && Run(n, ops).Ran? && Disciplined(n, ops)
    requires op.Add? && !op.kind.Cancel?
    ensures Refused(Apply(Run(n, ops).book, op)) <==> |Live(Run(n, ops).events)| == n - 1
  {
    PoolStaysPartitioned(n, ops);
    RefusedIffNoSlot(Run(n, ops).book, op);
  }

  // ----- The last slot always goes to an order in the book -----

  lemma UpsertedSome(ls: seq<Level>, p: int, q: nat)
    ensures Upserted(ls, p, q) != []
  {
  }

  /** A call that leaves no free slot found none, or took the last one for an order that rests. */
  lemma LastSlotRests(b: Book, op: Op)
    requires Shaped(b) && |b.pool| >= 2 && Apply(b, op).Done? && Apply(b, op).book.free == []
    requires b.free == [] ==> b.bids != [] || b.asks != []
    ensures Apply(b, op).book.bids != [] || Apply(b, op).book.asks != []
  {
    ApplyEffect(b, op);
    if op.Add? && !op.kind.Cancel? && b.free != [] {
      var o := Order(b.nextId, op.price, op.qty, op.side, op.kind);
      RestedShows(Allocate(b.(nextId := b.nextId + 1), o), o, b.free[0]);
    }
  }

  lemma RestedShows(b: Book, o: Order, slot: nat)
    requires |b.pool| >= 2 && slot < |b.pool| && Settle(b, o, slot).Done? && Settle(b, o, slot).book.free == []
    ensures Settle(b, o, slot).book.bids != [] || Settle(b, o, slot).book.asks != []
  {
    hide BuySweep, SellSweep, BuyHalts, SellHalts, Upserted;
    var s := SweepFor(b, o.side, o.price, o.qty);
    UpsertedSome(b.bids, o.price, s.left);
    UpsertedSome(b.asks, o.price, s.left);
  }

  /** So over every history the pool is never exhausted while both ladders are empty. */
  lemma {:induction false} ExhaustedShowsDepth(n: nat, ops: seq<Op>)
    requires IsPowerOfTwo(n) && 2 <= n < NO_SLOT && Run(n, ops).Ran? && Run(n, ops).book.free == []
    ensures Run(n, ops).book.bids != [] || Run(n, ops).book.asks != []
  {
    if ops == [] {
      assert false;
    } else {
      var k := |ops| - 1;
      if Run(n, ops[..k]).book.free == [] { ExhaustedShowsDepth(n, ops[..k]); }
      LastSlotRests(Run(n, ops[..k]).book, ops[k]);
    }
  }

  // ----- But all other slots can be lost to orders that are gone -----

  /** `k` times: an ask, and a bid that trades it out. */
  function Pairs(p: int, q: nat, k: nat): seq<Op> {
    if k == 0 then [] else Pairs(p, q, k - 1) + [Add(Sell, p, q, Limit), Add(Buy, p, q, Limit)]
  }

  ghost predicate Bare(b: Book, n: nat, free: int) {
    Shaped(b) && |b.pool| == n && b.bids == [] && b.asks == [] && |b.free| == free
  }

  ghost predicate OneAsk(b: Book, n: nat, free: int, p: int, q: nat) {
    Shaped(b) && |b.pool| == n && b.bids == [] && b.asks == [Level(p, q, 1)] && |b.free| == free
  }

  lemma OneAskShown(p: int, q: nat)
    ensures Upserted([], p, q) == [Level(p, q, 1)]
  {
  }

  lemma AskTakesSlot(b: Book, p: int, q: nat)
    requires Shaped(b) && b.free != [] && b.bids == [] && q > 0
    ensures var r := Apply(b, Add(Sell, p, q, Limit)); r.Done? && r.event.Allocated? && r.event.rested
  {
  }

  lemma AskStep(b: Book, n: nat, free: nat, p: int, q: nat)
    requires Bare(b, n, free) && free > 0 && q > 0
    ensures var r := Apply(b, Add(Sell, p, q, Limit)); r.Done? && OneAsk(r.book, n, free - 1, p, q)
  {
    var op := Add(Sell, p, q, Limit);
    AskRests(b, p, q);
    OneAskShown(p, q);
    AskTakesSlot(b, p, q);
    ApplyEffect(b, op);
    ApplyKeepsShape(b, op);
  }

  lemma BidTradesOut(b: Book, p: int, q: nat)
    requires Shaped(b) && b.free != [] && b.bids == [] && b.asks == [Level(p, q, 1)] && 0 < q < TWO_32
    ensures var r := Apply(b, Add(Buy, p, q, Limit)); r.Done? && r.book.bids == [] && r.book.asks == []
  {
    hide And, IsPowerOfTwo;
    AddSettles(b, Buy, p, q, Limit);
    hide Apply;
    assert BuySweep(b.asks, q, p) == Sweep([Fill(p, q)], 0, []);
  }

  lemma BidStep(b: Book, n: nat, free: nat, p: int, q: nat)
    requires OneAsk(b, n, free, p, q) && free > 0 && 0 < q < TWO_32
    ensures var r := Apply(b, Add(Buy, p, q, Limit)); r.Done? && Bare(r.book, n, free)
  {
    var op := Add(Buy, p, q, Limit);
    FilledOnEntry(b, p, q);
    BidTradesOut(b, p, q);
    ApplyEffect(b, op);
    ApplyKeepsShape(b, op);
  }

  lemma NoPairs(n: nat)
    requires IsPowerOfTwo(n) && n < NO_SLOT
    ensures Run(n, []) == Ran(Init(n), []) && Bare(Init(n), n, n - 1)
  {
  }

  lemma {:induction false} PairsLeave(n: nat, p: int, q: nat, k: nat)
    requires IsPowerOfTwo(n) && 2 <= n < NO_SLOT && 0 < q < TWO_32 && k <= n - 2
    ensures Run(n, Pairs(p, q, k)).Ran? && Bare(Run(n, Pairs(p, q, k)).book, n, n - 1 - k)
  {
    hide Run, Apply, Bare, OneAsk;
    if k == 0 {
      NoPairs(n);
    } else {
      PairsLeave(n, p, q, k - 1);
      var ops, ask, bid := Pairs(p, q, k - 1), Add(Sell, p, q, Limit), Add(Buy, p, q, Limit);
      var b := Run(n, ops).book;
      AskStep(b, n, n - k, p, q);
      RunNext(n, ops, ask);
      BidStep(Apply(b, ask).book, n, n - k - 1, p, q);
      RunNext(n, ops + [ask], bid);
      assert ops + [ask] + [bid] == Pairs(p, q, k);
    }
  }

  /**
   For every price, every 32-bit quantity and every pool: after MAX_ORDERS - 2 asks, each traded out
   at once, both ladders are empty and one slot is free; one more resting order takes it, and from
   then on every add is refused, with a single order in the book.
   */
  lemma TradedOrdersKeepTheirSlots(n: nat, p: int, q: nat, op: Op)
    requires IsPowerOfTwo(n) && 2 <= n < NO_SLOT && 0 < q < TWO_32 && op.Add? && !op.kind.Cancel?
    ensures var t := Run(n, Pairs(p, q, n - 2)); t.Ran? && Bare(t.book, n, 1)
    ensures var t := Run(n, Pairs(p, q, n - 2) + [Add(Sell, p, q, Limit)]);
            t.Ran? && OneAsk(t.book, n, 0, p, q) && Refused(Apply(t.book, op))
  {
    hide Run, Bare;
    var ops, ask := Pairs(p, q, n - 2), Add(Sell, p, q, Limit);
    PairsLeave(n, p, q, n - 2);
    AskStep(Run(n, ops).book, n, 1, p, q);
    RunNext(n, ops, ask);
    RefusedIffNoSlot(Apply(Run(n, ops).book, ask).book, op);
  }
}
