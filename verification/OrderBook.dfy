/** The order book object: it updates its ladders, pool, index and free list in place. */
module OrderBook {
  import opened Bits
  import opened Options
  import opened PriceLadder
  import opened Ring
  import opened SpscQueue
  import opened Matching
  import opened BookModel
  import opened BookSafety

  /** The constructor's loop: it pushes every slot, and the last push fails. */
  method PushSlots(freeList: SpscQueue<nat>, maxOrders: nat)
    requires freeList.Valid() && freeList.capacity == maxOrders && freeList.Contents() == []
    modifies freeList, freeList.data
    ensures freeList.Valid() && freeList.Contents() == FirstSlots(maxOrders - 1)
  {
    hide And, IsPowerOfTwo, Slice, Wrap, Distance, FirstSlots;
    NoSlots();
    for i := 0 to maxOrders
      invariant freeList.Valid()
      invariant freeList.Contents() == FirstSlots(if i < maxOrders then i else maxOrders - 1)
    {
      if i < maxOrders - 1 { FirstSlotsGrow(i); }
      var pushed := freeList.Push(i);
    }
  }

  lemma NoSlots()
    ensures FirstSlots(0) == []
  {
  }

  lemma FirstSlotsGrow(k: nat)
    ensures FirstSlots(k) + [k] == FirstSlots(k + 1)
  {
  }

  class OrderBook {
    const bids: FlatPriceLadder
    const asks: FlatPriceLadder
    const orderPool: array<Order>
    const freeList: SpscQueue<nat>
    const orderIdToSlot: array<nat>
    var nextOrderId: nat
    var matches: seq<Fill>   // what on_match_ has been told

    ghost predicate Valid()
      reads this, bids, asks, freeList, freeList.data, orderPool, orderIdToSlot
    {
      && bids != asks && orderIdToSlot != freeList.data
      && freeList.Valid() && freeList.capacity == orderPool.Length
      && Sorted(bids.levels) && Sorted(asks.levels)
      && Shaped(Model())
    }

    /** The book as a value. */
    ghost function Model(): Book
      requires freeList.Valid()
      reads this, bids, asks, freeList, freeList.data, orderPool, orderIdToSlot
    {
      Book(bids.levels, asks.levels, matches, orderPool[..], orderIdToSlot[..], freeList.Contents(), nextOrderId)
    }

    /** `maxOrders` pool slots, all free but the last, which the ring has no room for. */
    constructor (maxOrders: nat)
      requires IsPowerOfTwo(maxOrders) && maxOrders < NO_SLOT
      ensures Valid() && Model() == Init(maxOrders)
    {
      bids := new FlatPriceLadder();
      asks := new FlatPriceLadder();
      orderPool := new Order[maxOrders](i => Order(0, 0, 0, Buy, Limit));
      orderIdToSlot := new nat[maxOrders](i => NO_SLOT);
      freeList := new SpscQueue<nat>(maxOrders);
      nextOrderId := 1;
      matches := [];
      new;
      hide And, IsPowerOfTwo, Slice, Wrap, Distance;
      PushSlots(freeList, maxOrders);
    }

    /** One turn of the buy loop: a fill at the lowest ask, which leaves the ladder if it is used up. */
    method TakeAsk(wanted: nat, limit: int) returns (left: nat)
      requires Sorted(asks.levels) && BuyTurn(asks.levels, wanted, limit).Go?
      modifies asks, this`matches
      ensures Sorted(asks.levels)
      ensures var t := BuyTurn(old(asks.levels), wanted, limit);
              left == t.left && asks.levels == t.levels && matches == old(matches) + [t.fill]
    {
      ghost var was := asks.levels;
      var ask := asks.levels[0];
      var fillQty := Min(wanted, Truncated(ask.total));
      matches := matches + [Fill(ask.price, fillQty)];
      left := wanted - fillQty;
      asks.levels := asks.levels[0 := Reduced(ask, fillQty)];
      asks.RemoveIfEmpty(ask.price);
      FrontPruned(was, fillQty);
    }

    /** One turn of the sell loop: a fill at the highest bid, which leaves the ladder if it is used up. */
    method TakeBid(wanted: nat, limit: int) returns (left: nat)
      requires Sorted(bids.levels) && SellTurn(bids.levels, wanted, limit).Go?
      modifies bids, this`matches
      ensures Sorted(bids.levels)
      ensures var t := SellTurn(old(bids.levels), wanted, limit);
              left == t.left && bids.levels == t.levels && matches == old(matches) + [t.fill]
    {
      ghost var was := bids.levels;
      var last := |bids.levels| - 1;
      var bid := bids.levels[last];
      var fillQty := Min(wanted, Truncated(bid.total));
      matches := matches + [Fill(bid.price, fillQty)];
      left := wanted - fillQty;
      bids.levels := bids.levels[last := Reduced(bid, fillQty)];
      bids.RemoveIfEmpty(bid.price);
      BackPruned(was, fillQty);
    }

    /** The buy loop: it computes the buy sweep of the asks and reports the sweep's fills. */
    method MatchAggressiveBuy(quantity: nat, price: int) returns (left: nat)
      requires Sorted(asks.levels) && BuyHalts(asks.levels, quantity, price)
      modifies asks, this`matches
      ensures Sorted(asks.levels)
      ensures var s := BuySweep(old(asks.levels), quantity, price);
              left == s.left && asks.levels == s.levels && matches == old(matches) + s.fills
    {
      hide BuySweep, BuyHalts;
      left := quantity;
      ghost var done: seq<Fill> := [];
      ghost var whole := BuySweep(asks.levels, quantity, price);
      while left > 0
        invariant Sorted(asks.levels) && BuyHalts(asks.levels, left, price)
        invariant matches == old(matches) + done
        invariant SoFar(whole, done, BuySweep(asks.levels, left, price))
        decreases |asks.levels|, left
      {
        var ask := asks.Worst();
        if ask.None? || ask.value.price > price {
          break;
        }
        BuyLoopStep(whole, done, asks.levels, left, price);
        done := done + [BuyTurn(asks.levels, left, price).fill];
        left := TakeAsk(left, price);
      }
      BuyStops(asks.levels, left, price);
    }

    /** The sell loop: it computes the sell sweep of the bids and reports the sweep's fills. */
    method MatchAggressiveSell(quantity: nat, price: int) returns (left: nat)
      requires Sorted(bids.levels) && SellHalts(bids.levels, quantity, price)
      modifies bids, this`matches
      ensures Sorted(bids.levels)
      ensures var s := SellSweep(old(bids.levels), quantity, price);
              left == s.left && bids.levels == s.levels && matches == old(matches) + s.fills
    {
      hide SellSweep, SellHalts;
      left := quantity;
      ghost var done: seq<Fill> := [];
      ghost var whole := SellSweep(bids.levels, quantity, price);
      while left > 0
        invariant Sorted(bids.levels) && SellHalts(bids.levels, left, price)
        invariant matches == old(matches) + done
        invariant SoFar(whole, done, SellSweep(bids.levels, left, price))
        decreases |bids.levels|, left
      {
        var bid := bids.Best();
        if bid.None? || bid.value.price < price {
          break;
        }
        SellLoopStep(whole, done, bids.levels, left, price);
        done := done + [SellTurn(bids.levels, left, price).fill];
        left := TakeBid(left, price);
      }
      SellStops(bids.levels, left, price);
    }

    /** Takes the next free slot, if there is one, for `order` and enters it in the index. */
    method TakeSlot(order: Order) returns (r: Option<nat>)
      requires Valid()
      modifies freeList, orderPool, orderIdToSlot
      ensures Valid()
      ensures r == if old(freeList.Contents()) == [] then None else Some(old(freeList.Contents())[0])
      ensures Model() == if r.None? then old(Model()) else Allocate(old(Model()), order)
    {
      hide And, IsPowerOfTwo, Slice, Distance, Wrap, Allocate;
      ghost var was, k := Model(), Index(Model(), order.id);
      r := freeList.Pop();
      if r.Some? {
        orderPool[r.value] := order;
        orderIdToSlot[And(order.id, orderPool.Length - 1)] := r.value;
        assert orderPool[..] == was.pool[r.value := order];
        assert orderIdToSlot[..] == was.slotOf[k := r.value];
        AllocateGives(was, Model(), order, k, r.value);
      }
    }

    /** Matches `order`, then gives its slot back or rests what is left of it. */
    method SettleOrder(order: Order, slot: nat)
      requires Valid() && slot < orderPool.Length && Settle(Model(), order, slot).Done?
      modifies this, bids, asks, freeList, freeList.data, orderPool
      ensures Valid() && nextOrderId == old(nextOrderId)
      ensures Model() == Settle(old(Model()), order, slot).book
    {
      hide BuySweep, SellSweep, BuyHalts, SellHalts;
      var remaining: nat;
      if order.side.Buy? {
        remaining := MatchAggressiveBuy(order.qty, order.price);
      } else {
        remaining := MatchAggressiveSell(order.qty, order.price);
      }
      if remaining == 0 {
        var pushed := freeList.Push(slot);
        return;
      }
      orderPool[slot] := order.(qty := remaining);
      if order.side.Buy? {
        bids.Upsert(order.price, remaining);
      } else {
        asks.Upsert(order.price, remaining);
      }
    }

    /** `add_order`: the book moves as the model says, provided matching returns. */
    method AddOrder(side: Side, price: int, quantity: nat, kind: OrderType) returns (id: nat)
      requires Valid() && Apply(Model(), Add(side, price, quantity, kind)).Done?
      modifies this, bids, asks, freeList, freeList.data, orderPool, orderIdToSlot
      ensures Valid()
      ensures Model() == Apply(old(Model()), Add(side, price, quantity, kind)).book
      ensures var e := Apply(old(Model()), Add(side, price, quantity, kind)).event;
              id == if e.Exhausted? then 0 else old(nextOrderId)
    {
      hide And, IsPowerOfTwo, Allocate, Pruned, Upserted, BuySweep, SellSweep, BuyHalts, SellHalts;
      ghost var was := Model();
      id := nextOrderId;
      nextOrderId := nextOrderId + 1;
      assert Model() == was.(nextId := was.nextId + 1);
      if kind.Cancel? {
        var ok := CancelOrder(price % TWO_64);
        return;
      }
      var order := Order(id, price, quantity, side, kind);
      var slot := TakeSlot(order);
      if slot.None? {
        return 0;
      }
      SettleOrder(order, slot.value);
    }

    /** `cancel_order`: the book moves as the model says, and the result tells whether it found the order. */
    method CancelOrder(id: nat) returns (ok: bool)
      requires Valid()
      modifies bids, asks, freeList, freeList.data
      ensures Valid()
      ensures Model() == BookModel.CancelOrder(old(Model()), id).book
      ensures ok <==> BookModel.CancelOrder(old(Model()), id).event.Cancelled?
    {
      hide And, IsPowerOfTwo, Pruned;
      ghost var k := Index(Model(), id);
      var slot := orderIdToSlot[And(id, orderPool.Length - 1)];
      if slot >= orderPool.Length {
        return false;
      }
      var order := orderPool[slot];
      if order.id != id {
        return false;
      }
      if order.side.Buy? {
        bids.RemoveIfEmpty(order.price);
      } else {
        asks.RemoveIfEmpty(order.price);
      }
      var pushed := freeList.Push(slot);
      return true;
    }

    method BestBid() returns (r: Option<Level>)
      requires Valid()
      ensures r.None? <==> bids.levels == []
      ensures r.Some? ==> r.value in bids.levels && forall l :: l in bids.levels ==> l.price <= r.value.price
    {
      r := bids.Best();
    }

    method BestAsk() returns (r: Option<Level>)
      requires Valid()
      ensures r.None? <==> asks.levels == []
      ensures r.Some? ==> r.value in asks.levels && forall l :: l in asks.levels ==> r.value.price <= l.price
    {
      r := asks.Worst();
    }

    /** `spread_ticks`, with None for the INT64_MAX it returns when a side is empty. */
    method SpreadTicks() returns (r: Option<int>)
      requires Valid()
      ensures IsTightest(r, bids.levels, asks.levels)
      ensures r == Spread(Model())
    {
      SpreadIsTightest(Model());
      var bid := bids.Best();
      var ask := asks.Worst();
      if bid.None? || ask.None? {
        return None;
      }
      return Some(ask.value.price - bid.value.price);
    }
  }
}
