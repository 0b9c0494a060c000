/** When every call of a history returns, and a history in which one does not. */
module BookReturns {
  import opened Bits
  import opened PriceLadder
  import opened Matching
  import opened SellSide
  import opened BookModel
  import opened BookSafety

  /** What the book must be like for a call to return: an add that finds a slot reaches no wide level. */
  ghost predicate CallReturns(b: Book, op: Op) {
    op.Add? && !op.kind.Cancel? && b.free != [] ==>
      if op.side.Buy? then WideLevelsOutOfReach(b.asks, op.qty, op.price)
      else WideBidsOutOfReach(b.bids, op.qty, op.price)
  }

  lemma ReturnsIff(b: Book, side: Side, p: int, q: nat)
    requires Sorted(b.bids) && Sorted(b.asks)
    ensures Returns(b, side, p, q) <==>
            if side.Buy? then WideLevelsOutOfReach(b.asks, q, p) else WideBidsOutOfReach(b.bids, q, p)
  {
    hide Mirror, BuyHalts;
    if side.Buy? {
      HaltsWhenOutOfReach(b.asks, q, p);
    } else {
      MirrorSorted(b.bids);
      HaltsWhenOutOfReach(Mirror(b.bids), q, -p);
      BidsOutOfReach(b.bids, q, p);
    }
  }

  lemma CallReturnsIff(b: Book, op: Op)
    requires Shaped(b) && Sorted(b.bids) && Sorted(b.asks)
    ensures Apply(b, op).Done? <==> CallReturns(b, op)
  {
    if op.Add? && !op.kind.Cancel? && b.free != [] {
      AddSettles(b, op.side, op.price, op.qty, op.kind);
      hide Apply, Returns;
      ReturnsIff(b, op.side, op.price, op.qty);
    }
  }

  /** Call `k` of the history meets a book that lets it return, if it comes about at all. */
  ghost predicate ReturnsAt(n: nat, ops: seq<Op>, k: nat)
    requires IsPowerOfTwo(n) && n < NO_SLOT && k < |ops|
  {
    Run(n, ops[..k]).Ran? ==> CallReturns(Run(n, ops[..k]).book, ops[k])
  }

  lemma LastReturns(n: nat, ops: seq<Op>)
    requires IsPowerOfTwo(n) && n < NO_SLOT && ops != []
    ensures var k := |ops| - 1; Run(n, ops).Ran? <==> Run(n, ops[..k]).Ran? && ReturnsAt(n, ops, k)
  {
    var k := |ops| - 1;
    if Run(n, ops[..k]).Ran? {
      HistoryKeeps(n, ops[..k]);
      hide Apply, CallReturns;
      CallReturnsIff(Run(n, ops[..k]).book, ops[k]);
    }
  }

  lemma ReturnsAtPrefix(n: nat, ops: seq<Op>, j: nat, k: nat)
    requires IsPowerOfTwo(n) && n < NO_SLOT && k < j <= |ops|
    ensures ReturnsAt(n, ops[..j], k) <==> ReturnsAt(n, ops, k)
  {
    assert ops[..j][..k] == ops[..k];
  }

  ghost predicate AllReturn(n: nat, ops: seq<Op>)
    requires IsPowerOfTwo(n) && n < NO_SLOT
  {
    forall k :: 0 <= k < |ops| ==> ReturnsAt(n, ops, k)
  }

  lemma AllReturnLast(n: nat, ops: seq<Op>)
    requires IsPowerOfTwo(n) && n < NO_SLOT && ops != []
    ensures var j := |ops| - 1; AllReturn(n, ops) <==> AllReturn(n, ops[..j]) && ReturnsAt(n, ops, j)
  {
    hide ReturnsAt;
    var j := |ops| - 1;
    forall k | 0 <= k < j ensures ReturnsAt(n, ops[..j], k) <==> ReturnsAt(n, ops, k) { ReturnsAtPrefix(n, ops, j, k); }
  }

  /** A history returns if and only if each of its calls meets a book whose wide levels it does not reach. */
  lemma {:induction false} HistoryReturnsIff(n: nat, ops: seq<Op>)
    requires IsPowerOfTwo(n) && n < NO_SLOT
    ensures Run(n, ops).Ran? <==> AllReturn(n, ops)
  {
    if ops == [] {
    } else {
      hide Run, AllReturn, ReturnsAt;
      HistoryReturnsIff(n, ops[..|ops| - 1]);
      LastReturns(n, ops);
      AllReturnLast(n, ops);
    }
  }

  lemma {:induction false} LevelWithin(ls: seq<Level>, k: nat)
    requires k < |ls|
    ensures ls[k].total <= Depth(ls)
  {
    if k == 0 {
    } else {
      LevelWithin(ls[1..], k - 1);
    }
  }

  lemma NarrowReturns(b: Book, op: Op)
    requires Depth(b.bids) < TWO_32 && Depth(b.asks) < TWO_32
    ensures CallReturns(b, op)
  {
    hide Depth;
    forall k | 0 <= k < |b.bids| ensures b.bids[k].total < TWO_32 { LevelWithin(b.bids, k); }
    forall k | 0 <= k < |b.asks| ensures b.asks[k].total < TWO_32 { LevelWithin(b.asks, k); }
  }

  lemma OfferedSoFar(ops: seq<Op>)
    requires ops != []
    ensures Offered(ops[..|ops| - 1]) <= Offered(ops)
  {
  }

  /** So every history whose quantities add up to less than 2^32 returns, whatever its prices, sides and cancels. */
  lemma {:induction false} SmallHistoriesReturn(n: nat, ops: seq<Op>)
    requires IsPowerOfTwo(n) && n < NO_SLOT && Offered(ops) < TWO_32
    ensures Run(n, ops).Ran?
  {
    if ops == [] {
    } else {
      var k := |ops| - 1;
      OfferedSoFar(ops);
      SmallHistoriesReturn(n, ops[..k]);
      HistoryKeeps(n, ops[..k]);
      AcceptedIsOffered(ops[..k], Run(n, ops[..k]).events);
      NarrowReturns(Run(n, ops[..k]).book, ops[k]);
      LastReturns(n, ops);
    }
  }

  // ----- A history that does not return -----

  const HALF: nat := TWO_32 / 2

  /** Two asks of 2^31 at one price, and a bid that reaches them. */
  function SpinningHistory(p: int, q: nat): seq<Op> {
    [Add(Sell, p, HALF, Limit), Add(Sell, p, HALF, Limit), Add(Buy, p, q, Limit)]
  }

  /** An ask that meets no bids rests whole. */
  lemma AskRests(b: Book, p: int, q: nat)
    requires Shaped(b) && b.free != [] && b.bids == [] && q > 0
    ensures var r := Apply(b, Add(Sell, p, q, Limit));
            && r.Done? && Shaped(r.book) && r.book.bids == [] && r.book.asks == Upserted(b.asks, p, q)
            && |r.book.free| >= |b.free| - 1
  {
    AddSettles(b, Sell, p, q, Limit);
  }

  lemma WideAsk(p: int)
    ensures Upserted(Upserted([], p, HALF), p, HALF) == [Level(p, TWO_32, 2)]
  {
    assert Upserted([], p, HALF) == [Level(p, HALF, 1)];
  }

  lemma WideAskInReach(p: int, q: nat)
    requires q > 0
    ensures !BuyHalts([Level(p, TWO_32, 2)], q, p)
  {
  }

  lemma RunSpins(n: nat, ops: seq<Op>, op: Op)
    requires IsPowerOfTwo(n) && n < NO_SLOT && Run(n, ops).Ran? && Apply(Run(n, ops).book, op).Spins?
    ensures Run(n, ops + [op]).Stuck?
  {
    hide Apply, Shaped;
    assert (ops + [op])[..|ops|] == ops;
  }

  lemma AsksRest(n: nat, p: int)
    requires IsPowerOfTwo(n) && 4 <= n < NO_SLOT
    ensures var ask := Add(Sell, p, HALF, Limit);
            var t := Run(n, [ask] + [ask]);
            t.Ran? && t.book.free != [] && t.book.asks == [Level(p, TWO_32, 2)]
  {
    var ask := Add(Sell, p, HALF, Limit);
    WideAsk(p);
    AskRests(Init(n), p, HALF);
    var b := Apply(Init(n), ask).book;
    AskRests(b, p, HALF);
    hide Apply, Upserted;
    RunNext(n, [], ask);
    assert [] + [ask] == [ask];
    RunNext(n, [ask], ask);
  }

  /** The third call never returns, for any price, any quantity of the bid and any pool of four or more. */
  lemma HistoryThatSpins(n: nat, p: int, q: nat)
    requires IsPowerOfTwo(n) && 4 <= n < NO_SLOT && q > 0
    ensures Run(n, SpinningHistory(p, q)).Stuck?
  {
    var ask, bid := Add(Sell, p, HALF, Limit), Add(Buy, p, q, Limit);
    hide Run, BuyHalts;
    AsksRest(n, p);
    WideAskInReach(p, q);
    AddSettles(Run(n, [ask] + [ask]).book, Buy, p, q, Limit);
    hide Apply;
    RunSpins(n, [ask] + [ask], bid);
    assert [ask] + [ask] + [bid] == SpinningHistory(p, q);
  }
}
