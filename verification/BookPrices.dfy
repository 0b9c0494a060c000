/** Conservation price by price: what came to rest at a price is still there, or was traded from there, or wrapped. */
module BookPrices {
  import opened Bits
  import opened PriceLadder
  import opened Matching
  import opened SellSide
  import opened BookModel
  import opened BookSafety
  import opened BookSplit

  /** The quantity a ladder shows at price `x`. */
  function TotalAt(ls: seq<Level>, x: int): nat {
    if ls == [] then 0 else (if ls[0].price == x then ls[0].total else 0) + TotalAt(ls[1..], x)
  }

  function Only(l: Level, x: int): nat { if l.price == x then l.total else 0 }

  lemma {:induction false} TotalAtAppends(a: seq<Level>, b: seq<Level>, x: int)
    ensures TotalAt(a + b, x) == TotalAt(a, x) + TotalAt(b, x)
  {
    if a == [] {
      assert a + b == b;
    } else {
      TotalAtAppends(a[1..], b, x);
      assert (a + b)[1..] == a[1..] + b;
    }
  }

  lemma TotalAtMiddle(a: seq<Level>, l: Level, b: seq<Level>, x: int)
    ensures TotalAt(a + [l] + b, x) == TotalAt(a, x) + Only(l, x) + TotalAt(b, x)
  {
    TotalAtAppends(a + [l], b, x);
    TotalAtAppends(a, [l], x);
    assert TotalAt([l], x) == Only(l, x) + TotalAt([], x);
  }

  /** In a sorted ladder it is the total of the level at that price, if there is one. */
  lemma {:induction false} TotalAtIsLevel(ls: seq<Level>, k: nat)
    requires Sorted(ls) && k < |ls|
    ensures TotalAt(ls, ls[k].price) == ls[k].total
  {
    assert ls == ls[..k] + [ls[k]] + ls[k + 1..];
    TotalAtMiddle(ls[..k], ls[k], ls[k + 1..], ls[k].price);
    NothingAt(ls[..k], ls[k].price);
    NothingAt(ls[k + 1..], ls[k].price);
  }

  lemma {:induction false} NothingAt(ls: seq<Level>, x: int)
    requires forall i :: 0 <= i < |ls| ==> ls[i].price != x
    ensures TotalAt(ls, x) == 0
  {
    if ls == [] {
    } else {
      NothingAt(ls[1..], x);
    }
  }

  // ----- What one call moves -----

  /** The buy loop takes from each price what it reports at that price. */
  lemma {:induction false} BuyTakes(ls: seq<Level>, q: nat, limit: int, x: int)
    requires BuyHalts(ls, q, limit)
    ensures var s := BuySweep(ls, q, limit); TotalAt(s.levels, x) + FilledAt(s.fills, x) == TotalAt(ls, x)
  {
    if q == 0 || ls == [] || ls[0].price > limit {
    } else if q <= Truncated(ls[0].total) {
      SweepInFront(ls, q, limit);
      TakenInFront(ls, q, x);
    } else {
      SweepPastFront(ls, q, limit);
      var t := BuySweep(ls[1..], q - ls[0].total, limit);
      BuyTakes(ls[1..], q - ls[0].total, limit, x);
      FilledAtFirst(Fill(ls[0].price, ls[0].total), t.fills);
    }
  }

  lemma TakenInFront(ls: seq<Level>, q: nat, x: int)
    requires ls != [] && q <= ls[0].total
    ensures TotalAt(Rest(ls[0], q) + ls[1..], x) + FilledAt([Fill(ls[0].price, q)], x) == TotalAt(ls, x)
  {
    FilledAtOne(Fill(ls[0].price, q));
    TotalAtAppends(Rest(ls[0], q), ls[1..], x);
    assert TotalAt(Rest(ls[0], q), x) == Only(Reduced(ls[0], q), x);
  }

  lemma {:induction false} TotalAtMirrored(ls: seq<Level>, x: int)
    ensures TotalAt(Mirror(ls), -x) == TotalAt(ls, x)
  {
    if ls == [] {
    } else {
      TotalAtMirrored(ls[1..], x);
      MirrorStep(ls);
      TotalAtAppends(Mirror(ls[1..]), [Flip(ls[0])], -x);
      assert TotalAt([Flip(ls[0])], -x) == Only(ls[0], x);
    }
  }

  lemma SellTakes(ls: seq<Level>, q: nat, limit: int, x: int)
    requires SellHalts(ls, q, limit)
    ensures var s := SellSweep(ls, q, limit); TotalAt(s.levels, x) + FilledAt(s.fills, x) == TotalAt(ls, x)
  {
    hide Mirror, BuySweep, BuyHalts, TotalAt, FilledAt;
    var t := BuySweep(Mirror(ls), q, -limit);
    BuyTakes(Mirror(ls), q, -limit, -x);
    TotalAtMirrored(ls, x);
    MirrorTwice(t.levels);
    TotalAtMirrored(Mirror(t.levels), x);
    FilledAtFlipped(t.fills, x);
  }

  lemma InsertedAt(ls: seq<Level>, k: nat, l: Level, x: int)
    requires k <= |ls|
    ensures TotalAt(ls[..k] + [l] + ls[k..], x) == TotalAt(ls, x) + Only(l, x)
  {
    hide TotalAt;
    assert ls == ls[..k] + ls[k..];
    TotalAtAppends(ls[..k], ls[k..], x);
    TotalAtMiddle(ls[..k], l, ls[k..], x);
  }

  lemma UpdatedAt(ls: seq<Level>, k: nat, l: Level, x: int)
    requires k < |ls| && l.price == ls[k].price
    ensures TotalAt(ls[k := l], x) == TotalAt(ls, x) - Only(ls[k], x) + Only(l, x)
  {
    hide TotalAt;
    assert ls == ls[..k] + [ls[k]] + ls[k + 1..] && ls[k := l] == ls[..k] + [l] + ls[k + 1..];
    TotalAtMiddle(ls[..k], ls[k], ls[k + 1..], x);
    TotalAtMiddle(ls[..k], l, ls[k + 1..], x);
  }

  /** Resting changes one price only, by what rests there less what wraps. */
  lemma RestAdds(ls: seq<Level>, p: int, q: nat, x: int)
    ensures TotalAt(Rested(ls, p, q), x) + (if x == p then TWO_64 * RestWraps(ls, p, q) else 0) ==
            TotalAt(ls, x) + (if x == p then q else 0)
  {
    hide TotalAt, LowerBound;
    if q > 0 {
      var k := LowerBound(ls, p);
      if HasPriceAt(ls, k, p) { UpdatedAt(ls, k, Added(ls[k], q), x); } else { InsertedAt(ls, k, Level(p, q, 1), x); }
    }
  }

  lemma PruneTakesNothing(ls: seq<Level>, p: int, x: int)
    ensures TotalAt(Pruned(ls, p), x) == TotalAt(ls, x)
  {
    hide TotalAt, LowerBound;
    var k := LowerBound(ls, p);
    if HasPriceAt(ls, k, p) && ls[k].total == 0 {
      assert ls == ls[..k] + [ls[k]] + ls[k + 1..];
      TotalAtMiddle(ls[..k], ls[k], ls[k + 1..], x);
      TotalAtAppends(ls[..k], ls[k + 1..], x);
    }
  }

  /** The call is an add that finds a slot and returns, so it matches and rests. */
  predicate Trades(b: Book, op: Op) {
    op.Add? && !op.kind.Cancel? && b.free != [] && Returns(b, op.side, op.price, op.qty)
  }

  function Sweeps(b: Book, op: Op): Sweep
    requires Trades(b, op)
  {
    SweepFor(b, op.side, op.price, op.qty)
  }

  /** What a call brings to rest on this side at price `x`. */
  function RestsNow(b: Book, op: Op, side: Side, x: int): nat {
    if Trades(b, op) && op.side == side && op.price == x then Sweeps(b, op).left else 0
  }

  /** What it trades from this side at price `x`. */
  function TakesNow(b: Book, op: Op, side: Side, x: int): nat {
    if Trades(b, op) && op.side != side then FilledAt(Sweeps(b, op).fills, x) else 0
  }

  /** How often it wraps the level of this side at price `x`. */
  function WrapsNow(b: Book, op: Op, side: Side, x: int): nat {
    if Trades(b, op) && op.side == side && op.price == x
    then RestWraps(OwnLadder(b, side), x, Sweeps(b, op).left) else 0
  }

  lemma TradeMoves(b: Book, b': Book, op: Op, side: Side, x: int)
    requires Trades(b, op) && Settled(b, b', op.side, op.price, op.qty)
    ensures TotalAt(OwnLadder(b', side), x) + TakesNow(b, op, side, x) + TWO_64 * WrapsNow(b, op, side, x) ==
            TotalAt(OwnLadder(b, side), x) + RestsNow(b, op, side, x)
  {
    hide TotalAt, FilledAt, BuySweep, SellSweep, BuyHalts, SellHalts, Rested, RestWraps;
    RestAdds(OwnLadder(b, op.side), op.price, Sweeps(b, op).left, x);
    if op.side.Buy? { BuyTakes(b.asks, op.qty, op.price, x); } else { SellTakes(b.bids, op.qty, op.price, x); }
  }

  lemma PruningMoves(b: Book, b': Book, p: int, side: Side, x: int)
    requires b'.bids == b.bids || b'.bids == Pruned(b.bids, p)
    requires b'.asks == b.asks || b'.asks == Pruned(b.asks, p)
    ensures TotalAt(OwnLadder(b', side), x) == TotalAt(OwnLadder(b, side), x)
  {
    PruneTakesNothing(OwnLadder(b, side), p, x);
  }

  lemma CancelMoves(b: Book, id: nat, side: Side, x: int)
    requires Shaped(b)
    ensures var b' := CancelOrder(b, id).book;
            TotalAt(OwnLadder(b', side), x) == TotalAt(OwnLadder(b, side), x) && b'.fills == b.fills
  {
    var b' := CancelOrder(b, id).book;
    hide CancelOrder, Pruned, TotalAt;
    var p := CancelPrunes(b, id);
    PruningMoves(b, b', p, side, x);
  }

  /** The law of one call, and the fills it reports at price `x`. */
  ghost predicate Moves(b: Book, b': Book, op: Op, side: Side, x: int) {
    && TotalAt(OwnLadder(b', side), x) + TakesNow(b, op, side, x) + TWO_64 * WrapsNow(b, op, side, x) ==
       TotalAt(OwnLadder(b, side), x) + RestsNow(b, op, side, x)
    && FilledAt(b'.fills, x) == FilledAt(b.fills, x) + TakesNow(b, op, Buy, x) + TakesNow(b, op, Sell, x)
  }

  lemma AddMoves(b: Book, op: Op, side: Side, x: int)
    requires Shaped(b) && op.Add? && !op.kind.Cancel? && b.free != [] && Apply(b, op).Done?
    ensures Moves(b, Apply(b, op).book, op, side, x)
  {
    AddSettles(b, op.side, op.price, op.qty, op.kind);
    var b' := Apply(b, op).book;
    hide Apply, TotalAt, FilledAt, BuySweep, SellSweep, BuyHalts, SellHalts, RestWraps;
    TradeMoves(b, b', op, side, x);
    FilledAtAppends(b.fills, Sweeps(b, op).fills, x);
  }

  lemma CallMoves(b: Book, op: Op, side: Side, x: int)
    requires Shaped(b) && Apply(b, op).Done?
    ensures Moves(b, Apply(b, op).book, op, side, x)
  {
    hide Settle, CancelOrder, TotalAt, FilledAt;
    match op
    case CancelById(id) => CancelMoves(b, id, side, x);
    case Add(_, price, _, kind) =>
      if kind.Cancel? {
        CancelMoves(b.(nextId := b.nextId + 1), price % TWO_64, side, x);
      } else if b.free != [] {
        AddMoves(b, op, side, x);
      }
  }

  // ----- Whole histories -----

  /** What a history moved on one side at one price: brought to rest, traded from there, wrapped. */
  datatype Flow = Flow(rested: nat, taken: nat, wraps: nat)

  function FlowAt(n: nat, ops: seq<Op>, side: Side, x: int): Flow
    requires IsPowerOfTwo(n) && n < NO_SLOT && Run(n, ops).Ran?
  {
    if ops == [] then Flow(0, 0, 0)
    else
      var k := |ops| - 1;
      var b, f := Run(n, ops[..k]).book, FlowAt(n, ops[..k], side, x);
      Flow(f.rested + RestsNow(b, ops[k], side, x), f.taken + TakesNow(b, ops[k], side, x),
           f.wraps + WrapsNow(b, ops[k], side, x))
  }

  ghost predicate Balanced(b: Book, f: Flow, side: Side, x: int) {
    f.rested == TotalAt(OwnLadder(b, side), x) + f.taken + TWO_64 * f.wraps
  }

  /**
   Over every history, on each side and at each price, what came to rest there is what the ladder
   shows there, plus what was traded from there, plus 2^64 for every wrap of that level; and the
   fills reported at a price are those taken from the two sides there.
   */
  lemma {:induction false} EachPriceBalances(n: nat, ops: seq<Op>, x: int)
    requires IsPowerOfTwo(n) && n < NO_SLOT && Run(n, ops).Ran?
    ensures var b := Run(n, ops).book;
            var bid, ask := FlowAt(n, ops, Buy, x), FlowAt(n, ops, Sell, x);
            && Balanced(b, bid, Buy, x) && Balanced(b, ask, Sell, x)
            && FilledAt(b.fills, x) == bid.taken + ask.taken
  {
    if ops == [] {
    } else {
      var k := |ops| - 1;
      EachPriceBalances(n, ops[..k], x);
      var b := Run(n, ops[..k]).book;
      var b' := Apply(b, ops[k]).book;
      CallMoves(b, ops[k], Buy, x);
      CallMoves(b, ops[k], Sell, x);
      hide Apply, RestsNow, TakesNow, WrapsNow, TotalAt, FilledAt;
      assert Run(n, ops).book == b';
    }
  }
}
