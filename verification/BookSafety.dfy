/** What every history of adds and cancels keeps true of the two ladders. */
module BookSafety {
  import opened Bits
  import opened Options
  import opened PriceLadder
  import opened Matching
  import opened SellSide
  import opened BookModel

  /** Every bid is strictly below every ask. */
  ghost predicate Uncrossed(bids: seq<Level>, asks: seq<Level>) {
    forall i, j :: 0 <= i < |bids| && 0 <= j < |asks| ==> bids[i].price < asks[j].price
  }

  /** Both ladders strictly sorted, and no bid as high as an ask. */
  ghost predicate Ordered(bids: seq<Level>, asks: seq<Level>) {
    Sorted(bids) && Sorted(asks) && Uncrossed(bids, asks)
  }

  ghost predicate BothPositive(b: Book) {
    Positive(b.bids) && Positive(b.asks)
  }

  /** Resting and twice traded quantity: a trade takes its quantity from both of its sides. */
  function Placed(b: Book): nat {
    Depth(b.bids) + Depth(b.asks) + 2 * Filled(b.fills)
  }

  lemma {:induction false} FilledAppends(a: seq<Fill>, b: seq<Fill>)
    ensures Filled(a + b) == Filled(a) + Filled(b)
  {
    if a == [] {
      assert a + b == b;
    } else {
      FilledAppends(a[1..], b);
      assert (a + b)[1..] == a[1..] + b;
    }
  }

  lemma {:induction false} LevelWithinDepth(ls: seq<Level>, k: nat)
    requires k < |ls|
    ensures Depth(ls[..k]) + ls[k].total + Depth(ls[k + 1..]) == Depth(ls)
  {
    assert ls == ls[..k] + ([ls[k]] + ls[k + 1..]);
    DepthAppends(ls[..k], [ls[k]] + ls[k + 1..]);
    DepthAppends([ls[k]], ls[k + 1..]);
  }

  /** How often 2^64 the total at price `p` wraps when `q` more comes to rest there. */
  function RestWraps(ls: seq<Level>, p: int, q: nat): nat {
    var k := LowerBound(ls, p);
    if q > 0 && HasPriceAt(ls, k, p) then (ls[k].total + q) / TWO_64 else 0
  }

  lemma AddedDepth(ls: seq<Level>, k: nat, l: Level)
    requires k < |ls|
    ensures Depth(ls[k := l]) == Depth(ls) - ls[k].total + l.total
  {
    hide Depth;
    var ls' := ls[k := l];
    LevelWithinDepth(ls, k);
    LevelWithinDepth(ls', k);
    assert ls'[..k] == ls[..k] && ls'[k + 1..] == ls[k + 1..];
  }

  lemma InsertedDepth(ls: seq<Level>, k: nat, l: Level)
    requires k <= |ls|
    ensures Depth(ls[..k] + [l] + ls[k..]) == Depth(ls) + l.total
  {
    assert ls == ls[..k] + ls[k..];
    DepthAppends(ls[..k], ls[k..]);
    DepthAppends(ls[..k] + [l], ls[k..]);
    DepthAppends(ls[..k], [l]);
  }

  lemma UpsertedDepth(ls: seq<Level>, p: int, q: nat)
    ensures var k := LowerBound(ls, p);
            Depth(Upserted(ls, p, q)) ==
              if HasPriceAt(ls, k, p) then Depth(ls) - ls[k].total + (ls[k].total + q) % TWO_64 else Depth(ls) + q
  {
    hide Depth, LowerBound;
    var k := LowerBound(ls, p);
    if HasPriceAt(ls, k, p) { AddedDepth(ls, k, Added(ls[k], q)); } else { InsertedDepth(ls, k, Level(p, q, 1)); }
  }

  /** Resting `q` more adds `q` to the depth, less what wraps. */
  lemma RestAddsDepth(ls: seq<Level>, p: int, q: nat)
    ensures Depth(Rested(ls, p, q)) + TWO_64 * RestWraps(ls, p, q) == Depth(ls) + q
  {
    hide Depth, Upserted;
    if q > 0 { UpsertedDepth(ls, p, q); }
  }

  /** Resting more empties a level exactly when that level's total comes to a multiple of 2^64. */
  ghost predicate RestEmpties(ls: seq<Level>, p: int, q: nat) {
    var k := LowerBound(ls, p);
    q > 0 && HasPriceAt(ls, k, p) && (ls[k].total + q) % TWO_64 == 0
  }

  /** The level an upsert touches, and the others, which were there before. */
  lemma UpsertedLevels(ls: seq<Level>, p: int, q: nat, i: nat)
    requires i < |Upserted(ls, p, q)|
    ensures var k := LowerBound(ls, p);
            if i == k then Upserted(ls, p, q)[k] == if HasPriceAt(ls, k, p) then Added(ls[k], q) else Level(p, q, 1)
            else Upserted(ls, p, q)[i] in ls
  {
    hide LowerBound;
    var k := LowerBound(ls, p);
    if i != k {
      var j := if HasPriceAt(ls, k, p) || i < k then i else i - 1;
      assert Upserted(ls, p, q)[i] == ls[j];
    }
  }

  lemma RestPositiveIff(ls: seq<Level>, p: int, q: nat)
    requires Positive(ls)
    ensures Positive(Rested(ls, p, q)) <==> !RestEmpties(ls, p, q)
  {
    hide Upserted, LowerBound;
    if q > 0 {
      var k, ls' := LowerBound(ls, p), Upserted(ls, p, q);
      forall i | 0 <= i < |ls'| ensures ls'[i].total > 0 || (i == k && RestEmpties(ls, p, q)) {
        UpsertedLevels(ls, p, q, i);
      }
      if RestEmpties(ls, p, q) {
        UpsertSize(ls, p, q);
        UpsertedLevels(ls, p, q, k);
      }
    }
  }

  lemma UpsertSize(ls: seq<Level>, p: int, q: nat)
    ensures LowerBound(ls, p) < |Upserted(ls, p, q)|
  {
  }

  lemma UpsertPrices(ls: seq<Level>, p: int, q: nat)
    ensures var r := Upserted(ls, p, q);
            forall i :: 0 <= i < |r| ==> r[i].price == p || exists j :: 0 <= j < |ls| && ls[j].price == r[i].price
  {
    var k, ls' := LowerBound(ls, p), Upserted(ls, p, q);
    forall i | 0 <= i < |ls'| && ls'[i].price != p ensures exists j :: 0 <= j < |ls| && ls[j].price == ls'[i].price {
      var j := if HasPriceAt(ls, k, p) || i < k then i else i - 1;
      assert ls[j].price == ls'[i].price;
    }
  }

  lemma RestedBidsUncrossed(bids: seq<Level>, asks: seq<Level>, p: int, q: nat)
    requires Uncrossed(bids, asks) && forall j :: 0 <= j < |asks| ==> p < asks[j].price
    ensures Uncrossed(Upserted(bids, p, q), asks)
  {
    UpsertPrices(bids, p, q);
  }

  lemma RestedAsksUncrossed(bids: seq<Level>, asks: seq<Level>, p: int, q: nat)
    requires Uncrossed(bids, asks) && forall i :: 0 <= i < |bids| ==> bids[i].price < p
    ensures Uncrossed(bids, Upserted(asks, p, q))
  {
    UpsertPrices(asks, p, q);
  }

  lemma RestSorted(ls: seq<Level>, p: int, q: nat)
    requires Sorted(ls)
    ensures Sorted(Rested(ls, p, q))
  {
    if q > 0 { UpsertSorted(ls, p, q); }
  }

  lemma BuySweepUncrossed(bids: seq<Level>, asks: seq<Level>, q: nat, p: int)
    requires Sorted(asks) && BuyHalts(asks, q, p) && Uncrossed(bids, asks)
    ensures var s := BuySweep(asks, q, p); Uncrossed(bids, s.levels) && Uncrossed(Rested(bids, p, s.left), s.levels)
  {
    var s := BuySweep(asks, q, p);
    SweepFills(asks, q, p);
    SweepKeepsOrder(asks, q, p);
    if asks == [] {
      assert s.levels == [];
    } else if s.left > 0 {
      RestedBidsUncrossed(bids, s.levels, p, s.left);
    }
  }

  lemma SellSweepUncrossed(bids: seq<Level>, asks: seq<Level>, q: nat, p: int)
    requires Sorted(bids) && SellHalts(bids, q, p) && Uncrossed(bids, asks)
    ensures var s := SellSweep(bids, q, p); Uncrossed(s.levels, asks) && Uncrossed(s.levels, Rested(asks, p, s.left))
  {
    var s := SellSweep(bids, q, p);
    SellFills(bids, q, p);
    SellKeepsOrder(bids, q, p);
    if bids == [] {
      assert s.levels == [];
    } else if s.left > 0 {
      RestedAsksUncrossed(s.levels, asks, p, s.left);
    }
  }

  lemma BuyKeeps(bids: seq<Level>, asks: seq<Level>, q: nat, p: int)
    requires Ordered(bids, asks) && BuyHalts(asks, q, p)
    ensures var s := BuySweep(asks, q, p);
            && Ordered(Rested(bids, p, s.left), s.levels)
            && Depth(Rested(bids, p, s.left)) + Depth(s.levels) + 2 * Filled(s.fills)
               + TWO_64 * RestWraps(bids, p, s.left) == Depth(bids) + Depth(asks) + q
            && (Positive(asks) ==> Positive(s.levels))
  {
    var left := BuySweep(asks, q, p).left;
    SweepFills(asks, q, p);
    SweepKeepsOrder(asks, q, p);
    BuySweepUncrossed(bids, asks, q, p);
    RestSorted(bids, p, left);
    RestAddsDepth(bids, p, left);
  }

  lemma SellKeeps(bids: seq<Level>, asks: seq<Level>, q: nat, p: int)
    requires Ordered(bids, asks) && SellHalts(bids, q, p)
    ensures var s := SellSweep(bids, q, p);
            && Ordered(s.levels, Rested(asks, p, s.left))
            && Depth(s.levels) + Depth(Rested(asks, p, s.left)) + 2 * Filled(s.fills)
               + TWO_64 * RestWraps(asks, p, s.left) == Depth(bids) + Depth(asks) + q
            && (Positive(bids) ==> Positive(s.levels))
  {
    var left := SellSweep(bids, q, p).left;
    SellFills(bids, q, p);
    SellKeepsOrder(bids, q, p);
    SellSweepUncrossed(bids, asks, q, p);
    RestSorted(asks, p, left);
    RestAddsDepth(asks, p, left);
  }

  /** The ladder an order of this side rests on. */
  function OwnLadder(b: Book, side: Side): seq<Level> {
    if side.Buy? then b.bids else b.asks
  }

  function SettleWraps(b: Book, side: Side, p: int, q: nat): nat {
    if Returns(b, side, p, q) then RestWraps(OwnLadder(b, side), p, SweepFor(b, side, p, q).left) else 0
  }

  /** Matching and resting an order keeps the ladders in order and places exactly its quantity, less what wraps. */
  lemma SettledKeeps(b: Book, b': Book, side: Side, p: int, q: nat)
    requires Ordered(b.bids, b.asks) && Settled(b, b', side, p, q)
    ensures Ordered(b'.bids, b'.asks)
    ensures Placed(b') + TWO_64 * SettleWraps(b, side, p, q) == Placed(b) + q
  {
    FilledAppends(b.fills, SweepFor(b, side, p, q).fills);
    if side.Buy? { BuyKeeps(b.bids, b.asks, q, p); } else { SellKeeps(b.bids, b.asks, q, p); }
  }

  /** On positive ladders it keeps them positive, unless what is left brings its level to a multiple of 2^64. */
  lemma SettledPositiveIff(b: Book, b': Book, side: Side, p: int, q: nat)
    requires Ordered(b.bids, b.asks) && BothPositive(b) && Settled(b, b', side, p, q)
    ensures BothPositive(b') <==> !RestEmpties(OwnLadder(b, side), p, SweepFor(b, side, p, q).left)
  {
    RestPositiveIff(OwnLadder(b, side), p, SweepFor(b, side, p, q).left);
    if side.Buy? { BuyKeeps(b.bids, b.asks, q, p); } else { SellKeeps(b.bids, b.asks, q, p); }
  }

  lemma NoWrapNoEmpty(ls: seq<Level>, p: int, q: nat)
    requires RestEmpties(ls, p, q)
    ensures RestWraps(ls, p, q) > 0
  {
  }

  // ----- Which orders rest -----

  /** What rests opposite an order at its limit or better. */
  function Reachable(b: Book, side: Side, p: int): nat {
    if side.Buy? then DepthWithin(b.asks, p) else DepthAbove(b.bids, p)
  }

  lemma SweepLeaves(b: Book, side: Side, p: int, q: nat)
    requires Sorted(b.bids) && Sorted(b.asks) && Returns(b, side, p, q)
    ensures SweepFor(b, side, p, q).left == q - Min(q, Reachable(b, side, p))
  {
    if side.Buy? { SweepFills(b.asks, q, p); } else { SellFills(b.bids, q, p); }
  }

  lemma SettleRests(b: Book, o: Order, slot: nat)
    requires |b.pool| > 0 && slot < |b.pool| && |b.free| < |b.pool| - 1 && Settle(b, o, slot).Done?
    ensures var Done(b', e) := Settle(b, o, slot);
            && Returns(b, o.side, o.price, o.qty)
            && var left := SweepFor(b, o.side, o.price, o.qty).left;
               && e == Allocated(o.id, slot, left > 0)
               && b'.free == b.free + (if left > 0 then [] else [slot])
               && b'.pool == (if left > 0 then b.pool[slot := o.(qty := left)] else b.pool)
               && b'.slotOf == b.slotOf && b'.nextId == b.nextId
  {
    hide BuySweep, SellSweep, BuyHalts, SellHalts, Upserted;
  }

  /**
   An add that finds a slot and returns leaves its order resting if and only if its quantity exceeds
   what rests opposite it at its limit or better. The pool then keeps what is left of the order in
   the slot; otherwise the slot is back at the end of the free list.
   */
  lemma AddRestsIff(b: Book, side: Side, p: int, q: nat, kind: OrderType)
    requires Shaped(b) && Sorted(b.bids) && Sorted(b.asks) && b.free != [] && !kind.Cancel?
    requires Apply(b, Add(side, p, q, kind)).Done?
    ensures var Done(b', e) := Apply(b, Add(side, p, q, kind));
            var slot, reach := b.free[0], Reachable(b, side, p);
            && e == Allocated(b.nextId, slot, q > reach)
            && b'.free == b.free[1..] + (if q > reach then [] else [slot])
            && b'.pool == b.pool[slot := Order(b.nextId, p, if q > reach then q - reach else q, side, kind)]
            && b'.slotOf == b.slotOf[b.nextId % |b.pool| := slot]
  {
    var o := Order(b.nextId, p, q, side, kind);
    var a := Allocate(b.(nextId := b.nextId + 1), o);
    hide Settle;
    SettleRests(a, o, b.free[0]);
    SweepLeaves(a, side, p, q);
  }

  /** Every add uses up one id, also one that is refused or cancels; a cancel uses none. */
  lemma IdsUsed(b: Book, op: Op)
    requires Shaped(b) && Apply(b, op).Done?
    ensures Apply(b, op).book.nextId == b.nextId + (if op.Add? then 1 else 0)
  {
    hide BuySweep, SellSweep, BuyHalts, SellHalts, Upserted, Pruned, And, IsPowerOfTwo;
  }

  // ----- Cancels -----

  /** What a call keeps, told from what it does to ladders and fills only. */
  ghost predicate Keeps(b: Book, b': Book, brought: nat, wraps: nat) {
    && Ordered(b'.bids, b'.asks)
    && Placed(b') + TWO_64 * wraps == Placed(b) + brought
    && (BothPositive(b) && wraps == 0 ==> BothPositive(b'))
  }

  lemma PrunedKeeps(ls: seq<Level>, p: int)
    requires Sorted(ls)
    ensures Sorted(Pruned(ls, p)) && Depth(Pruned(ls, p)) == Depth(ls)
    ensures forall l :: l in Pruned(ls, p) ==> l in ls
  {
    var k := LowerBound(ls, p);
    if HasPriceAt(ls, k, p) && ls[k].total == 0 {
      LevelWithinDepth(ls, k);
      DepthAppends(ls[..k], ls[k + 1..]);
    }
  }

  /** The ladder has an empty level at price `p`. */
  ghost predicate EmptyAt(ls: seq<Level>, p: int) {
    exists l :: l in ls && l.price == p && l.total == 0
  }

  lemma PrunedChangesIff(ls: seq<Level>, p: int)
    requires Sorted(ls)
    ensures Pruned(ls, p) != ls <==> EmptyAt(ls, p)
  {
    var k := LowerBound(ls, p);
    if EmptyAt(ls, p) {
      var l :| l in ls && l.price == p && l.total == 0;
      var i :| 0 <= i < |ls| && ls[i] == l;
      LowerBoundUnique(ls, p, i);
    }
  }

  /** The index and the pool know the id, and the level of its order is empty. */
  ghost predicate CancelsEmptyLevel(b: Book, id: nat)
    requires Shaped(b)
  {
    var slot := b.slotOf[Index(b, id)];
    slot < |b.pool| && b.pool[slot].id == id && EmptyAt(OwnLadder(b, b.pool[slot].side), b.pool[slot].price)
  }

  /** A cancel reports no fill, and changes a ladder exactly when the level of its order is empty. */
  lemma CancelChangesLadderIff(b: Book, id: nat)
    requires Shaped(b) && Sorted(b.bids) && Sorted(b.asks)
    ensures var b' := CancelOrder(b, id).book;
            b'.fills == b.fills && (b'.bids != b.bids || b'.asks != b.asks <==> CancelsEmptyLevel(b, id))
  {
    var slot := b.slotOf[Index(b, id)];
    if slot < |b.pool| {
      var o := b.pool[slot];
      PrunedChangesIff(OwnLadder(b, o.side), o.price);
    }
  }

  lemma SubsetUncrossed(bids: seq<Level>, asks: seq<Level>, bids': seq<Level>, asks': seq<Level>)
    requires Uncrossed(bids, asks) && (forall l :: l in bids' ==> l in bids) && (forall l :: l in asks' ==> l in asks)
    ensures Uncrossed(bids', asks')
  {
    forall i, j | 0 <= i < |bids'| && 0 <= j < |asks'| ensures bids'[i].price < asks'[j].price {
      assert bids'[i] in bids && asks'[j] in asks;
    }
  }

  lemma CancelPositive(b: Book, id: nat)
    requires Shaped(b) && Sorted(b.bids) && Sorted(b.asks) && BothPositive(b)
    ensures BothPositive(CancelOrder(b, id).book)
  {
    CancelChangesLadderIff(b, id);
  }

  lemma CancelPrunes(b: Book, id: nat) returns (p: int)
    requires Shaped(b)
    ensures var b' := CancelOrder(b, id).book;
            && (b'.bids == b.bids || b'.bids == Pruned(b.bids, p))
            && (b'.asks == b.asks || b'.asks == Pruned(b.asks, p))
            && b'.fills == b.fills
  {
    var slot := b.slotOf[Index(b, id)];
    p := if slot < |b.pool| then b.pool[slot].price else 0;
  }

  lemma PrunedOrSame(ls: seq<Level>, ls': seq<Level>, p: int)
    requires Sorted(ls) && (ls' == ls || ls' == Pruned(ls, p))
    ensures Sorted(ls') && Depth(ls') == Depth(ls) && forall l :: l in ls' ==> l in ls
  {
    PrunedKeeps(ls, p);
  }

  lemma PruningKeeps(b: Book, b': Book, p: int)
    requires Ordered(b.bids, b.asks) && b'.fills == b.fills
    requires b'.bids == b.bids || b'.bids == Pruned(b.bids, p)
    requires b'.asks == b.asks || b'.asks == Pruned(b.asks, p)
    ensures Ordered(b'.bids, b'.asks) && Placed(b') == Placed(b)
  {
    hide Pruned, Depth, Filled;
    PrunedOrSame(b.bids, b'.bids, p);
    PrunedOrSame(b.asks, b'.asks, p);
    SubsetUncrossed(b.bids, b.asks, b'.bids, b'.asks);
  }

  lemma CancelKeeps(b: Book, id: nat)
    requires Shaped(b) && Ordered(b.bids, b.asks)
    ensures Keeps(b, CancelOrder(b, id).book, 0, 0)
  {
    var b' := CancelOrder(b, id).book;
    hide CancelOrder, Pruned, Placed;
    var p := CancelPrunes(b, id);
    PruningKeeps(b, b', p);
    if BothPositive(b) { CancelPositive(b, id); }
  }

  // ----- Whole histories -----

  /** The quantity an operation brought into the book. */
  function Brought(op: Op, e: Event): nat {
    if op.Add? && e.Allocated? then op.qty else 0
  }

  /** How often an operation wraps a level's total. */
  function WrapsOf(b: Book, op: Op): nat {
    if op.Add? && !op.kind.Cancel? && b.free != [] then SettleWraps(b, op.side, op.price, op.qty) else 0
  }

  lemma AddKeeps(b: Book, side: Side, p: int, q: nat, kind: OrderType)
    requires Shaped(b) && Ordered(b.bids, b.asks) && b.free != [] && !kind.Cancel?
    requires Apply(b, Add(side, p, q, kind)).Done?
    ensures Keeps(b, Apply(b, Add(side, p, q, kind)).book, q, SettleWraps(b, side, p, q))
  {
    AddSettles(b, side, p, q, kind);
    var b' := Apply(b, Add(side, p, q, kind)).book;
    hide Apply;
    SettledKeeps(b, b', side, p, q);
    if BothPositive(b) && SettleWraps(b, side, p, q) == 0 {
      SettledPositiveIff(b, b', side, p, q);
      if RestEmpties(OwnLadder(b, side), p, SweepFor(b, side, p, q).left) {
        NoWrapNoEmpty(OwnLadder(b, side), p, SweepFor(b, side, p, q).left);
      }
    }
  }

  lemma AddAllocates(b: Book, op: Op)
    requires Shaped(b) && b.free != [] && op.Add? && !op.kind.Cancel? && Apply(b, op).Done?
    ensures Apply(b, op).event.Allocated?
  {
  }

  lemma ApplyKeeps(b: Book, op: Op)
    requires Shaped(b) && Ordered(b.bids, b.asks) && Apply(b, op).Done?
    ensures var Done(b', e) := Apply(b, op); Keeps(b, b', Brought(op, e), WrapsOf(b, op))
  {
    hide Settle, Pruned, Depth, Filled, SettleWraps;
    match op
    case CancelById(id) =>
      CancelKeeps(b, id);
    case Add(side, price, qty, kind) =>
      if kind.Cancel? {
        CancelKeeps(b.(nextId := b.nextId + 1), price % TWO_64);
      } else if b.free != [] {
        AddAllocates(b, op);
        AddKeeps(b, side, price, qty, kind);
      }
  }

  /** How often a level's total wrapped in the course of a history. */
  function Wraps(n: nat, ops: seq<Op>): nat
    requires IsPowerOfTwo(n) && n < NO_SLOT
  {
    if ops == [] then 0
    else
      var k := |ops| - 1;
      Wraps(n, ops[..k]) + (if Run(n, ops[..k]).Ran? then WrapsOf(Run(n, ops[..k]).book, ops[k]) else 0)
  }

  function Accepted(ops: seq<Op>, es: seq<Event>): nat
    requires |es| == |ops|
  {
    if ops == [] then 0
    else Accepted(ops[..|ops| - 1], es[..|ops| - 1]) + Brought(ops[|ops| - 1], es[|ops| - 1])
  }

  /**
   Over every history that returns, both ladders are strictly sorted and every bid is below every
   ask. The quantity accepted is the depth of both sides plus twice the reported fills, plus 2^64
   for every time a level's total wrapped; while none did, every level is positive.
   */
  lemma {:induction false} HistoryKeeps(n: nat, ops: seq<Op>)
    requires IsPowerOfTwo(n) && n < NO_SLOT && Run(n, ops).Ran?
    ensures var Ran(b, es) := Run(n, ops);
            && Ordered(b.bids, b.asks)
            && Placed(b) + TWO_64 * Wraps(n, ops) == Accepted(ops, es)
            && (Wraps(n, ops) == 0 ==> BothPositive(b))
  {
    if ops == [] {
    } else {
      var k := |ops| - 1;
      HistoryKeeps(n, ops[..k]);
      var Ran(b, es) := Run(n, ops[..k]);
      ApplyKeeps(b, ops[k]);
      assert Run(n, ops).events[..k] == es;
    }
  }

  /** Quantity is conserved exactly when no level's total wrapped. */
  lemma ConservedIffNothingWraps(n: nat, ops: seq<Op>)
    requires IsPowerOfTwo(n) && n < NO_SLOT && Run(n, ops).Ran?
    ensures var Ran(b, es) := Run(n, ops); Placed(b) == Accepted(ops, es) <==> Wraps(n, ops) == 0
  {
    HistoryKeeps(n, ops);
  }

  function Offered(ops: seq<Op>): nat {
    if ops == [] then 0
    else Offered(ops[..|ops| - 1]) + (if ops[|ops| - 1].Add? then ops[|ops| - 1].qty else 0)
  }

  lemma {:induction false} AcceptedIsOffered(ops: seq<Op>, es: seq<Event>)
    requires |es| == |ops|
    ensures Accepted(ops, es) <= Offered(ops)
  {
    if ops == [] {
    } else {
      AcceptedIsOffered(ops[..|ops| - 1], es[..|ops| - 1]);
    }
  }

  /** Nothing wraps while the quantities offered add up to less than 2^64. */
  lemma SmallHistoriesNeverWrap(n: nat, ops: seq<Op>)
    requires IsPowerOfTwo(n) && n < NO_SLOT && Run(n, ops).Ran? && Offered(ops) < TWO_64
    ensures Wraps(n, ops) == 0
  {
    HistoryKeeps(n, ops);
    AcceptedIsOffered(ops, Run(n, ops).events);
  }

  /** `spread_ticks` over the value: None stands for the INT64_MAX of an empty side. */
  function Spread(b: Book): Option<int> {
    if b.bids == [] || b.asks == [] then None else Some(b.asks[0].price - b.bids[|b.bids| - 1].price)
  }

  /** The spread exists exactly when both sides do, and is the smallest gap between a bid and an ask. */
  ghost predicate IsTightest(r: Option<int>, bids: seq<Level>, asks: seq<Level>) {
    && (r.Some? <==> bids != [] && asks != [])
    && (r.Some? ==>
          && (forall i, j :: 0 <= i < |bids| && 0 <= j < |asks| ==> r.value <= asks[j].price - bids[i].price)
          && (exists i, j :: 0 <= i < |bids| && 0 <= j < |asks| && r.value == asks[j].price - bids[i].price))
  }

  lemma SpreadIsTightest(b: Book)
    requires Sorted(b.bids) && Sorted(b.asks)
    ensures IsTightest(Spread(b), b.bids, b.asks)
  {
    if b.bids != [] && b.asks != [] {
      var top := |b.bids| - 1;
      forall i, j | 0 <= i < |b.bids| && 0 <= j < |b.asks|
        ensures b.asks[0].price - b.bids[top].price <= b.asks[j].price - b.bids[i].price
      {
        assert b.asks[0].price <= b.asks[j].price && b.bids[i].price <= b.bids[top].price;
      }
      assert Spread(b).value == b.asks[0].price - b.bids[top].price;
    }
  }

  /** Over every history the spread is at least one tick whenever both sides exist. */
  lemma SpreadIsPositive(n: nat, ops: seq<Op>)
    requires IsPowerOfTwo(n) && n < NO_SLOT && Run(n, ops).Ran?
    ensures var b := Run(n, ops).book; Spread(b).Some? ==> Spread(b).value >= 1
  {
    HistoryKeeps(n, ops);
  }

  /**
   No cancel reports a fill. After every history it changes a ladder exactly when the level of its
   order is empty, which no level is while nothing has wrapped.
   */
  lemma CancelChangesNoLadder(n: nat, ops: seq<Op>, id: nat)
    requires IsPowerOfTwo(n) && n < NO_SLOT && Run(n, ops).Ran?
    ensures var b := Run(n, ops).book;
            var b' := CancelOrder(b, id).book;
            && b'.fills == b.fills
            && (b'.bids != b.bids || b'.asks != b.asks <==> CancelsEmptyLevel(b, id))
            && (Wraps(n, ops) == 0 ==> !CancelsEmptyLevel(b, id))
  {
    HistoryKeeps(n, ops);
    CancelChangesLadderIff(Run(n, ops).book, id);
  }
}
