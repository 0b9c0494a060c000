/** A history of 32-bit quantities that wraps a level's 64-bit total: cancels free slots but no depth. */
module BookWrap {
  import opened Bits
  import opened PriceLadder
  import opened BookModel
  import opened BookSafety

  const MAX_QTY: nat := TWO_32 - 1

  /** `k` times: bid the largest quantity at price `p`, and cancel that bid. */
  function Rounds(p: int, k: nat): seq<Op> {
    if k == 0 then [] else Rounds(p, k - 1) + [Add(Buy, p, MAX_QTY, Limit), CancelById(k)]
  }

  /** The history that wraps: 2^32 + 1 rounds, and then a bid of 1. */
  function WrappingHistory(p: int): seq<Op> {
    Rounds(p, TWO_32 + 1) + [Add(Buy, p, 1, Limit)]
  }

  lemma {:induction false} RoundsAre32Bit(p: int, k: nat)
    ensures forall op :: op in Rounds(p, k) && op.Add? ==> op.qty < TWO_32
  {
    if k == 0 {
    } else {
      RoundsAre32Bit(p, k - 1);
    }
  }

  function Bids(p: int, k: nat): seq<Level> {
    if k == 0 then [] else [Level(p, k * MAX_QTY, k % TWO_32)]
  }

  /** The book after `k` rounds: all the depth is still there, and all the slots are free. */
  ghost predicate AfterRounds(b: Book, p: int, k: nat) {
    Shaped(b) && |b.free| == |b.pool| - 1 && b.nextId == k + 1 && b.asks == [] && b.fills == [] && b.bids == Bids(p, k)
  }

  /** The same between the bid of the next round and its cancel. */
  ghost predicate InRound(b: Book, p: int, k: nat) {
    && Shaped(b) && |b.free| == |b.pool| - 2 && b.nextId == k + 2
    && b.asks == [] && b.fills == [] && b.bids == Bids(p, k + 1)
    && var slot := b.slotOf[Index(b, k + 1)]; slot < |b.pool| && b.pool[slot].id == k + 1 && b.pool[slot].side.Buy?
  }

  lemma BidsGrow(p: int, k: nat)
    requires k <= TWO_32
    ensures Upserted(Bids(p, k), p, MAX_QTY) == Bids(p, k + 1)
  {
    assert (k + 1) * MAX_QTY == k * MAX_QTY + MAX_QTY < TWO_64;
  }

  lemma BidStep(b: Book, p: int, k: nat)
    requires AfterRounds(b, p, k) && b.free != [] && k <= TWO_32
    ensures var r := Apply(b, Add(Buy, p, MAX_QTY, Limit));
            r.Done? && InRound(r.book, p, k) && |r.book.pool| == |b.pool|
  {
    var op := Add(Buy, p, MAX_QTY, Limit);
    NoAsks(b, p, MAX_QTY);
    BidsGrow(p, k);
    ApplyEffect(b, op);
    ApplyKeepsShape(b, op);
  }

  lemma CancelStep(b: Book, p: int, k: nat)
    requires InRound(b, p, k)
    ensures var r := Apply(b, CancelById(k + 1)); r.Done? && AfterRounds(r.book, p, k + 1) && |r.book.pool| == |b.pool|
  {
    ApplyKeepsShape(b, CancelById(k + 1));
    CancelChangesLadderIff(b, k + 1);
  }

  lemma NoRounds(n: nat, p: int)
    requires IsPowerOfTwo(n) && n < NO_SLOT
    ensures Run(n, []) == Ran(Init(n), []) && AfterRounds(Init(n), p, 0)
  {
  }

  lemma {:induction false} RoundsLeave(n: nat, p: int, k: nat)
    requires IsPowerOfTwo(n) && 2 <= n < NO_SLOT && k <= TWO_32 + 1
    ensures Run(n, Rounds(p, k)).Ran? && AfterRounds(Run(n, Rounds(p, k)).book, p, k)
  {
    hide Run, Apply, Shaped;
    if k == 0 {
      NoRounds(n, p);
    } else {
      RoundsLeave(n, p, k - 1);
      var ops, bid, cancel := Rounds(p, k - 1), Add(Buy, p, MAX_QTY, Limit), CancelById(k);
      var b := Run(n, ops).book;
      BidStep(b, p, k - 1);
      RunNext(n, ops, bid);
      CancelStep(Apply(b, bid).book, p, k - 1);
      RunNext(n, ops + [bid], cancel);
      assert ops + [bid] + [cancel] == Rounds(p, k);
    }
  }

  lemma LastBidEmpties(p: int)
    ensures var ls := Bids(p, TWO_32 + 1);
            RestWraps(ls, p, 1) == 1 && Upserted(ls, p, 1) == [Level(p, 0, 2)]
  {
    assert (TWO_32 + 1) * MAX_QTY == TWO_64 - 1;
  }

  /**
   For every price and every pool, a history of 32-bit quantities in which a level wraps: its best
   bid has no quantity left, all that was accepted is gone from the book, and nothing was traded.
   */
  lemma WrapIsReachable(n: nat, p: int)
    requires IsPowerOfTwo(n) && 2 <= n < NO_SLOT
    ensures forall op :: op in WrappingHistory(p) && op.Add? ==> op.qty < TWO_32
    ensures Run(n, WrappingHistory(p)).Ran?
    ensures var Ran(b, es) := Run(n, WrappingHistory(p));
            && b.bids == [Level(p, 0, 2)] && b.asks == [] && b.fills == []
            && Wraps(n, WrappingHistory(p)) > 0 && Placed(b) != Accepted(WrappingHistory(p), es)
  {
    var ops, last := Rounds(p, TWO_32 + 1), Add(Buy, p, 1, Limit);
    RoundsAre32Bit(p, TWO_32 + 1);
    RoundsLeave(n, p, TWO_32 + 1);
    var b := Run(n, ops).book;
    NoAsks(b, p, 1);
    LastBidEmpties(p);
    RunNext(n, ops, last);
    WrapsNext(n, ops, last);
    ConservedIffNothingWraps(n, ops + [last]);
  }

  lemma WrapsNext(n: nat, ops: seq<Op>, op: Op)
    requires IsPowerOfTwo(n) && n < NO_SLOT && Run(n, ops).Ran?
    ensures Wraps(n, ops + [op]) == Wraps(n, ops) + WrapsOf(Run(n, ops).book, op)
  {
    assert (ops + [op])[..|ops|] == ops;
  }
}
