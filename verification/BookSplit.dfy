/** Splitting an order in two is invisible in the book it leaves. */
module BookSplit {
  import opened Bits
  import opened PriceLadder
  import opened Matching
  import opened SellSide
  import opened BookModel

  /** The same prices with the same totals; how many orders stand behind a level may differ. */
  ghost predicate SameDepths(a: seq<Level>, b: seq<Level>) {
    |a| == |b| && forall i :: 0 <= i < |a| ==> a[i].price == b[i].price && a[i].total == b[i].total
  }

  /** Ladders that agree but for one level agree in depth if that level does. */
  lemma SameButOne(a: seq<Level>, l: Level, l': Level, b: seq<Level>)
    requires l.price == l'.price && l.total == l'.total
    ensures SameDepths(a + [l] + b, a + [l'] + b)
  {
  }

  /** Where `p` stands once it is there. */
  lemma UpsertedAt(ls: seq<Level>, p: int, q: nat)
    requires Sorted(ls)
    ensures LowerBound(Upserted(ls, p, q), p) == LowerBound(ls, p)
    ensures HasPriceAt(Upserted(ls, p, q), LowerBound(ls, p), p)
  {
    var k, one := LowerBound(ls, p), Upserted(ls, p, q);
    assert forall i :: 0 <= i < k ==> one[i] == ls[i];
    LowerBoundUnique(one, p, k);
  }

  lemma UpsertMiddle(a: seq<Level>, l: Level, b: seq<Level>, r: nat)
    requires LowerBound(a + [l] + b, l.price) == |a|
    ensures Upserted(a + [l] + b, l.price, r) == a + [Added(l, r)] + b
  {
    assert (a + [l] + b)[|a|] == l;
  }

  lemma UpsertTwiceAround(ls: seq<Level>, p: int, q: nat, r: nat, a: seq<Level>, one: Level, both: Level, b: seq<Level>)
    requires Sorted(ls) && Upserted(ls, p, q) == a + [one] + b && |a| == LowerBound(ls, p)
    requires one.price == p == both.price
    requires Upserted(ls, p, q + r) == a + [both] + b && Added(one, r).total == both.total
    ensures SameDepths(Upserted(Upserted(ls, p, q), p, r), Upserted(ls, p, q + r))
  {
    UpsertedAt(ls, p, q);
    UpsertMiddle(a, one, b, r);
    SameButOne(a, Added(one, r), both, b);
  }

  lemma UpsertFound(ls: seq<Level>, p: int, q: nat)
    requires HasPriceAt(ls, LowerBound(ls, p), p)
    ensures var k := LowerBound(ls, p); Upserted(ls, p, q) == ls[..k] + [Added(ls[k], q)] + ls[k + 1..]
  {
  }

  lemma UpsertNew(ls: seq<Level>, p: int, q: nat)
    requires !HasPriceAt(ls, LowerBound(ls, p), p)
    ensures var k := LowerBound(ls, p); Upserted(ls, p, q) == ls[..k] + [Level(p, q, 1)] + ls[k..]
  {
  }

  /** Resting `q` then `r` at one price gives that price the total of resting both at once. */
  lemma UpsertTwice(ls: seq<Level>, p: int, q: nat, r: nat)
    requires Sorted(ls) && q + r < TWO_64
    ensures SameDepths(Upserted(Upserted(ls, p, q), p, r), Upserted(ls, p, q + r))
  {
    var k := LowerBound(ls, p);
    hide LowerBound, Upserted, SameDepths, Sorted;
    if HasPriceAt(ls, k, p) {
      UpsertFound(ls, p, q);
      UpsertFound(ls, p, q + r);
      ModTwice(ls[k].total, q, r);
      UpsertTwiceAround(ls, p, q, r, ls[..k], Added(ls[k], q), Added(ls[k], q + r), ls[k + 1..]);
    } else {
      UpsertNew(ls, p, q);
      UpsertNew(ls, p, q + r);
      UpsertTwiceAround(ls, p, q, r, ls[..k], Level(p, q, 1), Level(p, q + r, 1), ls[k..]);
    }
  }

  lemma ModTwice(t: nat, q: nat, r: nat)
    ensures ((t + q) % TWO_64 + r) % TWO_64 == (t + (q + r)) % TWO_64
  {
  }

  /** What the two sides of a book show: depths that agree, and the same quantity traded at each price. */
  ghost predicate SameMarket(before: Book, split: Book, whole: Book) {
    && SameDepths(split.bids, whole.bids)
    && SameDepths(split.asks, whole.asks)
    && before.fills <= split.fills && before.fills <= whole.fills
    && forall p :: FilledAt(split.fills[|before.fills|..], p) == FilledAt(whole.fills[|before.fills|..], p)
  }

  lemma {:induction false} FilledAtAppends(a: seq<Fill>, b: seq<Fill>, p: int)
    ensures FilledAt(a + b, p) == FilledAt(a, p) + FilledAt(b, p)
  {
    if a == [] {
      assert a + b == b;
    } else {
      FilledAtAppends(a[1..], b, p);
      assert (a + b)[1..] == a[1..] + b;
    }
  }

  lemma FillsAgree(log: seq<Fill>, whole: Sweep, first: Sweep, second: Sweep)
    requires SameAsBoth(whole, first, second)
    ensures var split, both := log + first.fills + second.fills, log + whole.fills;
            && log <= split && log <= both
            && forall p :: FilledAt(split[|log|..], p) == FilledAt(both[|log|..], p)
  {
    var split, both := log + first.fills + second.fills, log + whole.fills;
    assert split[|log|..] == first.fills + second.fills && both[|log|..] == whole.fills;
    forall p ensures FilledAt(split[|log|..], p) == FilledAt(both[|log|..], p) {
      FilledAtAppends(first.fills, second.fills, p);
    }
  }

  /** What resting the leftovers of the two parts does, against resting the leftover of the whole. */
  lemma RestsAgree(ls: seq<Level>, p: int, q: nat, r: nat)
    requires Sorted(ls) && q + r < TWO_64
    ensures SameDepths(Rested(Rested(ls, p, q), p, r), Rested(ls, p, q + r))
  {
    if q > 0 && r > 0 {
      UpsertTwice(ls, p, q, r);
    } else {
      assert Rested(Rested(ls, p, q), p, r) == Rested(ls, p, q + r);
    }
  }

  lemma PartsReturn(b: Book, b1: Book, side: Side, p: int, q: nat, r: nat)
    requires Returns(b, side, p, q + r)
    ensures Returns(b, side, p, q)
    ensures Settled(b, b1, side, p, q) ==> Returns(b1, side, p, r)
  {
    if side.Buy? { SweepSplits(b.asks, q, r, p); } else { SellSplits(b.bids, q, r, p); }
  }

  lemma {:induction false} LeftIsLess(ls: seq<Level>, q: nat, limit: int)
    requires BuyHalts(ls, q, limit)
    ensures BuySweep(ls, q, limit).left <= q
  {
    if BuyTurn(ls, q, limit).Go? && q > Truncated(ls[0].total) { LeftIsLess(ls[1..], q - ls[0].total, limit); }
  }

  lemma SweepForSplits(b: Book, b1: Book, side: Side, p: int, q: nat, r: nat)
    requires Settled(b, b1, side, p, q) && Returns(b1, side, p, r) && Returns(b, side, p, q + r)
    ensures SameAsBoth(SweepFor(b, side, p, q + r), SweepFor(b, side, p, q), SweepFor(b1, side, p, r))
    ensures SweepFor(b, side, p, q + r).left <= q + r
  {
    if side.Buy? {
      SweepSplits(b.asks, q, r, p);
      LeftIsLess(b.asks, q + r, p);
    } else {
      SellSplits(b.bids, q, r, p);
      LeftIsLess(Mirror(b.bids), q + r, -p);
    }
  }

  /** Two settlings in a row show the market that one settling of both quantities shows. */
  lemma SettledTwice(b: Book, b1: Book, b2: Book, b3: Book, side: Side, p: int, q: nat, r: nat)
    requires Sorted(b.bids) && Sorted(b.asks) && q + r < TWO_32
    requires Settled(b, b1, side, p, q) && Settled(b1, b2, side, p, r) && Settled(b, b3, side, p, q + r)
    ensures SameMarket(b, b2, b3)
  {
    hide BuySweep, SellSweep, BuyHalts, SellHalts, Upserted;
    SweepForSplits(b, b1, side, p, q, r);
    var whole, first, second := SweepFor(b, side, p, q + r), SweepFor(b, side, p, q), SweepFor(b1, side, p, r);
    FillsAgree(b.fills, whole, first, second);
    RestsAgree(if side.Buy? then b.bids else b.asks, p, first.left, second.left);
  }

  /**
   Adding q and then r on one side at one price leaves the same prices and totals on both ladders
   as adding q + r at once, and trades the same quantity at each price. If the whole add returns,
   so do both parts.
   */
  lemma SplitIsInvisible(b: Book, side: Side, p: int, q: nat, r: nat, kind: OrderType)
    requires Shaped(b) && |b.free| >= 2 && !kind.Cancel? && Sorted(b.bids) && Sorted(b.asks) && q + r < TWO_32
    requires Apply(b, Add(side, p, q + r, kind)).Done?
    ensures Apply(b, Add(side, p, q, kind)).Done?
    ensures var b1 := Apply(b, Add(side, p, q, kind)).book;
            && Shaped(b1) && Apply(b1, Add(side, p, r, kind)).Done?
            && SameMarket(b, Apply(b1, Add(side, p, r, kind)).book, Apply(b, Add(side, p, q + r, kind)).book)
  {
    AddSettles(b, side, p, q + r, kind);
    AddSettles(b, side, p, q, kind);
    PartsReturn(b, b, side, p, q, r);
    var b1 := Apply(b, Add(side, p, q, kind)).book;
    PartsReturn(b, b1, side, p, q, r);
    AddSettles(b1, side, p, r, kind);
    SettledTwice(b, b1, Apply(b1, Add(side, p, r, kind)).book, Apply(b, Add(side, p, q + r, kind)).book, side, p, q, r);
  }

  lemma PartsReturnIff(b: Book, b1: Book, side: Side, p: int, q: nat, r: nat)
    requires Settled(b, b1, side, p, q)
    ensures Returns(b, side, p, q + r) <==> Returns(b1, side, p, r)
  {
    hide BuySweep, SellSweep, BuyHalts, SellHalts;
    if Returns(b, side, p, q + r) {
      PartsReturn(b, b1, side, p, q, r);
    }
    if Returns(b1, side, p, r) {
      if side.Buy? { WholeHalts(b.asks, q, r, p); } else { WholeSellHalts(b.bids, q, r, p); }
    }
  }

  /** The whole add returns if and only if both parts do. */
  lemma SplitReturnsIff(b: Book, side: Side, p: int, q: nat, r: nat, kind: OrderType)
    requires Shaped(b) && |b.free| >= 2 && !kind.Cancel?
    ensures var first := Apply(b, Add(side, p, q, kind));
            Apply(b, Add(side, p, q + r, kind)).Done? <==>
              first.Done? && Shaped(first.book) && Apply(first.book, Add(side, p, r, kind)).Done?
  {
    AddSettles(b, side, p, q + r, kind);
    AddSettles(b, side, p, q, kind);
    var first := Apply(b, Add(side, p, q, kind));
    if first.Done? {
      AddSettles(first.book, side, p, r, kind);
      hide Apply, Returns, Settled;
      PartsReturnIff(b, first.book, side, p, q, r);
    } else {
      hide Apply;
      if Returns(b, side, p, q + r) { PartsReturn(b, b, side, p, q, r); }
    }
  }
}
