/** Two books that show the same market go on showing the same market, so a split stays invisible. */
module BookTwins {
  import opened Bits
  import opened Options
  import opened PriceLadder
  import opened Matching
  import opened BookModel
  import opened BookSafety
  import opened BookSplit

  /** The same prices with the same totals on both sides. */
  ghost predicate Twins(b: Book, c: Book) {
    SameDepths(b.bids, c.bids) && SameDepths(b.asks, c.asks)
  }

  lemma TailsAlike(ls: seq<Level>, ms: seq<Level>)
    requires SameDepths(ls, ms) && ls != []
    ensures SameDepths(ls[1..], ms[1..])
  {
  }

  lemma FrontsAlike(l: Level, m: Level, a: nat, ls: seq<Level>, ms: seq<Level>)
    requires l.price == m.price && l.total == m.total && a <= l.total && SameDepths(ls, ms)
    ensures SameDepths(Rest(l, a) + ls, Rest(m, a) + ms)
  {
  }

  /** Sweeps of ladders that show the same do the same. */
  ghost predicate SweepsAlike(s: Sweep, t: Sweep) {
    s.fills == t.fills && s.left == t.left && SameDepths(s.levels, t.levels)
  }

  lemma {:induction false} HaltsAlike(ls: seq<Level>, ms: seq<Level>, q: nat, limit: int)
    requires SameDepths(ls, ms)
    ensures BuyHalts(ls, q, limit) <==> BuyHalts(ms, q, limit)
    decreases |ls|
  {
    if ls == [] {
    } else {
      TailsAlike(ls, ms);
      if ls[0].total < TWO_32 && q > Truncated(ls[0].total) {
        HaltsAlike(ls[1..], ms[1..], q - ls[0].total, limit);
      }
    }
  }

  lemma {:induction false} BuysAlike(ls: seq<Level>, ms: seq<Level>, q: nat, limit: int)
    requires SameDepths(ls, ms) && BuyHalts(ls, q, limit) && BuyHalts(ms, q, limit)
    ensures SweepsAlike(BuySweep(ls, q, limit), BuySweep(ms, q, limit))
    decreases |ls|
  {
    if q == 0 || ls == [] || ls[0].price > limit {
    } else {
      TailsAlike(ls, ms);
      if q <= Truncated(ls[0].total) {
        SweepInFront(ls, q, limit);
        SweepInFront(ms, q, limit);
        FrontsAlike(ls[0], ms[0], q, ls[1..], ms[1..]);
      } else {
        SweepPastFront(ls, q, limit);
        SweepPastFront(ms, q, limit);
        BuysAlike(ls[1..], ms[1..], q - ls[0].total, limit);
      }
    }
  }

  lemma MirrorsAlike(ls: seq<Level>, ms: seq<Level>)
    requires SameDepths(ls, ms)
    ensures SameDepths(Mirror(ls), Mirror(ms))
  {
    hide Mirror;
    MirrorAt(ls);
    MirrorAt(ms);
    forall i | 0 <= i < |ls|
      ensures Mirror(ls)[i].price == Mirror(ms)[i].price && Mirror(ls)[i].total == Mirror(ms)[i].total
    {
      assert Mirror(ls)[i] == Flip(ls[|ls| - 1 - i]) && Mirror(ms)[i] == Flip(ms[|ms| - 1 - i]);
    }
  }

  lemma SellsAlike(ls: seq<Level>, ms: seq<Level>, q: nat, limit: int)
    requires SameDepths(ls, ms)
    ensures SellHalts(ls, q, limit) <==> SellHalts(ms, q, limit)
    ensures SellHalts(ls, q, limit) ==> SweepsAlike(SellSweep(ls, q, limit), SellSweep(ms, q, limit))
  {
    hide Mirror, BuyHalts, BuySweep, SameDepths;
    MirrorsAlike(ls, ms);
    HaltsAlike(Mirror(ls), Mirror(ms), q, -limit);
    if SellHalts(ls, q, limit) {
      BuysAlike(Mirror(ls), Mirror(ms), q, -limit);
      MirrorsAlike(BuySweep(Mirror(ls), q, -limit).levels, BuySweep(Mirror(ms), q, -limit).levels);
    }
  }

  lemma BoundsAlike(ls: seq<Level>, ms: seq<Level>, p: int)
    requires SameDepths(ls, ms)
    ensures LowerBound(ls, p) == LowerBound(ms, p)
  {
    LowerBoundUnique(ms, p, LowerBound(ls, p));
  }

  lemma RestsAlike(ls: seq<Level>, ms: seq<Level>, p: int, q: nat)
    requires SameDepths(ls, ms)
    ensures SameDepths(Rested(ls, p, q), Rested(ms, p, q))
  {
    hide LowerBound;
    BoundsAlike(ls, ms, p);
  }

  /** The two runs report the same fills from here on. */
  ghost predicate SameNews(b: Book, b': Book, c: Book, c': Book) {
    b.fills <= b'.fills && c.fills <= c'.fills && b'.fills[|b.fills|..] == c'.fills[|c.fills|..]
  }

  lemma AppendedNews(b: Book, b': Book, c: Book, c': Book, news: seq<Fill>)
    requires b'.fills == b.fills + news && c'.fills == c.fills + news
    ensures SameNews(b, b', c, c')
  {
    assert (b.fills + news)[|b.fills|..] == news && (c.fills + news)[|c.fills|..] == news;
  }

  lemma SettlesAlike(b: Book, b': Book, c: Book, c': Book, side: Side, p: int, q: nat)
    requires Twins(b, c) && Settled(b, b', side, p, q) && Settled(c, c', side, p, q)
    ensures Twins(b', c') && SameNews(b, b', c, c')
  {
    hide BuySweep, SellSweep, BuyHalts, SellHalts, Rested, SameDepths;
    var s, t := SweepFor(b, side, p, q), SweepFor(c, side, p, q);
    if side.Buy? {
      BuysAlike(b.asks, c.asks, q, p);
      RestsAlike(b.bids, c.bids, p, s.left);
    } else {
      SellsAlike(b.bids, c.bids, q, p);
      RestsAlike(b.asks, c.asks, p, s.left);
    }
    AppendedNews(b, b', c, c', s.fills);
  }

  lemma ReturnsAlike(b: Book, c: Book, side: Side, p: int, q: nat)
    requires Twins(b, c)
    ensures Returns(b, side, p, q) <==> Returns(c, side, p, q)
  {
    hide BuyHalts, SameDepths;
    if side.Buy? { HaltsAlike(b.asks, c.asks, q, p); } else { SellsAlike(b.bids, c.bids, q, p); }
  }

  lemma AddsAlike(b: Book, c: Book, side: Side, p: int, q: nat, kind: OrderType)
    requires Shaped(b) && Shaped(c) && Twins(b, c) && b.free != [] && c.free != [] && !kind.Cancel?
    ensures var r, t := Apply(b, Add(side, p, q, kind)), Apply(c, Add(side, p, q, kind));
            (r.Done? <==> t.Done?) && (r.Done? ==> Twins(r.book, t.book) && SameNews(b, r.book, c, t.book))
  {
    AddSettles(b, side, p, q, kind);
    AddSettles(c, side, p, q, kind);
    var r, t := Apply(b, Add(side, p, q, kind)), Apply(c, Add(side, p, q, kind));
    hide Apply, Returns, Settled, Twins, SameNews;
    ReturnsAlike(b, c, side, p, q);
    if r.Done? { SettlesAlike(b, r.book, c, t.book, side, p, q); }
  }

  /** The call is an add that finds a slot, or a cancel that does not meet an empty level of its order. */
  ghost predicate Serves(b: Book, op: Op)
    requires Shaped(b)
  {
    match op
    case CancelById(id) => !CancelsEmptyLevel(b, id)
    case Add(_, price, _, kind) => if kind.Cancel? then !CancelsEmptyLevel(b, price % TWO_64) else b.free != []
  }

  lemma CancelsAlike(b: Book, c: Book, id: nat)
    requires Shaped(b) && Shaped(c) && Sorted(b.bids) && Sorted(b.asks) && Sorted(c.bids) && Sorted(c.asks)
    requires Twins(b, c) && !CancelsEmptyLevel(b, id) && !CancelsEmptyLevel(c, id)
    ensures CancelOrder(b, id).Done? && CancelOrder(c, id).Done?
    ensures var b', c' := CancelOrder(b, id).book, CancelOrder(c, id).book; Twins(b', c') && SameNews(b, b', c, c')
  {
    CancelChangesLadderIff(b, id);
    CancelChangesLadderIff(c, id);
    var b', c' := CancelOrder(b, id).book, CancelOrder(c, id).book;
    hide CancelOrder, CancelsEmptyLevel;
    assert b.fills + [] == b.fills && c.fills + [] == c.fills;
    AppendedNews(b, b', c, c', []);
  }

  lemma SameCancel(b: Book, b1: Book, id: nat)
    requires Shaped(b) && b1 == b.(nextId := b.nextId + 1)
    ensures Shaped(b1) && (CancelsEmptyLevel(b1, id) <==> CancelsEmptyLevel(b, id)) && CancelOrder(b1, id).Done?
  {
  }

  /** One call on both books. */
  lemma CallsAlike(b: Book, c: Book, op: Op)
    requires Shaped(b) && Shaped(c) && Ordered(b.bids, b.asks) && Ordered(c.bids, c.asks)
    requires Twins(b, c) && Serves(b, op) && Serves(c, op)
    ensures var r, t := Apply(b, op), Apply(c, op);
            (r.Done? <==> t.Done?) && (r.Done? ==> Twins(r.book, t.book) && SameNews(b, r.book, c, t.book))
  {
    hide Settle, CancelOrder, CancelsEmptyLevel, Sorted, Uncrossed, SameDepths;
    match op
    case CancelById(id) => CancelsAlike(b, c, id);
    case Add(side, p, q, kind) =>
      if kind.Cancel? {
        var b1, c1 := b.(nextId := b.nextId + 1), c.(nextId := c.nextId + 1);
        SameCancel(b, b1, p % TWO_64);
        SameCancel(c, c1, p % TWO_64);
        CancelsAlike(b1, c1, p % TWO_64);
      } else {
        AddsAlike(b, c, side, p, q, kind);
      }
  }

  // ----- Whole histories -----

  /** The book a list of calls leads to from `b`, unless one of them never returns. */
  function Later(b: Book, ops: seq<Op>): (r: Option<Book>)
    requires Shaped(b)
    ensures r.Some? ==> Shaped(r.value)
    decreases |ops|
  {
    if ops == [] then Some(b)
    else
      match Apply(b, ops[0])
      case Spins => None
      case Done(b', _) => ApplyKeepsShape(b, ops[0]); Later(b', ops[1..])
  }

  /** Every call meets a free slot or, for a cancel, no empty level. */
  ghost predicate ServesAll(b: Book, ops: seq<Op>)
    requires Shaped(b)
    decreases |ops|
  {
    ops != [] ==>
      && Serves(b, ops[0])
      && (Apply(b, ops[0]).Done? ==> (ApplyKeepsShape(b, ops[0]); ServesAll(Apply(b, ops[0]).book, ops[1..])))
  }

  lemma NewsOfTwo(a: seq<Fill>, a1: seq<Fill>, a2: seq<Fill>)
    requires a <= a1 <= a2
    ensures a <= a2 && a2[|a|..] == a1[|a|..] + a2[|a1|..]
  {
  }

  lemma NewsAdds(b: Book, b1: Book, b2: Book, c: Book, c1: Book, c2: Book)
    requires SameNews(b, b1, c, c1) && SameNews(b1, b2, c1, c2)
    ensures SameNews(b, b2, c, c2)
  {
    NewsOfTwo(b.fills, b1.fills, b2.fills);
    NewsOfTwo(c.fills, c1.fills, c2.fills);
  }

  /** Whatever comes after, two such books both return or both spin, report the same fills, and stay such books. */
  lemma {:induction false} TwinsStay(b: Book, c: Book, ops: seq<Op>)
    requires Shaped(b) && Shaped(c) && Ordered(b.bids, b.asks) && Ordered(c.bids, c.asks)
    requires Twins(b, c) && ServesAll(b, ops) && ServesAll(c, ops)
    ensures Later(b, ops).Some? <==> Later(c, ops).Some?
    ensures Later(b, ops).Some? ==>
              var b', c' := Later(b, ops).value, Later(c, ops).value; Twins(b', c') && SameNews(b, b', c, c')
    decreases |ops|
  {
    if ops == [] {
    } else {
      CallsAlike(b, c, ops[0]);
      var r, t := Apply(b, ops[0]), Apply(c, ops[0]);
      if r.Done? {
        ApplyKeepsShape(b, ops[0]);
        ApplyKeepsShape(c, ops[0]);
        ApplyKeeps(b, ops[0]);
        ApplyKeeps(c, ops[0]);
        hide Apply, Twins, SameNews, Serves;
        TwinsStay(r.book, t.book, ops[1..]);
        if Later(b, ops).Some? {
          NewsAdds(b, r.book, Later(b, ops).value, c, t.book, Later(c, ops).value);
        }
      }
    }
  }

  lemma MarketPlusNews(b: Book, split: Book, split': Book, whole: Book, whole': Book)
    requires SameMarket(b, split, whole) && Twins(split', whole') && SameNews(split, split', whole, whole')
    ensures SameMarket(b, split', whole')
  {
    var n, m := |b.fills|, split'.fills[|split.fills|..];
    assert split'.fills == split.fills + m && whole'.fills == whole.fills + m;
    assert split'.fills[n..] == split.fills[n..] + m && whole'.fills[n..] == whole.fills[n..] + m;
    forall p ensures FilledAt(split'.fills[n..], p) == FilledAt(whole'.fills[n..], p) {
      FilledAtAppends(split.fills[n..], m, p);
      FilledAtAppends(whole.fills[n..], m, p);
    }
  }

  /**
   A split stays invisible: however the two books go on, as long as adds find slots and cancels meet
   no empty level in both, they return together and show the same prices, totals and trades per price.
   */
  lemma SplitStaysInvisible(b: Book, side: Side, p: int, q: nat, r: nat, kind: OrderType, ops: seq<Op>)
    requires Shaped(b) && |b.free| >= 2 && !kind.Cancel? && Ordered(b.bids, b.asks) && q + r < TWO_32
    requires Apply(b, Add(side, p, q + r, kind)).Done?
    requires var first := Apply(b, Add(side, p, q, kind));
             && first.Done? && Shaped(first.book)
             && var split, whole := Apply(first.book, Add(side, p, r, kind)), Apply(b, Add(side, p, q + r, kind));
                && split.Done? && Shaped(split.book) && Shaped(whole.book)
                && ServesAll(split.book, ops) && ServesAll(whole.book, ops)
    ensures var split := Apply(Apply(b, Add(side, p, q, kind)).book, Add(side, p, r, kind)).book;
            var whole := Apply(b, Add(side, p, q + r, kind)).book;
            && (Later(split, ops).Some? <==> Later(whole, ops).Some?)
            && (Later(split, ops).Some? ==> SameMarket(b, Later(split, ops).value, Later(whole, ops).value))
  {
    SplitIsInvisible(b, side, p, q, r, kind);
    var first := Apply(b, Add(side, p, q, kind)).book;
    var split, whole := Apply(first, Add(side, p, r, kind)).book, Apply(b, Add(side, p, q + r, kind)).book;
    ApplyKeeps(b, Add(side, p, q, kind));
    ApplyKeeps(first, Add(side, p, r, kind));
    ApplyKeeps(b, Add(side, p, q + r, kind));
    hide Apply, Later, ServesAll;
    TwinsStay(split, whole, ops);
    if Later(split, ops).Some? {
      MarketPlusNews(b, split, Later(split, ops).value, whole, Later(whole, ops).value);
    }
  }
}
