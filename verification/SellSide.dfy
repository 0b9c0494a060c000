/** What buying achieves, carried over to selling through the mirror. */
module SellSide {
  import opened Bits
  import opened Options
  import opened PriceLadder
  import opened Matching

  lemma {:induction false} DepthAppends(a: seq<Level>, b: seq<Level>)
    ensures Depth(a + b) == Depth(a) + Depth(b)
  {
    if a == [] {
      assert a + b == b;
    } else {
      DepthAppends(a[1..], b);
      assert (a + b)[1..] == a[1..] + b;
    }
  }

  lemma {:induction false} DepthMirrored(ls: seq<Level>)
    ensures Depth(Mirror(ls)) == Depth(ls)
  {
    if ls == [] {
    } else {
      assert ls == [ls[0]] + ls[1..];
      MirrorBack(ls[0], ls[1..]);
      DepthMirrored(ls[1..]);
      DepthAppends(Mirror(ls[1..]), [Flip(ls[0])]);
    }
  }

  /** The resting quantity at `limit` or better for a seller. */
  function DepthAbove(ls: seq<Level>, limit: int): nat {
    if ls == [] then 0 else (if ls[0].price >= limit then ls[0].total else 0) + DepthAbove(ls[1..], limit)
  }

  lemma {:induction false} DepthWithinAppends(a: seq<Level>, b: seq<Level>, limit: int)
    ensures DepthWithin(a + b, limit) == DepthWithin(a, limit) + DepthWithin(b, limit)
  {
    if a == [] {
      assert a + b == b;
    } else {
      DepthWithinAppends(a[1..], b, limit);
      assert (a + b)[1..] == a[1..] + b;
    }
  }

  lemma {:induction false} DepthAboveMirrored(ls: seq<Level>, limit: int)
    ensures DepthWithin(Mirror(ls), -limit) == DepthAbove(ls, limit)
  {
    if ls == [] {
    } else {
      assert ls == [ls[0]] + ls[1..];
      MirrorBack(ls[0], ls[1..]);
      DepthAboveMirrored(ls[1..], limit);
      DepthWithinAppends(Mirror(ls[1..]), [Flip(ls[0])], -limit);
    }
  }

  lemma {:induction false} FilledFlipped(fs: seq<Fill>)
    ensures Filled(FlipFills(fs)) == Filled(fs) && Cost(FlipFills(fs)) == -Cost(fs)
  {
    if fs == [] {
    } else {
      FilledFlipped(fs[1..]);
      NegatedTimes(fs[0].price, fs[0].qty);
    }
  }

  lemma {:induction false} FilledAtFlipped(fs: seq<Fill>, p: int)
    ensures FilledAt(FlipFills(fs), p) == FilledAt(fs, -p)
  {
    if fs == [] {
    } else {
      FilledAtFlipped(fs[1..], p);
    }
  }

  lemma SellEndsWithBuy(ls: seq<Level>, m: seq<Level>, q: nat, limit: int, away: int)
    requires m == Mirror(ls) && away == -limit
    ensures (exists n: nat :: SellRun(n, ls, q, limit).Some?) <==> (exists n: nat :: BuyRun(n, m, q, away).Some?)
  {
    if n: nat :| SellRun(n, ls, q, limit).Some? {
      SellRunMirrors(n, ls, q, limit);
    }
    if n: nat :| BuyRun(n, m, q, away).Some? {
      SellRunMirrors(n, ls, q, limit);
    }
  }

  /**
   The condition on the bids: the quantity stays within the depth above any reachable bid of 2^32
   or more, plus that bid's total cut to 32 bits.
   */
  ghost predicate WideBidsOutOfReach(ls: seq<Level>, q: nat, limit: int) {
    forall k :: 0 <= k < |ls| && ls[k].price >= limit && ls[k].total >= TWO_32 ==> BidOutOfReach(ls, q, k)
  }

  ghost predicate BidOutOfReach(ls: seq<Level>, q: nat, k: nat)
    requires k < |ls|
  {
    q <= Depth(ls[k + 1..]) + Truncated(ls[k].total)
  }

  lemma DepthAboveBid(ls: seq<Level>, k: nat)
    requires k < |ls|
    ensures |Mirror(ls)| == |ls| && Mirror(ls)[|ls| - 1 - k] == Flip(ls[k])
    ensures Depth(Mirror(ls)[..|ls| - 1 - k]) == Depth(ls[k + 1..])
  {
    hide Mirror, Depth;
    MirrorAt(ls);
    MirrorAt(ls[k + 1..]);
    assert Mirror(ls)[..|ls| - 1 - k] == Mirror(ls[k + 1..]);
    DepthMirrored(ls[k + 1..]);
  }

  lemma BidsOutOfReach(ls: seq<Level>, q: nat, limit: int)
    ensures WideLevelsOutOfReach(Mirror(ls), q, -limit) <==> WideBidsOutOfReach(ls, q, limit)
  {
    hide Mirror, Depth, Truncated;
    var m := Mirror(ls);
    MirrorAt(ls);
    if WideLevelsOutOfReach(m, q, -limit) {
      forall k | 0 <= k < |ls| && ls[k].price >= limit && ls[k].total >= TWO_32 ensures BidOutOfReach(ls, q, k) {
        DepthAboveBid(ls, k);
      }
    }
    if WideBidsOutOfReach(ls, q, limit) {
      forall j | 0 <= j < |m| && m[j].price <= -limit && m[j].total >= TWO_32
        ensures q <= Depth(m[..j]) + Truncated(m[j].total)
      {
        DepthAboveBid(ls, |ls| - 1 - j);
        assert BidOutOfReach(ls, q, |ls| - 1 - j);
      }
    }
  }

  /** The sell loop ends exactly when no level of 2^32 or more stands in its way. */
  lemma SellLoopEndsIff(ls: seq<Level>, q: nat, limit: int)
    requires Sorted(ls)
    ensures (exists n: nat :: SellRun(n, ls, q, limit).Some?) <==> WideBidsOutOfReach(ls, q, limit)
  {
    hide Mirror, SellRun, BuyRun;
    MirrorSorted(ls);
    BidsOutOfReach(ls, q, limit);
    SellEndsWithBuy(ls, Mirror(ls), q, limit, -limit);
    BuyLoopEndsIff(Mirror(ls), q, -limit);
  }

  /** When it ends it computes the sell sweep, in as many turns as there are crossable levels at most. */
  lemma SellRunIsSweep(n: nat, ls: seq<Level>, q: nat, limit: int)
    requires SellHalts(ls, q, limit) && n >= Crossable(Mirror(ls), -limit)
    ensures SellRun(n, ls, q, limit) == Some(SellSweep(ls, q, limit))
  {
    SellRunMirrors(n, ls, q, limit);
    EndsWithinCrossable(n, Mirror(ls), q, -limit);
  }

  /** A sell sweep fills the smaller of what is offered and what is bid at the limit or better. */
  lemma SellFills(ls: seq<Level>, q: nat, limit: int)
    requires Sorted(ls) && SellHalts(ls, q, limit)
    ensures var s := SellSweep(ls, q, limit);
            && Filled(s.fills) == Min(q, DepthAbove(ls, limit))
            && s.left == q - Filled(s.fills)
            && Depth(s.levels) + Filled(s.fills) == Depth(ls)
            && (s.left > 0 ==> s.levels == [] || s.levels[|s.levels| - 1].price < limit)
  {
    MirrorSorted(ls);
    SweepFills(Mirror(ls), q, -limit);
    var t := BuySweep(Mirror(ls), q, -limit);
    FilledFlipped(t.fills);
    DepthMirrored(ls);
    DepthMirrored(t.levels);
    DepthAboveMirrored(ls, limit);
    MirrorAt(t.levels);
  }

  /** It keeps the ladder sorted and positive, and its fill prices fall away from the best. */
  ghost predicate SellOrdered(ls: seq<Level>, limit: int, s: Sweep) {
    && Sorted(s.levels)
    && (Positive(ls) ==> Positive(s.levels))
    && (forall i :: 0 <= i < |s.levels| && ls != [] ==> s.levels[i].price <= ls[|ls| - 1].price)
    && (forall i, j :: 0 <= i < j < |s.fills| ==> s.fills[i].price > s.fills[j].price)
    && (forall i :: 0 <= i < |s.fills| ==> s.fills[i].price >= limit)
  }

  lemma MirrorPositive(ls: seq<Level>)
    ensures Positive(Mirror(ls)) <==> Positive(ls)
  {
    MirrorAt(ls);
    if Positive(Mirror(ls)) {
      forall i | 0 <= i < |ls| ensures ls[i].total > 0 { assert Mirror(ls)[|ls| - 1 - i].total > 0; }
    }
  }

  lemma MirrorBelow(ls: seq<Level>, p: int)
    requires forall i :: 0 <= i < |ls| ==> ls[i].price >= -p
    ensures forall i :: 0 <= i < |Mirror(ls)| ==> Mirror(ls)[i].price <= p
  {
    MirrorAt(ls);
  }

  lemma PositiveFlips(ls: seq<Level>, levels: seq<Level>)
    requires Positive(Mirror(ls)) ==> Positive(levels)
    ensures Positive(ls) ==> Positive(Mirror(levels))
  {
    MirrorPositive(ls);
    MirrorPositive(levels);
  }

  lemma BoundFlips(ls: seq<Level>, first: Level, levels: seq<Level>)
    requires ls != [] && first == Flip(ls[|ls| - 1]) && forall i :: 0 <= i < |levels| ==> levels[i].price >= first.price
    ensures forall i :: 0 <= i < |Mirror(levels)| ==> Mirror(levels)[i].price <= ls[|ls| - 1].price
  {
    MirrorBelow(levels, ls[|ls| - 1].price);
  }

  lemma MirrorFirst(ls: seq<Level>)
    requires ls != []
    ensures Mirror(ls) != [] && Mirror(ls)[0] == Flip(ls[|ls| - 1])
  {
    MirrorFront(ls);
  }

  lemma FillsFlip(fs: seq<Fill>, limit: int)
    requires forall i, j :: 0 <= i < j < |fs| ==> fs[i].price < fs[j].price
    requires forall i :: 0 <= i < |fs| ==> fs[i].price <= -limit
    ensures forall i, j :: 0 <= i < j < |FlipFills(fs)| ==> FlipFills(fs)[i].price > FlipFills(fs)[j].price
    ensures forall i :: 0 <= i < |FlipFills(fs)| ==> FlipFills(fs)[i].price >= limit
  {
    FlipFillsAt(fs);
  }

  lemma LevelsFlip(ls: seq<Level>, m: seq<Level>, t: Sweep)
    requires m == Mirror(ls) && SweepOrdered(m, t)
    ensures Sorted(Mirror(t.levels)) && (Positive(ls) ==> Positive(Mirror(t.levels)))
    ensures ls != [] ==> forall i :: 0 <= i < |Mirror(t.levels)| ==> Mirror(t.levels)[i].price <= ls[|ls| - 1].price
  {
    MirrorSorted(t.levels);
    PositiveFlips(ls, t.levels);
    if ls != [] {
      MirrorFirst(ls);
      BoundFlips(ls, m[0], t.levels);
    }
  }

  lemma OrderFlips(ls: seq<Level>, m: seq<Level>, limit: int, t: Sweep)
    requires m == Mirror(ls) && SweepOrdered(m, t) && SweepShape(m, -limit, t)
    ensures SellOrdered(ls, limit, FlipSweep(t))
  {
    LevelsFlip(ls, m, t);
    FillsFlip(t.fills, limit);
  }

  lemma SellKeepsOrder(ls: seq<Level>, q: nat, limit: int)
    requires Sorted(ls) && SellHalts(ls, q, limit)
    ensures SellOrdered(ls, limit, SellSweep(ls, q, limit))
  {
    hide Mirror, BuySweep, BuyHalts, SellOrdered, SweepOrdered, SweepShape, Sorted, FlipSweep;
    MirrorSorted(ls);
    SweepHasShape(Mirror(ls), q, -limit);
    SweepKeepsOrder(Mirror(ls), q, -limit);
    OrderFlips(ls, Mirror(ls), limit, BuySweep(Mirror(ls), q, -limit));
  }

  /**
   Fill `i` is at the price of the i-th bid from the back, within the limit, and only the last may
   leave some of it.
   */
  ghost predicate FillsFromBack(ls: seq<Level>, limit: int, fs: seq<Fill>, i: nat)
    requires i < |fs| <= |ls|
  {
    var l := ls[|ls| - 1 - i];
    fs[i].price == l.price >= limit && fs[i].qty <= l.total && (i < |fs| - 1 ==> fs[i].qty == l.total)
  }

  /** The fills leave some of the last level they touch. */
  ghost predicate LeavesPart(ls: seq<Level>, fs: seq<Fill>)
    requires |fs| <= |ls|
  {
    |fs| > 0 && fs[|fs| - 1].qty < ls[|ls| - |fs|].total
  }

  /**
   The fills go through the bids in order from the back, each at its level's price and within the
   limit; every level but the last one touched is used up, and the rest is as it was.
   */
  ghost predicate SellShape(ls: seq<Level>, limit: int, s: Sweep) {
    var n := |s.fills|;
    && n <= |ls|
    && (forall i :: 0 <= i < n ==> FillsFromBack(ls, limit, s.fills, i))
    && s.levels == ls[..|ls| - n] +
                   (if LeavesPart(ls, s.fills) then [Reduced(ls[|ls| - n], s.fills[n - 1].qty)] else [])
    && (LeavesPart(ls, s.fills) ==> s.left == 0)
  }

  lemma MirrorDrops(ls: seq<Level>, n: nat)
    requires n <= |ls|
    ensures |Mirror(ls)| == |ls| && Mirror(Mirror(ls)[n..]) == ls[..|ls| - n]
  {
    hide Mirror;
    MirrorAt(ls);
    MirrorAt(Mirror(ls)[n..]);
  }

  lemma LevelsOfMirror(ls: seq<Level>, n: nat, f: nat)
    requires 0 < n <= |ls| && f <= ls[|ls| - n].total
    ensures |Mirror(ls)| == |ls| && Mirror(ls)[n - 1] == Flip(ls[|ls| - n])
    ensures Mirror([Reduced(Mirror(ls)[n - 1], f)] + Mirror(ls)[n..]) == ls[..|ls| - n] + [Reduced(ls[|ls| - n], f)]
  {
    hide Mirror;
    MirrorAt(ls);
    MirrorDrops(ls, n);
    MirrorBack(Reduced(Mirror(ls)[n - 1], f), Mirror(ls)[n..]);
  }

  lemma FillFlips(ls: seq<Level>, m: seq<Level>, limit: int, t: Sweep, i: nat)
    requires m == Mirror(ls) && SweepShape(m, -limit, t) && i < |t.fills|
    ensures |FlipFills(t.fills)| == |t.fills| <= |ls| == |m| && FillsFromBack(ls, limit, FlipFills(t.fills), i)
  {
    hide Mirror, FlipFills;
    MirrorAt(ls);
    FlipFillsAt(t.fills);
    assert m[i] == Flip(ls[|ls| - 1 - i]) && FlipFills(t.fills)[i] == Fill(-t.fills[i].price, t.fills[i].qty);
  }

  lemma LastFlips(ls: seq<Level>, m: seq<Level>, fs: seq<Fill>)
    requires m == Mirror(ls) && 0 < |fs| <= |m|
    ensures |m| == |ls| && |FlipFills(fs)| == |fs| && FlipFills(fs)[|fs| - 1].qty == fs[|fs| - 1].qty
    ensures m[|fs| - 1].total == ls[|ls| - |fs|].total
  {
    hide Mirror, FlipFills;
    MirrorAt(ls);
    FlipFillsAt(fs);
    assert m[|fs| - 1] == Flip(ls[|ls| - 1 - (|fs| - 1)]);
  }

  lemma LevelsFlipBack(ls: seq<Level>, m: seq<Level>, limit: int, t: Sweep)
    requires m == Mirror(ls) && SweepShape(m, -limit, t) && |FlipFills(t.fills)| == |t.fills| <= |ls| == |m|
    ensures var n := |t.fills|;
            var fs := FlipFills(t.fills);
            && Mirror(t.levels) == ls[..|ls| - n] +
                                   (if LeavesPart(ls, fs) then [Reduced(ls[|ls| - n], fs[n - 1].qty)] else [])
            && (LeavesPart(ls, fs) ==> t.left == 0)
  {
    hide Mirror, FlipFills;
    var n := |t.fills|;
    if n > 0 { LastFlips(ls, m, t.fills); }
    if LeavesPart(ls, FlipFills(t.fills)) {
      LevelsOfMirror(ls, n, t.fills[n - 1].qty);
    } else {
      MirrorDrops(ls, n);
      assert ls[..|ls| - n] + [] == ls[..|ls| - n];
    }
  }

  lemma ShapeFlips(ls: seq<Level>, m: seq<Level>, limit: int, t: Sweep)
    requires m == Mirror(ls) && SweepShape(m, -limit, t)
    ensures SellShape(ls, limit, FlipSweep(t))
  {
    FlipFillsAt(t.fills);
    MirrorAt(ls);
    hide Mirror, FlipFills, FillsFromBack, LeavesPart;
    forall i | 0 <= i < |t.fills| ensures FillsFromBack(ls, limit, FlipFills(t.fills), i) {
      FillFlips(ls, m, limit, t, i);
    }
    LevelsFlipBack(ls, m, limit, t);
  }

  lemma SellHasShape(ls: seq<Level>, q: nat, limit: int)
    requires SellHalts(ls, q, limit)
    ensures SellShape(ls, limit, SellSweep(ls, q, limit))
  {
    hide Mirror, BuySweep, BuyHalts, SellShape, SweepShape;
    SweepHasShape(Mirror(ls), q, -limit);
    ShapeFlips(ls, Mirror(ls), limit, BuySweep(Mirror(ls), q, -limit));
  }

  /** A sell changes no price and no order count of a bid it leaves, and no total but that of the highest one left. */
  lemma SellLeavesLevels(ls: seq<Level>, q: nat, limit: int)
    requires SellHalts(ls, q, limit)
    ensures var levels := SellSweep(ls, q, limit).levels;
            && |levels| <= |ls|
            && forall i :: 0 <= i < |levels| ==>
                 && levels[i].price == ls[i].price
                 && levels[i].orders == ls[i].orders
                 && (if i == |levels| - 1 then levels[i].total <= ls[i].total else levels[i].total == ls[i].total)
  {
    hide SellSweep, SellHalts, FillsFromBack;
    SellHasShape(ls, q, limit);
  }

  function Reversed(sel: seq<nat>): (r: seq<nat>)
    ensures |r| == |sel| && forall i :: 0 <= i < |sel| ==> r[i] == sel[|sel| - 1 - i]
  {
    seq(|sel|, i requires 0 <= i < |sel| => sel[|sel| - 1 - i])
  }

  lemma {:induction false} SelectionAppends(a: seq<Level>, x: seq<nat>, l: Level, k: nat)
    requires |a| == |x|
    ensures Sum(x + [k]) == Sum(x) + k && SelectionCost(a + [l], x + [k]) == SelectionCost(a, x) + l.price * k
  {
    if a == [] {
    } else {
      SelectionAppends(a[1..], x[1..], l, k);
      assert (a + [l])[1..] == a[1..] + [l] && (x + [k])[1..] == x[1..] + [k];
    }
  }

  lemma NegatedTimes(x: int, k: nat)
    ensures (-x) * k == -(x * k)
  {
  }

  lemma ReversedFirst(sel: seq<nat>)
    requires sel != []
    ensures Reversed(sel) == Reversed(sel[1..]) + [sel[0]]
  {
  }

  lemma MirrorStep(ls: seq<Level>)
    requires ls != []
    ensures |Mirror(ls)| == |ls| && Mirror(ls) == Mirror(ls[1..]) + [Flip(ls[0])]
  {
    MirrorAt(ls);
  }

  lemma {:induction false} SelectionMirrored(ls: seq<Level>, sel: seq<nat>)
    requires |sel| == |ls|
    ensures |Mirror(ls)| == |sel|
    ensures Sum(Reversed(sel)) == Sum(sel) && SelectionCost(Mirror(ls), Reversed(sel)) == -SelectionCost(ls, sel)
  {
    if ls == [] {
    } else {
      SelectionMirrored(ls[1..], sel[1..]);
      MirrorStep(ls);
      ReversedFirst(sel);
      SelectionAppends(Mirror(ls[1..]), Reversed(sel[1..]), Flip(ls[0]), sel[0]);
      NegatedTimes(ls[0].price, sel[0]);
    }
  }

  /** Of all selections of the filled quantity from the resting levels, the fills earn most. */
  lemma SellIsOptimal(ls: seq<Level>, q: nat, limit: int, sel: seq<nat>)
    requires Sorted(ls) && SellHalts(ls, q, limit)
    requires Selection(ls, sel) && Sum(sel) == Filled(SellSweep(ls, q, limit).fills)
    ensures Cost(SellSweep(ls, q, limit).fills) >= SelectionCost(ls, sel)
  {
    MirrorSorted(ls);
    SelectionMirrored(ls, sel);
    MirrorAt(ls);
    FilledFlipped(BuySweep(Mirror(ls), q, -limit).fills);
    BuyIsOptimal(Mirror(ls), q, -limit, Reversed(sel));
  }

  lemma SameFlips(whole: Sweep, first: Sweep, second: Sweep)
    requires SameAsBoth(whole, first, second)
    ensures SameAsBoth(FlipSweep(whole), FlipSweep(first), FlipSweep(second))
  {
    forall p
      ensures FilledAt(FlipFills(whole.fills), p) ==
              FilledAt(FlipFills(first.fills), p) + FilledAt(FlipFills(second.fills), p)
    {
      FilledAtFlipped(whole.fills, p);
      FilledAtFlipped(first.fills, p);
      FilledAtFlipped(second.fills, p);
    }
  }

  /** Selling `a` and then `b` does to the ladder what selling both at once does. */
  lemma SellSplits(ls: seq<Level>, a: nat, b: nat, limit: int)
    requires SellHalts(ls, a + b, limit)
    ensures SellHalts(ls, a, limit) && SellHalts(SellSweep(ls, a, limit).levels, b, limit)
    ensures var first := SellSweep(ls, a, limit);
            SameAsBoth(SellSweep(ls, a + b, limit), first, SellSweep(first.levels, b, limit))
  {
    hide Mirror, BuySweep, BuyHalts, FlipFills, SameAsBoth;
    SweepSplits(Mirror(ls), a, b, -limit);
    var first := BuySweep(Mirror(ls), a, -limit);
    MirrorTwice(first.levels);
    SameFlips(BuySweep(Mirror(ls), a + b, -limit), first, BuySweep(first.levels, b, -limit));
  }

  lemma WholeSellHalts(ls: seq<Level>, a: nat, b: nat, limit: int)
    requires SellHalts(ls, a, limit) && SellHalts(SellSweep(ls, a, limit).levels, b, limit)
    ensures SellHalts(ls, a + b, limit)
  {
    hide Mirror, BuyHalts, BuySweep;
    MirrorTwice(BuySweep(Mirror(ls), a, -limit).levels);
    WholeHalts(Mirror(ls), a, b, -limit);
  }
}
