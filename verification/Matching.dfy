/**
 The two matching loops. A buy eats the ask ladder from its front, a sell eats the bid ladder from
 its back; each turn of a loop fills against one level at that level's price, and the level's total
 is cut to 32 bits before it is compared with the quantity wanted.
 */
module Matching {
  import opened Bits
  import opened Options
  import opened PriceLadder

  datatype Fill = Fill(price: int, qty: nat)

  /** What a loop leaves: the fills it reported, the quantity it could not fill, and the ladder. */
  datatype Sweep = Sweep(fills: seq<Fill>, left: nat, levels: seq<Level>)

  datatype Turn = Stop | Go(fill: Fill, left: nat, levels: seq<Level>)

  /** `static_cast<uint32_t>(total_quantity)`. */
  function Truncated(total: nat): nat { total % TWO_32 }

  function Min(a: nat, b: nat): nat { if a <= b then a else b }

  /** A level after a fill of `f`, gone if nothing is left of it. */
  function Rest(l: Level, f: nat): seq<Level>
    requires f <= l.total
  {
    if l.total == f then [] else [Reduced(l, f)]
  }

  /** One turn of the buy loop. */
  function BuyTurn(ls: seq<Level>, q: nat, limit: int): Turn {
    if q == 0 || ls == [] || ls[0].price > limit then Stop
    else
      var f := Min(q, Truncated(ls[0].total));
      Go(Fill(ls[0].price, f), q - f, Rest(ls[0], f) + ls[1..])
  }

  /** One turn of the sell loop. */
  function SellTurn(ls: seq<Level>, q: nat, limit: int): Turn {
    if q == 0 || ls == [] || ls[|ls| - 1].price < limit then Stop
    else
      var l := ls[|ls| - 1];
      var f := Min(q, Truncated(l.total));
      Go(Fill(l.price, f), q - f, ls[..|ls| - 1] + Rest(l, f))
  }

  /** In a sorted ladder `remove_if_empty` at the front level's price removes that level if it is empty. */
  lemma FrontPruned(ls: seq<Level>, f: nat)
    requires ls != [] && f <= ls[0].total
    ensures Pruned(ls[0 := Reduced(ls[0], f)], ls[0].price) == Rest(ls[0], f) + ls[1..]
  {
    assert LowerBound(ls[0 := Reduced(ls[0], f)], ls[0].price) == 0;
  }

  /** In a sorted ladder `remove_if_empty` at the back level's price removes that level if it is empty. */
  lemma BackPruned(ls: seq<Level>, f: nat)
    requires Sorted(ls) && ls != [] && f <= ls[|ls| - 1].total
    ensures Pruned(ls[|ls| - 1 := Reduced(ls[|ls| - 1], f)], ls[|ls| - 1].price) ==
            ls[..|ls| - 1] + Rest(ls[|ls| - 1], f)
  {
    var last := |ls| - 1;
    LowerBoundUnique(ls[last := Reduced(ls[last], f)], ls[last].price, last);
  }

  /** The buy loop cut off after `n` turns: None while it has not stopped by itself. */
  function BuyRun(n: nat, ls: seq<Level>, q: nat, limit: int): Option<Sweep> {
    match BuyTurn(ls, q, limit)
    case Stop => Some(Sweep([], q, ls))
    case Go(f, q', ls') => if n == 0 then None else Prefixed(f, BuyRun(n - 1, ls', q', limit))
  }

  function SellRun(n: nat, ls: seq<Level>, q: nat, limit: int): Option<Sweep> {
    match SellTurn(ls, q, limit)
    case Stop => Some(Sweep([], q, ls))
    case Go(f, q', ls') => if n == 0 then None else Prefixed(f, SellRun(n - 1, ls', q', limit))
  }

  function Prefixed(f: Fill, s: Option<Sweep>): Option<Sweep> {
    match s
    case None => None
    case Some(t) => Some(t.(fills := [f] + t.fills))
  }

  // ----- When the loop ends, and what it then computes -----

  /** The loop ends: it never gets past the truncated total of a level of 2^32 or more. */
  predicate BuyHalts(ls: seq<Level>, q: nat, limit: int) {
    || q == 0 || ls == [] || ls[0].price > limit
    || q <= Truncated(ls[0].total)
    || (ls[0].total < TWO_32 && BuyHalts(ls[1..], q - ls[0].total, limit))
  }

  /** What the loop computes, level by level. */
  function BuySweep(ls: seq<Level>, q: nat, limit: int): Sweep
    requires BuyHalts(ls, q, limit)
  {
    if q == 0 || ls == [] || ls[0].price > limit then Sweep([], q, ls)
    else if q <= Truncated(ls[0].total) then
      Sweep([Fill(ls[0].price, q)], 0, Rest(ls[0], q) + ls[1..])
    else
      var s := BuySweep(ls[1..], q - ls[0].total, limit);
      s.(fills := [Fill(ls[0].price, ls[0].total)] + s.fills)
  }

  /** `s` is what is left to do after a turn whose fill was `f`. */
  predicate Continues(whole: Sweep, f: Fill, s: Sweep) {
    whole == s.(fills := [f] + s.fills)
  }

  lemma TurnPastFront(ls: seq<Level>, q: nat, limit: int)
    requires ls != [] && ls[0].price <= limit && q > Truncated(ls[0].total) && BuyHalts(ls, q, limit)
    ensures BuyTurn(ls, q, limit) == Go(Fill(ls[0].price, ls[0].total), q - ls[0].total, ls[1..])
  {
    assert [] + ls[1..] == ls[1..];
  }

  lemma TurnWithinFront(ls: seq<Level>, q: nat, limit: int)
    requires ls != [] && ls[0].price <= limit && 0 < q <= Truncated(ls[0].total)
    ensures BuyTurn(ls, q, limit) == Go(Fill(ls[0].price, q), 0, Rest(ls[0], q) + ls[1..])
  {
  }

  /** A turn does the first step of the sweep and leaves the rest of it to do. */
  lemma TurnThenSweep(ls: seq<Level>, q: nat, limit: int)
    requires BuyHalts(ls, q, limit) && BuyTurn(ls, q, limit).Go?
    ensures var t := BuyTurn(ls, q, limit);
            && BuyHalts(t.levels, t.left, limit)
            && Continues(BuySweep(ls, q, limit), t.fill, BuySweep(t.levels, t.left, limit))
  {
    if q <= Truncated(ls[0].total) {
      TurnWithinFront(ls, q, limit);
    } else {
      TurnPastFront(ls, q, limit);
    }
  }

  lemma BuyStops(ls: seq<Level>, q: nat, limit: int)
    requires BuyTurn(ls, q, limit).Stop?
    ensures BuyHalts(ls, q, limit) && BuySweep(ls, q, limit) == Sweep([], q, ls)
  {
  }

  /** A turn of a loop that ends uses a level up or finishes the order. */
  lemma TurnShrinks(ls: seq<Level>, q: nat, limit: int)
    requires BuyHalts(ls, q, limit) && BuyTurn(ls, q, limit).Go?
    ensures var t := BuyTurn(ls, q, limit); |t.levels| < |ls| || (|t.levels| == |ls| && t.left < q)
  {
  }

  /** `whole` is the fills already reported, and then the sweep that is left to do. */
  predicate SoFar(whole: Sweep, done: seq<Fill>, now: Sweep) {
    whole == now.(fills := done + now.fills)
  }

  lemma FillsSoFar(whole: Sweep, done: seq<Fill>, f: Fill, now: Sweep, next: Sweep)
    requires SoFar(whole, done, now) && Continues(now, f, next)
    ensures SoFar(whole, done + [f], next)
  {
    assert done + ([f] + next.fills) == (done + [f]) + next.fills;
  }

  /** What a turn does to a loop that has reported `done` of `whole` so far. */
  lemma BuyLoopStep(whole: Sweep, done: seq<Fill>, ls: seq<Level>, q: nat, limit: int)
    requires BuyHalts(ls, q, limit) && BuyTurn(ls, q, limit).Go? && SoFar(whole, done, BuySweep(ls, q, limit))
    ensures var t := BuyTurn(ls, q, limit);
            && BuyHalts(t.levels, t.left, limit) && SoFar(whole, done + [t.fill], BuySweep(t.levels, t.left, limit))
            && (|t.levels| < |ls| || (|t.levels| == |ls| && t.left < q))
  {
    TurnThenSweep(ls, q, limit);
    TurnShrinks(ls, q, limit);
    var t := BuyTurn(ls, q, limit);
    FillsSoFar(whole, done, t.fill, BuySweep(ls, q, limit), BuySweep(t.levels, t.left, limit));
  }

  /** How many levels at the front a buy at `limit` may reach. */
  function Crossable(ls: seq<Level>, limit: int): nat {
    if ls == [] || ls[0].price > limit then 0 else 1 + Crossable(ls[1..], limit)
  }

  /** A loop that ends does so within as many turns as there are crossable levels. */
  lemma {:induction false} EndsWithinCrossable(n: nat, ls: seq<Level>, q: nat, limit: int)
    requires BuyHalts(ls, q, limit) && n >= Crossable(ls, limit)
    ensures BuyRun(n, ls, q, limit) == Some(BuySweep(ls, q, limit))
    ensures |BuySweep(ls, q, limit).fills| <= Crossable(ls, limit)
    decreases |ls|
  {
    if BuyTurn(ls, q, limit).Go? {
      TurnThenSweep(ls, q, limit);
      if q > Truncated(ls[0].total) {
        assert BuyTurn(ls, q, limit).levels == ls[1..];
        EndsWithinCrossable(n - 1, ls[1..], q - ls[0].total, limit);
      }
    }
  }

  /** Outside the condition every turn leads to a state that is outside it too. */
  lemma StuckStaysStuck(ls: seq<Level>, q: nat, limit: int)
    requires !BuyHalts(ls, q, limit)
    ensures var t := BuyTurn(ls, q, limit); t.Go? && !BuyHalts(t.levels, t.left, limit)
  {
    var l, f := ls[0], Truncated(ls[0].total);
    var next := BuyTurn(ls, q, limit).levels;
    if l.total < TWO_32 {
      assert next == ls[1..];
    } else {
      RemainderGone(l.total);
      assert next == [Reduced(l, f)] + ls[1..];
      assert next[0].total >= TWO_32 && Truncated(next[0].total) == 0;
    }
  }

  lemma {:induction false} OtherwiseNeverEnds(n: nat, ls: seq<Level>, q: nat, limit: int)
    requires !BuyHalts(ls, q, limit)
    ensures BuyRun(n, ls, q, limit).None?
  {
    StuckStaysStuck(ls, q, limit);
    if n == 0 {
    } else {
      var t := BuyTurn(ls, q, limit);
      OtherwiseNeverEnds(n - 1, t.levels, t.left, limit);
    }
  }

  /** The buy loop ends exactly when no level of 2^32 or more stands in its way. */
  lemma BuyLoopEndsIff(ls: seq<Level>, q: nat, limit: int)
    requires Sorted(ls)
    ensures (exists n: nat :: BuyRun(n, ls, q, limit).Some?) <==> WideLevelsOutOfReach(ls, q, limit)
  {
    HaltsWhenOutOfReach(ls, q, limit);
    if BuyHalts(ls, q, limit) {
      EndsWithinCrossable(Crossable(ls, limit), ls, q, limit);
    } else {
      forall n: nat ensures BuyRun(n, ls, q, limit).None? { OtherwiseNeverEnds(n, ls, q, limit); }
    }
  }

  /** A level of exactly 2^32 makes the loop spin: two orders of 2^31 at one price build one. */
  lemma SpinsOnWideLevel(price: int, q: nat)
    requires q > 0
    ensures var ls := Upserted(Upserted([], price, TWO_32 / 2), price, TWO_32 / 2);
            forall n: nat :: BuyRun(n, ls, q, price).None?
  {
    var one := Upserted([], price, TWO_32 / 2);
    assert one == [Level(price, TWO_32 / 2, 1)];
    var ls := Upserted(one, price, TWO_32 / 2);
    assert ls == [Level(price, TWO_32, 2)];
    forall n: nat ensures BuyRun(n, ls, q, price).None? { OtherwiseNeverEnds(n, ls, q, price); }
  }

  lemma RemainderGone(t: nat)
    requires t >= TWO_32
    ensures t - Truncated(t) >= TWO_32 && Truncated(t - Truncated(t)) == 0
  {
  }

  function Depth(ls: seq<Level>): nat {
    if ls == [] then 0 else ls[0].total + Depth(ls[1..])
  }

  /**
   The condition a caller can check on the ladder: the quantity stays within the depth in front of
   any reachable level of 2^32 or more, plus that level's total cut to 32 bits.
   */
  ghost predicate WideLevelsOutOfReach(ls: seq<Level>, q: nat, limit: int) {
    forall k :: 0 <= k < |ls| && ls[k].price <= limit && ls[k].total >= TWO_32 ==>
      q <= Depth(ls[..k]) + Truncated(ls[k].total)
  }

  lemma DepthFromFront(ls: seq<Level>, k: nat)
    requires 0 < k <= |ls|
    ensures Depth(ls[..k]) == ls[0].total + Depth(ls[1..][..k - 1])
  {
    assert ls[..k][1..] == ls[1..][..k - 1];
  }

  /** Once the front level is used up, the condition is about the levels behind it. */
  lemma OutOfReachBehind(ls: seq<Level>, q: nat, limit: int)
    requires ls != [] && ls[0].total < TWO_32 && q >= ls[0].total
    ensures WideLevelsOutOfReach(ls, q, limit) <==> WideLevelsOutOfReach(ls[1..], q - ls[0].total, limit)
  {
    hide Depth, Truncated;
    var t, rest := ls[0].total, ls[1..];
    forall k | 0 < k <= |ls| ensures Depth(ls[..k]) == t + Depth(rest[..k - 1]) { DepthFromFront(ls, k); }
    if WideLevelsOutOfReach(ls, q, limit) {
      forall k | 0 <= k < |rest| && rest[k].price <= limit && rest[k].total >= TWO_32
        ensures q - t <= Depth(rest[..k]) + Truncated(rest[k].total)
      {
        assert ls[k + 1] == rest[k] && Depth(ls[..k + 1]) == t + Depth(rest[..k]);
      }
    }
  }

  lemma OutOfReachAtOnce(ls: seq<Level>, q: nat, limit: int)
    requires Sorted(ls) && (ls == [] || ls[0].price > limit || q <= Truncated(ls[0].total))
    ensures WideLevelsOutOfReach(ls, q, limit)
  {
    forall k | 0 < k < |ls| ensures Depth(ls[..k]) >= ls[0].total { DepthFromFront(ls, k); }
  }

  lemma {:induction false} HaltsWhenOutOfReach(ls: seq<Level>, q: nat, limit: int)
    requires Sorted(ls)
    ensures BuyHalts(ls, q, limit) <==> WideLevelsOutOfReach(ls, q, limit)
  {
    if ls == [] || ls[0].price > limit || q <= Truncated(ls[0].total) {
      OutOfReachAtOnce(ls, q, limit);
    } else if ls[0].total < TWO_32 {
      HaltsWhenOutOfReach(ls[1..], q - ls[0].total, limit);
      OutOfReachBehind(ls, q, limit);
    } else {
      assert Depth(ls[..0]) == 0;
    }
  }

  // ----- What a sweep achieves -----

  function Filled(fs: seq<Fill>): nat {
    if fs == [] then 0 else fs[0].qty + Filled(fs[1..])
  }

  /** The resting quantity at `limit` or better. */
  function DepthWithin(ls: seq<Level>, limit: int): nat {
    if ls == [] then 0 else (if ls[0].price <= limit then ls[0].total else 0) + DepthWithin(ls[1..], limit)
  }

  predicate Positive(ls: seq<Level>) {
    forall i :: 0 <= i < |ls| ==> ls[i].total > 0
  }

  lemma {:induction false} NothingWithin(ls: seq<Level>, limit: int)
    requires Sorted(ls) && (ls == [] || ls[0].price > limit)
    ensures DepthWithin(ls, limit) == 0
  {
    if ls == [] {
    } else {
      NothingWithin(ls[1..], limit);
    }
  }

  /** What the quantities of a sweep say about each other. */
  ghost predicate SweepAmounts(ls: seq<Level>, q: nat, limit: int, s: Sweep) {
    && Filled(s.fills) == Min(q, DepthWithin(ls, limit))
    && s.left == q - Filled(s.fills)
    && Depth(s.levels) + Filled(s.fills) == Depth(ls)
    && (s.left > 0 ==> s.levels == [] || s.levels[0].price > limit)
  }

  lemma AmountsWithinFront(ls: seq<Level>, q: nat, limit: int)
    requires ls != [] && ls[0].price <= limit && 0 < q <= Truncated(ls[0].total)
    ensures SweepAmounts(ls, q, limit, Sweep([Fill(ls[0].price, q)], 0, Rest(ls[0], q) + ls[1..]))
  {
    assert [] + ls[1..] == ls[1..];
    assert ([Reduced(ls[0], q)] + ls[1..])[1..] == ls[1..];
  }

  lemma AmountsPastFront(ls: seq<Level>, q: nat, limit: int, t: Sweep)
    requires ls != [] && ls[0].price <= limit && ls[0].total <= q && SweepAmounts(ls[1..], q - ls[0].total, limit, t)
    ensures SweepAmounts(ls, q, limit, t.(fills := [Fill(ls[0].price, ls[0].total)] + t.fills))
  {
    assert ([Fill(ls[0].price, ls[0].total)] + t.fills)[1..] == t.fills;
  }

  /**
   A sweep fills the smaller of what is wanted and what rests at the limit or better. What it fills
   leaves the ladder, and if anything is left unfilled the ladder has nothing within the limit.
   */
  lemma {:induction false} SweepFills(ls: seq<Level>, q: nat, limit: int)
    requires Sorted(ls) && BuyHalts(ls, q, limit)
    ensures SweepAmounts(ls, q, limit, BuySweep(ls, q, limit))
  {
    if ls == [] || ls[0].price > limit {
      NothingWithin(ls, limit);
    } else if q > Truncated(ls[0].total) {
      SweepFills(ls[1..], q - ls[0].total, limit);
      AmountsPastFront(ls, q, limit, BuySweep(ls[1..], q - ls[0].total, limit));
    } else if q > 0 {
      AmountsWithinFront(ls, q, limit);
    }
  }

  /**
   The fills go through the levels in order from the front, each at its level's price and within
   the limit; every level but the last one touched is used up, and the rest is as it was.
   */
  ghost predicate SweepShape(ls: seq<Level>, limit: int, s: Sweep) {
    var n := |s.fills|;
    && n <= |ls|
    && (forall i :: 0 <= i < n ==> s.fills[i].price == ls[i].price <= limit && s.fills[i].qty <= ls[i].total)
    && (forall i :: 0 <= i < n - 1 ==> s.fills[i].qty == ls[i].total)
    && s.levels == (if n > 0 && s.fills[n - 1].qty < ls[n - 1].total
                    then [Reduced(ls[n - 1], s.fills[n - 1].qty)] + ls[n..] else ls[n..])
    && (n > 0 && s.fills[n - 1].qty < ls[n - 1].total ==> s.left == 0)
  }

  lemma ShapeExtends(ls: seq<Level>, limit: int, t: Sweep)
    requires ls != [] && ls[0].price <= limit && SweepShape(ls[1..], limit, t)
    ensures SweepShape(ls, limit, t.(fills := [Fill(ls[0].price, ls[0].total)] + t.fills))
  {
    var fills, rest := [Fill(ls[0].price, ls[0].total)] + t.fills, ls[1..];
    var n := |fills|;
    forall i | 0 <= i < n
      ensures fills[i].price == ls[i].price <= limit && fills[i].qty <= ls[i].total
      ensures i < n - 1 ==> fills[i].qty == ls[i].total
    {
      if i > 0 { assert fills[i] == t.fills[i - 1] && ls[i] == rest[i - 1]; }
    }
    assert ls[n..] == rest[n - 1..];
    if n > 1 { assert fills[n - 1] == t.fills[n - 2] && ls[n - 1] == rest[n - 2]; }
  }

  lemma {:induction false} SweepHasShape(ls: seq<Level>, q: nat, limit: int)
    requires BuyHalts(ls, q, limit)
    ensures SweepShape(ls, limit, BuySweep(ls, q, limit))
  {
    if BuyTurn(ls, q, limit).Go? && q > Truncated(ls[0].total) {
      SweepHasShape(ls[1..], q - ls[0].total, limit);
      ShapeExtends(ls, limit, BuySweep(ls[1..], q - ls[0].total, limit));
    }
  }

  /** A sweep keeps the ladder sorted and positive, and its fill prices climb away from the best. */
  ghost predicate SweepOrdered(ls: seq<Level>, s: Sweep) {
    && Sorted(s.levels)
    && (Positive(ls) ==> Positive(s.levels))
    && (forall i :: 0 <= i < |s.levels| && ls != [] ==> s.levels[i].price >= ls[0].price)
    && (forall i, j :: 0 <= i < j < |s.fills| ==> s.fills[i].price < s.fills[j].price)
  }

  /** The part of the ladder that is left: level `i` is level `gone + i` of before, in all but the front's total. */
  ghost predicate LeavesLevels(ls: seq<Level>, levels: seq<Level>) {
    && |levels| <= |ls|
    && var gone := |ls| - |levels|;
       forall i :: 0 <= i < |levels| ==>
         && levels[i].price == ls[gone + i].price
         && levels[i].orders == ls[gone + i].orders
         && (if i == 0 then levels[i].total <= ls[gone + i].total else levels[i].total == ls[gone + i].total)
  }

  /** A buy changes no price and no order count of a level it leaves, and no total but that of the front one. */
  lemma SweepLeavesLevels(ls: seq<Level>, q: nat, limit: int)
    requires BuyHalts(ls, q, limit)
    ensures LeavesLevels(ls, BuySweep(ls, q, limit).levels)
  {
    hide BuySweep, BuyHalts;
    SweepHasShape(ls, q, limit);
    ShapeLeavesLevels(ls, limit, BuySweep(ls, q, limit));
  }

  lemma ShapeLeavesLevels(ls: seq<Level>, limit: int, s: Sweep)
    requires SweepShape(ls, limit, s)
    ensures LeavesLevels(ls, s.levels)
  {
    var n, gone := |s.fills|, |ls| - |s.levels|;
    if n > 0 && s.fills[n - 1].qty < ls[n - 1].total {
      assert gone == n - 1 && s.levels[0] == Reduced(ls[n - 1], s.fills[n - 1].qty);
      assert forall i :: 0 < i < |s.levels| ==> s.levels[i] == ls[gone + i];
    } else {
      assert gone == n;
      assert forall i :: 0 <= i < |s.levels| ==> s.levels[i] == ls[gone + i];
    }
  }

  lemma ShapePositive(ls: seq<Level>, limit: int, s: Sweep)
    requires SweepShape(ls, limit, s) && Positive(ls)
    ensures Positive(s.levels)
  {
    var n := |s.fills|;
    if n > 0 && s.fills[n - 1].qty < ls[n - 1].total {
      var l := Reduced(ls[n - 1], s.fills[n - 1].qty);
      assert l.total > 0 && s.levels == [l] + ls[n..];
    }
  }

  lemma LeftLevelsSorted(ls: seq<Level>, levels: seq<Level>)
    requires Sorted(ls) && LeavesLevels(ls, levels)
    ensures Sorted(levels) && forall i :: 0 <= i < |levels| && ls != [] ==> levels[i].price >= ls[0].price
  {
    var gone := |ls| - |levels|;
    forall i, j | 0 <= i < j < |levels| ensures levels[i].price < levels[j].price {
      assert ls[gone + i].price < ls[gone + j].price;
    }
  }

  lemma ShapeIsOrdered(ls: seq<Level>, limit: int, s: Sweep)
    requires Sorted(ls) && SweepShape(ls, limit, s)
    ensures SweepOrdered(ls, s)
  {
    ShapeLeavesLevels(ls, limit, s);
    LeftLevelsSorted(ls, s.levels);
    if Positive(ls) { ShapePositive(ls, limit, s); }
    forall i, j | 0 <= i < j < |s.fills| ensures s.fills[i].price < s.fills[j].price {
      assert s.fills[i].price == ls[i].price && s.fills[j].price == ls[j].price;
    }
  }

  lemma SweepKeepsOrder(ls: seq<Level>, q: nat, limit: int)
    requires Sorted(ls) && BuyHalts(ls, q, limit)
    ensures SweepOrdered(ls, BuySweep(ls, q, limit))
  {
    SweepHasShape(ls, q, limit);
    ShapeIsOrdered(ls, limit, BuySweep(ls, q, limit));
  }

  // ----- No other way of filling the quantity is cheaper -----

  function Cost(fs: seq<Fill>): int {
    if fs == [] then 0 else fs[0].price * fs[0].qty + Cost(fs[1..])
  }

  function Sum(sel: seq<nat>): nat {
    if sel == [] then 0 else sel[0] + Sum(sel[1..])
  }

  /** A selection takes from each level some quantity it has. */
  predicate Selection(ls: seq<Level>, sel: seq<nat>) {
    |sel| == |ls| && forall i :: 0 <= i < |ls| ==> sel[i] <= ls[i].total
  }

  function SelectionCost(ls: seq<Level>, sel: seq<nat>): int
    requires |sel| == |ls|
  {
    if ls == [] then 0 else ls[0].price * sel[0] + SelectionCost(ls[1..], sel[1..])
  }

  /** The cost of `k` units taken from the front. */
  function FrontCost(ls: seq<Level>, k: nat): int {
    if ls == [] then 0
    else if k <= ls[0].total then ls[0].price * k
    else ls[0].price * ls[0].total + FrontCost(ls[1..], k - ls[0].total)
  }

  lemma Distribute(x: int, a: nat, b: nat)
    ensures x * (a + b) == x * a + x * b
  {
  }

  lemma ScaleUp(a: int, b: int, k: nat)
    requires a <= b
    ensures a * k <= b * k
  {
  }

  /** Each further unit from the front costs at least the smallest price there is. */
  lemma {:induction false} MarginalCost(ls: seq<Level>, a: nat, d: nat, p: int)
    requires a + d <= Depth(ls) && forall i :: 0 <= i < |ls| ==> ls[i].price >= p
    ensures FrontCost(ls, a + d) >= FrontCost(ls, a) + p * d
  {
    if ls == [] {
    } else {
      var t, x := ls[0].total, ls[0].price;
      if a + d <= t {
        ScaleUp(p, x, d);
        Distribute(x, a, d);
      } else if a <= t {
        MarginalCost(ls[1..], 0, a + d - t, p);
        FreeNothing(ls[1..]);
        ScaleUp(p, x, t - a);
        Distribute(x, a, t - a);
        Distribute(p, a + d - t, t - a);
      } else {
        MarginalCost(ls[1..], a - t, d, p);
        assert a - t + d == a + d - t;
      }
    }
  }

  lemma FreeNothing(ls: seq<Level>)
    ensures FrontCost(ls, 0) == 0
  {
  }

  lemma {:induction false} SelectionWithinDepth(ls: seq<Level>, sel: seq<nat>)
    requires Selection(ls, sel)
    ensures Sum(sel) <= Depth(ls)
  {
    if ls == [] {
    } else {
      SelectionWithinDepth(ls[1..], sel[1..]);
    }
  }

  /** Taking `s0` from the front level and the rest further back is no cheaper than taking all from the front. */
  lemma FrontFirst(ls: seq<Level>, s0: nat, d: nat)
    requires Sorted(ls) && ls != [] && s0 <= ls[0].total && d <= Depth(ls[1..])
    ensures ls[0].price * s0 + FrontCost(ls[1..], d) >= FrontCost(ls, s0 + d)
  {
    var t, x, rest := ls[0].total, ls[0].price, ls[1..];
    if s0 + d <= t {
      MarginalCost(rest, 0, d, x);
      FreeNothing(rest);
      Distribute(x, s0, d);
    } else {
      MarginalCost(rest, s0 + d - t, t - s0, x);
      Distribute(x, s0, t - s0);
    }
  }

  /** Taking from the front of a sorted ladder is the cheapest way to take a quantity. */
  lemma {:induction false} FrontIsCheapest(ls: seq<Level>, sel: seq<nat>)
    requires Sorted(ls) && Selection(ls, sel)
    ensures SelectionCost(ls, sel) >= FrontCost(ls, Sum(sel))
  {
    if ls == [] {
    } else {
      FrontIsCheapest(ls[1..], sel[1..]);
      SelectionWithinDepth(ls[1..], sel[1..]);
      FrontFirst(ls, sel[0], Sum(sel[1..]));
    }
  }

  lemma {:induction false} SweepCost(ls: seq<Level>, q: nat, limit: int)
    requires Sorted(ls) && BuyHalts(ls, q, limit)
    ensures var s := BuySweep(ls, q, limit); Cost(s.fills) == FrontCost(ls, Filled(s.fills))
  {
    if BuyTurn(ls, q, limit).Stop? {
      FreeNothing(ls);
    } else if q > Truncated(ls[0].total) {
      var s, t := BuySweep(ls, q, limit), BuySweep(ls[1..], q - ls[0].total, limit);
      SweepCost(ls[1..], q - ls[0].total, limit);
      assert s.fills[1..] == t.fills;
      if Filled(t.fills) == 0 { FreeNothing(ls[1..]); }
    }
  }

  /** Of all selections of the filled quantity from the resting levels, the fills cost least. */
  lemma BuyIsOptimal(ls: seq<Level>, q: nat, limit: int, sel: seq<nat>)
    requires Sorted(ls) && BuyHalts(ls, q, limit)
    requires Selection(ls, sel) && Sum(sel) == Filled(BuySweep(ls, q, limit).fills)
    ensures Cost(BuySweep(ls, q, limit).fills) <= SelectionCost(ls, sel)
  {
    SweepCost(ls, q, limit);
    FrontIsCheapest(ls, sel);
  }

  // ----- Splitting an order -----

  function FilledAt(fs: seq<Fill>, p: int): nat {
    if fs == [] then 0 else (if fs[0].price == p then fs[0].qty else 0) + FilledAt(fs[1..], p)
  }

  /** Sweeping for `a` and then for `b` does to the ladder what one sweep for both does. */
  ghost predicate SameAsBoth(whole: Sweep, first: Sweep, second: Sweep) {
    && whole.levels == second.levels
    && whole.left == first.left + second.left
    && forall p :: FilledAt(whole.fills, p) == FilledAt(first.fills, p) + FilledAt(second.fills, p)
  }

  lemma TruncatedLess(t: nat, a: nat)
    requires a <= Truncated(t)
    ensures Truncated(t - a) == Truncated(t) - a
  {
  }

  lemma FilledAtFirst(f: Fill, fs: seq<Fill>)
    ensures forall p :: FilledAt([f] + fs, p) == (if f.price == p then f.qty else 0) + FilledAt(fs, p)
  {
    assert ([f] + fs)[1..] == fs;
  }

  lemma FilledAtOne(f: Fill)
    ensures forall p :: FilledAt([f], p) == if f.price == p then f.qty else 0
  {
    assert [f] + [] == [f];
    FilledAtFirst(f, []);
  }

  /** The first part of a split fits inside the front level, and the whole does too. */
  lemma SplitWithinFront(ls: seq<Level>, a: nat, b: nat, limit: int)
    requires ls != [] && ls[0].price <= limit && 0 < a && 0 < b && a + b <= Truncated(ls[0].total)
    ensures BuyHalts(ls, a, limit) && BuyHalts(BuySweep(ls, a, limit).levels, b, limit)
    ensures var first := BuySweep(ls, a, limit);
            SameAsBoth(BuySweep(ls, a + b, limit), first, BuySweep(first.levels, b, limit))
  {
    var l, rest := ls[0], ls[1..];
    var mid := [Reduced(l, a)] + rest;
    TruncatedLess(l.total, a);
    assert BuySweep(ls, a, limit) == Sweep([Fill(l.price, a)], 0, mid);
    assert mid[1..] == rest;
    assert BuySweep(mid, b, limit).levels == BuySweep(ls, a + b, limit).levels;
    FilledAtOne(Fill(l.price, a));
    FilledAtOne(Fill(l.price, b));
    FilledAtOne(Fill(l.price, a + b));
  }

  /** The sweep of a quantity that goes past the front level. */
  lemma SweepPastFront(ls: seq<Level>, q: nat, limit: int)
    requires ls != [] && ls[0].price <= limit && q > Truncated(ls[0].total) && BuyHalts(ls, q, limit)
    ensures ls[0].total < TWO_32 && ls[0].total < q && BuyHalts(ls[1..], q - ls[0].total, limit)
    ensures Continues(BuySweep(ls, q, limit), Fill(ls[0].price, ls[0].total), BuySweep(ls[1..], q - ls[0].total, limit))
  {
  }

  /** The sweep of a quantity that the front level covers. */
  lemma SweepInFront(ls: seq<Level>, q: nat, limit: int)
    requires ls != [] && ls[0].price <= limit && 0 < q <= Truncated(ls[0].total)
    ensures BuyHalts(ls, q, limit)
    ensures BuySweep(ls, q, limit) == Sweep([Fill(ls[0].price, q)], 0, Rest(ls[0], q) + ls[1..])
  {
  }

  /** What goes past the front level takes from it what the first part has left of it. */
  lemma SweepOfRest(l: Level, rest: seq<Level>, a: nat, b: nat, limit: int)
    requires l.price <= limit && l.total < TWO_32 && 0 < a < l.total < a + b && BuyHalts(rest, a + b - l.total, limit)
    ensures BuyHalts([Reduced(l, a)] + rest, b, limit)
    ensures var tail := BuySweep(rest, a + b - l.total, limit);
            Continues(BuySweep([Reduced(l, a)] + rest, b, limit), Fill(l.price, l.total - a), tail)
  {
    var mid := [Reduced(l, a)] + rest;
    assert mid[1..] == rest && b - mid[0].total == a + b - l.total;
  }

  /** The first part of a split fits inside the front level, and the whole goes beyond it. */
  lemma SplitPastFront(ls: seq<Level>, a: nat, b: nat, limit: int)
    requires ls != [] && ls[0].price <= limit && 0 < a <= Truncated(ls[0].total) < a + b
    requires BuyHalts(ls, a + b, limit)
    ensures BuyHalts(ls, a, limit) && BuyHalts(BuySweep(ls, a, limit).levels, b, limit)
    ensures var first := BuySweep(ls, a, limit);
            SameAsBoth(BuySweep(ls, a + b, limit), first, BuySweep(first.levels, b, limit))
  {
    hide BuySweep, BuyHalts, FilledAt;
    var l, rest := ls[0], ls[1..];
    SweepPastFront(ls, a + b, limit);
    SweepInFront(ls, a, limit);
    var tail := BuySweep(rest, a + b - l.total, limit);
    FilledAtOne(Fill(l.price, a));
    FilledAtFirst(Fill(l.price, l.total), tail.fills);
    if l.total == a {
      assert [] + rest == rest;
    } else {
      SweepOfRest(l, rest, a, b, limit);
      FilledAtFirst(Fill(l.price, l.total - a), tail.fills);
    }
  }

  /** The first part of a split uses the front level up. */
  lemma SplitBeyondFront(ls: seq<Level>, a: nat, b: nat, limit: int)
    requires ls != [] && ls[0].price <= limit && ls[0].total < TWO_32 && ls[0].total < a
    requires BuyHalts(ls, a + b, limit) && BuyHalts(ls, a, limit)
    requires var first := BuySweep(ls[1..], a - ls[0].total, limit);
             && BuyHalts(first.levels, b, limit)
             && SameAsBoth(BuySweep(ls[1..], a + b - ls[0].total, limit), first, BuySweep(first.levels, b, limit))
    ensures var first := BuySweep(ls, a, limit);
            SameAsBoth(BuySweep(ls, a + b, limit), first, BuySweep(first.levels, b, limit))
  {
    var f := Fill(ls[0].price, ls[0].total);
    FilledAtFirst(f, BuySweep(ls[1..], a + b - ls[0].total, limit).fills);
    FilledAtFirst(f, BuySweep(ls[1..], a - ls[0].total, limit).fills);
  }

  lemma {:induction false} SweepSplits(ls: seq<Level>, a: nat, b: nat, limit: int)
    requires BuyHalts(ls, a + b, limit)
    ensures BuyHalts(ls, a, limit) && BuyHalts(BuySweep(ls, a, limit).levels, b, limit)
    ensures var first := BuySweep(ls, a, limit);
            SameAsBoth(BuySweep(ls, a + b, limit), first, BuySweep(first.levels, b, limit))
    decreases |ls|
  {
    if a == 0 || b == 0 || BuyTurn(ls, a + b, limit).Stop? {
    } else if a + b <= Truncated(ls[0].total) {
      SplitWithinFront(ls, a, b, limit);
    } else if a <= Truncated(ls[0].total) {
      SplitPastFront(ls, a, b, limit);
    } else {
      var t := ls[0].total;
      assert a - t + b == a + b - t;
      SweepSplits(ls[1..], a - t, b, limit);
      SplitBeyondFront(ls, a, b, limit);
    }
  }

  /** If the part inside the front level and what follows it both end, so does the whole. */
  lemma HaltsPastFront(ls: seq<Level>, a: nat, b: nat, limit: int)
    requires ls != [] && ls[0].price <= limit && 0 < a <= Truncated(ls[0].total)
    requires BuyHalts(Rest(ls[0], a) + ls[1..], b, limit)
    ensures BuyHalts(ls, a + b, limit)
  {
    var l, rest := ls[0], ls[1..];
    if l.total == a {
      assert [] + rest == rest;
      assert a + b - l.total == b;
    } else {
      var mid := [Reduced(l, a)] + rest;
      assert mid[1..] == rest && mid[0] == Reduced(l, a);
      TruncatedLess(l.total, a);
      if b > 0 && b > Truncated(l.total - a) {
        assert BuyHalts(rest, b - (l.total - a), limit);
        assert b - (l.total - a) == a + b - l.total;
      }
    }
  }

  /** The converse of the split: if both sweeps end, so does the sweep for both quantities at once. */
  lemma {:induction false} WholeHalts(ls: seq<Level>, a: nat, b: nat, limit: int)
    requires BuyHalts(ls, a, limit) && BuyHalts(BuySweep(ls, a, limit).levels, b, limit)
    ensures BuyHalts(ls, a + b, limit)
    decreases |ls|
  {
    if a == 0 || BuyTurn(ls, a, limit).Stop? {
    } else if a <= Truncated(ls[0].total) {
      SweepInFront(ls, a, limit);
      HaltsPastFront(ls, a, b, limit);
    } else {
      SweepPastFront(ls, a, limit);
      WholeHalts(ls[1..], a - ls[0].total, b, limit);
      assert a - ls[0].total + b == a + b - ls[0].total;
    }
  }

  // ----- Selling mirrors buying -----

  function Flip(l: Level): Level { l.(price := -l.price) }

  /** The ladder seen from the other side: prices negated, order reversed. */
  function Mirror(ls: seq<Level>): seq<Level> {
    if ls == [] then [] else Mirror(ls[1..]) + [Flip(ls[0])]
  }

  lemma {:induction false} MirrorAt(ls: seq<Level>)
    ensures |Mirror(ls)| == |ls| && forall i :: 0 <= i < |ls| ==> Mirror(ls)[i] == Flip(ls[|ls| - 1 - i])
  {
    if ls == [] {
    } else {
      MirrorAt(ls[1..]);
    }
  }

  function FlipFills(fs: seq<Fill>): seq<Fill> {
    if fs == [] then [] else [Fill(-fs[0].price, fs[0].qty)] + FlipFills(fs[1..])
  }

  lemma {:induction false} FlipFillsAt(fs: seq<Fill>)
    ensures |FlipFills(fs)| == |fs| && forall i :: 0 <= i < |fs| ==> FlipFills(fs)[i] == Fill(-fs[i].price, fs[i].qty)
  {
    if fs == [] {
    } else {
      FlipFillsAt(fs[1..]);
    }
  }

  function FlipSweep(s: Sweep): Sweep {
    Sweep(FlipFills(s.fills), s.left, Mirror(s.levels))
  }

  function FlipTurn(t: Turn): Turn {
    match t
    case Stop => Stop
    case Go(f, q, ls) => Go(Fill(-f.price, f.qty), q, Mirror(ls))
  }

  lemma MirrorTwice(ls: seq<Level>)
    ensures Mirror(Mirror(ls)) == ls
  {
    MirrorAt(ls);
    MirrorAt(Mirror(ls));
  }

  lemma MirrorSorted(ls: seq<Level>)
    ensures Sorted(Mirror(ls)) <==> Sorted(ls)
  {
    MirrorAt(ls);
    if Sorted(Mirror(ls)) {
      forall i, j | 0 <= i < j < |ls| ensures ls[i].price < ls[j].price {
        assert Mirror(ls)[|ls| - 1 - j].price < Mirror(ls)[|ls| - 1 - i].price;
      }
    }
  }

  lemma {:induction false} MirrorFront(ls: seq<Level>)
    requires ls != []
    ensures Mirror(ls) == [Flip(ls[|ls| - 1])] + Mirror(ls[..|ls| - 1])
  {
    var n := |ls| - 1;
    if n == 0 {
    } else {
      MirrorFront(ls[1..]);
      assert ls[1..][..n - 1] == ls[..n][1..];
    }
  }

  lemma MirrorBack(l: Level, ls: seq<Level>)
    ensures Mirror([l] + ls) == Mirror(ls) + [Flip(l)]
  {
    assert ([l] + ls)[1..] == ls;
  }

  lemma RestMirrored(front: seq<Level>, l: Level, f: nat)
    requires f <= l.total
    ensures Mirror(Rest(Flip(l), f) + Mirror(front)) == front + Rest(l, f)
  {
    MirrorTwice(front);
    if l.total == f {
      assert [] + Mirror(front) == Mirror(front) && front + [] == front;
    } else {
      MirrorBack(Reduced(Flip(l), f), Mirror(front));
    }
  }

  lemma TurnMirrors(front: seq<Level>, l: Level, q: nat, limit: int)
    ensures SellTurn(front + [l], q, limit) == FlipTurn(BuyTurn([Flip(l)] + Mirror(front), q, -limit))
  {
    hide Mirror;
    assert (front + [l])[..|front|] == front;
    assert ([Flip(l)] + Mirror(front))[1..] == Mirror(front);
    RestMirrored(front, l, Min(q, Truncated(l.total)));
  }

  /** One turn of the sell loop is the mirror of one turn of the buy loop on the mirrored ladder. */
  lemma SellTurnMirrors(ls: seq<Level>, q: nat, limit: int)
    ensures SellTurn(ls, q, limit) == FlipTurn(BuyTurn(Mirror(ls), q, -limit))
  {
    if ls != [] {
      var n := |ls| - 1;
      MirrorFront(ls);
      assert ls == ls[..n] + [ls[n]];
      TurnMirrors(ls[..n], ls[n], q, limit);
    }
  }

  lemma FlipPrefixed(f: Fill, s: Sweep)
    ensures FlipSweep(s.(fills := [f] + s.fills)) ==
            FlipSweep(s).(fills := [Fill(-f.price, f.qty)] + FlipSweep(s).fills)
  {
    assert ([f] + s.fills)[1..] == s.fills;
  }

  function FlipRun(s: Option<Sweep>): Option<Sweep> {
    match s
    case None => None
    case Some(t) => Some(FlipSweep(t))
  }

  lemma SellTurnOfMirror(m: seq<Level>, q: nat, limit: int)
    ensures SellTurn(Mirror(m), q, limit) == FlipTurn(BuyTurn(m, q, -limit))
  {
    MirrorTwice(m);
    SellTurnMirrors(Mirror(m), q, limit);
  }

  lemma FlipRunPrefixed(f: Fill, r: Option<Sweep>)
    ensures FlipRun(Prefixed(f, r)) == Prefixed(Fill(-f.price, f.qty), FlipRun(r))
  {
    if r.Some? { FlipPrefixed(f, r.value); }
  }

  lemma {:induction false} SellRunOfMirror(n: nat, m: seq<Level>, q: nat, limit: int)
    ensures SellRun(n, Mirror(m), q, limit) == FlipRun(BuyRun(n, m, q, -limit))
  {
    hide SellTurn, BuyTurn, Mirror;
    SellTurnOfMirror(m, q, limit);
    var t := BuyTurn(m, q, -limit);
    if t.Stop? {
    } else if n > 0 {
      SellRunOfMirror(n - 1, t.levels, t.left, limit);
      FlipRunPrefixed(t.fill, BuyRun(n - 1, t.levels, t.left, -limit));
    }
  }

  /** Every run of the sell loop is the mirror of the run of the buy loop on the mirrored ladder. */
  lemma SellRunMirrors(n: nat, ls: seq<Level>, q: nat, limit: int)
    ensures SellRun(n, ls, q, limit) == FlipRun(BuyRun(n, Mirror(ls), q, -limit))
  {
    MirrorTwice(ls);
    SellRunOfMirror(n, Mirror(ls), q, limit);
  }

  predicate SellHalts(ls: seq<Level>, q: nat, limit: int) {
    BuyHalts(Mirror(ls), q, -limit)
  }

  function SellSweep(ls: seq<Level>, q: nat, limit: int): Sweep
    requires SellHalts(ls, q, limit)
  {
    FlipSweep(BuySweep(Mirror(ls), q, -limit))
  }

  lemma SellTurnShrinks(ls: seq<Level>, q: nat, limit: int)
    requires SellHalts(ls, q, limit) && SellTurn(ls, q, limit).Go?
    ensures var t := SellTurn(ls, q, limit); |t.levels| < |ls| || (|t.levels| == |ls| && t.left < q)
  {
    SellTurnMirrors(ls, q, limit);
    var t := BuyTurn(Mirror(ls), q, -limit);
    MirrorAt(ls);
    MirrorAt(t.levels);
    TurnShrinks(Mirror(ls), q, -limit);
  }

  lemma SellSweepOfMirror(m: seq<Level>, q: nat, limit: int)
    requires BuyHalts(m, q, -limit)
    ensures SellHalts(Mirror(m), q, limit) && SellSweep(Mirror(m), q, limit) == FlipSweep(BuySweep(m, q, -limit))
  {
    MirrorTwice(m);
  }

  lemma SellStops(ls: seq<Level>, q: nat, limit: int)
    requires SellTurn(ls, q, limit).Stop?
    ensures SellHalts(ls, q, limit) && SellSweep(ls, q, limit) == Sweep([], q, ls)
  {
    SellTurnMirrors(ls, q, limit);
    BuyStops(Mirror(ls), q, -limit);
    MirrorTwice(ls);
  }

  /** A sell turn does the first step of the sell sweep and leaves the rest of it to do. */
  lemma SellTurnThenSweep(ls: seq<Level>, q: nat, limit: int)
    requires SellHalts(ls, q, limit) && SellTurn(ls, q, limit).Go?
    ensures var t := SellTurn(ls, q, limit);
            && SellHalts(t.levels, t.left, limit)
            && Continues(SellSweep(ls, q, limit), t.fill, SellSweep(t.levels, t.left, limit))
  {
    SellTurnMirrors(ls, q, limit);
    TurnThenSweep(Mirror(ls), q, -limit);
    var t := BuyTurn(Mirror(ls), q, -limit);
    SellSweepOfMirror(t.levels, t.left, limit);
    FlipPrefixed(t.fill, BuySweep(t.levels, t.left, -limit));
  }

  lemma SellLoopStep(whole: Sweep, done: seq<Fill>, ls: seq<Level>, q: nat, limit: int)
    requires SellHalts(ls, q, limit) && SellTurn(ls, q, limit).Go? && SoFar(whole, done, SellSweep(ls, q, limit))
    ensures var t := SellTurn(ls, q, limit);
            && SellHalts(t.levels, t.left, limit) && SoFar(whole, done + [t.fill], SellSweep(t.levels, t.left, limit))
            && (|t.levels| < |ls| || (|t.levels| == |ls| && t.left < q))
  {
    SellTurnThenSweep(ls, q, limit);
    SellTurnShrinks(ls, q, limit);
    var t := SellTurn(ls, q, limit);
    FillsSoFar(whole, done, t.fill, SellSweep(ls, q, limit), SellSweep(t.levels, t.left, limit));
  }
}
