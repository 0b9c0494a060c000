/**
 The flat price ladder: a vector of aggregated levels in strictly increasing price order, searched
 by lower bound. It behaves as a finite map from prices to levels.
 */
module PriceLadder {
  import opened Bits
  import opened Options

  /** `total` is a 64-bit and `orders` a 32-bit unsigned counter. */
  datatype Level = Level(price: int, total: nat, orders: nat)

  predicate Sorted(ls: seq<Level>) {
    forall i, j :: 0 <= i < j < |ls| ==> ls[i].price < ls[j].price
  }

  /** The first place whose price is not below `p`. */
  function LowerBound(ls: seq<Level>, p: int): (k: nat)
    ensures k <= |ls|
    ensures forall i :: 0 <= i < k ==> ls[i].price < p
    ensures k < |ls| ==> ls[k].price >= p
  {
    if ls == [] || ls[0].price >= p then 0 else 1 + LowerBound(ls[1..], p)
  }

  lemma {:induction false} LowerBoundUnique(ls: seq<Level>, p: int, k: nat)
    requires k <= |ls| && (forall i :: 0 <= i < k ==> ls[i].price < p) && (k < |ls| ==> ls[k].price >= p)
    ensures k == LowerBound(ls, p)
    decreases k
  {
    if k == 0 {
    } else {
      LowerBoundUnique(ls[1..], p, k - 1);
    }
  }

  predicate HasPriceAt(ls: seq<Level>, k: nat, p: int) {
    k < |ls| && ls[k].price == p
  }

  /** `total_quantity += qty_delta` and `order_count++`, in their own widths. */
  function Added(l: Level, q: nat): Level {
    l.(total := (l.total + q) % TWO_64, orders := (l.orders + 1) % TWO_32)
  }

  function Upserted(ls: seq<Level>, p: int, q: nat): seq<Level> {
    var k := LowerBound(ls, p);
    if HasPriceAt(ls, k, p) then ls[k := Added(ls[k], q)]
    else ls[..k] + [Level(p, q, 1)] + ls[k..]
  }

  function Without(ls: seq<Level>, k: nat): (r: seq<Level>)
    requires k < |ls|
    ensures |r| == |ls| - 1 && forall i :: 0 <= i < |r| ==> r[i] == ls[if i < k then i else i + 1]
  {
    ls[..k] + ls[k + 1..]
  }

  function Pruned(ls: seq<Level>, p: int): seq<Level> {
    var k := LowerBound(ls, p);
    if HasPriceAt(ls, k, p) && ls[k].total == 0 then Without(ls, k) else ls
  }

  /** A level after a fill of `f`. */
  function Reduced(l: Level, f: nat): Level
    requires f <= l.total
  {
    l.(total := l.total - f)
  }

  /** `total_quantity -= fill_qty` on the level at price `p`, which a fill never exceeds. */
  function ReducedAt(ls: seq<Level>, p: int, f: nat): seq<Level> {
    var k := LowerBound(ls, p);
    if HasPriceAt(ls, k, p) && f <= ls[k].total then ls[k := Reduced(ls[k], f)] else ls
  }

  // ----- The map it stands for -----

  function AsMap(ls: seq<Level>): (m: map<int, Level>)
    requires Sorted(ls)
    ensures forall i :: 0 <= i < |ls| ==> ls[i].price in m && m[ls[i].price] == ls[i]
    ensures forall p :: p in m ==> m[p] in ls && m[p].price == p
  {
    map i | 0 <= i < |ls| :: ls[i].price := ls[i]
  }

  function MapUpsert(m: map<int, Level>, p: int, q: nat): map<int, Level> {
    m[p := if p in m then Added(m[p], q) else Level(p, q, 1)]
  }

  function MapRemoveIfEmpty(m: map<int, Level>, p: int): map<int, Level> {
    if p in m && m[p].total == 0 then m - {p} else m
  }

  function MapReduce(m: map<int, Level>, p: int, f: nat): map<int, Level> {
    if p in m && f <= m[p].total then m[p := Reduced(m[p], f)] else m
  }

  /** In a sorted ladder the lower bound of `p` holds price `p` exactly when some level does. */
  lemma LookupIsFind(ls: seq<Level>, p: int)
    requires Sorted(ls)
    ensures var k := LowerBound(ls, p); HasPriceAt(ls, k, p) <==> p in AsMap(ls)
    ensures var k := LowerBound(ls, p); HasPriceAt(ls, k, p) ==> AsMap(ls)[p] == ls[k]
  {
    if p in AsMap(ls) {
      var i :| 0 <= i < |ls| && ls[i] == AsMap(ls)[p];
    }
  }

  lemma UpsertSorted(ls: seq<Level>, p: int, q: nat)
    requires Sorted(ls)
    ensures Sorted(Upserted(ls, p, q))
  {
  }

  /** `m` is the map of `ls` when it has the levels of `ls` and no others. */
  lemma MapsEqual(ls: seq<Level>, m: map<int, Level>)
    requires Sorted(ls)
    requires forall l :: l in ls <==> l.price in m && m[l.price] == l
    requires forall p :: p in m ==> m[p].price == p
    ensures AsMap(ls) == m
  {
    forall p | p in AsMap(ls) ensures p in m && m[p] == AsMap(ls)[p] {
      assert AsMap(ls)[p] in ls;
    }
    forall p | p in m ensures p in AsMap(ls) {
      assert m[p] in ls;
    }
  }

  lemma MapHasLevels(ls: seq<Level>)
    requires Sorted(ls)
    ensures forall l :: l in ls <==> l.price in AsMap(ls) && AsMap(ls)[l.price] == l
  {
  }

  /** A sorted ladder with one level taken out: the price of that level is gone from it. */
  lemma SplitOff(a: seq<Level>, l: Level, b: seq<Level>)
    requires Sorted(a + [l] + b)
    ensures Sorted(a + b)
    ensures forall x :: x in a + b ==> x.price != l.price
  {
    var ls := a + [l] + b;
    forall i | 0 <= i < |a| ensures a[i].price < l.price { assert ls[i] == a[i] && ls[|a|] == l; }
    forall i | 0 <= i < |b| ensures l.price < b[i].price { assert ls[|a| + 1 + i] == b[i] && ls[|a|] == l; }
    forall i, j | 0 <= i < j < |a + b| ensures (a + b)[i].price < (a + b)[j].price {
      assert (a + b)[i] == ls[if i < |a| then i else i + 1];
      assert (a + b)[j] == ls[if j < |a| then j else j + 1];
    }
  }

  /** Putting a level between two parts of a ladder adds it to the map. */
  lemma InsertRefines(a: seq<Level>, l: Level, b: seq<Level>)
    requires Sorted(a + [l] + b)
    ensures Sorted(a + b) && l.price !in AsMap(a + b) && AsMap(a + [l] + b) == AsMap(a + b)[l.price := l]
  {
    SplitOff(a, l, b);
    MapHasLevels(a + b);
    var m := AsMap(a + b)[l.price := l];
    forall x ensures x in a + [l] + b <==> x.price in m && m[x.price] == x {
      assert x in a + [l] + b <==> x in a + b || x == l;
    }
    MapsEqual(a + [l] + b, m);
  }

  lemma MapAlgebra(m: map<int, Level>, p: int, l: Level, l': Level)
    requires p !in m
    ensures m[p := l][p := l'] == m[p := l'] && m[p := l] - {p} == m
  {
  }

  /** Replacing a level by one of the same price replaces it in the map. */
  lemma ReplaceRefines(a: seq<Level>, l: Level, l': Level, b: seq<Level>)
    requires l.price == l'.price && Sorted(a + [l] + b) && Sorted(a + [l'] + b)
    ensures AsMap(a + [l'] + b) == AsMap(a + [l] + b)[l.price := l']
  {
    InsertRefines(a, l, b);
    InsertRefines(a, l', b);
    MapAlgebra(AsMap(a + b), l.price, l, l');
  }

  lemma UpdateSorted(ls: seq<Level>, k: nat, l: Level)
    requires Sorted(ls) && k < |ls| && l.price == ls[k].price
    ensures Sorted(ls[k := l])
  {
  }

  lemma UpdateRefines(ls: seq<Level>, k: nat, l: Level)
    requires Sorted(ls) && k < |ls| && l.price == ls[k].price
    ensures Sorted(ls[k := l]) && AsMap(ls[k := l]) == AsMap(ls)[l.price := l]
  {
    UpdateSorted(ls, k, l);
    assert ls == ls[..k] + [ls[k]] + ls[k + 1..];
    assert ls[k := l] == ls[..k] + [l] + ls[k + 1..];
    ReplaceRefines(ls[..k], ls[k], l, ls[k + 1..]);
  }

  /** Taking a level out of a ladder takes its price out of the map. */
  lemma TakeOutRefines(a: seq<Level>, l: Level, b: seq<Level>)
    requires Sorted(a + [l] + b)
    ensures Sorted(a + b) && AsMap(a + b) == AsMap(a + [l] + b) - {l.price}
  {
    InsertRefines(a, l, b);
    MapAlgebra(AsMap(a + b), l.price, l, l);
  }

  lemma EraseRefines(ls: seq<Level>, k: nat)
    requires Sorted(ls) && k < |ls|
    ensures Sorted(Without(ls, k)) && AsMap(Without(ls, k)) == AsMap(ls) - {ls[k].price}
  {
    assert ls == ls[..k] + [ls[k]] + ls[k + 1..];
    TakeOutRefines(ls[..k], ls[k], ls[k + 1..]);
  }

  lemma UpsertAddsRefines(ls: seq<Level>, p: int, q: nat, k: nat)
    requires Sorted(ls) && HasPriceAt(ls, k, p)
    ensures Sorted(ls[k := Added(ls[k], q)])
    ensures p in AsMap(ls) && AsMap(ls[k := Added(ls[k], q)]) == MapUpsert(AsMap(ls), p, q)
  {
    UpdateRefines(ls, k, Added(ls[k], q));
  }

  lemma UpsertInsertsRefines(ls: seq<Level>, p: int, q: nat, k: nat)
    requires Sorted(ls) && k <= |ls| && p !in AsMap(ls) && Sorted(ls[..k] + [Level(p, q, 1)] + ls[k..])
    ensures AsMap(ls[..k] + [Level(p, q, 1)] + ls[k..]) == MapUpsert(AsMap(ls), p, q)
  {
    hide AsMap, Sorted;
    assert ls == ls[..k] + ls[k..];
    InsertRefines(ls[..k], Level(p, q, 1), ls[k..]);
  }

  lemma UpsertRefines(ls: seq<Level>, p: int, q: nat)
    requires Sorted(ls)
    ensures Sorted(Upserted(ls, p, q)) && AsMap(Upserted(ls, p, q)) == MapUpsert(AsMap(ls), p, q)
  {
    var k := LowerBound(ls, p);
    LookupIsFind(ls, p);
    UpsertSorted(ls, p, q);
    hide LowerBound, AsMap, Sorted, MapUpsert, Added;
    if HasPriceAt(ls, k, p) {
      UpsertAddsRefines(ls, p, q, k);
    } else {
      UpsertInsertsRefines(ls, p, q, k);
    }
  }

  /** What an upsert does to the map, field by field: 64-bit total, 32-bit order count, and no other price. */
  lemma UpsertFields(ls: seq<Level>, p: int, q: nat)
    requires Sorted(ls)
    ensures Sorted(Upserted(ls, p, q))
    ensures var m, m' := AsMap(ls), AsMap(Upserted(ls, p, q));
            && m'.Keys == m.Keys + {p}
            && (forall x :: x in m && x != p ==> m'[x] == m[x])
            && m'[p].price == p
            && m'[p].total == (if p in m then (m[p].total + q) % 0x1_0000_0000_0000_0000 else q)
            && m'[p].orders == (if p in m then (m[p].orders + 1) % 0x1_0000_0000 else 1)
  {
    hide Upserted, AsMap, Sorted;
    UpsertRefines(ls, p, q);
    if p in AsMap(ls) { OwnPrice(ls, p); }
  }

  lemma OwnPrice(ls: seq<Level>, p: int)
    requires Sorted(ls) && p in AsMap(ls)
    ensures AsMap(ls)[p].price == p
  {
  }

  lemma RemoveRefines(ls: seq<Level>, p: int)
    requires Sorted(ls)
    ensures Sorted(Pruned(ls, p)) && AsMap(Pruned(ls, p)) == MapRemoveIfEmpty(AsMap(ls), p)
  {
    hide LowerBound;
    LookupIsFind(ls, p);
    var k := LowerBound(ls, p);
    if HasPriceAt(ls, k, p) && ls[k].total == 0 {
      EraseRefines(ls, k);
    }
  }

  lemma ReduceRefines(ls: seq<Level>, p: int, f: nat)
    requires Sorted(ls)
    ensures Sorted(ReducedAt(ls, p, f)) && AsMap(ReducedAt(ls, p, f)) == MapReduce(AsMap(ls), p, f)
  {
    hide LowerBound;
    LookupIsFind(ls, p);
    var k := LowerBound(ls, p);
    if HasPriceAt(ls, k, p) && f <= ls[k].total {
      UpdateRefines(ls, k, Reduced(ls[k], f));
    }
  }

  /** `worst` is the level of the smallest price and `best` that of the largest. */
  lemma EndsAreExtremes(ls: seq<Level>)
    requires Sorted(ls) && ls != []
    ensures ls[0].price in AsMap(ls) && forall p :: p in AsMap(ls) ==> ls[0].price <= p
    ensures ls[|ls| - 1].price in AsMap(ls) && forall p :: p in AsMap(ls) ==> p <= ls[|ls| - 1].price
  {
    forall p | p in AsMap(ls) ensures ls[0].price <= p <= ls[|ls| - 1].price {
      var i :| 0 <= i < |ls| && ls[i] == AsMap(ls)[p];
    }
  }

  /** A sorted ladder is determined by the map it stands for. */
  lemma {:induction false} MapDeterminesLadder(a: seq<Level>, b: seq<Level>)
    requires Sorted(a) && Sorted(b) && AsMap(a) == AsMap(b)
    ensures a == b
  {
    if a == [] {
      if b != [] {
        EndsAreExtremes(b);
        assert false;
      }
    } else if b == [] {
      EndsAreExtremes(a);
      assert false;
    } else {
      EndsAreExtremes(a);
      EndsAreExtremes(b);
      WithoutBest(a);
      WithoutBest(b);
      MapDeterminesLadder(a[..|a| - 1], b[..|b| - 1]);
    }
  }

  lemma WithoutBest(ls: seq<Level>)
    requires Sorted(ls) && ls != []
    ensures Sorted(ls[..|ls| - 1]) && AsMap(ls[..|ls| - 1]) == AsMap(ls) - {ls[|ls| - 1].price}
  {
    EraseRefines(ls, |ls| - 1);
    assert Without(ls, |ls| - 1) == ls[..|ls| - 1];
  }

  // ----- Whole histories -----

  datatype LadderOp = DoUpsert(price: int, qty: nat) | DoReduce(price: int, qty: nat) | DoRemove(price: int)

  function Replay(ops: seq<LadderOp>): seq<Level> {
    if ops == [] then []
    else
      var ls := Replay(ops[..|ops| - 1]);
      match ops[|ops| - 1]
      case DoUpsert(p, q) => Upserted(ls, p, q)
      case DoReduce(p, f) => ReducedAt(ls, p, f)
      case DoRemove(p) => Pruned(ls, p)
  }

  function MapReplay(ops: seq<LadderOp>): map<int, Level> {
    if ops == [] then map[]
    else
      var m := MapReplay(ops[..|ops| - 1]);
      match ops[|ops| - 1]
      case DoUpsert(p, q) => MapUpsert(m, p, q)
      case DoReduce(p, f) => MapReduce(m, p, f)
      case DoRemove(p) => MapRemoveIfEmpty(m, p)
  }

  /** After every sequence of operations the ladder is sorted and stands for the map they build. */
  lemma {:induction false} ReplayRefines(ops: seq<LadderOp>)
    ensures Sorted(Replay(ops)) && AsMap(Replay(ops)) == MapReplay(ops)
  {
    if ops == [] {
    } else {
      ReplayRefines(ops[..|ops| - 1]);
      var ls := Replay(ops[..|ops| - 1]);
      match ops[|ops| - 1]
      case DoUpsert(p, q) => UpsertRefines(ls, p, q);
      case DoReduce(p, f) => ReduceRefines(ls, p, f);
      case DoRemove(p) => RemoveRefines(ls, p);
    }
  }

  // ----- The vector itself -----

  class FlatPriceLadder {
    var levels: seq<Level>

    constructor ()
      ensures levels == []
    {
      levels := [];
    }

    /** `std::lower_bound`, halving the range that is left. */
    method Search(p: int) returns (k: nat)
      requires Sorted(levels)
      ensures k == LowerBound(levels, p)
    {
      var first, len := 0, |levels|;
      while len > 0
        invariant 0 <= first <= first + len <= |levels|
        invariant forall i :: 0 <= i < first ==> levels[i].price < p
        invariant forall i :: first + len <= i < |levels| ==> levels[i].price >= p
      {
        var half := len / 2;
        if levels[first + half].price < p {
          first, len := first + half + 1, len - half - 1;
        } else {
          len := half;
        }
      }
      k := first;
      LowerBoundUnique(levels, p, k);
    }

    /** The level at price `p`, as the map gives it. */
    method Find(p: int) returns (r: Option<Level>)
      requires Sorted(levels)
      ensures r == if p in AsMap(levels) then Some(AsMap(levels)[p]) else None
    {
      var k := Search(p);
      LookupIsFind(levels, p);
      if k != |levels| && levels[k].price == p {
        return Some(levels[k]);
      }
      return None;
    }

    method Upsert(p: int, q: nat)
      requires Sorted(levels)
      modifies this
      ensures levels == Upserted(old(levels), p, q) && Sorted(levels)
    {
      UpsertSorted(levels, p, q);
      var k := Search(p);
      if k != |levels| && levels[k].price == p {
        levels := levels[k := Added(levels[k], q)];
      } else {
        levels := levels[..k] + [Level(p, q, 1)] + levels[k..];
      }
    }

    method RemoveIfEmpty(p: int)
      requires Sorted(levels)
      modifies this
      ensures levels == Pruned(old(levels), p) && Sorted(levels)
    {
      var k := Search(p);
      if k != |levels| && levels[k].price == p && levels[k].total == 0 {
        levels := levels[..k] + levels[k + 1..];
      }
    }

    /** The level of the highest price, if there is any. */
    method Best() returns (r: Option<Level>)
      requires Sorted(levels)
      ensures r.None? <==> levels == []
      ensures r.Some? ==> r.value == levels[|levels| - 1] && forall l :: l in levels ==> l.price <= r.value.price
    {
      if levels == [] { return None; }
      return Some(levels[|levels| - 1]);
    }

    /** The level of the lowest price, if there is any. */
    method Worst() returns (r: Option<Level>)
      requires Sorted(levels)
      ensures r.None? <==> levels == []
      ensures r.Some? ==> r.value == levels[0] && forall l :: l in levels ==> r.value.price <= l.price
    {
      if levels == [] { return None; }
      return Some(levels[0]);
    }
  }
}
