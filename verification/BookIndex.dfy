/** When a cancel finds its order: the id index and the pool against the history of allocations. */
module BookIndex {
  import opened Bits
  import opened BookModel

  /** The last event that put an id of residue `r` modulo `n` into a slot, or -1. */
  function LatestIn(es: seq<Event>, r: nat, n: nat): (k: int)
    requires n > 0
    ensures -1 <= k < |es|
    ensures k >= 0 ==> es[k].Allocated? && es[k].id % n == r
    ensures forall j :: k < j < |es| && es[j].Allocated? ==> es[j].id % n != r
  {
    if es == [] then -1
    else
      var e := es[|es| - 1];
      if e.Allocated? && e.id % n == r then |es| - 1 else LatestIn(es[..|es| - 1], r, n)
  }

  /** The last event that put an order into slot `s`, or -1. */
  function LatestAt(es: seq<Event>, s: nat): (k: int)
    ensures -1 <= k < |es|
    ensures k >= 0 ==> es[k].Allocated? && es[k].slot == s
    ensures forall j :: k < j < |es| && es[j].Allocated? ==> es[j].slot != s
  {
    if es == [] then -1
    else
      var e := es[|es| - 1];
      if e.Allocated? && e.slot == s then |es| - 1 else LatestAt(es[..|es| - 1], s)
  }

  lemma LatestInNext(es: seq<Event>, e: Event, r: nat, n: nat)
    requires n > 0
    ensures LatestIn(es + [e], r, n) == if e.Allocated? && e.id % n == r then |es| else LatestIn(es, r, n)
  {
    assert (es + [e])[..|es|] == es;
  }

  lemma LatestAtNext(es: seq<Event>, e: Event, s: nat)
    ensures LatestAt(es + [e], s) == if e.Allocated? && e.slot == s then |es| else LatestAt(es, s)
  {
    assert (es + [e])[..|es|] == es;
  }

  /** Ids are given out in increasing order, below the next one. */
  ghost predicate IdsInv(b: Book, es: seq<Event>) {
    && (forall i :: 0 <= i < |es| && es[i].Allocated? ==> 1 <= es[i].id < b.nextId && es[i].slot < |b.pool|)
    && (forall i, j :: 0 <= i < j < |es| && es[i].Allocated? && es[j].Allocated? ==> es[i].id < es[j].id)
  }

  /** Residue `r` of the index holds the slot of the latest id of that residue. */
  ghost predicate IndexAgrees(b: Book, es: seq<Event>, r: nat)
    requires Shaped(b) && r < |b.slotOf|
  {
    var k := LatestIn(es, r, |b.pool|); b.slotOf[r] == if k < 0 then NO_SLOT else es[k].slot
  }

  /** Slot `s` of the pool holds the latest id put into that slot. */
  ghost predicate PoolAgrees(b: Book, es: seq<Event>, s: nat)
    requires s < |b.pool|
  {
    var k := LatestAt(es, s); b.pool[s].id == if k < 0 then 0 else es[k].id
  }

  /** The index holds the slot of the latest id of each residue, the pool the latest id of each slot. */
  ghost predicate IndexInv(b: Book, es: seq<Event>)
    requires Shaped(b)
  {
    && IdsInv(b, es)
    && (forall r :: 0 <= r < |b.slotOf| ==> IndexAgrees(b, es, r))
    && (forall s :: 0 <= s < |b.pool| ==> PoolAgrees(b, es, s))
  }

  lemma IdsKept(b: Book, b': Book, es: seq<Event>, e: Event)
    requires Shaped(b) && Shaped(b') && IdsInv(b, es) && PoolEffect(b, b', e)
    ensures IdsInv(b', es + [e])
  {
  }

  lemma IndexEntryKept(b: Book, b': Book, es: seq<Event>, e: Event, r: nat)
    requires Shaped(b) && Shaped(b') && PoolEffect(b, b', e) && r < |b.slotOf| && IndexAgrees(b, es, r)
    ensures IndexAgrees(b', es + [e], r)
  {
    hide LatestIn;
    LatestInNext(es, e, r, |b.pool|);
  }

  lemma PoolEntryKept(b: Book, b': Book, es: seq<Event>, e: Event, s: nat)
    requires Shaped(b) && Shaped(b') && PoolEffect(b, b', e) && s < |b.pool| && PoolAgrees(b, es, s)
    ensures PoolAgrees(b', es + [e], s)
  {
    hide LatestAt;
    LatestAtNext(es, e, s);
  }

  lemma IndexKept(b: Book, b': Book, es: seq<Event>, e: Event)
    requires Shaped(b) && Shaped(b') && IndexInv(b, es) && PoolEffect(b, b', e)
    ensures IndexInv(b', es + [e])
  {
    hide IndexAgrees, PoolAgrees, IdsInv;
    IdsKept(b, b', es, e);
    forall r | 0 <= r < |b'.slotOf| ensures IndexAgrees(b', es + [e], r) { IndexEntryKept(b, b', es, e, r); }
    forall s | 0 <= s < |b'.pool| ensures PoolAgrees(b', es + [e], s) { PoolEntryKept(b, b', es, e, s); }
  }

  lemma {:induction false} HistoryIndexed(n: nat, ops: seq<Op>)
    requires IsPowerOfTwo(n) && n < NO_SLOT && Run(n, ops).Ran?
    ensures IndexInv(Run(n, ops).book, Run(n, ops).events)
  {
    if ops == [] {
    } else {
      HistoryIndexed(n, ops[..|ops| - 1]);
      var Ran(b, es) := Run(n, ops[..|ops| - 1]);
      var op := ops[|ops| - 1];
      ApplyKeepsShape(b, op);
      ApplyEffect(b, op);
      IndexKept(b, Apply(b, op).book, es, Apply(b, op).event);
    }
  }

  /** Event `k` gave `id` its slot, and no later one used the id's residue or that slot again. */
  ghost predicate NewestOccupant(es: seq<Event>, n: nat, id: nat, k: nat)
    requires n > 0
  {
    && k < |es| && es[k].Allocated? && es[k].id == id
    && forall j :: k < j < |es| && es[j].Allocated? ==> es[j].id % n != id % n && es[j].slot != es[k].slot
  }

  /**
   After every history `cancel_order(id)` succeeds exactly when `id` was allocated, is the newest
   allocated id of its residue class modulo MAX_ORDERS, and is the newest occupant of its slot.
   */
  lemma CancelSucceedsIff(n: nat, ops: seq<Op>, id: nat)
    requires IsPowerOfTwo(n) && n < NO_SLOT && Run(n, ops).Ran?
    ensures var Ran(b, es) := Run(n, ops);
            CancelOrder(b, id).event.Cancelled? <==> exists k: nat :: NewestOccupant(es, n, id, k)
  {
    HistoryIndexed(n, ops);
    var Ran(b, es) := Run(n, ops);
    CancelFinds(b, es, id);
  }

  lemma CancelFinds(b: Book, es: seq<Event>, id: nat)
    requires Shaped(b) && IndexInv(b, es)
    ensures CancelOrder(b, id).event.Cancelled? <==> exists k: nat :: NewestOccupant(es, |b.pool|, id, k)
  {
    var n := |b.pool|;
    var k := LatestIn(es, id % n, n);
    var slot := b.slotOf[Index(b, id)];
    assert IndexAgrees(b, es, id % n);
    if slot < n { assert PoolAgrees(b, es, slot); }
    if CancelOrder(b, id).event.Cancelled? {
      var m := LatestAt(es, slot);
      assert m >= 0 && es[m].id == id && es[k].slot == slot;
      assert NewestOccupant(es, n, id, k);
    }
    if j: nat :| NewestOccupant(es, n, id, j) {
      assert k == j;
      assert LatestAt(es, es[j].slot) == j;
    }
  }

  /** Id 0 and ids never given out always miss. */
  lemma StrangersAlwaysMiss(n: nat, ops: seq<Op>, id: nat)
    requires IsPowerOfTwo(n) && n < NO_SLOT && Run(n, ops).Ran?
    requires var es := Run(n, ops).events; id == 0 || forall i :: 0 <= i < |es| && es[i].Allocated? ==> es[i].id != id
    ensures CancelOrder(Run(n, ops).book, id) == Done(Run(n, ops).book, Missed(id))
  {
    HistoryIndexed(n, ops);
    CancelFinds(Run(n, ops).book, Run(n, ops).events, id);
  }
}
