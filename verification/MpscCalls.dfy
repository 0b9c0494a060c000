/** Every push and pop on the linked queue comes to its end, whatever the other threads do meanwhile. */
module MpscCalls {
  import opened Options
  import opened MpscQueue

  // ----- Pushes -----

  /** Only its own steps move a producer that is inside a push. */
  lemma OthersLeaveProducer<T>(s: State<T>, m: Move<T>, t: Thread)
    requires t in s.producers && m != Produce(t)
    ensures t in Step(s, m).producers && Step(s, m).producers[t] == s.producers[t]
  {
  }

  /** The first step of a push puts its item behind all others. */
  lemma ExchangeEnqueues<T>(s: State<T>, t: Thread)
    requires Inv(s) && t in s.producers && s.producers[t].Allocated?
    ensures var x, r := s.producers[t].item, Step(s, Produce(t));
            && r.pushed == s.pushed + [Entry(t, x, false)]
            && t in r.producers && r.producers[t].Swapped?
            && r.producers[t].item == x && r.producers[t].pos == |s.pushed|
  {
  }

  /** The second one makes it reachable, and the call is over. */
  lemma LinkReturns<T>(s: State<T>, t: Thread)
    requires Inv(s) && t in s.producers && s.producers[t].Swapped?
    ensures var Swapped(x, n, prev, pos) := s.producers[t];
            var r := Step(s, Produce(t));
            && r.producers == s.producers - {t} && prev in r.heap && r.heap[prev].next == Some(n)
            && pos < |s.pushed| && r.pushed == s.pushed[pos := Entry(t, x, true)]
  {
    assert ProducerInv(s, t);
  }

  /** How often the schedule moves producer `t`. */
  function Turns<T>(ms: seq<Move<T>>, t: Thread): nat {
    if ms == [] then 0 else (if ms[0] == Produce(t) then 1 else 0) + Turns(ms[1..], t)
  }

  lemma {:induction false} ProducerWaits<T>(s: State<T>, ms: seq<Move<T>>, t: Thread)
    requires Inv(s) && t in s.producers && Turns(ms, t) == 0
    ensures Inv(Run(s, ms)) && t in Run(s, ms).producers && Run(s, ms).producers[t] == s.producers[t]
    decreases |ms|
  {
    if ms == [] {
    } else {
      StepKeeps(s, ms[0]);
      OthersLeaveProducer(s, ms[0], t);
      ProducerWaits(Step(s, ms[0]), ms[1..], t);
    }
  }

  lemma {:induction false} RunAppend<T>(s: State<T>, a: seq<Move<T>>, b: seq<Move<T>>)
    ensures Run(s, a + b) == Run(Run(s, a), b)
    decreases |a|
  {
    if a == [] {
      assert a + b == b;
    } else {
      RunAppend(Step(s, a[0]), a[1..], b);
      assert (a + b)[1..] == a[1..] + b;
    }
  }

  lemma RunThen<T>(s: State<T>, a: seq<Move<T>>, m: Move<T>)
    ensures Run(s, a + [m]) == Step(Run(s, a), m)
  {
    RunAppend(s, a, [m]);
    assert [m][1..] == [];
  }

  /** The linked entry stays where the exchange put it. */
  ghost predicate Delivered<T>(s: State<T>, t: Thread, x: T) {
    exists i :: 0 <= i < |s.pushed| && s.pushed[i] == Entry(t, x, true)
  }

  /**
   Whatever the other threads do before and between, the two steps of a push that has its node put
   the item into the push order, make it reachable, and end the call.
   */
  lemma PushReturns<T>(s: State<T>, t: Thread, before: seq<Move<T>>, between: seq<Move<T>>)
    requires Inv(s) && t in s.producers && s.producers[t].Allocated? && Turns(before, t) == 0 && Turns(between, t) == 0
    ensures var r := Run(s, before + [Produce(t)] + between + [Produce(t)]);
            Inv(r) && t !in r.producers && Delivered(r, t, s.producers[t].item)
  {
    var x := s.producers[t].item;
    ProducerWaits(s, before, t);
    RunThen(s, before, Produce(t));
    var s1 := Run(s, before);
    var s2 := Step(s1, Produce(t));
    StepKeeps(s1, Produce(t));
    ExchangeEnqueues(s1, t);
    ProducerWaits(s2, between, t);
    var s3 := Run(s2, between);
    RunAppend(s, before + [Produce(t)], between);
    RunThen(s, before + [Produce(t)] + between, Produce(t));
    StepKeeps(s3, Produce(t));
    LinkReturns(s3, t);
    assert Step(s3, Produce(t)).pushed[s3.producers[t].pos] == Entry(t, x, true);
  }

  /** A push that begins at a free address has its node and its item. */
  lemma PushBegins<T>(s: State<T>, t: Thread, x: T, a: Addr)
    requires Inv(s) && t !in s.producers && a !in s.heap
    ensures var r := Step(s, StartPush(t, x, a));
            && t in r.producers && r.producers[t] == Allocated(x, a) && a in r.heap && r.allocs == s.allocs + 1
  {
  }

  // ----- Pops -----

  /** The consumer will deliver `x` after `k` more of its steps, of which the last deletes the old head. */
  ghost predicate PopDue<T>(s: State<T>, x: T, k: nat) {
    && Inv(s)
    && match s.consumer
       case Idle => false
       case AtHead(_) => k == 4 && NextIs(s, x)
       case AtNext(_, _) => k == 3 && NextIs(s, x)
       case HasData(_, _, _) => k == 2 && NextIs(s, x)
       case Moved(_, y) => k == 1 && y == x
  }

  /** The oldest value not yet popped is `x`, and its producer has stored the link. */
  ghost predicate NextIs<T>(s: State<T>, x: T) {
    |s.popped| < |s.pushed| && s.pushed[|s.popped|].linked && s.pushed[|s.popped|].item == x
  }

  lemma PopWaits<T>(s: State<T>, m: Move<T>, x: T, k: nat)
    requires PopDue(s, x, k) && !m.Consume?
    ensures var r := Step(s, m);
            PopDue(r, x, k) && r.popped == s.popped && r.frees == s.frees && r.consumer == s.consumer
  {
    StepKeeps(s, m);
    if m.Produce? && m.thread in s.producers { assert ProducerInv(s, m.thread); }
  }

  /** The last step of a pop: the old head is deleted, once, and the call is over. */
  lemma DeleteEndsPop<T>(s: State<T>)
    requires Inv(s) && s.consumer.Moved?
    ensures var r := Step(s, Consume);
            && r.consumer.Idle? && r.heap.Keys == s.heap.Keys - {s.consumer.h} && s.consumer.h in s.heap
            && r.frees == s.frees + 1 && r.popped == s.popped && r.pushed == s.pushed && r.producers == s.producers
  {
  }

  lemma LoadFindsNext<T>(s: State<T>)
    requires Inv(s) && s.consumer.AtHead? && |s.popped| < |s.pushed| && s.pushed[|s.popped|].linked
    ensures Step(s, Consume).consumer.AtNext?
  {
    assert LinkAt(s, 0);
  }

  lemma PopAdvances<T>(s: State<T>, x: T, k: nat)
    requires PopDue(s, x, k)
    ensures var r := Step(s, Consume);
            && (k > 1 ==> PopDue(r, x, k - 1) && r.frees == s.frees)
            && (k > 1 ==> !r.consumer.Idle? && r.consumer.h == s.consumer.h)
            && (k == 1 ==> Inv(r) && r.consumer.Idle? && r.frees == s.frees + 1 && s.consumer.h !in r.heap)
            && r.popped == (if k == 2 then s.popped + [x] else s.popped)
  {
    StepKeeps(s, Consume);
    if k == 4 { LoadFindsNext(s); }
    if k == 1 { DeleteEndsPop(s); }
  }

  function Consumes<T>(ms: seq<Move<T>>): nat {
    if ms == [] then 0 else (if ms[0].Consume? then 1 else 0) + Consumes(ms[1..])
  }

  /** What `j` of the `k` steps still to come have done. */
  ghost predicate PopMade<T>(s: State<T>, r: State<T>, x: T, k: nat, j: nat) {
    && !s.consumer.Idle? && !r.consumer.Idle? && r.consumer.h == s.consumer.h
    && r.popped == (if k >= 2 && k - j < 2 then s.popped + [x] else s.popped)
    && r.frees == s.frees
  }

  lemma DueIsBusy<T>(s: State<T>, x: T, k: nat)
    requires PopDue(s, x, k)
    ensures !s.consumer.Idle? && 1 <= k <= 4
  {
  }

  lemma {:induction false} PopProgress<T>(s: State<T>, ms: seq<Move<T>>, x: T, k: nat)
    requires PopDue(s, x, k) && Consumes(ms) < k
    ensures PopDue(Run(s, ms), x, k - Consumes(ms)) && PopMade(s, Run(s, ms), x, k, Consumes(ms))
    decreases |ms|
  {
    hide PopDue, Step;
    DueIsBusy(s, x, k);
    if ms == [] {
    } else {
      var s' := Step(s, ms[0]);
      if ms[0].Consume? {
        PopAdvances(s, x, k);
        PopProgress(s', ms[1..], x, k - 1);
      } else {
        PopWaits(s, ms[0], x, k);
        PopProgress(s', ms[1..], x, k);
      }
    }
  }

  /**
   A pop that starts when the oldest value's link is stored delivers that value, deletes one node and
   ends with its fourth step, whatever the producers do meanwhile.
   */
  lemma PopReturns<T>(s: State<T>, ms: seq<Move<T>>)
    requires Inv(s) && s.consumer.Idle? && |s.popped| < |s.pushed| && s.pushed[|s.popped|].linked && Consumes(ms) == 3
    ensures var r := Run(Step(s, StartPop), ms + [Consume]);
            && Inv(r) && r.consumer.Idle? && r.frees == s.frees + 1 && s.head !in r.heap
            && r.popped == s.popped + [s.pushed[|s.popped|].item]
  {
    var x, s1 := s.pushed[|s.popped|].item, Step(s, StartPop);
    StepKeeps(s, StartPop);
    PopProgress(s1, ms, x, 4);
    RunThen(s1, ms, Consume);
    PopAdvances(Run(s1, ms), x, 1);
  }

  // ----- Draining a queue at rest -----

  /** No thread is inside a call. */
  ghost predicate AtRest<T>(s: State<T>) {
    Inv(s) && s.producers == map[] && s.consumer.Idle?
  }

  /** At rest every exchange has its link. */
  lemma RestIsLinked<T>(s: State<T>, i: nat)
    requires AtRest(s) && i < |s.pushed|
    ensures s.pushed[i].linked
  {
  }

  function OnePop<T>(): seq<Move<T>> { [StartPop, Consume, Consume, Consume, Consume] }

  lemma RunPop<T>(s: State<T>)
    ensures Run(s, OnePop()) == Run(Step(s, StartPop), [Consume, Consume, Consume] + [Consume])
  {
    assert OnePop<T>()[1..] == [Consume, Consume, Consume] + [Consume];
  }

  lemma ThreeConsumes<T>()
    ensures Consumes<T>([Consume, Consume, Consume]) == 3
  {
    assert Consumes<T>([Consume]) == 1;
    assert Consumes<T>([Consume, Consume]) == 2;
  }

  lemma {:induction false} ConsumesLeaveRest<T>(s: State<T>, ms: seq<Move<T>>)
    requires forall i :: 0 <= i < |ms| ==> ms[i].Consume?
    ensures var r := Run(s, ms); r.producers == s.producers && r.pushed == s.pushed && r.allocs == s.allocs
    decreases |ms|
  {
    if ms == [] {
    } else {
      ConsumesLeaveRest(Step(s, ms[0]), ms[1..]);
    }
  }

  lemma StartPopLeaves<T>(s: State<T>)
    ensures var r := Step(s, StartPop); r.producers == s.producers && r.pushed == s.pushed && r.allocs == s.allocs
  {
  }

  lemma HeapCount<T>(s: State<T>)
    requires Inv(s)
    ensures s.allocs == s.frees + |s.heap|
  {
  }

  /**
   With no thread inside a call, a pop delivers the oldest value not yet popped, frees exactly one
   node, and leaves the queue at rest again.
   */
  lemma QuiescentPopDelivers<T>(s: State<T>)
    requires AtRest(s) && |s.popped| < |s.pushed|
    ensures var r := Run(s, OnePop());
            && AtRest(r) && r.pushed == s.pushed && r.popped == s.popped + [s.pushed[|s.popped|].item]
            && r.frees == s.frees + 1 && r.allocs == s.allocs && |r.heap| == |s.heap| - 1 && s.head !in r.heap
  {
    hide Inv, Run, Step;
    RestIsLinked(s, |s.popped|);
    ThreeConsumes<T>();
    PopReturns(s, [Consume, Consume, Consume]);
    RunPop(s);
    ConsumesLeaveRest(Step(s, StartPop), [Consume, Consume, Consume] + [Consume]);
    StartPopLeaves(s);
    HeapCount(s);
    HeapCount(Run(s, OnePop()));
  }

  function Pops<T>(k: nat): seq<Move<T>> {
    if k == 0 then [] else OnePop() + Pops(k - 1)
  }

  /** As many pops as there are values left deliver all of them, in order, and leave one node alive. */
  lemma {:induction false} DrainDelivers<T>(s: State<T>, k: nat)
    requires AtRest(s) && k == |s.pushed| - |s.popped|
    ensures var r := Run(s, Pops(k));
            && AtRest(r) && r.popped == Items(s.pushed) && r.pushed == s.pushed
            && r.frees == s.frees + k && |r.heap| == 1
    decreases k
  {
    hide AtRest, Run;
    if k == 0 {
      RestIsChain(s);
      RunNothing(s);
    } else {
      QuiescentPopDelivers(s);
      RunAppend(s, OnePop(), Pops(k - 1));
      DrainDelivers(Run(s, OnePop()), k - 1);
    }
  }

  lemma RunNothing<T>(s: State<T>)
    ensures Run(s, []) == s
  {
  }

  /** At rest the live nodes are the chain: the stub and one node for each value left. */
  lemma RestIsChain<T>(s: State<T>)
    requires AtRest(s)
    ensures |s.popped| <= |s.pushed| && |s.heap| == |s.pushed| - |s.popped| + 1
    ensures |s.pushed| == |s.popped| ==> s.popped == Items(s.pushed)
  {
    QuiescentIsListed(s);
    ListedCount(s.heap, s.chain);
  }

  lemma {:induction false} ListedCount<T>(heap: map<Addr, Node<T>>, chain: seq<Addr>)
    requires Listed(heap, chain)
    ensures |heap| == |chain|
    decreases |chain|
  {
    if chain == [] {
      assert heap.Keys == {};
    } else {
      ListedTail(heap, chain);
      ListedCount(heap - {chain[0]}, chain[1..]);
      assert heap.Keys == (heap - {chain[0]}).Keys + {chain[0]};
    }
  }
}
