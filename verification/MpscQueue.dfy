/**
 The multi-producer single-consumer linked queue as its threads run it. Memory is a map from the
 live addresses to nodes; every atomic access, allocation and delete is a step of its own, and a
 schedule interleaves the steps of any number of producers with those of the consumer. An address
 may be handed out again as soon as it has been freed.
 */
module MpscQueue {
  import opened Options

  type Addr = nat
  type Thread = nat

  datatype Node<T> = Node(data: T, next: Option<Addr>)

  /** A producer inside `push`. `pos` is auxiliary: the place its exchange took in the push order. */
  datatype Producer<T> =
    | Allocated(item: T, node: Addr)
    | Swapped(item: T, node: Addr, prev: Addr, pos: nat)

  /** The consumer inside `pop`, after each of its loads and stores. */
  datatype Consumer<T> =
    | Idle
    | AtHead(h: Addr)
    | AtNext(h: Addr, n: Addr)
    | HasData(h: Addr, n: Addr, item: T)
    | Moved(h: Addr, item: T)

  /** Auxiliary record of one exchange of `tail_`: who, what, and whether the link is stored yet. */
  datatype Entry<T> = Entry(thread: Thread, item: T, linked: bool)

  /**
   The queue's memory, its threads, and an auxiliary history that no step reads: the live chain
   from head_ to tail_, the exchanges in order, the values popped, what each thread set out to
   push, and how many nodes were allocated and freed. `fault` records an access to a dead node.
   */
  datatype State<T> = State(
    heap: map<Addr, Node<T>>, head: Addr, tail: Addr,
    producers: map<Thread, Producer<T>>, consumer: Consumer<T>, fault: bool,
    chain: seq<Addr>, pushed: seq<Entry<T>>, popped: seq<T>,
    issued: map<Thread, seq<T>>, allocs: nat, frees: nat)

  datatype Move<T> =
    | StartPush(thread: Thread, item: T, addr: Addr)
    | Produce(thread: Thread)
    | StartPop
    | Consume

  function Issued<T>(s: State<T>, t: Thread): seq<T> {
    if t in s.issued then s.issued[t] else []
  }

  /** `new Node{item}` at an address the allocator had free. */
  function Allocate<T>(s: State<T>, t: Thread, x: T, a: Addr): State<T> {
    if t in s.producers || a in s.heap then s
    else s.(heap := s.heap[a := Node(x, None)], producers := s.producers[t := Allocated(x, a)],
            issued := s.issued[t := Issued(s, t) + [x]], allocs := s.allocs + 1)
  }

  /** `prev = tail_.exchange(node)`. */
  function Exchange<T>(s: State<T>, t: Thread): State<T>
    requires t in s.producers && s.producers[t].Allocated?
  {
    var p := s.producers[t];
    s.(tail := p.node, producers := s.producers[t := Swapped(p.item, p.node, s.tail, |s.pushed|)],
       chain := s.chain + [p.node], pushed := s.pushed + [Entry(t, p.item, false)])
  }

  /** `prev->next.store(node)`. */
  function Link<T>(s: State<T>, t: Thread): State<T>
    requires t in s.producers && s.producers[t].Swapped?
  {
    var p := s.producers[t];
    if p.prev !in s.heap then s.(fault := true)
    else s.(heap := s.heap[p.prev := s.heap[p.prev].(next := Some(p.node))],
            producers := s.producers - {t},
            pushed := if p.pos < |s.pushed| then s.pushed[p.pos := s.pushed[p.pos].(linked := true)] else s.pushed)
  }

  /** `next = head->next.load()`, which ends the call when there is no next node. */
  function LoadNext<T>(s: State<T>): State<T>
    requires s.consumer.AtHead?
  {
    var h := s.consumer.h;
    if h !in s.heap then s.(fault := true)
    else s.(consumer := if s.heap[h].next.None? then Idle else AtNext(h, s.heap[h].next.value))
  }

  /** `data = next->data`. */
  function ReadData<T>(s: State<T>): State<T>
    requires s.consumer.AtNext?
  {
    var AtNext(h, n) := s.consumer;
    if n !in s.heap then s.(fault := true) else s.(consumer := HasData(h, n, s.heap[n].data))
  }

  /** `head_.store(next)`. */
  function StoreHead<T>(s: State<T>): State<T>
    requires s.consumer.HasData?
  {
    var HasData(h, n, x) := s.consumer;
    s.(head := n, consumer := Moved(h, x), popped := s.popped + [x],
       chain := if s.chain == [] then [] else s.chain[1..])
  }

  /** `delete head`. */
  function DeleteHead<T>(s: State<T>): State<T>
    requires s.consumer.Moved?
  {
    var h := s.consumer.h;
    if h !in s.heap then s.(fault := true)
    else s.(heap := s.heap - {h}, consumer := Idle, frees := s.frees + 1)
  }

  function Step<T>(s: State<T>, m: Move<T>): State<T> {
    match m
    case StartPush(t, x, a) => Allocate(s, t, x, a)
    case Produce(t) =>
      if t !in s.producers then s else if s.producers[t].Allocated? then Exchange(s, t) else Link(s, t)
    case StartPop => if s.consumer.Idle? then s.(consumer := AtHead(s.head)) else s
    case Consume =>
      match s.consumer
      case Idle => s
      case AtHead(_) => LoadNext(s)
      case AtNext(_, _) => ReadData(s)
      case HasData(_, _, _) => StoreHead(s)
      case Moved(_, _) => DeleteHead(s)
  }

  function Run<T>(s: State<T>, ms: seq<Move<T>>): State<T>
    decreases |ms|
  {
    if ms == [] then s else Run(Step(s, ms[0]), ms[1..])
  }

  /** The queue as constructed: one stub node, which head_ and tail_ both point to. */
  ghost predicate Init<T>(s: State<T>) {
    && s.heap.Keys == {s.head} && s.heap[s.head].next == None
    && s.tail == s.head && s.chain == [s.head]
    && s.producers == map[] && s.consumer == Idle && !s.fault
    && s.pushed == [] && s.popped == [] && s.issued == map[] && s.allocs == 1 && s.frees == 0
  }

  // ----- The invariant -----

  ghost predicate ChainInv<T>(s: State<T>) {
    && |s.chain| == |s.pushed| - |s.popped| + 1 > 0
    && s.chain[0] == s.head && s.chain[|s.chain| - 1] == s.tail
    && (forall i, j :: 0 <= i < j < |s.chain| ==> s.chain[i] != s.chain[j])
    && (forall i :: 0 <= i < |s.chain| ==> s.chain[i] in s.heap)
  }

  /** A node points to its successor exactly when the successor's producer has stored the link. */
  ghost predicate LinkAt<T>(s: State<T>, i: nat)
    requires ChainInv(s) && i < |s.chain| - 1
  {
    s.heap[s.chain[i]].next == if s.pushed[|s.popped| + i].linked then Some(s.chain[i + 1]) else None
  }

  ghost predicate LinkInv<T>(s: State<T>)
    requires ChainInv(s)
  {
    s.heap[s.tail].next == None && forall i {:trigger LinkAt(s, i)} :: 0 <= i < |s.chain| - 1 ==> LinkAt(s, i)
  }

  ghost predicate ValueInv<T>(s: State<T>)
    requires ChainInv(s)
  {
    && (forall i :: 0 <= i < |s.popped| ==> s.popped[i] == s.pushed[i].item && s.pushed[i].linked)
    && (forall i :: 0 < i < |s.chain| ==> s.heap[s.chain[i]].data == s.pushed[|s.popped| + i - 1].item)
  }

  ghost predicate ProducerInv<T>(s: State<T>, t: Thread)
    requires ChainInv(s) && t in s.producers
  {
    match s.producers[t]
    case Allocated(x, n) => n in s.heap && n !in s.chain && s.heap[n] == Node(x, None)
    case Swapped(x, n, p, j) =>
      && |s.popped| <= j < |s.pushed|
      && s.chain[j - |s.popped| + 1] == n && s.chain[j - |s.popped|] == p
      && s.pushed[j] == Entry(t, x, false)
  }

  ghost predicate ProducersInv<T>(s: State<T>)
    requires ChainInv(s)
  {
    && (forall t :: t in s.producers ==> ProducerInv(s, t))
    && (forall t, u :: t in s.producers && u in s.producers && t != u ==> s.producers[t].node != s.producers[u].node)
    && (forall j :: 0 <= j < |s.pushed| && !s.pushed[j].linked ==>
          var t := s.pushed[j].thread; t in s.producers && s.producers[t].Swapped? && s.producers[t].pos == j)
  }

  ghost predicate ConsumerInv<T>(s: State<T>)
    requires ChainInv(s)
  {
    match s.consumer
    case Idle => true
    case AtHead(h) => h == s.head
    case AtNext(h, n) => h == s.head && |s.chain| > 1 && n == s.chain[1] && s.pushed[|s.popped|].linked
    case HasData(h, n, x) =>
      h == s.head && |s.chain| > 1 && n == s.chain[1] && s.pushed[|s.popped|].linked && x == s.heap[n].data
    case Moved(h, x) =>
      && h in s.heap && h !in s.chain && s.heap[h].next.Some?
      && forall t :: t in s.producers ==> s.producers[t].node != h
  }

  ghost predicate Drafted<T>(s: State<T>, a: Addr) {
    exists t :: t in s.producers && s.producers[t].Allocated? && s.producers[t].node == a
  }

  /** Every live node is in the chain, not yet in it, or about to be deleted; the counts agree. */
  ghost predicate OwnedInv<T>(s: State<T>) {
    && s.allocs == s.frees + |s.heap|
    && (forall a :: a in s.heap ==> a in s.chain || Drafted(s, a) || (s.consumer.Moved? && s.consumer.h == a))
  }

  /** The items of one thread among a list of exchanges. */
  function Of<T>(es: seq<Entry<T>>, t: Thread): seq<T> {
    if es == [] then []
    else Of(es[..|es| - 1], t) + (if es[|es| - 1].thread == t then [es[|es| - 1].item] else [])
  }

  /** A thread's exchanges, then the item it has in hand, are the items it set out to push. */
  ghost predicate OrderInv<T>(s: State<T>) {
    forall t :: Of(s.pushed, t) + InHand(s, t) == Issued(s, t)
  }

  function InHand<T>(s: State<T>, t: Thread): seq<T> {
    if t in s.producers && s.producers[t].Allocated? then [s.producers[t].item] else []
  }

  ghost predicate Inv<T>(s: State<T>) {
    && !s.fault
    && ChainInv(s) && LinkInv(s) && ValueInv(s) && ProducersInv(s) && ConsumerInv(s) && OwnedInv(s) && OrderInv(s)
  }

  // ----- Every step keeps it -----

  lemma AllocateShape<T>(s: State<T>, t: Thread, x: T, a: Addr)
    requires ChainInv(s) && LinkInv(s) && ValueInv(s) && a !in s.heap
    ensures var s' := Allocate(s, t, x, a); ChainInv(s') && LinkInv(s') && ValueInv(s')
  {
    var s' := Allocate(s, t, x, a);
    forall i | 0 <= i < |s'.chain| - 1 ensures LinkAt(s', i) { assert LinkAt(s, i); }
  }

  lemma AllocateProducers<T>(s: State<T>, t: Thread, x: T, a: Addr)
    requires ChainInv(s) && ProducersInv(s) && a !in s.heap && t !in s.producers && ChainInv(Allocate(s, t, x, a))
    ensures ProducersInv(Allocate(s, t, x, a))
  {
    var s' := Allocate(s, t, x, a);
    forall u | u in s.producers ensures ProducerInv(s', u) && s.producers[u].node != a {
      assert ProducerInv(s, u);
    }
  }

  lemma AllocateConsumer<T>(s: State<T>, t: Thread, x: T, a: Addr)
    requires ChainInv(s) && ConsumerInv(s) && a !in s.heap && t !in s.producers && ChainInv(Allocate(s, t, x, a))
    ensures ConsumerInv(Allocate(s, t, x, a))
  {
  }

  /** A step that leaves thread `t`'s neighbours alone leaves their drafts alone. */
  lemma DraftKept<T>(s: State<T>, s': State<T>, t: Thread, a: Addr)
    requires Drafted(s, a)
    requires forall u :: u in s.producers && u != t ==> u in s'.producers && s'.producers[u] == s.producers[u]
    ensures Drafted(s', a) || (t in s.producers && s.producers[t].Allocated? && s.producers[t].node == a)
  {
    var u :| u in s.producers && s.producers[u].Allocated? && s.producers[u].node == a;
    if u != t { assert u in s'.producers && s'.producers[u] == s.producers[u]; }
  }

  lemma AllocateOwned<T>(s: State<T>, t: Thread, x: T, a: Addr)
    requires OwnedInv(s) && a !in s.heap && t !in s.producers
    ensures OwnedInv(Allocate(s, t, x, a))
  {
    var s' := Allocate(s, t, x, a);
    OneMoreKey(s.heap, a, Node(x, None));
    assert s'.producers[t].node == a && Drafted(s', a);
    forall b | b in s.heap && Drafted(s, b) ensures Drafted(s', b) { DraftKept(s, s', t, b); }
    hide Drafted;
  }

  lemma OneMoreKey<T>(heap: map<Addr, Node<T>>, a: Addr, node: Node<T>)
    requires a !in heap
    ensures |heap[a := node]| == |heap| + 1
  {
    assert heap[a := node].Keys == heap.Keys + {a};
  }

  lemma AllocateOrder<T>(s: State<T>, t: Thread, x: T, a: Addr)
    requires OrderInv(s) && a !in s.heap && t !in s.producers
    ensures OrderInv(Allocate(s, t, x, a))
  {
  }

  lemma ExchangeShape<T>(s: State<T>, t: Thread)
    requires ChainInv(s) && LinkInv(s) && ValueInv(s)
    requires t in s.producers && s.producers[t].Allocated? && ProducerInv(s, t)
    ensures var s' := Exchange(s, t); ChainInv(s') && LinkInv(s') && ValueInv(s')
  {
    var s' := Exchange(s, t);
    forall i | 0 <= i < |s'.chain| - 1 ensures LinkAt(s', i) {
      if i < |s.chain| - 1 { assert LinkAt(s, i); }
    }
  }

  lemma ExchangeConsumer<T>(s: State<T>, t: Thread)
    requires ChainInv(s) && ProducersInv(s) && ConsumerInv(s) && t in s.producers && s.producers[t].Allocated?
    requires ChainInv(Exchange(s, t))
    ensures ConsumerInv(Exchange(s, t))
  {
    assert ProducerInv(s, t);
  }

  lemma ExchangeProducers<T>(s: State<T>, t: Thread)
    requires ChainInv(s) && ProducersInv(s) && t in s.producers && s.producers[t].Allocated?
    requires ChainInv(Exchange(s, t))
    ensures ProducersInv(Exchange(s, t))
  {
    var s' := Exchange(s, t);
    assert ProducerInv(s, t);
    forall u | u in s.producers ensures ProducerInv(s', u) {
      assert ProducerInv(s, u);
    }
  }

  lemma ExchangeOwned<T>(s: State<T>, t: Thread)
    requires OwnedInv(s) && t in s.producers && s.producers[t].Allocated?
    ensures OwnedInv(Exchange(s, t))
  {
    var s' := Exchange(s, t);
    assert s.producers[t].node in s'.chain by { assert s'.chain[|s.chain|] == s.producers[t].node; }
    forall b | b in s.heap && Drafted(s, b) ensures Drafted(s', b) || b in s'.chain { DraftKept(s, s', t, b); }
  }

  lemma ExchangeOrder<T>(s: State<T>, t: Thread)
    requires OrderInv(s) && t in s.producers && s.producers[t].Allocated?
    ensures OrderInv(Exchange(s, t))
  {
    var s' := Exchange(s, t);
    assert s'.pushed[..|s.pushed|] == s.pushed;
    forall u ensures Of(s'.pushed, u) + InHand(s', u) == Issued(s', u) {
      assert Of(s.pushed, u) + InHand(s, u) == Issued(s, u);
    }
  }

  lemma LinkShape<T>(s: State<T>, t: Thread)
    requires ChainInv(s) && LinkInv(s) && ValueInv(s)
    requires t in s.producers && s.producers[t].Swapped? && ProducerInv(s, t)
    ensures var s' := Link(s, t); !s'.fault == !s.fault && ChainInv(s') && LinkInv(s') && ValueInv(s')
  {
    var s' := Link(s, t);
    forall i | 0 <= i < |s'.chain| - 1 ensures LinkAt(s', i) { assert LinkAt(s, i); }
  }

  lemma LinkConsumer<T>(s: State<T>, t: Thread)
    requires ChainInv(s) && ProducersInv(s) && ConsumerInv(s) && t in s.producers && s.producers[t].Swapped?
    requires ChainInv(Link(s, t))
    ensures ConsumerInv(Link(s, t))
  {
    assert ProducerInv(s, t);
  }

  lemma LinkProducers<T>(s: State<T>, t: Thread)
    requires ChainInv(s) && ProducersInv(s) && t in s.producers && s.producers[t].Swapped?
    requires ChainInv(Link(s, t))
    ensures ProducersInv(Link(s, t))
  {
    var s' := Link(s, t);
    assert ProducerInv(s, t);
    forall u | u in s'.producers ensures ProducerInv(s', u) {
      assert ProducerInv(s, u);
    }
  }

  lemma LinkOwned<T>(s: State<T>, t: Thread)
    requires OwnedInv(s) && t in s.producers && s.producers[t].Swapped? && s.producers[t].prev in s.heap
    ensures OwnedInv(Link(s, t))
  {
    var s' := Link(s, t);
    forall b | b in s.heap && Drafted(s, b) ensures Drafted(s', b) { DraftKept(s, s', t, b); }
    assert s'.heap.Keys == s.heap.Keys;
  }

  lemma {:induction false} OfIgnoresLinks<T>(es: seq<Entry<T>>, fs: seq<Entry<T>>, t: Thread)
    requires |es| == |fs| && forall i :: 0 <= i < |es| ==> es[i].thread == fs[i].thread && es[i].item == fs[i].item
    ensures Of(es, t) == Of(fs, t)
  {
    if es == [] {
    } else {
      OfIgnoresLinks(es[..|es| - 1], fs[..|fs| - 1], t);
    }
  }

  lemma LinkOrder<T>(s: State<T>, t: Thread)
    requires OrderInv(s) && t in s.producers && s.producers[t].Swapped?
    ensures OrderInv(Link(s, t))
  {
    var s' := Link(s, t);
    forall u ensures Of(s'.pushed, u) + InHand(s', u) == Issued(s', u) {
      assert Of(s.pushed, u) + InHand(s, u) == Issued(s, u);
      OfIgnoresLinks(s.pushed, s'.pushed, u);
    }
  }

  lemma OrderKept<T>(s: State<T>, s': State<T>)
    requires OrderInv(s) && s'.pushed == s.pushed && s'.producers == s.producers && s'.issued == s.issued
    ensures OrderInv(s')
  {
    forall t ensures Of(s'.pushed, t) + InHand(s', t) == Issued(s', t) {
      assert Of(s.pushed, t) + InHand(s, t) == Issued(s, t);
    }
  }

  /** A step that only moves the consumer on keeps everything but the consumer's own part. */
  lemma ConsumerShape<T>(s: State<T>, c: Consumer<T>)
    requires ChainInv(s) && LinkInv(s) && ValueInv(s)
    ensures var s' := s.(consumer := c); ChainInv(s') && LinkInv(s') && ValueInv(s')
  {
    var s' := s.(consumer := c);
    forall i | 0 <= i < |s'.chain| - 1 ensures LinkAt(s', i) { assert LinkAt(s, i); }
  }

  lemma ConsumerThreads<T>(s: State<T>, c: Consumer<T>)
    requires ChainInv(s) && ProducersInv(s)
    ensures var s' := s.(consumer := c); ChainInv(s') && ProducersInv(s')
  {
    var s' := s.(consumer := c);
    forall u | u in s'.producers ensures ProducerInv(s', u) { assert ProducerInv(s, u); }
  }

  lemma ConsumerOwned<T>(s: State<T>, c: Consumer<T>)
    requires OwnedInv(s) && OrderInv(s) && !s.consumer.Moved?
    ensures var s' := s.(consumer := c); OwnedInv(s') && OrderInv(s')
  {
    var s' := s.(consumer := c);
    forall b | b in s.heap && Drafted(s, b) ensures Drafted(s', b) { DraftKept(s, s', 0, b); }
    OrderKept(s, s');
  }

  lemma ConsumerMoves<T>(s: State<T>, c: Consumer<T>)
    requires Inv(s) && !s.consumer.Moved?
    requires ConsumerInv(s.(consumer := c))
    ensures Inv(s.(consumer := c))
  {
    ConsumerShape(s, c);
    ConsumerThreads(s, c);
    ConsumerOwned(s, c);
  }

  lemma LoadNextKeeps<T>(s: State<T>)
    requires Inv(s) && s.consumer.AtHead?
    ensures Inv(LoadNext(s))
  {
    if |s.chain| > 1 { assert LinkAt(s, 0); }
    ConsumerMoves(s, LoadNext(s).consumer);
  }

  lemma StoreHeadShape<T>(s: State<T>)
    requires ChainInv(s) && LinkInv(s) && ValueInv(s) && ConsumerInv(s) && s.consumer.HasData?
    ensures var s' := StoreHead(s); ChainInv(s') && LinkInv(s') && ValueInv(s')
  {
    var s' := StoreHead(s);
    assert forall i :: 0 <= i < |s'.chain| ==> s'.chain[i] == s.chain[i + 1];
    forall i | 0 <= i < |s'.chain| - 1 ensures LinkAt(s', i) { assert LinkAt(s, i + 1); }
  }

  lemma StoreHeadThreads<T>(s: State<T>)
    requires ChainInv(s) && LinkInv(s) && ProducersInv(s) && ConsumerInv(s) && s.consumer.HasData?
    requires ChainInv(StoreHead(s))
    ensures var s' := StoreHead(s); ProducersInv(s') && ConsumerInv(s')
  {
    assert LinkAt(s, 0);
    var s' := StoreHead(s);
    assert forall i :: 0 <= i < |s'.chain| ==> s'.chain[i] == s.chain[i + 1];
    forall u | u in s.producers ensures ProducerInv(s', u) && s.producers[u].node != s.head {
      assert ProducerInv(s, u);
    }
  }

  lemma StoreHeadOwned<T>(s: State<T>)
    requires ChainInv(s) && ConsumerInv(s) && OwnedInv(s) && OrderInv(s) && s.consumer.HasData?
    ensures OwnedInv(StoreHead(s)) && OrderInv(StoreHead(s))
  {
    var s' := StoreHead(s);
    assert s.chain == [s.head] + s'.chain;
    forall b | b in s.heap && Drafted(s, b) ensures Drafted(s', b) { DraftKept(s, s', 0, b); }
    OrderKept(s, s');
  }

  lemma DeleteHeadShape<T>(s: State<T>)
    requires ChainInv(s) && LinkInv(s) && ValueInv(s) && ConsumerInv(s) && s.consumer.Moved?
    ensures var s' := DeleteHead(s); ChainInv(s') && LinkInv(s') && ValueInv(s')
  {
    var s' := DeleteHead(s);
    forall i | 0 <= i < |s'.chain| - 1 ensures LinkAt(s', i) { assert LinkAt(s, i); }
  }

  lemma DeleteHeadThreads<T>(s: State<T>)
    requires ChainInv(s) && ProducersInv(s) && ConsumerInv(s) && s.consumer.Moved? && ChainInv(DeleteHead(s))
    ensures ProducersInv(DeleteHead(s))
  {
    var s' := DeleteHead(s);
    forall u | u in s.producers ensures ProducerInv(s', u) { assert ProducerInv(s, u); }
  }

  lemma DeleteHeadOwned<T>(s: State<T>)
    requires ChainInv(s) && ConsumerInv(s) && OwnedInv(s) && OrderInv(s) && s.consumer.Moved?
    ensures OwnedInv(DeleteHead(s)) && OrderInv(DeleteHead(s))
  {
    var s' := DeleteHead(s);
    forall b | b in s.heap && Drafted(s, b) ensures Drafted(s', b) { DraftKept(s, s', 0, b); }
    assert s'.heap.Keys == s.heap.Keys - {s.consumer.h};
    OrderKept(s, s');
  }

  lemma ReadDataKeeps<T>(s: State<T>)
    requires Inv(s) && s.consumer.AtNext?
    ensures Inv(ReadData(s))
  {
    ConsumerMoves(s, ReadData(s).consumer);
  }

  lemma StoreHeadKeeps<T>(s: State<T>)
    requires Inv(s) && s.consumer.HasData?
    ensures Inv(StoreHead(s))
  {
    StoreHeadShape(s);
    StoreHeadThreads(s);
    StoreHeadOwned(s);
  }

  lemma DeleteHeadKeeps<T>(s: State<T>)
    requires Inv(s) && s.consumer.Moved?
    ensures Inv(DeleteHead(s))
  {
    DeleteHeadShape(s);
    DeleteHeadThreads(s);
    DeleteHeadOwned(s);
  }

  lemma ConsumeKeeps<T>(s: State<T>)
    requires Inv(s)
    ensures Inv(Step(s, Consume))
  {
    hide Inv;
    match s.consumer
    case Idle =>
    case AtHead(_) => LoadNextKeeps(s);
    case AtNext(_, _) => ReadDataKeeps(s);
    case HasData(_, _, _) => StoreHeadKeeps(s);
    case Moved(_, _) => DeleteHeadKeeps(s);
  }

  lemma ProduceKeeps<T>(s: State<T>, t: Thread)
    requires Inv(s) && t in s.producers
    ensures Inv(Step(s, Produce(t)))
  {
    assert ProducerInv(s, t);
    if s.producers[t].Allocated? {
      ExchangeShape(s, t);
      ExchangeProducers(s, t);
      ExchangeConsumer(s, t);
      ExchangeOwned(s, t);
      ExchangeOrder(s, t);
    } else {
      LinkShape(s, t);
      LinkProducers(s, t);
      LinkConsumer(s, t);
      LinkOwned(s, t);
      LinkOrder(s, t);
    }
  }

  lemma StartPushKeeps<T>(s: State<T>, t: Thread, x: T, a: Addr)
    requires Inv(s)
    ensures Inv(Allocate(s, t, x, a))
  {
    if t !in s.producers && a !in s.heap {
      AllocateShape(s, t, x, a);
      AllocateProducers(s, t, x, a);
      AllocateConsumer(s, t, x, a);
      AllocateOwned(s, t, x, a);
      AllocateOrder(s, t, x, a);
    }
  }

  lemma StepKeeps<T>(s: State<T>, m: Move<T>)
    requires Inv(s)
    ensures Inv(Step(s, m))
  {
    match m
    case StartPush(t, x, a) => StartPushKeeps(s, t, x, a);
    case Produce(t) => if t in s.producers { ProduceKeeps(s, t); }
    case StartPop => if s.consumer.Idle? { ConsumerMoves(s, AtHead(s.head)); }
    case Consume => ConsumeKeeps(s);
  }

  lemma InitInv<T>(s: State<T>)
    requires Init(s)
    ensures Inv(s)
  {
    assert |s.heap.Keys| == 1;
  }

  lemma {:induction false} RunKeeps<T>(s: State<T>, ms: seq<Move<T>>)
    requires Inv(s)
    ensures Inv(Run(s, ms))
    decreases |ms|
  {
    if ms == [] {
    } else {
      StepKeeps(s, ms[0]);
      RunKeeps(Step(s, ms[0]), ms[1..]);
    }
  }

  // ----- What every schedule guarantees -----

  function Items<T>(es: seq<Entry<T>>): (r: seq<T>)
    ensures |r| == |es| && forall i :: 0 <= i < |es| ==> r[i] == es[i].item
  {
    seq(|es|, i requires 0 <= i < |es| => es[i].item)
  }

  /**
   Under every interleaving the values popped are a prefix of the values pushed, in the order of
   the exchanges of tail_: nothing is lost, duplicated or reordered.
   */
  lemma PoppedInExchangeOrder<T>(s: State<T>, ms: seq<Move<T>>)
    requires Init(s)
    ensures var r := Run(s, ms); r.popped <= Items(r.pushed)
  {
    InitInv(s);
    RunKeeps(s, ms);
  }

  lemma {:induction false} OfPrefix<T>(es: seq<Entry<T>>, k: nat, t: Thread)
    requires k <= |es|
    ensures Of(es[..k], t) <= Of(es, t)
    decreases |es|
  {
    if k < |es| {
      OfPrefix(es[..|es| - 1], k, t);
      assert es[..|es| - 1][..k] == es[..k];
    } else {
      assert es[..k] == es;
    }
  }

  /** Under every interleaving each producer's items come out in the order it issued them. */
  lemma ProducerOrderKept<T>(s: State<T>, ms: seq<Move<T>>, t: Thread)
    requires Init(s)
    ensures var r := Run(s, ms); |r.popped| <= |r.pushed| && Of(r.pushed[..|r.popped|], t) <= Issued(r, t)
  {
    InitInv(s);
    RunKeeps(s, ms);
    var r := Run(s, ms);
    OfPrefix(r.pushed, |r.popped|, t);
    assert Of(r.pushed, t) + InHand(r, t) == Issued(r, t);
  }

  /**
   No step of any interleaving touches a freed node, and head_, tail_ and the `prev` of a producer
   suspended between its exchange and its link are all live.
   */
  lemma NoDeadAccess<T>(s: State<T>, ms: seq<Move<T>>)
    requires Init(s)
    ensures var r := Run(s, ms);
            && !r.fault && r.head in r.heap && r.tail in r.heap
            && forall t :: t in r.producers && r.producers[t].Swapped? ==>
                 r.producers[t].prev in r.heap && r.heap[r.producers[t].prev].next == None
  {
    InitInv(s);
    RunKeeps(s, ms);
    var r := Run(s, ms);
    forall t | t in r.producers && r.producers[t].Swapped?
      ensures r.producers[t].prev in r.heap && r.heap[r.producers[t].prev].next == None
    {
      SuspendedPrev(r, t);
    }
  }

  /** A node is deleted only when its link has been stored, so no producer has a store into it still to come. */
  lemma DeletedOnlyWhenLinked<T>(s: State<T>, ms: seq<Move<T>>)
    requires Init(s) && Run(s, ms).consumer.Moved?
    ensures var r := Run(s, ms);
            && r.consumer.h in r.heap && r.heap[r.consumer.h].next.Some?
            && forall t :: t in r.producers && r.producers[t].Swapped? ==> r.producers[t].prev != r.consumer.h
  {
    InitInv(s);
    RunKeeps(s, ms);
    var r := Run(s, ms);
    forall t | t in r.producers && r.producers[t].Swapped? ensures r.producers[t].prev != r.consumer.h {
      SuspendedPrev(r, t);
    }
  }

  lemma SuspendedPrev<T>(s: State<T>, t: Thread)
    requires ChainInv(s) && LinkInv(s) && ProducersInv(s) && t in s.producers && s.producers[t].Swapped?
    ensures s.producers[t].prev in s.heap && s.heap[s.producers[t].prev].next == None
  {
    assert ProducerInv(s, t);
    assert LinkAt(s, s.producers[t].pos - |s.popped|);
  }

  /**
   A pop answers "empty" exactly when everything pushed has been popped, or the producer of the
   next value is suspended between its exchange and its link.
   */
  lemma EmptyAnswer<T>(s: State<T>, ms: seq<Move<T>>)
    requires Init(s) && Run(s, ms).consumer.AtHead?
    ensures var r := Run(s, ms);
            LoadNext(r).consumer.Idle? <==>
              || |r.pushed| == |r.popped|
              || exists t :: t in r.producers && r.producers[t].Swapped? && r.producers[t].prev == r.head
  {
    InitInv(s);
    RunKeeps(s, ms);
    EmptyMeans(Run(s, ms));
  }

  lemma EmptyMeans<T>(s: State<T>)
    requires ChainInv(s) && LinkInv(s) && ProducersInv(s) && ConsumerInv(s) && s.consumer.AtHead?
    ensures LoadNext(s).consumer.Idle? <==>
              || |s.pushed| == |s.popped|
              || exists t :: t in s.producers && s.producers[t].Swapped? && s.producers[t].prev == s.head
  {
    if |s.chain| > 1 {
      assert LinkAt(s, 0);
      if s.pushed[|s.popped|].linked {
        forall t | t in s.producers && s.producers[t].Swapped? ensures s.producers[t].prev != s.head {
          assert ProducerInv(s, t);
        }
      } else {
        var t := s.pushed[|s.popped|].thread;
        assert ProducerInv(s, t);
      }
    }
  }

  lemma RunOne<T>(s: State<T>, ms: seq<Move<T>>)
    requires ms != []
    ensures Run(s, ms) == Run(Step(s, ms[0]), ms[1..])
  {
  }

  /** Two producers swap, and only the second one links. */
  lemma SecondLinks<T>(s: State<T>, x: T, a: Addr, y: T, b: Addr)
    requires Init(s) && a != b && a !in s.heap && b !in s.heap
    ensures var s1 := Step(Step(s, StartPush(1, x, a)), Produce(1));
            var s2 := Step(Step(s1, StartPush(2, y, b)), Produce(2));
            var r := Step(s2, Produce(2));
            && r.pushed == [Entry(1, x, false), Entry(2, y, true)] && r.popped == [] && 2 !in r.producers
            && r.consumer.Idle? && r.head in r.heap && r.heap[r.head].next.None?
  {
    var s1 := Step(Step(s, StartPush(1, x, a)), Produce(1));
    assert s1.pushed == [Entry(1, x, false)] && s1.tail == a && a in s1.heap && s1.heap[s1.head].next.None?;
    var s2 := Step(Step(s1, StartPush(2, y, b)), Produce(2));
    assert s2.producers[2] == Swapped(y, b, a, 1) && s2.pushed == [Entry(1, x, false), Entry(2, y, false)];
  }

  /**
   The second case does happen: for all values and addresses there is a schedule in which one push
   has returned, its value is not popped, and a pop that starts after it answers "empty".
   */
  lemma ReturnedPushIsHidden<T>(s: State<T>, x: T, a: Addr, y: T, b: Addr) returns (ms: seq<Move<T>>)
    requires Init(s) && a != b && a !in s.heap && b !in s.heap
    ensures var r := Run(s, ms + [StartPop]);
            && 2 !in r.producers && r.pushed == [Entry(1, x, false), Entry(2, y, true)] && r.popped == []
            && r.consumer.AtHead? && LoadNext(r).consumer.Idle?
  {
    ms := [StartPush(1, x, a), Produce(1), StartPush(2, y, b), Produce(2), Produce(2)];
    SecondLinks(s, x, a, y, b);
    hide Step;
    var all := ms + [StartPop];
    var s1 := Step(s, all[0]);
    var s2 := Step(s1, all[1]);
    var s3 := Step(s2, all[2]);
    var s4 := Step(s3, all[3]);
    var s5 := Step(s4, all[4]);
    calc {
      Run(s, all);
      { RunOne(s, all); }
      Run(s1, all[1..]);
      { RunOne(s1, all[1..]); assert all[1..][1..] == all[2..]; }
      Run(s2, all[2..]);
      { RunOne(s2, all[2..]); assert all[2..][1..] == all[3..]; }
      Run(s3, all[3..]);
      { RunOne(s3, all[3..]); assert all[3..][1..] == all[4..]; }
      Run(s4, all[4..]);
      { RunOne(s4, all[4..]); assert all[4..][1..] == [StartPop]; }
      Run(s5, [StartPop]);
      { RunOne(s5, [StartPop]); }
      Step(s5, StartPop);
    }
    StartsPop(s5);
  }

  lemma StartsPop<T>(s: State<T>)
    requires s.consumer.Idle?
    ensures Step(s, StartPop) == s.(consumer := AtHead(s.head))
  {
  }

  /** `chain` lists the whole heap, each node pointing to the next and the last to nothing. */
  ghost predicate Listed<T>(heap: map<Addr, Node<T>>, chain: seq<Addr>) {
    && (forall i :: 0 <= i < |chain| ==> chain[i] in heap)
    && (forall i, j :: 0 <= i < j < |chain| ==> chain[i] != chain[j])
    && (forall a :: a in heap ==> a in chain)
    && (forall i :: 0 <= i < |chain| ==> PointsOn(heap, chain, i))
  }

  ghost predicate PointsOn<T>(heap: map<Addr, Node<T>>, chain: seq<Addr>, i: nat)
    requires i < |chain| && chain[i] in heap
  {
    heap[chain[i]].next == if i < |chain| - 1 then Some(chain[i + 1]) else None
  }

  lemma QuiescentIsListed<T>(s: State<T>)
    requires ChainInv(s) && LinkInv(s) && ProducersInv(s) && OwnedInv(s) && s.producers == map[] && s.consumer.Idle?
    ensures Listed(s.heap, s.chain)
  {
    forall i | 0 <= i < |s.chain| ensures PointsOn(s.heap, s.chain, i) {
      if i < |s.chain| - 1 { assert LinkAt(s, i); }
    }
  }

  lemma ListedTail<T>(heap: map<Addr, Node<T>>, chain: seq<Addr>)
    requires chain != [] && Listed(heap, chain)
    ensures Listed(heap - {chain[0]}, chain[1..])
  {
    forall i | 0 <= i < |chain[1..]|
      ensures chain[1..][i] in heap - {chain[0]} && PointsOn(heap - {chain[0]}, chain[1..], i)
    {
      assert PointsOn(heap, chain, i + 1);
    }
  }

  /**
   The destructor, run once no thread is inside a call: it walks the list from head_ and deletes
   every node it meets. It never meets a freed node, no node stays live, and over the queue's
   lifetime as many nodes were freed as allocated.
   */
  method Destroy<T>(s: State<T>) returns (heap: map<Addr, Node<T>>, frees: nat)
    requires Inv(s) && s.producers == map[] && s.consumer.Idle?
    ensures heap == map[] && frees == s.allocs
  {
    QuiescentIsListed(s);
    var freed: nat;
    heap, freed := DeleteFrom(s.heap, s.head, s.chain);
    frees := s.frees + freed;
  }

  method DeleteFrom<T>(memory: map<Addr, Node<T>>, head: Addr, ghost chain: seq<Addr>)
    returns (heap: map<Addr, Node<T>>, freed: nat)
    requires chain != [] && chain[0] == head && Listed(memory, chain)
    ensures heap == map[] && freed == |memory|
  {
    heap, freed := memory, 0;
    var node := Some(head);
    ghost var rest := chain;
    while node.Some?
      invariant Listed(heap, rest)
      invariant node == if rest == [] then None else Some(rest[0])
      invariant freed + |heap| == |memory|
      decreases rest
    {
      var a := node.value;
      assert PointsOn(heap, rest, 0);
      ListedTail(heap, rest);
      assert heap.Keys == (heap - {a}).Keys + {a};
      node := heap[a].next;
      heap := heap - {a};
      freed := freed + 1;
      rest := rest[1..];
    }
    assert heap.Keys == {};
  }
}
