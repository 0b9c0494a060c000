/**
 The ring as two threads run it: each load, array access and store is a step of its own, and a
 schedule decides, step by step, which thread moves next.
 */
module SpscProtocol {
  import opened Bits
  import opened Ring

  /** Where the producer stands inside `push`. */
  datatype Producer<T> =
    | Idle
    | Loaded(item: T, h: nat)    // head_ has been loaded
    | HasRoom(item: T, h: nat)   // tail_ has been loaded and differed from the next position
    | Written(item: T, h: nat)   // data_[h] has been assigned

  /** Where the consumer stands inside `pop`. */
  datatype Consumer<T> =
    | Waiting
    | Fetched(t: nat)            // tail_ has been loaded
    | HasItem(t: nat)            // head_ has been loaded and differed
    | Taken(t: nat, item: T)     // data_[t] has been read

  datatype State<T> = State(data: seq<T>, head: nat, tail: nat, producer: Producer<T>, consumer: Consumer<T>) {
    /** Every index in sight is an index of the array. */
    predicate InBounds() {
      && head < |data| && tail < |data|
      && (producer.Idle? || producer.h < |data|)
      && (consumer.Waiting? || consumer.t < |data|)
    }
  }

  /** One move of the schedule. Starting a call is ignored while that thread is already in one. */
  datatype Move<T> = StartPush(item: T) | Produce | StartPop | Consume

  /** What a move makes visible: a finished call with its result, or nothing. */
  datatype Event<T> = Silent | Pushed(item: T) | PushFailed | Popped(item: T) | PopFailed

  function ProducerMove<T>(s: State<T>): (r: (State<T>, Event<T>))
    requires s.InBounds()
  {
    match s.producer
    case Idle => (s, Silent)
    case Loaded(x, h) =>
      if Advance(h, |s.data|) == s.tail then (s.(producer := Idle), PushFailed)
      else (s.(producer := HasRoom(x, h)), Silent)
    case HasRoom(x, h) => (s.(data := s.data[h := x], producer := Written(x, h)), Silent)
    case Written(x, h) => (s.(head := Advance(h, |s.data|), producer := Idle), Pushed(x))
  }

  function ConsumerMove<T>(s: State<T>): (r: (State<T>, Event<T>))
    requires s.InBounds()
  {
    match s.consumer
    case Waiting => (s, Silent)
    case Fetched(t) =>
      if t == s.head then (s.(consumer := Waiting), PopFailed)
      else (s.(consumer := HasItem(t)), Silent)
    case HasItem(t) => (s.(consumer := Taken(t, s.data[t])), Silent)
    case Taken(t, x) => (s.(tail := Advance(t, |s.data|), consumer := Waiting), Popped(x))
  }

  function Step<T>(s: State<T>, m: Move<T>): (r: (State<T>, Event<T>))
    requires s.InBounds()
  {
    match m
    case StartPush(x) => (if s.producer.Idle? then s.(producer := Loaded(x, s.head)) else s, Silent)
    case Produce => ProducerMove(s)
    case StartPop => (if s.consumer.Waiting? then s.(consumer := Fetched(s.tail)) else s, Silent)
    case Consume => ConsumerMove(s)
  }

  /** What holds between any two steps. */
  ghost predicate Inv<T>(s: State<T>) {
    && s.InBounds()
    && IsPowerOfTwo(|s.data|)
    && (!s.producer.Idle? ==> s.producer.h == s.head)
    && (s.producer.HasRoom? || s.producer.Written? ==> Wrap(s.head + 1, |s.data|) != s.tail)
    && (s.producer.Written? ==> s.data[s.head] == s.producer.item)
    && (!s.consumer.Waiting? ==> s.consumer.t == s.tail)
    && (s.consumer.HasItem? || s.consumer.Taken? ==> s.tail != s.head)
    && (s.consumer.Taken? ==> s.data[s.tail] == s.consumer.item)
  }

  /** The queue a reader of the two indices would see. */
  ghost function Abs<T>(s: State<T>): (q: seq<T>)
    requires s.InBounds()
    ensures |q| <= |s.data| - 1
  {
    Slice(s.data, s.tail, Distance(s.tail, s.head, |s.data|))
  }

  /** The reference object: a FIFO holding at most `bound` items. None marks an event it forbids. */
  datatype Fifo<T> = Forbidden | Queue(items: seq<T>)

  function FifoStep<T(==)>(q: seq<T>, e: Event<T>, bound: nat): Fifo<T> {
    match e
    case Silent => Queue(q)
    case Pushed(x) => if |q| < bound then Queue(q + [x]) else Forbidden
    case PushFailed => if |q| == bound then Queue(q) else Forbidden
    case Popped(x) => if q != [] && q[0] == x then Queue(q[1..]) else Forbidden
    case PopFailed => if q == [] then Queue(q) else Forbidden
  }

  function FifoRun<T(==)>(q: seq<T>, es: seq<Event<T>>, bound: nat): Fifo<T>
    decreases |es|
  {
    if es == [] then Queue(q)
    else
      match FifoStep(q, es[0], bound)
      case Forbidden => Forbidden
      case Queue(q') => FifoRun(q', es[1..], bound)
  }

  /**
   A step answers to the FIFO when it keeps the invariant and moves the abstract queue as the FIFO
   does on its event.
   */
  ghost predicate Answers<T>(s: State<T>, r: (State<T>, Event<T>))
    requires Inv(s)
  {
    Inv(r.0) && |r.0.data| == |s.data| && FifoStep(Abs(s), r.1, |s.data| - 1) == Queue(Abs(r.0))
  }

  lemma RoomCheckRefines<T>(s: State<T>)
    requires Inv(s) && s.producer.Loaded?
    ensures Answers(s, ProducerMove(s))
  {
    AdvanceWraps(s.head, |s.data|);
  }

  lemma WriteRefines<T>(s: State<T>)
    requires Inv(s) && s.producer.HasRoom?
    ensures Answers(s, ProducerMove(s))
  {
    SliceFrame(s.data, s.tail, Distance(s.tail, s.head, |s.data|), s.head, s.producer.item);
  }

  lemma PublishRefines<T>(s: State<T>)
    requires Inv(s) && s.producer.Written?
    ensures Answers(s, ProducerMove(s))
  {
    AdvanceWraps(s.head, |s.data|);
    SliceGrows(s.data, s.tail, Distance(s.tail, s.head, |s.data|), s.producer.item);
    assert s.data[s.head := s.producer.item] == s.data;
  }

  lemma ProducerRefines<T>(s: State<T>)
    requires Inv(s)
    ensures Answers(s, ProducerMove(s))
  {
    match s.producer
    case Idle =>
    case Loaded(x, h) => RoomCheckRefines(s);
    case HasRoom(x, h) => WriteRefines(s);
    case Written(x, h) => PublishRefines(s);
  }

  lemma ConsumeRefines<T>(s: State<T>)
    requires Inv(s) && s.consumer.Taken?
    ensures Answers(s, ConsumerMove(s))
  {
    AdvanceWraps(s.tail, |s.data|);
    SliceShrinks(s.data, s.tail, Distance(s.tail, s.head, |s.data|));
  }

  lemma ConsumerRefines<T>(s: State<T>)
    requires Inv(s)
    ensures Answers(s, ConsumerMove(s))
  {
    if s.consumer.Taken? { ConsumeRefines(s); }
  }

  /** Every step of either thread answers to the FIFO. */
  lemma StepRefines<T>(s: State<T>, m: Move<T>)
    requires Inv(s)
    ensures Answers(s, Step(s, m))
  {
    match m
    case Produce => ProducerRefines(s);
    case Consume => ConsumerRefines(s);
    case _ =>
  }

  /** A whole schedule, and the events it made visible. */
  function Run<T>(s: State<T>, ms: seq<Move<T>>): (r: (State<T>, seq<Event<T>>))
    requires s.InBounds() && IsPowerOfTwo(|s.data|)
    ensures r.0.InBounds() && |r.0.data| == |s.data|
    decreases |ms|
  {
    if ms == [] then (s, [])
    else
      StepInBounds(s, ms[0]);
      var (s', e) := Step(s, ms[0]);
      var (t, es) := Run(s', ms[1..]);
      (t, [e] + es)
  }

  lemma StepInBounds<T>(s: State<T>, m: Move<T>)
    requires s.InBounds() && IsPowerOfTwo(|s.data|)
    ensures Step(s, m).0.InBounds() && |Step(s, m).0.data| == |s.data|
  {
    if m.Produce? && s.producer.Written? { AdvanceWraps(s.producer.h, |s.data|); }
    if m.Consume? && s.consumer.Taken? { AdvanceWraps(s.consumer.t, |s.data|); }
  }

  /** The ring as constructed, whatever the array holds. */
  ghost predicate Init<T>(s: State<T>) {
    IsPowerOfTwo(|s.data|) && s.head == 0 && s.tail == 0 && s.producer.Idle? && s.consumer.Waiting?
  }

  lemma {:induction false} RunRefines<T>(s: State<T>, ms: seq<Move<T>>)
    requires Inv(s)
    ensures var (t, es) := Run(s, ms); Inv(t) && FifoRun(Abs(s), es, |s.data| - 1) == Queue(Abs(t))
    decreases |ms|
  {
    if ms == [] {
    } else {
      StepRefines(s, ms[0]);
      RunRefines(Step(s, ms[0]).0, ms[1..]);
    }
  }

  /**
   Linearizability: under every schedule the completed calls, each placed at one of its own steps,
   are a history of a FIFO of `Capacity - 1` items. In particular a push fails only when the queue
   is full at its load of tail_, and a pop only when it is empty at its load of head_.
   */
  lemma Linearizable<T>(s: State<T>, ms: seq<Move<T>>)
    requires Init(s)
    ensures var (t, es) := Run(s, ms); FifoRun([], es, |s.data| - 1) == Queue(Abs(t))
  {
    assert Abs(s) == [];
    RunRefines(s, ms);
  }

  /** The slot about to be written is never the slot about to be read, under any schedule. */
  lemma NoSlotRace<T>(s: State<T>, ms: seq<Move<T>>)
    requires Init(s)
    ensures var t := Run(s, ms).0; t.producer.HasRoom? && t.consumer.HasItem? ==> t.producer.h != t.consumer.t
  {
    RunRefines(s, ms);
  }

  function PushedItems<T>(es: seq<Event<T>>): seq<T> {
    if es == [] then [] else (if es[0].Pushed? then [es[0].item] else []) + PushedItems(es[1..])
  }

  function PoppedItems<T>(es: seq<Event<T>>): seq<T> {
    if es == [] then [] else (if es[0].Popped? then [es[0].item] else []) + PoppedItems(es[1..])
  }

  /** One event moves one item from the pushes into the queue, or from the queue to the pops. */
  lemma FifoConservesOne<T>(q: seq<T>, e: Event<T>, bound: nat, pushed: seq<T>, popped: seq<T>, end: seq<T>)
    requires FifoStep(q, e, bound).Queue? && FifoStep(q, e, bound).items + pushed == popped + end
    ensures q + ((if e.Pushed? then [e.item] else []) + pushed) == (if e.Popped? then [e.item] else []) + popped + end
  {
    var q' := FifoStep(q, e, bound).items;
    match e
    case Pushed(x) => assert q + ([x] + pushed) == q' + pushed && [] + popped + end == popped + end;
    case Popped(x) => assert q == [x] + q' && [x] + q' + pushed == [x] + (q' + pushed);
      assert [x] + popped + end == [x] + (popped + end) && [] + pushed == pushed;
    case _ => assert [] + pushed == pushed && [] + popped == popped;
  }

  lemma {:induction false} FifoConserves<T>(q: seq<T>, es: seq<Event<T>>, bound: nat)
    requires FifoRun(q, es, bound).Queue?
    ensures q + PushedItems(es) == PoppedItems(es) + FifoRun(q, es, bound).items
    decreases |es|
  {
    if es == [] {
      assert q + [] == [] + q;
    } else {
      var q' := FifoStep(q, es[0], bound).items;
      FifoConserves(q', es[1..], bound);
      FifoConservesOne(q, es[0], bound, PushedItems(es[1..]), PoppedItems(es[1..]), FifoRun(q', es[1..], bound).items);
    }
  }

  /** Under every schedule the values popped, then those still queued, are the values pushed, in order. */
  lemma NothingLostOrReordered<T>(s: State<T>, ms: seq<Move<T>>)
    requires Init(s)
    ensures var (t, es) := Run(s, ms); PushedItems(es) == PoppedItems(es) + Abs(t)
  {
    Linearizable(s, ms);
    var es := Run(s, ms).1;
    FifoConserves([], es, |s.data| - 1);
    assert [] + PushedItems(es) == PushedItems(es);
  }
}
