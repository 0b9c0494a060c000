/** Every call on the shared ring ends with its answer, whatever the other thread does meanwhile. */
module SpscCalls {
  import opened Bits
  import opened Ring
  import opened SpscProtocol

  // ----- No call ends without an answer, and none answers twice -----

  /** The producer's part of an event. */
  predicate AnswersPush<T>(e: Event<T>) { e.Pushed? || e.PushFailed? }

  predicate AnswersPop<T>(e: Event<T>) { e.Popped? || e.PopFailed? }

  /** A push ends exactly with the step that reports its item or its failure; no other step reports for it. */
  lemma PushEndsWithAnswer<T>(s: State<T>, m: Move<T>)
    requires Inv(s)
    ensures var (t, e) := Step(s, m);
            && (AnswersPush(e) <==> !s.producer.Idle? && t.producer.Idle?)
            && (e.Pushed? ==> e.item == s.producer.item)
  {
  }

  /** The same for a pop. */
  lemma PopEndsWithAnswer<T>(s: State<T>, m: Move<T>)
    requires Inv(s)
    ensures var (t, e) := Step(s, m);
            && (AnswersPop(e) <==> !s.consumer.Waiting? && t.consumer.Waiting?)
            && (e.Popped? ==> Abs(s) != [] && e.item == Abs(s)[0])
  {
    if m.Consume? && s.consumer.Taken? {
      SliceShrinks(s.data, s.tail, Distance(s.tail, s.head, |s.data|));
    }
  }

  /** A push that finds the ring full at its load of tail_ answers false. */
  lemma FullPushFails<T>(s: State<T>)
    requires Inv(s) && s.producer.Loaded?
    ensures Step(s, Produce) == (s.(producer := Idle), PushFailed) <==> |Abs(s)| == |s.data| - 1
  {
    AdvanceWraps(s.head, |s.data|);
  }

  /** A pop that finds the ring empty at its load of head_ answers with nothing. */
  lemma EmptyPopFails<T>(s: State<T>)
    requires Inv(s) && s.consumer.Fetched?
    ensures Step(s, Consume) == (s.(consumer := Waiting), PopFailed) <==> Abs(s) == []
  {
  }

  // ----- How far a call has come -----

  /** The producer will report `x` after `k` more of its steps. */
  ghost predicate PushDue<T>(s: State<T>, x: T, k: nat) {
    && Inv(s)
    && match s.producer
       case Idle => false
       case Loaded(y, _) => y == x && k == 3 && |Abs(s)| < |s.data| - 1
       case HasRoom(y, _) => y == x && k == 2
       case Written(y, _) => y == x && k == 1
  }

  /** The consumer will report `x` after `k` more of its steps. */
  ghost predicate PopDue<T>(s: State<T>, x: T, k: nat) {
    && Inv(s) && Abs(s) != [] && Abs(s)[0] == x
    && match s.consumer
       case Waiting => false
       case Fetched(_) => k == 3
       case HasItem(_) => k == 2
       case Taken(_, _) => k == 1
  }

  lemma PushWaits<T>(s: State<T>, m: Move<T>, x: T, k: nat)
    requires PushDue(s, x, k) && !m.Produce?
    ensures PushDue(Step(s, m).0, x, k)
  {
    StepRefines(s, m);
  }

  lemma PushAdvances<T>(s: State<T>, x: T, k: nat)
    requires PushDue(s, x, k)
    ensures var (t, e) := Step(s, Produce);
            if k > 1 then PushDue(t, x, k - 1)
            else e == Pushed(x) && t.producer.Idle? && Inv(t) && Abs(t) == Abs(s) + [x]
  {
    StepRefines(s, Produce);
    if k == 3 { FullPushFails(s); }
  }

  lemma PopWaits<T>(s: State<T>, m: Move<T>, x: T, k: nat)
    requires PopDue(s, x, k) && !m.Consume?
    ensures PopDue(Step(s, m).0, x, k)
  {
    StepRefines(s, m);
  }

  lemma TakenIsFront<T>(s: State<T>)
    requires Inv(s) && s.tail != s.head
    ensures Abs(s) != [] && Abs(s)[0] == s.data[s.tail]
  {
    SliceShrinks(s.data, s.tail, Distance(s.tail, s.head, |s.data|));
  }

  lemma PopAdvances<T>(s: State<T>, x: T, k: nat)
    requires PopDue(s, x, k)
    ensures var (t, e) := Step(s, Consume);
            if k > 1 then PopDue(t, x, k - 1)
            else e == Popped(x) && t.consumer.Waiting? && Inv(t) && [x] + Abs(t) == Abs(s)
  {
    StepRefines(s, Consume);
    if k == 3 { EmptyPopFails(s); }
    if k == 1 { TakenIsFront(s); }
  }

  // ----- Whole calls, under any schedule -----

  function Produces<T>(ms: seq<Move<T>>): nat {
    if ms == [] then 0 else (if ms[0].Produce? then 1 else 0) + Produces(ms[1..])
  }

  function Consumes<T>(ms: seq<Move<T>>): nat {
    if ms == [] then 0 else (if ms[0].Consume? then 1 else 0) + Consumes(ms[1..])
  }

  lemma {:induction false} PushProgress<T>(s: State<T>, ms: seq<Move<T>>, x: T, k: nat)
    requires PushDue(s, x, k) && Produces(ms) < k
    ensures PushDue(Run(s, ms).0, x, k - Produces(ms))
    decreases |ms|
  {
    if ms == [] {
    } else {
      var s' := Step(s, ms[0]).0;
      if ms[0].Produce? {
        PushAdvances(s, x, k);
        PushProgress(s', ms[1..], x, k - 1);
      } else {
        PushWaits(s, ms[0], x, k);
        PushProgress(s', ms[1..], x, k);
      }
    }
  }

  lemma {:induction false} PopProgress<T>(s: State<T>, ms: seq<Move<T>>, x: T, k: nat)
    requires PopDue(s, x, k) && Consumes(ms) < k
    ensures PopDue(Run(s, ms).0, x, k - Consumes(ms))
    decreases |ms|
  {
    if ms == [] {
    } else {
      var s' := Step(s, ms[0]).0;
      if ms[0].Consume? {
        PopAdvances(s, x, k);
        PopProgress(s', ms[1..], x, k - 1);
      } else {
        PopWaits(s, ms[0], x, k);
        PopProgress(s', ms[1..], x, k);
      }
    }
  }

  lemma {:induction false} RunAppends<T>(s: State<T>, a: seq<Move<T>>, m: Move<T>)
    requires s.InBounds() && IsPowerOfTwo(|s.data|)
    ensures var (t, es) := Run(s, a);
            var (r, e) := Step(t, m);
            Run(s, a + [m]) == (r, es + [e])
    decreases |a|
  {
    if a == [] {
      assert a + [m] == [m];
      StepInBounds(s, m);
      var (r, e) := Step(s, m);
      assert [m][1..] == [] && Run(r, []) == (r, []);
      assert [e] + [] == [] + [e];
    } else {
      StepInBounds(s, a[0]);
      var (s', e0) := Step(s, a[0]);
      RunAppends(s', a[1..], m);
      assert (a + [m])[1..] == a[1..] + [m];
      var (t, es) := Run(s', a[1..]);
      var e := Step(t, m).1;
      assert [e0] + (es + [e]) == [e0] + es + [e];
    }
  }

  /**
   A push that starts with room in the ring answers true with its third step and has then queued its
   item, whatever moves of the other thread, and however many, come in between.
   */
  lemma PushDelivers<T>(s: State<T>, x: T, ms: seq<Move<T>>)
    requires Inv(s) && s.producer.Idle? && |Abs(s)| < |s.data| - 1 && Produces(ms) == 2
    ensures var (t, es) := Run(Step(s, StartPush(x)).0, ms + [Produce]);
            && es != [] && es[|es| - 1] == Pushed(x)
            && t.producer.Idle? && Abs(t) != [] && Abs(t)[|Abs(t)| - 1] == x
  {
    var s1 := Step(s, StartPush(x)).0;
    StepRefines(s, StartPush(x));
    PushProgress(s1, ms, x, 3);
    RunAppends(s1, ms, Produce);
    PushAdvances(Run(s1, ms).0, x, 1);
  }

  /** A pop that starts with items in the ring delivers the oldest of them with its third step. */
  lemma PopDelivers<T>(s: State<T>, ms: seq<Move<T>>)
    requires Inv(s) && s.consumer.Waiting? && Abs(s) != [] && Consumes(ms) == 2
    ensures var (t, es) := Run(Step(s, StartPop).0, ms + [Consume]);
            es != [] && es[|es| - 1] == Popped(Abs(s)[0]) && t.consumer.Waiting?
  {
    var s1 := Step(s, StartPop).0;
    StepRefines(s, StartPop);
    PopProgress(s1, ms, Abs(s)[0], 3);
    RunAppends(s1, ms, Consume);
    PopAdvances(Run(s1, ms).0, Abs(s)[0], 1);
  }
}
