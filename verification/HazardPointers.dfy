/**
 Hazard-pointer reclamation: readers publish pointers in slots of their own block while one
 reclaimer retires pointers, scans the slots one load at a time, and deletes what it did not see.
 A schedule interleaves the steps.
 */
module HazardPointers {
  import opened Sequences

  type Ptr = nat
  type Thread = nat

  const NULL: Ptr := 0
  const MAX_HAZARD_PTRS: nat := 16
  const RETIRED_THRESHOLD: nat := 2

  /** A reader inside `acquire`: looking for a free slot of its block, or holding one to store into. */
  datatype Reader = Probing(ptr: Ptr, i: nat) | Found(ptr: Ptr, i: nat)

  datatype Reclaimer =
    | Idle
    | Scanning(i: nat, j: nat, hazardous: seq<bool>)           // about to compare slot j with retired[i]
    | Sweeping(i: nat, hazardous: seq<bool>, kept: seq<Ptr>)   // about to keep or delete retired[i]

  /**
   `guarded`, `retireLog` and `deleted` are auxiliary: slot k is guarded when it has held its
   pointer without a break since before the scan began.
   */
  datatype State = State(
    slots: seq<Ptr>, readers: map<Thread, Reader>, reclaimer: Reclaimer, retired: seq<Ptr>,
    guarded: seq<bool>, retireLog: seq<Ptr>, deleted: seq<Ptr>)

  datatype Move =
    | StartAcquire(thread: Thread, ptr: Ptr)
    | Read(thread: Thread)
    | Release(thread: Thread, slot: int)
    | Retire(ptr: Ptr)
    | StartScan
    | Reclaim

  function Threads(s: State): nat { |s.slots| / MAX_HAZARD_PTRS }

  /** Where thread `t` keeps its i-th hazard pointer. */
  function SlotOf(t: Thread, i: nat): nat { t * MAX_HAZARD_PTRS + i }

  predicate WellFormed(s: State) {
    && |s.slots| % MAX_HAZARD_PTRS == 0
    && |s.guarded| == |s.slots|
    && (forall t :: t in s.readers ==> t < Threads(s) && s.readers[t].i <= MAX_HAZARD_PTRS)
    && (forall t :: t in s.readers && s.readers[t].Found? ==> s.readers[t].i < MAX_HAZARD_PTRS)
    && (s.reclaimer.Scanning? || s.reclaimer.Sweeping? ==> |s.reclaimer.hazardous| == |s.retired|)
  }

  /** The pointers retired and not yet deleted. */
  function Pending(s: State): seq<Ptr> {
    if s.reclaimer.Sweeping? && s.reclaimer.i <= |s.retired| then s.reclaimer.kept + s.retired[s.reclaimer.i..]
    else s.retired
  }

  /** One load of `get_free_slot`, or the publishing store that follows it. */
  function ReadStep(s: State, t: Thread): State
    requires WellFormed(s) && t in s.readers
  {
    match s.readers[t]
    case Probing(p, i) =>
      if i == MAX_HAZARD_PTRS then s.(readers := s.readers - {t})
      else s.(readers := s.readers[t := if s.slots[SlotOf(t, i)] == NULL then Found(p, i) else Probing(p, i + 1)])
    case Found(p, i) =>
      s.(slots := s.slots[SlotOf(t, i) := p], guarded := s.guarded[SlotOf(t, i) := false], readers := s.readers - {t})
  }

  function ReleaseStep(s: State, t: Thread, k: nat): State
    requires WellFormed(s) && t < Threads(s) && k < MAX_HAZARD_PTRS
  {
    s.(slots := s.slots[SlotOf(t, k) := NULL], guarded := s.guarded[SlotOf(t, k) := false])
  }

  /** The head of `scan_and_reclaim`. What the slots hold at this point is guarded. */
  function BeginScan(s: State): State {
    if s.retired == [] then s
    else s.(reclaimer := Scanning(0, 0, seq(|s.retired|, i => false)), guarded := seq(|s.slots|, k => true))
  }

  /** `retire`: append, and scan once the threshold is reached. */
  function RetireStep(s: State, p: Ptr): State {
    var s' := s.(retired := s.retired + [p], retireLog := s.retireLog + [p]);
    if |s'.retired| >= RETIRED_THRESHOLD then BeginScan(s') else s'
  }

  /** One load of the scan, or one decision of the sweep. */
  function ReclaimStep(s: State): State
    requires WellFormed(s)
  {
    match s.reclaimer
    case Idle => s
    case Scanning(i, j, hz) =>
      if i >= |s.retired| then s.(reclaimer := Sweeping(0, hz, []))
      else if j >= |s.slots| then s.(reclaimer := Scanning(i + 1, 0, hz))
      else if s.slots[j] == s.retired[i] then s.(reclaimer := Scanning(i + 1, 0, hz[i := true]))
      else s.(reclaimer := Scanning(i, j + 1, hz))
    case Sweeping(i, hz, kept) =>
      if i >= |s.retired| then s.(retired := kept, reclaimer := Idle)
      else if hz[i] then s.(reclaimer := Sweeping(i + 1, hz, kept + [s.retired[i]]))
      else s.(deleted := s.deleted + [s.retired[i]], reclaimer := Sweeping(i + 1, hz, kept))
  }

  /**
   A call is ignored while its thread is inside another, and so are the calls the domain's users
   must not make: a thread without a block, a slot outside the block, retiring a pointer that is
   still pending.
   */
  function Step(s: State, m: Move): State
    requires WellFormed(s)
  {
    match m
    case StartAcquire(t, p) =>
      if t in s.readers || t >= Threads(s) then s else s.(readers := s.readers[t := Probing(p, 0)])
    case Read(t) => if t in s.readers then ReadStep(s, t) else s
    case Release(t, k) =>
      if t in s.readers || t >= Threads(s) || k < 0 || k >= MAX_HAZARD_PTRS then s else ReleaseStep(s, t, k)
    case Retire(p) =>
      if p == NULL || !s.reclaimer.Idle? || p in s.retired then s else RetireStep(s, p)
    case StartScan => if s.reclaimer.Idle? then BeginScan(s) else s
    case Reclaim => ReclaimStep(s)
  }

  // ----- The invariant -----

  /** Among the first `n` slots no guarded one holds `p`. */
  ghost predicate Clear(s: State, p: Ptr, n: nat)
    requires |s.guarded| == |s.slots|
  {
    forall k :: 0 <= k < n && k < |s.slots| ==> !(s.guarded[k] && s.slots[k] == p)
  }

  ghost predicate ScanInv(s: State)
    requires WellFormed(s)
  {
    match s.reclaimer
    case Idle => true
    case Scanning(i, j, hz) =>
      && i <= |s.retired|
      && (forall a :: 0 <= a < i && !hz[a] ==> Clear(s, s.retired[a], |s.slots|))
      && (i < |s.retired| ==> Clear(s, s.retired[i], j))
    case Sweeping(i, hz, kept) =>
      && i <= |s.retired|
      && (forall a :: i <= a < |s.retired| && !hz[a] ==> Clear(s, s.retired[a], |s.slots|))
  }

  /** A reader about to store still finds its slot free. */
  ghost predicate ReaderInv(s: State)
    requires WellFormed(s)
  {
    forall t :: t in s.readers && s.readers[t].Found? ==> s.slots[SlotOf(t, s.readers[t].i)] == NULL
  }

  ghost predicate AccountInv(s: State) {
    && Distinct(Pending(s))
    && NULL !in s.retired
    && NULL !in Pending(s)
    && multiset(s.retireLog) == multiset(s.deleted) + multiset(Pending(s))
  }

  ghost predicate Inv(s: State) {
    WellFormed(s) && ScanInv(s) && ReaderInv(s) && AccountInv(s)
  }

  // ----- Every step keeps it -----

  /** Emptying or unguarding one slot leaves what was clear clear. */
  lemma ClearKept(s: State, s': State, k: nat, p: Ptr, n: nat)
    requires |s.guarded| == |s.slots| == |s'.slots| && k < |s.slots|
    requires s'.guarded == s.guarded[k := false]
    requires forall a :: 0 <= a < |s.slots| && a != k ==> s'.slots[a] == s.slots[a]
    requires Clear(s, p, n)
    ensures Clear(s', p, n)
  {
  }

  lemma SlotChangeKeepsScan(s: State, s': State, k: nat)
    requires WellFormed(s) && WellFormed(s') && |s.slots| == |s'.slots| && k < |s.slots|
    requires s'.guarded == s.guarded[k := false]
    requires forall a :: 0 <= a < |s.slots| && a != k ==> s'.slots[a] == s.slots[a]
    requires s'.reclaimer == s.reclaimer && s'.retired == s.retired && ScanInv(s)
    ensures ScanInv(s')
  {
    forall p, n: nat | Clear(s, p, n) ensures Clear(s', p, n) { ClearKept(s, s', k, p, n); }
  }

  lemma ReadKeeps(s: State, t: Thread)
    requires Inv(s) && t in s.readers
    ensures Inv(ReadStep(s, t))
  {
    var s' := ReadStep(s, t);
    assert WellFormed(s');
    if s.readers[t].Found? {
      SlotChangeKeepsScan(s, s', SlotOf(t, s.readers[t].i));
    } else {
      forall p, n: nat | Clear(s, p, n) ensures Clear(s', p, n) { }
    }
  }

  lemma ReleaseKeeps(s: State, t: Thread, k: nat)
    requires Inv(s) && t !in s.readers && t < Threads(s) && k < MAX_HAZARD_PTRS
    ensures Inv(ReleaseStep(s, t, k))
  {
    var s' := ReleaseStep(s, t, k);
    assert WellFormed(s');
    SlotChangeKeepsScan(s, s', SlotOf(t, k));
  }

  lemma RetireKeeps(s: State, p: Ptr)
    requires Inv(s) && p != NULL && s.reclaimer.Idle? && p !in s.retired
    ensures Inv(RetireStep(s, p))
  {
  }

  lemma ScanStep(s: State)
    requires WellFormed(s) && ScanInv(s) && s.reclaimer.Scanning?
    ensures WellFormed(ReclaimStep(s)) && ScanInv(ReclaimStep(s))
  {
    var s' := ReclaimStep(s);
    assert WellFormed(s');
    forall q, n: nat | Clear(s, q, n) ensures Clear(s', q, n) { }
  }

  /** The scan itself moves no pointer. */
  lemma ScanAccounts(s: State)
    requires WellFormed(s) && AccountInv(s) && s.reclaimer.Scanning?
    ensures AccountInv(ReclaimStep(s))
  {
    assert [] + s.retired[0..] == s.retired;
    assert Pending(ReclaimStep(s)) == Pending(s);
  }

  lemma ScanKeeps(s: State)
    requires Inv(s) && s.reclaimer.Scanning?
    ensures Inv(ReclaimStep(s))
  {
    ScanStep(s);
    ScanAccounts(s);
    assert ReclaimStep(s).slots == s.slots && ReclaimStep(s).readers == s.readers;
  }

  lemma SweepKeeps(s: State)
    requires Inv(s) && s.reclaimer.Sweeping?
    ensures Inv(ReclaimStep(s))
  {
    var s' := ReclaimStep(s);
    assert WellFormed(s');
    forall q, n: nat | Clear(s, q, n) ensures Clear(s', q, n) { }
    SweepAccounts(s);
  }

  lemma DeleteAccounts(s: State, s': State, a: seq<Ptr>, p: Ptr, b: seq<Ptr>)
    requires AccountInv(s) && Pending(s) == a + [p] + b && Pending(s') == a + b
    requires s'.retired == s.retired && s'.retireLog == s.retireLog && s'.deleted == s.deleted + [p]
    ensures AccountInv(s')
  {
    DropOne(a, p, b);
  }

  /** A sweep step moves one pending pointer to its new place and touches no other. */
  lemma SweepAccounts(s: State)
    requires WellFormed(s) && AccountInv(s) && s.reclaimer.Sweeping? && s.reclaimer.i <= |s.retired|
    ensures AccountInv(ReclaimStep(s))
  {
    var s' := ReclaimStep(s);
    var Sweeping(i, hz, kept) := s.reclaimer;
    if i < |s.retired| && !hz[i] {
      assert s.retired[i..] == [s.retired[i]] + s.retired[i + 1..];
      assert Pending(s) == kept + [s.retired[i]] + s.retired[i + 1..];
      DeleteAccounts(s, s', kept, s.retired[i], s.retired[i + 1..]);
    } else {
      assert i < |s.retired| ==> s.retired[i..] == [s.retired[i]] + s.retired[i + 1..];
      assert Pending(s') == Pending(s);
    }
  }

  lemma DropOne(a: seq<Ptr>, p: Ptr, b: seq<Ptr>)
    ensures Distinct(a + [p] + b) ==> Distinct(a + b)
    ensures multiset(a + [p] + b) == multiset(a + b) + multiset{p}
    ensures forall q :: q in a + b ==> q in a + [p] + b
  {
    if Distinct(a + [p] + b) {
      var whole := a + [p] + b;
      forall i, j | 0 <= i < j < |a + b| ensures (a + b)[i] != (a + b)[j] {
        assert (a + b)[i] == whole[if i < |a| then i else i + 1];
        assert (a + b)[j] == whole[if j < |a| then j else j + 1];
      }
    }
  }

  lemma BeginScanKeeps(s: State)
    requires Inv(s) && s.reclaimer.Idle?
    ensures Inv(BeginScan(s))
  {
  }

  lemma StepKeeps(s: State, m: Move)
    requires Inv(s)
    ensures Inv(Step(s, m))
  {
    match m
    case StartAcquire(t, p) => StartAcquireKeeps(s, t, p);
    case Read(t) => if t in s.readers { ReadKeeps(s, t); }
    case Release(t, k) =>
      if t !in s.readers && t < Threads(s) && 0 <= k < MAX_HAZARD_PTRS { ReleaseKeeps(s, t, k); }
    case Retire(p) => if p != NULL && s.reclaimer.Idle? && p !in s.retired { RetireKeeps(s, p); }
    case StartScan => if s.reclaimer.Idle? { BeginScanKeeps(s); }
    case Reclaim =>
      if s.reclaimer.Scanning? { ScanKeeps(s); } else if s.reclaimer.Sweeping? { SweepKeeps(s); }
  }

  lemma StartAcquireKeeps(s: State, t: Thread, p: Ptr)
    requires Inv(s)
    ensures Inv(Step(s, StartAcquire(t, p)))
  {
    var s' := Step(s, StartAcquire(t, p));
    assert WellFormed(s');
    forall q, n: nat | Clear(s, q, n) ensures Clear(s', q, n) { }
  }

  // ----- What every schedule guarantees -----

  lemma StepWellFormed(s: State, m: Move)
    requires WellFormed(s)
    ensures WellFormed(Step(s, m)) && |Step(s, m).slots| == |s.slots|
  {
  }

  function Run(s: State, ms: seq<Move>): (r: State)
    requires WellFormed(s)
    ensures WellFormed(r) && |r.slots| == |s.slots|
    decreases |ms|
  {
    if ms == [] then s else
      StepWellFormed(s, ms[0]);
      Run(Step(s, ms[0]), ms[1..])
  }

  lemma {:induction false} RunKeeps(s: State, ms: seq<Move>)
    requires Inv(s)
    ensures Inv(Run(s, ms))
    decreases |ms|
  {
    if ms == [] {
    } else {
      StepKeeps(s, ms[0]);
      RunKeeps(Step(s, ms[0]), ms[1..]);
    }
  }

  /** The domain as constructed for `n` threads. */
  function Init(n: nat): (s: State)
    ensures WellFormed(s)
  {
    State(seq(n * MAX_HAZARD_PTRS, k => NULL), map[], Idle, [], seq(n * MAX_HAZARD_PTRS, k => false), [], [])
  }

  lemma InitInv(n: nat)
    ensures Inv(Init(n))
  {
  }

  /** The slot's hold counts in the scan under way, or there is none. */
  ghost predicate Protects(s: State, k: nat)
    requires WellFormed(s) && k < |s.slots|
  {
    s.reclaimer.Idle? || s.guarded[k]
  }

  /** A slot that goes on holding a pending pointer it protects keeps it protected and pending. */
  lemma HoldPersists(s: State, m: Move, k: nat, p: Ptr)
    requires Inv(s) && p != NULL && k < |s.slots| && Protects(s, k) && s.slots[k] == p && p in Pending(s)
    requires Step(s, m).slots[k] == p
    ensures WellFormed(Step(s, m)) && |Step(s, m).slots| == |s.slots|
    ensures Protects(Step(s, m), k) && p in Pending(Step(s, m))
  {
    StepWellFormed(s, m);
    match m
    case Read(t) => if t in s.readers { ReadHolds(s, t, k, p); }
    case Reclaim => ReclaimHolds(s, k, p);
    case _ =>
  }

  lemma ReadHolds(s: State, t: Thread, k: nat, p: Ptr)
    requires WellFormed(s) && ReaderInv(s) && t in s.readers
    requires p != NULL && k < |s.slots| && Protects(s, k) && s.slots[k] == p && p in Pending(s)
    ensures var s' := ReadStep(s, t);
            |s'.guarded| == |s.guarded| && (s'.reclaimer.Idle? || s'.guarded[k]) && p in Pending(s')
  {
    if s.readers[t].Found? { assert s.slots[SlotOf(t, s.readers[t].i)] == NULL; }
  }

  lemma ReclaimHolds(s: State, k: nat, p: Ptr)
    requires Inv(s) && k < |s.slots| && Protects(s, k) && s.slots[k] == p && p in Pending(s)
    ensures var s' := ReclaimStep(s);
            s'.guarded == s.guarded && (s'.reclaimer.Idle? || s'.guarded[k]) && p in Pending(s')
  {
    assert WellFormed(s);
    hide Inv, WellFormed, Pending, ReclaimStep;
    ReclaimKeepsGuards(s);
    if s.reclaimer.Sweeping? {
      SweepSparesGuarded(s, k, p);
    } else if s.reclaimer.Scanning? {
      ScanLeavesPending(s);
    }
  }

  lemma ReclaimKeepsGuards(s: State)
    requires WellFormed(s)
    ensures ReclaimStep(s).guarded == s.guarded && (s.reclaimer.Idle? ==> ReclaimStep(s) == s)
  {
  }

  lemma ScanLeavesPending(s: State)
    requires WellFormed(s) && s.reclaimer.Scanning?
    ensures Pending(ReclaimStep(s)) == Pending(s)
  {
    assert [] + s.retired[0..] == s.retired;
  }

  /** A pointer that is pending is not retired again. */
  lemma PendingNotRetired(s: State, m: Move, p: Ptr)
    requires WellFormed(s) && p in Pending(s)
    ensures multiset(Step(s, m).retireLog)[p] == multiset(s.retireLog)[p]
  {
    if m.Retire? && s.reclaimer.Idle? && m.ptr != p {
      OtherLogged(s.retireLog, m.ptr, p);
    }
  }

  lemma OtherLogged(log: seq<Ptr>, q: Ptr, p: Ptr)
    requires p != q
    ensures multiset(log + [q])[p] == multiset(log)[p]
  {
    assert multiset(log + [q]) == multiset(log) + multiset{q};
  }

  lemma SweepSparesGuarded(s: State, k: nat, p: Ptr)
    requires Inv(s) && s.reclaimer.Sweeping? && k < |s.slots| && s.guarded[k] && s.slots[k] == p && p in Pending(s)
    ensures p in Pending(ReclaimStep(s))
  {
    var Sweeping(i, hz, kept) := s.reclaimer;
    var s' := ReclaimStep(s);
    if i < |s.retired| {
      assert s.retired[i..] == [s.retired[i]] + s.retired[i + 1..];
      if !hz[i] {
        assert Clear(s, s.retired[i], |s.slots|);
      }
    }
  }

  /** Slot `k` holds `p` now and after each of the moves. */
  ghost predicate HeldThroughout(s: State, ms: seq<Move>, k: nat, p: Ptr)
    requires WellFormed(s)
    decreases |ms|
  {
    && k < |s.slots| && s.slots[k] == p
    && (ms != [] ==> (StepWellFormed(s, ms[0]); HeldThroughout(Step(s, ms[0]), ms[1..], k, p)))
  }

  lemma {:induction false} GuardedStaysPending(s: State, ms: seq<Move>, k: nat, p: Ptr)
    requires Inv(s) && p != NULL && HeldThroughout(s, ms, k, p) && Protects(s, k) && p in Pending(s)
    ensures p in Pending(Run(s, ms)) && multiset(Run(s, ms).retireLog)[p] == multiset(s.retireLog)[p]
    decreases |ms|
  {
    if ms == [] {
    } else {
      StepKeeps(s, ms[0]);
      HoldPersists(s, ms[0], k, p);
      PendingNotRetired(s, ms[0], p);
      GuardedStaysPending(Step(s, ms[0]), ms[1..], k, p);
    }
  }

  /** The state after a schedule of a domain built for `n` threads. */
  function Reached(n: nat, ms: seq<Move>): (r: State)
    ensures WellFormed(r)
  {
    Run(Init(n), ms)
  }

  /** A pointer pending once has been deleted all the other times it was retired. */
  lemma DeletedOtherTimes(s: State, p: Ptr)
    requires AccountInv(s) && p in Pending(s)
    ensures multiset(s.deleted)[p] == multiset(s.retireLog)[p] - 1
  {
    CountedOnce(Pending(s), p);
    assert multiset(s.retireLog)[p] == multiset(s.deleted)[p] + multiset(Pending(s))[p];
  }

  lemma CountedOnce(ps: seq<Ptr>, p: Ptr)
    requires Distinct(ps) && p in ps
    ensures multiset(ps)[p] == 1
  {
    var i :| 0 <= i < |ps| && ps[i] == p;
    assert ps == ps[..i] + [p] + ps[i + 1..];
    assert p !in ps[..i] && p !in ps[i + 1..];
  }

  /**
   Protection: whatever the schedule before, if a slot holds a retired pointer while no scan is
   under way, and goes on holding it through every later step, then the pointer stays pending and
   is never deleted. When the slot was published makes no difference, so long as it was before the
   scan that could delete the pointer began.
   */
  lemma HeldPointerIsNeverDeleted(n: nat, before: seq<Move>, p: Ptr, k: nat, after: seq<Move>)
    requires Reached(n, before).reclaimer.Idle? && p in Reached(n, before).retired
    requires HeldThroughout(Reached(n, before), after, k, p)
    ensures var r := Run(Reached(n, before), after);
            p in Pending(r) && multiset(r.deleted)[p] == multiset(Reached(n, before).deleted)[p]
  {
    InitInv(n);
    RunKeeps(Init(n), before);
    var s := Reached(n, before);
    GuardedStaysPending(s, after, k, p);
    RunKeeps(s, after);
    DeletedOtherTimes(s, p);
    DeletedOtherTimes(Run(s, after), p);
  }

  /** The same from the call of `retire` on, also when that call begins a scan itself. */
  lemma HeldSinceRetireIsNeverDeleted(n: nat, before: seq<Move>, p: Ptr, k: nat, after: seq<Move>)
    requires var s := Reached(n, before);
             s.reclaimer.Idle? && p != NULL && p !in s.retired && k < |s.slots| && s.slots[k] == p
    requires var s := Step(Reached(n, before), Retire(p)); WellFormed(s) && HeldThroughout(s, after, k, p)
    ensures var r := Run(Step(Reached(n, before), Retire(p)), after);
            p in Pending(r) && multiset(r.deleted)[p] == multiset(Reached(n, before).deleted)[p]
  {
    InitInv(n);
    RunKeeps(Init(n), before);
    var s := Reached(n, before);
    var s' := Step(s, Retire(p));
    StepKeeps(s, Retire(p));
    GuardedStaysPending(s', after, k, p);
    RunKeeps(s', after);
    DeletedOtherTimes(s', p);
    DeletedOtherTimes(Run(s', after), p);
  }

  /**
   Accounting: under every interleaving the pointers deleted and those still pending are together
   exactly those retired, each as often as it was retired, and no pointer is pending twice.
   */
  lemma RetiredOnceDeletedOnce(n: nat, ms: seq<Move>)
    ensures var r := Reached(n, ms);
            multiset(r.retireLog) == multiset(r.deleted) + multiset(Pending(r)) && Distinct(Pending(r))
  {
    InitInv(n);
    RunKeeps(Init(n), ms);
  }

  /** Under every interleaving `acquire` only ever stores into a slot that holds nothing. */
  lemma AcquireNeverOverwrites(n: nat, ms: seq<Move>, t: Thread)
    requires t in Reached(n, ms).readers && Reached(n, ms).readers[t].Found?
    ensures var r := Reached(n, ms); SlotOf(t, r.readers[t].i) < |r.slots| && r.slots[SlotOf(t, r.readers[t].i)] == NULL
  {
    InitInv(n);
    RunKeeps(Init(n), ms);
  }

  lemma {:induction false} RunAppend(s: State, a: seq<Move>, b: seq<Move>)
    requires WellFormed(s)
    ensures Run(s, a + b) == Run(Run(s, a), b)
    decreases |a|
  {
    if a == [] {
      assert a + b == b;
    } else {
      StepWellFormed(s, a[0]);
      RunAppend(Step(s, a[0]), a[1..], b);
      assert (a + b)[1..] == a[1..] + b;
    }
  }

  function Times(k: nat, m: Move): seq<Move> {
    if k == 0 then [] else [m] + Times(k - 1, m)
  }

  lemma {:induction false} ScanSeesNothing(s: State, j: nat, p: Ptr)
    requires WellFormed(s) && s.retired == [p] && s.reclaimer == Scanning(0, j, [false]) && j <= |s.slots|
    requires p !in s.slots
    ensures Run(s, Times(|s.slots| - j, Reclaim)) == s.(reclaimer := Scanning(0, |s.slots|, [false]))
    decreases |s.slots| - j
  {
    if j < |s.slots| {
      ScanSeesNothing(Step(s, Reclaim), j + 1, p);
    }
  }

  /**
   The premise "before the scan began" is needed: a pointer that a reader publishes only after
   the scan has passed its slot is deleted while the slot holds it, for every pointer and any
   number of threads.
   */
  lemma LatePublicationIsDeleted(n: nat, p: Ptr) returns (ms: seq<Move>)
    requires n > 0 && p != NULL
    ensures var r := Reached(n, ms); r.slots != [] && r.slots[0] == p && p in r.deleted && p !in Pending(r)
  {
    var s0 := Init(n);
    var s1 := Step(s0, Retire(p));
    var s2 := Step(s1, StartScan);
    assert s1.retired == [p] && s2.reclaimer == Scanning(0, 0, [false]);
    var scan := Times(|s2.slots|, Reclaim);
    ScanSeesNothing(s2, 0, p);
    var s3 := Run(s2, scan);
    var late := [Reclaim, Reclaim, StartAcquire(0, p), Read(0), Read(0), Reclaim];
    ms := [Retire(p), StartScan] + scan + late;
    calc {
      Run(s0, ms);
      { RunAppend(s0, [Retire(p), StartScan] + scan, late);
        RunAppend(s0, [Retire(p), StartScan], scan); }
      Run(Run(Run(s0, [Retire(p), StartScan]), scan), late);
      { assert Run(s0, [Retire(p), StartScan]) == Run(s1, [StartScan]) == Run(s2, []); }
      Run(s3, late);
    }
    LateSteps(s3, p, late);
  }

  lemma RunFirst(s: State, ms: seq<Move>)
    requires WellFormed(s) && ms != []
    ensures WellFormed(Step(s, ms[0])) && Run(s, ms) == Run(Step(s, ms[0]), ms[1..])
  {
    StepWellFormed(s, ms[0]);
  }

  lemma LateScan(s: State)
    requires WellFormed(s) && |s.retired| == 1 && s.slots != [] && s.slots[0] != s.retired[0]
    requires s.reclaimer == Scanning(0, |s.slots|, [false])
    ensures Step(Step(s, Reclaim), Reclaim) == s.(reclaimer := Sweeping(0, [false], []))
  {
  }

  lemma LateAcquire(s: State, p: Ptr)
    requires WellFormed(s) && |s.slots| >= MAX_HAZARD_PTRS && s.slots[0] == NULL && s.readers == map[]
    ensures var t := Step(Step(Step(s, StartAcquire(0, p)), Read(0)), Read(0));
            t.slots == s.slots[0 := p] && t.retired == s.retired && t.deleted == s.deleted && t.reclaimer == s.reclaimer
  {
  }

  lemma LateSweep(s: State)
    requires WellFormed(s) && |s.retired| == 1 && s.reclaimer == Sweeping(0, [false], [])
    ensures var t := Step(s, Reclaim); t.slots == s.slots && s.retired[0] in t.deleted && Pending(t) == []
  {
  }

  lemma LateSteps(s: State, p: Ptr, late: seq<Move>)
    requires WellFormed(s) && |s.slots| >= MAX_HAZARD_PTRS && s.slots[0] == NULL && s.readers == map[]
    requires p != NULL && s.retired == [p] && s.reclaimer == Scanning(0, |s.slots|, [false])
    requires late == [Reclaim, Reclaim, StartAcquire(0, p), Read(0), Read(0), Reclaim]
    ensures var r := Run(s, late); r.slots != [] && r.slots[0] == p && p in r.deleted && p !in Pending(r)
  {
    hide Step;
    LateScan(s);
    RunFirst(s, late);
    var s1 := Step(s, Reclaim);
    RunFirst(s1, late[1..]);
    var s2 := Step(s1, Reclaim);
    LateAcquire(s2, p);
    assert late[1..][1..] == [StartAcquire(0, p), Read(0), Read(0), Reclaim];
    RunFirst(s2, [StartAcquire(0, p), Read(0), Read(0), Reclaim]);
    var s3 := Step(s2, StartAcquire(0, p));
    RunFirst(s3, [Read(0), Read(0), Reclaim]);
    var s4 := Step(s3, Read(0));
    RunFirst(s4, [Read(0), Reclaim]);
    var s5 := Step(s4, Read(0));
    LateSweep(s5);
    RunFirst(s5, [Reclaim]);
  }
}
