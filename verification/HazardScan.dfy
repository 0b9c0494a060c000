/**
 What a scan decides: under any interleaving, from what its own loads found; and what each call of
 the domain does when no other thread interrupts it.
 */
module HazardScan {
  import opened HazardPointers

  // ----- Under any interleaving -----

  /** Move `m` is a load of row `i` of the scan that finds retired pointer `i` in its slot. */
  ghost predicate Finds(s: State, m: Move, i: nat) {
    && m.Reclaim? && s.reclaimer.Scanning? && s.reclaimer.i == i < |s.retired|
    && s.reclaimer.j < |s.slots| && s.slots[s.reclaimer.j] == s.retired[i]
  }

  /** Some load of row `i` in the schedule finds its pointer. */
  ghost predicate FoundIn(s: State, ms: seq<Move>, i: nat)
    requires WellFormed(s)
    decreases |ms|
  {
    ms != [] && (Finds(s, ms[0], i) || (StepWellFormed(s, ms[0]); FoundIn(Step(s, ms[0]), ms[1..], i)))
  }

  /** The schedule ends with the step that ends the scan under way. */
  ghost predicate EndsScan(s: State, ms: seq<Move>)
    requires WellFormed(s)
    decreases |ms|
  {
    if s.reclaimer.Idle? then ms == []
    else ms != [] && (StepWellFormed(s, ms[0]); EndsScan(Step(s, ms[0]), ms[1..]))
  }

  /** The pointers that are flagged, in order. */
  function Flagged(ps: seq<Ptr>, flags: seq<bool>): seq<Ptr>
    requires |ps| == |flags|
  {
    if ps == [] then [] else (if flags[0] then [ps[0]] else []) + Flagged(ps[1..], flags[1..])
  }

  /** The pointers that are not. */
  function Unflagged(ps: seq<Ptr>, flags: seq<bool>): seq<Ptr>
    requires |ps| == |flags|
  {
    if ps == [] then [] else (if flags[0] then [] else [ps[0]]) + Unflagged(ps[1..], flags[1..])
  }

  /** While a scan is under way the other threads' moves leave it, the retired and the deleted pointers alone. */
  lemma OthersLeaveScan(s: State, m: Move)
    requires WellFormed(s) && !s.reclaimer.Idle? && !m.Reclaim?
    ensures var s' := Step(s, m); s'.reclaimer == s.reclaimer && s'.retired == s.retired && s'.deleted == s.deleted
    ensures forall i :: !Finds(s, m, i)
  {
  }

  /** What the flags of a finished row or of the sweep say stays as it is. */
  lemma {:induction false} RowIsOver(s: State, ms: seq<Move>, a: nat)
    requires WellFormed(s) && EndsScan(s, ms)
    requires s.reclaimer.Scanning? ==> a < s.reclaimer.i
    ensures !FoundIn(s, ms, a)
    decreases |ms|
  {
    if s.reclaimer.Idle? {
    } else {
      StepWellFormed(s, ms[0]);
      if !ms[0].Reclaim? { OthersLeaveScan(s, ms[0]); }
      RowIsOver(Step(s, ms[0]), ms[1..], a);
    }
  }

  lemma TakeFlag(ps: seq<Ptr>, flags: seq<bool>, i: nat)
    requires |ps| == |flags| && i < |ps|
    ensures Flagged(ps[i..], flags[i..]) == (if flags[i] then [ps[i]] else []) + Flagged(ps[i + 1..], flags[i + 1..])
    ensures Unflagged(ps[i..], flags[i..]) ==
            (if flags[i] then [] else [ps[i]]) + Unflagged(ps[i + 1..], flags[i + 1..])
  {
    assert ps[i..][1..] == ps[i + 1..] && flags[i..][1..] == flags[i + 1..];
  }

  /** `r` is left when the sweep has kept the flagged pointers from place `i` on and deleted the others. */
  ghost predicate SweptFrom(s: State, r: State, i: nat, hz: seq<bool>, kept: seq<Ptr>)
    requires i <= |s.retired| == |hz|
  {
    && r.retired == kept + Flagged(s.retired[i..], hz[i..])
    && r.deleted == s.deleted + Unflagged(s.retired[i..], hz[i..])
  }

  lemma SweepOne(s: State, r: State)
    requires WellFormed(s) && s.reclaimer.Sweeping? && s.reclaimer.i < |s.retired|
    requires var Sweeping(i, hz, kept) := ReclaimStep(s).reclaimer; SweptFrom(ReclaimStep(s), r, i, hz, kept)
    ensures var Sweeping(i, hz, kept) := s.reclaimer; SweptFrom(s, r, i, hz, kept)
  {
    assert |s.reclaimer.hazardous| == |s.retired|;
    hide Flagged, Unflagged, WellFormed;
    var Sweeping(i, hz, kept) := s.reclaimer;
    TakeFlag(s.retired, hz, i);
    Regrouped(kept, s.retired[i], Flagged(s.retired[i + 1..], hz[i + 1..]));
    Regrouped(s.deleted, s.retired[i], Unflagged(s.retired[i + 1..], hz[i + 1..]));
  }

  lemma Regrouped(a: seq<Ptr>, p: Ptr, b: seq<Ptr>)
    ensures a + ([p] + b) == a + [p] + b && [] + b == b
  {
  }

  lemma {:induction false} SweepObeys(s: State, ms: seq<Move>)
    requires WellFormed(s) && EndsScan(s, ms) && s.reclaimer.Sweeping? && s.reclaimer.i <= |s.retired|
    ensures Run(s, ms).reclaimer.Idle?
    ensures var Sweeping(i, hz, kept) := s.reclaimer; SweptFrom(s, Run(s, ms), i, hz, kept)
    decreases |ms|
  {
    StepWellFormed(s, ms[0]);
    var s' := Step(s, ms[0]);
    if !ms[0].Reclaim? {
      OthersLeaveScan(s, ms[0]);
      SweepObeys(s', ms[1..]);
    } else if s.reclaimer.i < |s.retired| {
      SweepObeys(s', ms[1..]);
      SweepOne(s, Run(s, ms));
    } else {
      assert ms[1..] == [];
      assert s.retired[s.reclaimer.i..] == [];
    }
  }

  /**
   The flags a scan has once its rows are done: what it has flagged already, and what the rest of
   the schedule finds.
   */
  ghost function FinalFlags(s: State, ms: seq<Move>): (f: seq<bool>)
    requires WellFormed(s) && s.reclaimer.Scanning?
    ensures |f| == |s.retired|
    ensures forall a :: 0 <= a < |f| ==> f[a] == (s.reclaimer.hazardous[a] || FoundIn(s, ms, a))
  {
    seq(|s.retired|, a requires 0 <= a < |s.retired| => s.reclaimer.hazardous[a] || FoundIn(s, ms, a))
  }

  lemma FlagsOfRest(s: State, ms: seq<Move>)
    requires WellFormed(s) && s.reclaimer.Scanning? && s.reclaimer.i <= |s.retired| && EndsScan(s, ms)
    requires Step(s, ms[0]).reclaimer.Scanning?
    ensures WellFormed(Step(s, ms[0])) && FinalFlags(Step(s, ms[0]), ms[1..]) == FinalFlags(s, ms)
  {
    StepWellFormed(s, ms[0]);
    var s' := Step(s, ms[0]);
    if !ms[0].Reclaim? { OthersLeaveScan(s, ms[0]); }
    forall a | 0 <= a < |s.retired|
      ensures s'.reclaimer.hazardous[a] || FoundIn(s', ms[1..], a) <==> s.reclaimer.hazardous[a] || FoundIn(s, ms, a)
    {
    }
  }

  lemma FlagsWhenRowsEnd(s: State, ms: seq<Move>)
    requires WellFormed(s) && s.reclaimer.Scanning? && s.reclaimer.i >= |s.retired| && EndsScan(s, ms) && ms[0].Reclaim?
    ensures FinalFlags(s, ms) == s.reclaimer.hazardous
  {
    StepWellFormed(s, Reclaim);
    forall a | 0 <= a < |s.retired| ensures !FoundIn(s, ms, a) { RowIsOver(Step(s, Reclaim), ms[1..], a); }
  }

  lemma {:induction false} ScanObeys(s: State, ms: seq<Move>)
    requires WellFormed(s) && EndsScan(s, ms) && s.reclaimer.Scanning? && s.reclaimer.i <= |s.retired|
    ensures Run(s, ms).reclaimer.Idle? && SweptFrom(s, Run(s, ms), 0, FinalFlags(s, ms), [])
    decreases |ms|
  {
    StepWellFormed(s, ms[0]);
    var s' := Step(s, ms[0]);
    if s'.reclaimer.Scanning? {
      if !ms[0].Reclaim? { OthersLeaveScan(s, ms[0]); }
      ScanObeys(s', ms[1..]);
      FlagsOfRest(s, ms);
    } else {
      if !ms[0].Reclaim? { OthersLeaveScan(s, ms[0]); }
      SweepObeys(s', ms[1..]);
      FlagsWhenRowsEnd(s, ms);
    }
  }

  /** The pointers whose row has a load that finds them. */
  ghost function FoundRows(s: State, ms: seq<Move>): (f: seq<bool>)
    requires WellFormed(s)
    ensures |f| == |s.retired| && forall i :: 0 <= i < |f| ==> f[i] == FoundIn(s, ms, i)
  {
    seq(|s.retired|, i requires 0 <= i < |s.retired| => FoundIn(s, ms, i))
  }

  /**
   Whatever the other threads do meanwhile, a scan deletes a retired pointer if and only if none of
   the loads of its row finds it, and keeps the others, both in order.
   */
  lemma ScanDeletesIffNotFound(s: State, ms: seq<Move>)
    requires WellFormed(s) && s.reclaimer == Scanning(0, 0, seq(|s.retired|, i => false)) && EndsScan(s, ms)
    ensures var r := Run(s, ms);
            && r.reclaimer.Idle?
            && r.retired == Flagged(s.retired, FoundRows(s, ms))
            && r.deleted == s.deleted + Unflagged(s.retired, FoundRows(s, ms))
  {
    ScanObeys(s, ms);
    assert FinalFlags(s, ms) == FoundRows(s, ms);
    assert s.retired[0..] == s.retired && FoundRows(s, ms)[0..] == FoundRows(s, ms);
    assert [] + Flagged(s.retired, FoundRows(s, ms)) == Flagged(s.retired, FoundRows(s, ms));
  }

  // ----- With no other thread in between -----

  function Held(slots: seq<Ptr>, ps: seq<Ptr>): seq<Ptr> {
    if ps == [] then [] else Held(slots, ps[..|ps| - 1]) + (if ps[|ps| - 1] in slots then [ps[|ps| - 1]] else [])
  }

  function Unheld(slots: seq<Ptr>, ps: seq<Ptr>): seq<Ptr> {
    if ps == [] then [] else Unheld(slots, ps[..|ps| - 1]) + (if ps[|ps| - 1] in slots then [] else [ps[|ps| - 1]])
  }

  // ----- A scan that no other thread interrupts -----

  /** `k` steps of the reclaimer alone. */
  function Alone(k: nat, s: State): (r: State)
    requires WellFormed(s)
    ensures WellFormed(r)
  {
    if k == 0 then s else
      StepWellFormed(s, Reclaim);
      Alone(k - 1, ReclaimStep(s))
  }

  lemma {:induction false} AloneIsRun(k: nat, s: State)
    requires WellFormed(s)
    ensures Alone(k, s) == Run(s, Times(k, Reclaim))
  {
    if k == 0 {
    } else {
      StepWellFormed(s, Reclaim);
      AloneIsRun(k - 1, ReclaimStep(s));
      assert Times(k, Reclaim)[1..] == Times(k - 1, Reclaim);
    }
  }

  lemma {:induction false} AloneAdds(a: nat, b: nat, s: State)
    requires WellFormed(s)
    ensures Alone(a + b, s) == Alone(b, Alone(a, s))
  {
    if a == 0 {
    } else {
      StepWellFormed(s, Reclaim);
      AloneAdds(a - 1, b, ReclaimStep(s));
    }
  }

  lemma AloneFirst(k: nat, s: State)
    requires WellFormed(s)
    ensures WellFormed(ReclaimStep(s)) && Alone(k + 1, s) == Alone(k, ReclaimStep(s))
  {
    StepWellFormed(s, Reclaim);
  }

  /** The inner loop settles whether retired pointer `i` is published. */
  lemma {:induction false} ScanRow(s: State, i: nat, j: nat, hz: seq<bool>) returns (k: nat)
    requires WellFormed(s) && s.reclaimer == Scanning(i, j, hz) && i < |s.retired| && !hz[i]
    requires j <= |s.slots| && s.retired[i] !in s.slots[..j]
    ensures Alone(k, s) == s.(reclaimer := Scanning(i + 1, 0, hz[i := s.retired[i] in s.slots]))
    decreases |s.slots| - j
  {
    AloneFirst(0, s);
    if j == |s.slots| {
      assert s.slots[..j] == s.slots && hz[i := false] == hz;
      k := 1;
    } else if s.slots[j] == s.retired[i] {
      k := 1;
    } else {
      k := ScanRow(ReclaimStep(s), i, j + 1, hz);
      AloneFirst(k, s);
      k := k + 1;
    }
  }

  function Flags(slots: seq<Ptr>, ps: seq<Ptr>, n: nat): (f: seq<bool>)
    ensures |f| == |ps| && forall a :: 0 <= a < |ps| ==> f[a] == (a < n && ps[a] in slots)
  {
    seq(|ps|, a requires 0 <= a < |ps| => a < n && ps[a] in slots)
  }

  lemma {:induction false} ScanRows(s: State, i: nat) returns (k: nat)
    requires WellFormed(s) && i <= |s.retired| && s.reclaimer == Scanning(i, 0, Flags(s.slots, s.retired, i))
    ensures Alone(k, s) == s.(reclaimer := Sweeping(0, Flags(s.slots, s.retired, |s.retired|), []))
    decreases |s.retired| - i
  {
    if i == |s.retired| {
      AloneFirst(0, s);
      k := 1;
    } else {
      var a := ScanRow(s, i, 0, Flags(s.slots, s.retired, i));
      var s' := Alone(a, s);
      assert s'.reclaimer.hazardous == Flags(s.slots, s.retired, i + 1);
      var b := ScanRows(s', i + 1);
      AloneAdds(a, b, s);
      k := a + b;
    }
  }

  lemma HeldNext(slots: seq<Ptr>, ps: seq<Ptr>, i: nat)
    requires i < |ps|
    ensures Held(slots, ps[..i + 1]) == Held(slots, ps[..i]) + (if ps[i] in slots then [ps[i]] else [])
    ensures Unheld(slots, ps[..i + 1]) == Unheld(slots, ps[..i]) + (if ps[i] in slots then [] else [ps[i]])
  {
    assert ps[..i + 1][..i] == ps[..i];
  }

  /** Before place `i` the sweep has kept the published pointers and deleted the others, after `gone`. */
  ghost predicate SweptTo(s: State, i: nat, gone: seq<Ptr>) {
    && i <= |s.retired| && s.deleted == gone + Unheld(s.slots, s.retired[..i])
    && s.reclaimer == Sweeping(i, Flags(s.slots, s.retired, |s.retired|), Held(s.slots, s.retired[..i]))
  }

  lemma SweepRow(s: State, i: nat, gone: seq<Ptr>)
    requires WellFormed(s) && SweptTo(s, i, gone) && i < |s.retired|
    ensures var s' := ReclaimStep(s);
            && SweptTo(s', i + 1, gone)
            && s' == s.(reclaimer := s'.reclaimer, deleted := s'.deleted)
  {
    hide Held, Unheld;
    HeldNext(s.slots, s.retired, i);
    var drop := Unheld(s.slots, s.retired[..i]);
    assert gone + drop + [s.retired[i]] == gone + (drop + [s.retired[i]]);
    assert Held(s.slots, s.retired[..i]) + [] == Held(s.slots, s.retired[..i]) && drop + [] == drop;
  }

  lemma {:induction false} SweepRows(s: State, i: nat, gone: seq<Ptr>) returns (k: nat)
    requires WellFormed(s) && SweptTo(s, i, gone)
    ensures Alone(k, s) ==
            s.(reclaimer := Idle, retired := Held(s.slots, s.retired), deleted := gone + Unheld(s.slots, s.retired))
    decreases |s.retired| - i
  {
    hide Held, Unheld;
    AloneFirst(0, s);
    if i == |s.retired| {
      assert s.retired[..i] == s.retired;
      k := 1;
    } else {
      SweepRow(s, i, gone);
      k := SweepRows(ReclaimStep(s), i + 1, gone);
      AloneFirst(k, s);
      k := k + 1;
    }
  }

  lemma ScanThenSweep(s: State) returns (k: nat)
    requires WellFormed(s) && s.reclaimer == Scanning(0, 0, seq(|s.retired|, i => false))
    ensures Alone(k, s) ==
            s.(reclaimer := Idle, retired := Held(s.slots, s.retired),
               deleted := s.deleted + Unheld(s.slots, s.retired))
  {
    assert s.reclaimer.hazardous == Flags(s.slots, s.retired, 0);
    var a := ScanRows(s, 0);
    var s' := Alone(a, s);
    assert s.retired[..0] == [] && s.deleted + [] == s.deleted;
    var b := SweepRows(s', 0, s.deleted);
    AloneAdds(a, b, s);
    k := a + b;
  }

  /** Left alone, a scan keeps the published pointers and deletes all the others, in order. */
  lemma UninterruptedScan(s: State) returns (k: nat)
    requires WellFormed(s) && s.reclaimer.Idle?
    ensures var r := Run(s, [StartScan] + Times(k, Reclaim));
            r == s.(retired := Held(s.slots, s.retired), deleted := s.deleted + Unheld(s.slots, s.retired),
                    guarded := r.guarded)
  {
    StepWellFormed(s, StartScan);
    var s' := Step(s, StartScan);
    if s.retired == [] {
      k := 0;
      assert s.deleted + [] == s.deleted;
    } else {
      k := ScanThenSweep(s');
    }
    AloneIsRun(k, s');
    RunFirst(s, [StartScan] + Times(k, Reclaim));
    assert ([StartScan] + Times(k, Reclaim))[1..] == Times(k, Reclaim);
  }

  /** `retire` only queues its pointer below the threshold, and from there on scans. */
  lemma UninterruptedRetire(s: State, p: Ptr) returns (k: nat)
    requires WellFormed(s) && s.reclaimer.Idle? && p != NULL && p !in s.retired
    ensures var r := Run(s, [Retire(p)] + Times(k, Reclaim));
            && r.reclaimer.Idle? && r.slots == s.slots
            && var ps := s.retired + [p];
               if |ps| < RETIRED_THRESHOLD then r.retired == ps && r.deleted == s.deleted
               else r.retired == Held(s.slots, ps) && r.deleted == s.deleted + Unheld(s.slots, ps)
  {
    StepWellFormed(s, Retire(p));
    var s' := Step(s, Retire(p));
    if |s.retired| + 1 < RETIRED_THRESHOLD {
      k := 0;
    } else {
      k := ScanThenSweep(s');
    }
    AloneIsRun(k, s');
    RunFirst(s, [Retire(p)] + Times(k, Reclaim));
    assert ([Retire(p)] + Times(k, Reclaim))[1..] == Times(k, Reclaim);
  }

  lemma FirstRetireQueues(s: State, p: Ptr)
    requires WellFormed(s) && s.reclaimer.Idle? && s.retired == [] && p != NULL
    ensures var one := Step(s, Retire(p));
            && WellFormed(one) && one.reclaimer.Idle? && one.retired == [p]
            && one.deleted == s.deleted && one.slots == s.slots
  {
    StepWellFormed(s, Retire(p));
  }

  /** The second retire scans: with neither pointer published, two retires delete both, and one deletes none. */
  lemma SecondRetireDeletesBoth(s: State, p: Ptr, q: Ptr) returns (k: nat)
    requires WellFormed(s) && s.reclaimer.Idle? && s.retired == []
    requires p != NULL && q != NULL && p != q && p !in s.slots && q !in s.slots
    ensures var one := Step(s, Retire(p)); one.reclaimer.Idle? && one.retired == [p] && one.deleted == s.deleted
    ensures WellFormed(Step(s, Retire(p)))
    ensures var r := Run(Step(s, Retire(p)), [Retire(q)] + Times(k, Reclaim));
            r.reclaimer.Idle? && r.retired == [] && r.deleted == s.deleted + [p, q]
  {
    FirstRetireQueues(s, p);
    hide Run, Step, Held, Unheld, Times, WellFormed;
    var one := Step(s, Retire(p));
    k := UninterruptedRetire(one, q);
    NoneHeld(s.slots, p, q);
    assert [p] + [q] == [p, q];
  }

  lemma NoneHeld(slots: seq<Ptr>, p: Ptr, q: Ptr)
    requires p !in slots && q !in slots
    ensures Held(slots, [p, q]) == [] && Unheld(slots, [p, q]) == [p, q]
  {
    HeldNext(slots, [p, q], 0);
    HeldNext(slots, [p, q], 1);
    assert [p, q][..0] == [] && [p, q][..1] == [p] && [p, q][..2] == [p, q];
    assert Held(slots, []) == [] && Unheld(slots, []) == [];
  }

  /** Every thread has sixteen places, all free at first. */
  lemma SixteenPlaces(n: nat)
    ensures |Init(n).slots| == 16 * n && Threads(Init(n)) == n
    ensures forall k :: 0 <= k < 16 * n ==> Init(n).slots[k] == NULL
  {
  }

  /** The first free place of thread `t`'s block from place `i` on, or the end of the block. */
  function FirstFree(slots: seq<Ptr>, t: Thread, i: nat): (f: nat)
    requires i <= MAX_HAZARD_PTRS && SlotOf(t, MAX_HAZARD_PTRS) <= |slots|
    ensures i <= f <= MAX_HAZARD_PTRS && (f < MAX_HAZARD_PTRS ==> slots[SlotOf(t, f)] == NULL)
    ensures forall j :: i <= j < f ==> slots[SlotOf(t, j)] != NULL
    decreases MAX_HAZARD_PTRS - i
  {
    if i == MAX_HAZARD_PTRS || slots[SlotOf(t, i)] == NULL then i else FirstFree(slots, t, i + 1)
  }

  /** The state with `p` published at place `f` of thread `t`'s block, unless the block is full. */
  function Published(s: State, t: Thread, f: nat, p: Ptr): State
    requires WellFormed(s) && SlotOf(t, MAX_HAZARD_PTRS) <= |s.slots|
  {
    if f >= MAX_HAZARD_PTRS then s
    else s.(slots := s.slots[SlotOf(t, f) := p], guarded := s.guarded[SlotOf(t, f) := false])
  }

  lemma BlockFits(s: State, t: Thread)
    requires WellFormed(s) && t < Threads(s)
    ensures SlotOf(t, MAX_HAZARD_PTRS) <= |s.slots|
  {
  }

  lemma ReadTimes(s: State, t: Thread, k: nat)
    requires WellFormed(s) && t in s.readers
    ensures WellFormed(ReadStep(s, t)) && Run(s, Times(k + 1, Read(t))) == Run(ReadStep(s, t), Times(k, Read(t)))
  {
    RunFirst(s, Times(k + 1, Read(t)));
    assert Times(k + 1, Read(t))[1..] == Times(k, Read(t));
  }

  lemma StoreFound(s: State, t: Thread, p: Ptr, f: nat)
    requires WellFormed(s) && t in s.readers && s.readers[t] == Found(p, f) && SlotOf(t, MAX_HAZARD_PTRS) <= |s.slots|
    ensures Run(s, Times(1, Read(t))) == Published(s, t, f, p).(readers := s.readers - {t})
  {
    ReadTimes(s, t, 0);
  }

  lemma {:induction false} ProbeOn(s: State, t: Thread, p: Ptr, i: nat) returns (k: nat)
    requires WellFormed(s) && t in s.readers && s.readers[t] == Probing(p, i) && SlotOf(t, MAX_HAZARD_PTRS) <= |s.slots|
    ensures Run(s, Times(k, Read(t))) == Published(s, t, FirstFree(s.slots, t, i), p).(readers := s.readers - {t})
    decreases MAX_HAZARD_PTRS - i
  {
    var s' := ReadStep(s, t);
    ReadTimes(s, t, 0);
    if i == MAX_HAZARD_PTRS {
      k := 1;
    } else {
      assert s'.readers - {t} == s.readers - {t};
      if s.slots[SlotOf(t, i)] == NULL {
        StoreFound(s', t, p, i);
        k := 1;
      } else {
        k := ProbeOn(s', t, p, i + 1);
      }
      ReadTimes(s, t, k);
      k := k + 1;
    }
  }

  /**
   Left alone, `acquire` publishes its pointer in the first free slot of its block, and changes
   nothing if there is none.
   */
  lemma UninterruptedAcquire(s: State, t: Thread, p: Ptr) returns (k: nat)
    requires WellFormed(s) && t < Threads(s) && t !in s.readers
    ensures SlotOf(t, MAX_HAZARD_PTRS) <= |s.slots|
    ensures Run(s, [StartAcquire(t, p)] + Times(k, Read(t))) == Published(s, t, FirstFree(s.slots, t, 0), p)
  {
    BlockFits(s, t);
    StepWellFormed(s, StartAcquire(t, p));
    var s' := Step(s, StartAcquire(t, p));
    k := ProbeOn(s', t, p, 0);
    assert s'.readers - {t} == s.readers;
    RunFirst(s, [StartAcquire(t, p)] + Times(k, Read(t)));
    assert ([StartAcquire(t, p)] + Times(k, Read(t)))[1..] == Times(k, Read(t));
  }

  /** Releasing the slot that `acquire` took leaves the slots as they were before. */
  lemma ReleaseUndoesAcquire(s: State, t: Thread, p: Ptr)
    requires WellFormed(s) && t < Threads(s) && t !in s.readers && SlotOf(t, MAX_HAZARD_PTRS) <= |s.slots|
    requires FirstFree(s.slots, t, 0) < MAX_HAZARD_PTRS
    ensures var f := FirstFree(s.slots, t, 0);
            WellFormed(Published(s, t, f, p)) && Step(Published(s, t, f, p), Release(t, f)).slots == s.slots
  {
    var f := FirstFree(s.slots, t, 0);
    assert Threads(Published(s, t, f, p)) == Threads(s);
    assert s.slots[SlotOf(t, f) := p][SlotOf(t, f) := NULL] == s.slots;
  }

  /** With no store in between, a scan keeps the published pointers and deletes the others, in order. */
  method ScanAndReclaim(slots: seq<Ptr>, retired: seq<Ptr>) returns (kept: seq<Ptr>, deleted: seq<Ptr>)
    ensures kept == Held(slots, retired) && deleted == Unheld(slots, retired)
  {
    kept, deleted := [], [];
    if retired == [] { return; }
    var hazardous := seq(|retired|, i => false);
    for i := 0 to |retired|
      invariant |hazardous| == |retired|
      invariant forall a :: 0 <= a < i ==> hazardous[a] == (retired[a] in slots)
      invariant forall a :: i <= a < |retired| ==> !hazardous[a]
    {
      for j := 0 to |slots|
        invariant hazardous == seq(|retired|, a requires 0 <= a < |retired| => a < i && retired[a] in slots)
        invariant retired[i] !in slots[..j]
      {
        if slots[j] == retired[i] {
          hazardous := hazardous[i := true];
          break;
        }
      }
    }
    for i := 0 to |retired|
      invariant kept == Held(slots, retired[..i]) && deleted == Unheld(slots, retired[..i])
    {
      assert retired[..i + 1][..i] == retired[..i];
      if hazardous[i] { kept := kept + [retired[i]]; } else { deleted := deleted + [retired[i]]; }
    }
    assert retired[..|retired|] == retired;
  }
}
