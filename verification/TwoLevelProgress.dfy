/** When an SM completes under the two-level policy: unless its active set fills with warps that wait. */
module TwoLevelProgress {
  import opened Common
  import opened Isa
  import opened Sequences
  import opened WarpModel
  import opened MemoryModel
  import opened SchedulingModel
  import opened SchedulerTheory
  import opened Barriers
  import opened Structured
  import opened Nesting
  import opened SmModel
  import opened Progress
  import opened Termination
  import opened Residency
  import opened TwoLevelIdling

  /** A two-level scheduler in a state it can reach, on warps of distinct ids. */
  ghost predicate ActiveFits(s: SmVal) {
    s.sched.TwoLevel? && UniqueIds(s.warps) && NoDup(s.sched.active) && |s.sched.active| <= s.sched.capacity
  }

  lemma SeatIds(a: seq<WarpVal>, b: seq<WarpVal>)
    requires SameSeats(a, b) && UniqueIds(b)
    ensures UniqueIds(a)
  {
    assert forall i :: 0 <= i < |a| ==> SameSeat(a[i], b[i]);
  }

  lemma StallsSeats(warps: seq<WarpVal>, cycle: nat)
    ensures SameSeats(TickStalls(warps, cycle), warps)
  {
  }

  lemma TickFits(k: Code, s: SmVal, m: MemVal)
    requires ActiveFits(s) && Tick(k, s, m).Ok?
    ensures var s' := Tick(k, s, m).value.sm;
            ActiveFits(s') && s'.sched.capacity == s.sched.capacity && |s'.warps| == |s.warps|
  {
    hide Issue, Select, SameSeat, GoodActive;
    TickSeats(k, s, m);
    SeatIds(Tick(k, s, m).value.sm.warps, s.warps);
    if !IsCompleted(s.warps) {
      var warps := TickStalls(s.warps, s.cycles);
      StallsSeats(s.warps, s.cycles);
      SeatIds(warps, s.warps);
      TwoLevelSelects(warps, s.sched.active, s.sched.capacity, s.sched.rr);
      assert GoodActive(warps, Select(s.sched, warps).sched.active, s.sched.capacity);
      GoodFits(warps, Select(s.sched, warps).sched.active, s.sched.capacity);
    }
  }

  lemma GoodFits(warps: seq<WarpVal>, active: seq<nat>, capacity: nat)
    requires GoodActive(warps, active, capacity)
    ensures NoDup(active) && |active| <= capacity
  {
  }

  /** A member of an idling set, when nobody counts down a stall, waits at a barrier. */
  lemma MemberWaits(warps: seq<WarpVal>, active: seq<nat>, capacity: nat, id: nat)
    requires Excluded(warps, active, capacity) && id in active
    requires forall i :: 0 <= i < |warps| ==> warps[i].state != Stalled
    ensures WaitsAs(warps, id)
  {
    assert Stays(warps, id);
    var i := FindId(warps, id, 0);
    assert warps[i].id == id && warps[i].state == StalledAtBarrier;
  }

  /** A tick that selects nobody while nobody counts down a stall leaves the set clogged. */
  lemma IdleClogs(k: Code, s: SmVal, m: MemVal)
    requires Lively(k, s.warps) && !IsCompleted(s.warps) && ActiveFits(s)
    requires forall i :: 0 <= i < |s.warps| ==> s.warps[i].state != Stalled
    requires Select(s.sched, s.warps).warp.None?
    ensures Tick(k, s, m).Ok? && Clogged(Tick(k, s, m).value.sm)
  {
    hide Lively, Issue, Excluded, WaitsAs, UpdateActive;
    assert TickStalls(s.warps, s.cycles) == s.warps;
    var active, capacity := s.sched.active, s.sched.capacity;
    var u :| 0 <= u < |s.warps| && s.warps[u].state != Completed;
    NeverDeadlocked(k, s.warps, u);
    var r :| 0 <= r < |s.warps| && SameBlock(s.warps[u], s.warps[r]) && Awake(s.warps[r]);
    assert IsReady(s.warps[r]);
    IdlesIff(s.warps, active, capacity, s.sched.rr);
    IdleSet(s.warps, active, capacity, s.sched.rr);
    forall p | 0 <= p < |active|
      ensures WaitsAs(s.warps, active[p])
    {
      MemberWaits(s.warps, active, capacity, active[p]);
    }
  }

  lemma IdleSet(warps: seq<WarpVal>, active: seq<nat>, capacity: nat, rr: nat)
    requires Excluded(warps, active, capacity)
    ensures UpdateActive(warps, active, capacity) == active && |active| == capacity
    ensures Select(TwoLevel(capacity, active, rr), warps).warp.None? ==>
              Select(TwoLevel(capacity, active, rr), warps).sched.active == active
  {
    KeepsAll(warps, active);
    FullSetStays(warps, active, capacity);
  }

  /** A tick of an unfinished SM lowers the measure or clogs the set. */
  lemma TickOrClog(k: Code, s: SmVal, m: MemVal)
    requires WellStructured(k) && Lively(k, s.warps) && !IsCompleted(s.warps) && ActiveFits(s) && Tick(k, s, m).Ok?
    ensures var s' := Tick(k, s, m).value.sm;
            LexBelow(MeasureOf(k, s'.warps), MeasureOf(k, s.warps)) || Clogged(s')
  {
    hide WellStructured, Lively, MeasureOf, Issue, Select, TickStalls, Clogged, ActiveFits;
    var warps := TickStalls(s.warps, s.cycles);
    TickStallsLively(k, s.warps, s.cycles);
    StallsDecrease(k, s.warps, s.cycles);
    var c := Select(s.sched, warps);
    if c.warp.Some? {
      IssueDecreases(k, warps, c.warp.value, m, s.cycles + 1);
    } else if i :| 0 <= i < |s.warps| && s.warps[i].state == Stalled {
      StalledCounts(k, s.warps, i);
    } else {
      NobodyStalls(s.warps, s.cycles);
      IdleClogs(k, s, m);
    }
  }

  lemma StalledCounts(k: Code, warps: seq<WarpVal>, i: nat)
    requires Lively(k, warps) && i < |warps| && warps[i].state == Stalled
    ensures warps[i].stallCycles > 0
  {
    hide InStep, Rooted, Paced, Lockstep, SomeoneMissing;
    assert PacedWarp(k, warps[i]);
  }

  lemma NobodyStalls(warps: seq<WarpVal>, cycle: nat)
    requires forall i :: 0 <= i < |warps| ==> warps[i].state != Stalled
    ensures TickStalls(warps, cycle) == warps
  {
  }

  // ---------------------------------------------------------------------------------------------
  // Whole runs

  ghost predicate Completes(k: Code, s: SmVal, mems: nat -> MemVal) {
    exists n: nat :: TicksOn(k, s, mems, n).Ok? && IsCompleted(TicksOn(k, s, mems, n).value.warps)
  }

  ghost predicate Clogs(k: Code, s: SmVal, mems: nat -> MemVal) {
    exists n: nat :: TicksOn(k, s, mems, n).Ok? && Clogged(TicksOn(k, s, mems, n).value)
  }

  /** Some tick throws over the program's data. */
  ghost predicate Faults(k: Code, s: SmVal, mems: nat -> MemVal) {
    exists n: nat :: TicksOn(k, s, mems, n).Throw? && DataError(TicksOn(k, s, mems, n).error)
  }

  /** Ticking reaches completion, a clogged set or a data error. */
  lemma EndsSomehow(k: Code, s: SmVal, mems: nat -> MemVal, i: nat, left: Measure)
    requires WellStructured(k) && TicksOn(k, s, mems, i).Ok?
    requires var s' := TicksOn(k, s, mems, i).value;
             Lively(k, s'.warps) && ActiveFits(s') && left == MeasureOf(k, s'.warps)
    ensures Completes(k, s, mems) || Clogs(k, s, mems) || Faults(k, s, mems)
    decreases left.work, left.depth, left.undone, left.stalls
  {
    hide WellStructured, Lively, MeasureOf, ActiveFits, Clogged, Tick, IsCompleted;
    var s' := TicksOn(k, s, mems, i).value;
    if !IsCompleted(s'.warps) {
      TickLively(k, s', mems(i));
      assert TicksOn(k, s, mems, i + 1) ==
             if Tick(k, s', mems(i)).Ok? then Ok(Tick(k, s', mems(i)).value.sm) else Throw(Tick(k, s', mems(i)).error);
      if Tick(k, s', mems(i)).Ok? {
        TickFits(k, s', mems(i));
        TickOrClog(k, s', mems(i));
        var s'' := TicksOn(k, s, mems, i + 1).value;
        if !Clogged(s'') { EndsSomehow(k, s, mems, i + 1, MeasureOf(k, s''.warps)); }
      }
    }
  }

  lemma {:induction false} CloggedOn(k: Code, s: SmVal, mems: nat -> MemVal, a: nat, n: nat)
    requires a <= n && TicksOn(k, s, mems, a).Ok? && Clogged(TicksOn(k, s, mems, a).value)
    ensures TicksOn(k, s, mems, n).Ok? && Clogged(TicksOn(k, s, mems, n).value)
    ensures !IsCompleted(TicksOn(k, s, mems, n).value.warps)
    decreases n
  {
    hide Clogged, Tick, IsCompleted;
    if a < n {
      CloggedOn(k, s, mems, a, n - 1);
      CloggedTick(k, TicksOn(k, s, mems, n - 1).value, mems(n - 1));
    }
    CloggedRuns(TicksOn(k, s, mems, n).value);
  }

  lemma {:induction false} CompletedOn(k: Code, s: SmVal, mems: nat -> MemVal, a: nat, n: nat)
    requires a <= n && TicksOn(k, s, mems, a).Ok? && IsCompleted(TicksOn(k, s, mems, a).value.warps)
    ensures TicksOn(k, s, mems, n) == TicksOn(k, s, mems, a)
    decreases n
  {
    if a < n {
      CompletedOn(k, s, mems, a, n - 1);
    }
  }

  lemma {:induction false} ThrownOn(k: Code, s: SmVal, mems: nat -> MemVal, a: nat, n: nat)
    requires a <= n && TicksOn(k, s, mems, a).Throw?
    ensures TicksOn(k, s, mems, n).Throw?
    decreases n
  {
    hide Tick;
    if a < n {
      ThrownOn(k, s, mems, a, n - 1);
    }
  }

  /** A structured kernel completes under the two-level policy if and only if its active set never clogs and no tick
      throws over data; whatever other SMs do to the memory between the ticks. */
  lemma TwoLevelCompletesIff(k: Code, s: SmVal, mems: nat -> MemVal)
    requires WellStructured(k) && Lively(k, s.warps) && ActiveFits(s)
    ensures Completes(k, s, mems) <==> !Clogs(k, s, mems) && !Faults(k, s, mems)
  {
    hide WellStructured, Lively, ActiveFits, Clogged, IsCompleted, TicksOn, MeasureOf;
    NoTicks(k, s, mems);
    EndsSomehow(k, s, mems, 0, MeasureOf(k, s.warps));
    if Completes(k, s, mems) {
      var n: nat :| TicksOn(k, s, mems, n).Ok? && IsCompleted(TicksOn(k, s, mems, n).value.warps);
      forall a: nat
        ensures TicksOn(k, s, mems, a).Ok? && !Clogged(TicksOn(k, s, mems, a).value)
      {
        NeverClogged(k, s, mems, n, a);
      }
    }
  }

  lemma NoTicks(k: Code, s: SmVal, mems: nat -> MemVal)
    ensures TicksOn(k, s, mems, 0) == Ok(s)
  {
  }

  lemma NeverClogged(k: Code, s: SmVal, mems: nat -> MemVal, n: nat, a: nat)
    requires TicksOn(k, s, mems, n).Ok? && IsCompleted(TicksOn(k, s, mems, n).value.warps)
    ensures TicksOn(k, s, mems, a).Ok? && !Clogged(TicksOn(k, s, mems, a).value)
  {
    hide Clogged, IsCompleted, TicksOn;
    var last := Max(a, n);
    CompletedOn(k, s, mems, n, last);
    if TicksOn(k, s, mems, a).Throw? {
      ThrownOn(k, s, mems, a, last);
    } else if Clogged(TicksOn(k, s, mems, a).value) {
      CloggedOn(k, s, mems, a, last);
    }
  }

  // ---------------------------------------------------------------------------------------------
  // A wide active set

  /** A set with room for every warp of the SM is never clogged. */
  lemma WideNeverClogs(s: SmVal)
    requires s.sched.TwoLevel? && |s.warps| <= s.sched.capacity
    ensures !Clogged(s)
  {
    if Clogged(s) {
      var r :| 0 <= r < |s.warps| && IsReady(s.warps[r]);
      var active := s.sched.active;
      var places := seq(|active|, p requires 0 <= p < |active| => FindId(s.warps, active[p], 0));
      forall p | 0 <= p < |active|
        ensures places[p] < |s.warps| && s.warps[places[p]].id == active[p] && places[p] != r
      {
        assert WaitsAs(s.warps, active[p]);
        var i :| 0 <= i < |s.warps| && s.warps[i].id == active[p] && s.warps[i].state == StalledAtBarrier;
        FindsIt(s.warps, i);
      }
      assert NoDup(places);
      Pigeonhole(places + [r], |s.warps|);
    }
  }

  lemma {:induction false} StaysWide(k: Code, s: SmVal, mems: nat -> MemVal, n: nat)
    requires ActiveFits(s) && TicksOn(k, s, mems, n).Ok?
    ensures var s' := TicksOn(k, s, mems, n).value;
            ActiveFits(s') && s'.sched.capacity == s.sched.capacity && |s'.warps| == |s.warps|
  {
    hide ActiveFits, Tick;
    if n > 0 {
      StaysWide(k, s, mems, n - 1);
      TickFits(k, TicksOn(k, s, mems, n - 1).value, mems(n - 1));
    }
  }

  /** With an active set as large as the SM's list of warps, the two-level policy completes every structured kernel,
      unless a tick throws over data. */
  lemma WideCompletes(k: Code, s: SmVal, mems: nat -> MemVal)
    requires WellStructured(k) && Lively(k, s.warps) && ActiveFits(s) && |s.warps| <= s.sched.capacity
    ensures Completes(k, s, mems) <==> !Faults(k, s, mems)
  {
    hide WellStructured, Lively, Clogged, IsCompleted, TicksOn;
    TwoLevelCompletesIff(k, s, mems);
    if Clogs(k, s, mems) {
      var n: nat :| TicksOn(k, s, mems, n).Ok? && Clogged(TicksOn(k, s, mems, n).value);
      StaysWide(k, s, mems, n);
      WideNeverClogs(TicksOn(k, s, mems, n).value);
    }
  }
}
