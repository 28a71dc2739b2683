/** How large an active set the two-level policy needs. */
module TwoLevelCapacity {
  import opened Common
  import opened Isa
  import opened Sequences
  import opened WarpModel
  import opened MemoryModel
  import opened ExecutorModel
  import opened SchedulingModel
  import opened SchedulerTheory
  import opened Nesting
  import opened Structured
  import opened SmModel
  import opened SmRefinement
  import opened Progress
  import opened Termination
  import opened Counterexamples
  import opened TwoLevelProgress

  /** The warps of one block meet at one BARRIER. */
  const MEETING: seq<Instruction> := [Plain(BARRIER, 0)]

  function Waiting(id: nat): WarpVal { Single(id, false).(pc := 1, state := StalledAtBarrier, arrivals := 1) }

  /** `n` new warps of one lane on an SM whose active set is empty. */
  function Crowd(n: nat, capacity: nat): SmVal {
    SmVal(seq(n, i requires 0 <= i < n => Single(i, false)), [], NOTHING, 0, TwoLevel(capacity, [], 0))
  }

  /** Every warp is new, or waits and holds a place in the set. */
  ghost predicate Crowded(s: SmVal, n: nat, capacity: nat) {
    && s.sched.TwoLevel? && s.sched.capacity == capacity && NoDup(s.sched.active) && |s.sched.active| <= capacity
    && |s.warps| == n
    && forall i :: 0 <= i < n ==>
         s.warps[i] == Single(i, false) || (s.warps[i] == Waiting(i) && i in s.sched.active)
  }

  /** A set smaller than the list of warps leaves one out. */
  lemma {:induction false} Outsider(active: seq<nat>, n: nat) returns (i: nat)
    requires |active| < n
    ensures i < n && i !in active
    decreases n
  {
    if n - 1 !in active {
      i := n - 1;
    } else {
      var p :| 0 <= p < |active| && active[p] == n - 1;
      i := Outsider(active[..p] + active[p + 1..], n - 1);
      assert active == active[..p] + [n - 1] + active[p + 1..];
    }
  }

  lemma CrowdIds(s: SmVal, n: nat, capacity: nat)
    requires Crowded(s, n, capacity)
    ensures UniqueIds(s.warps) && TickStalls(s.warps, s.cycles) == s.warps
    ensures forall i :: 0 <= i < n ==> s.warps[i].id == i && s.warps[i].state in {Ready, StalledAtBarrier}
  {
  }

  lemma SelectUpdates(warps: seq<WarpVal>, capacity: nat, active: seq<nat>, rr: nat)
    ensures var c := Select(TwoLevel(capacity, active, rr), warps);
            c.sched.TwoLevel? && c.sched.active == UpdateActive(warps, active, capacity)
  {
    hide UpdateActive, ScanActive;
  }

  /** A warp that waits keeps its place. */
  lemma WaiterKept(s: SmVal, n: nat, capacity: nat, i: nat)
    requires Crowded(s, n, capacity) && i < n && s.warps[i] == Waiting(i)
    ensures i in s.sched.active && Stays(s.warps, i)
  {
    CrowdIds(s, n, capacity);
    hide UniqueIds, FindId;
    FindsIt(s.warps, i);
  }

  /** What the policy does to a crowd: waiting members keep their places. */
  lemma CrowdSelect(s: SmVal, n: nat, capacity: nat)
    requires Crowded(s, n, capacity)
    ensures var c := Select(s.sched, s.warps);
            && c.sched.TwoLevel? && Crowded(s.(sched := c.sched), n, capacity)
            && (c.warp.Some? ==> s.warps[c.warp.value] == Single(c.warp.value, false) && c.warp.value in c.sched.active)
  {
    hide UpdateActive, Select, UniqueIds, OldestFirstIn, Stays, Single;
    CrowdIds(s, n, capacity);
    SelectUpdates(s.warps, capacity, s.sched.active, s.sched.rr);
    TwoLevelSelects(s.warps, s.sched.active, capacity, s.sched.rr);
    UpdateActiveFacts(s.warps, s.sched.active, capacity);
    forall i | 0 <= i < n && s.warps[i] == Waiting(i)
      ensures i in s.sched.active && Stays(s.warps, i)
    {
      WaiterKept(s, n, capacity, i);
    }
  }

  /** The barrier never opens: the warps that wait are members, and one warp is none. */
  lemma CrowdArrives(s: SmVal, n: nat, capacity: nat, i: nat, cycle: nat)
    requires Crowded(s, n, capacity) && capacity < n && i < n && i in s.sched.active
    ensures BarrierArrival(s.warps[i := Single(i, false).(pc := 1)], i, cycle) == Ok(s.warps[i := Waiting(i)])
  {
    var o := Outsider(s.sched.active, n);
    var after := s.warps[i := Waiting(i)];
    assert after[o] == Single(o, false) && Belongs(after[o], 0);
    assert !BlockWaiting(after, 0);
    assert s.warps[i := Single(i, false).(pc := 1)][i := Waiting(i)] == after;
  }

  lemma MeetsBarrier(w: WarpVal, id: nat, m: MemVal)
    requires w == Single(id, false)
    ensures Execute(MEETING[0], w, m) == Ok(Outcome(w.(pc := 1), m, BarrierReached, 1))
  {
    SingleMask(id, false);
  }

  lemma CrowdIssue(s: SmVal, n: nat, capacity: nat, i: nat, m: MemVal, cycle: nat)
    requires Crowded(s, n, capacity) && capacity < n && i < n && i in s.sched.active && s.warps[i] == Single(i, false)
    ensures Issue(MEETING, s.warps, i, m, cycle) == Ok(Issued(s.warps[i := Waiting(i)], m))
  {
    MeetsBarrier(s.warps[i], i, m);
    CrowdArrives(s, n, capacity, i, cycle);
    hide Execute, BarrierArrival, Crowded;
    assert s.warps[i := Waiting(i)][i := Waiting(i)] == s.warps[i := Waiting(i)];
  }

  lemma CrowdTick(s: SmVal, n: nat, capacity: nat, m: MemVal)
    requires Crowded(s, n, capacity) && capacity < n
    ensures Tick(MEETING, s, m).Ok? && !IsCompleted(s.warps)
    ensures Tick(MEETING, s, m).value.mem == m && Crowded(Tick(MEETING, s, m).value.sm, n, capacity)
  {
    hide Select, Issue, TickStalls, UniqueIds;
    CrowdIds(s, n, capacity);
    assert s.warps[0].state != Completed;
    CrowdSelect(s, n, capacity);
    var c := Select(s.sched, s.warps);
    if c.warp.Some? {
      CrowdIssue(s.(sched := c.sched), n, capacity, c.warp.value, m, s.cycles + 1);
    }
  }

  lemma CrowdStarts(n: nat, capacity: nat)
    ensures Crowded(Crowd(n, capacity), n, capacity)
  {
  }

  /** The well-formed meeting of `n` warps never takes place on an SM whose active set is smaller: its members wait
      for a warp that is never admitted. */
  lemma {:induction false} MeetingNeverHappens(n: nat, capacity: nat, m: MemVal, t: nat)
    requires capacity < n
    ensures Ticks(MEETING, Crowd(n, capacity), m, t).Ok?
    ensures var after := Ticks(MEETING, Crowd(n, capacity), m, t).value;
            after.mem == m && Crowded(after.sm, n, capacity) && !IsCompleted(after.sm.warps)
  {
    hide Tick, Crowded, Crowd;
    CrowdStarts(n, capacity);
    if t > 0 { MeetingNeverHappens(n, capacity, m, t - 1); }
    var before := if t == 0 then Ticked(Crowd(n, capacity), m) else Ticks(MEETING, Crowd(n, capacity), m, t - 1).value;
    CrowdTick(before.sm, n, capacity, m);
    CrowdTick(Ticks(MEETING, Crowd(n, capacity), m, t).value.sm, n, capacity, m);
  }

  /** The same whatever other SMs do to the memory between the ticks. */
  lemma {:induction false} MeetingNeverOn(n: nat, capacity: nat, mems: nat -> MemVal, t: nat)
    requires capacity < n
    ensures TicksOn(MEETING, Crowd(n, capacity), mems, t).Ok?
    ensures var after := TicksOn(MEETING, Crowd(n, capacity), mems, t).value;
            Crowded(after, n, capacity) && !IsCompleted(after.warps)
  {
    hide Tick, Crowded, Crowd, IsCompleted;
    CrowdStarts(n, capacity);
    if t > 0 {
      MeetingNeverOn(n, capacity, mems, t - 1);
      CrowdTick(TicksOn(MEETING, Crowd(n, capacity), mems, t - 1).value, n, capacity, mems(t - 1));
    }
    CrowdTick(TicksOn(MEETING, Crowd(n, capacity), mems, t).value, n, capacity, mems(t));
  }

  lemma MeetingStructured()
    ensures WellStructured(MEETING)
  {
    assert Open(MEETING, 0) == [];
    assert Open(MEETING, 1) == [];
    assert GoodInstruction(MEETING, 0);
  }

  lemma CrowdLively(n: nat, capacity: nat)
    ensures Lively(MEETING, Crowd(n, capacity).warps) && ActiveFits(Crowd(n, capacity))
  {
    forall i | 0 <= i < n
      ensures PacedWarp(MEETING, Single(i, false))
    {
      FreshPaced(MEETING, i, [Flagged(false)], 0);
    }
  }

  /** A run of a structured kernel, on any memories, from any live state with `n` warps and a set of this capacity. */
  ghost predicate Starts(k: Code, s: SmVal, n: nat, capacity: nat) {
    WellStructured(k) && Lively(k, s.warps) && ActiveFits(s) && |s.warps| == n && s.sched.capacity == capacity
  }

  /** Every such run completes or throws over the program's data. */
  ghost predicate AlwaysEnds(n: nat, capacity: nat) {
    forall k: Code, s: SmVal, mems: nat -> MemVal :: Starts(k, s, n, capacity) ==>
      Completes(k, s, mems) || Faults(k, s, mems)
  }

  /** The exact condition on the configuration: the two-level policy completes every structured kernel on `n` warps,
      but for data errors, if and only if its active set has room for all of them. */
  lemma CapacityIff(n: nat, capacity: nat)
    ensures AlwaysEnds(n, capacity) <==> n <= capacity
  {
    hide Completes, Faults, WellStructured, Lively, ActiveFits, Crowd;
    if n <= capacity {
      forall k: Code, s: SmVal, mems: nat -> MemVal | Starts(k, s, n, capacity)
        ensures Completes(k, s, mems) || Faults(k, s, mems)
      {
        WideCompletes(k, s, mems);
      }
    } else {
      var mems: nat -> MemVal :| true;
      MeetingStarts(n, capacity);
      NeverEnds(n, capacity, mems);
    }
  }

  lemma MeetingStarts(n: nat, capacity: nat)
    ensures Starts(MEETING, Crowd(n, capacity), n, capacity)
  {
    MeetingStructured();
    CrowdLively(n, capacity);
  }

  lemma NeverEnds(n: nat, capacity: nat, mems: nat -> MemVal)
    requires capacity < n
    ensures !Completes(MEETING, Crowd(n, capacity), mems) && !Faults(MEETING, Crowd(n, capacity), mems)
  {
    hide TicksOn, IsCompleted, Crowd, Crowded;
    forall t: nat
      ensures TicksOn(MEETING, Crowd(n, capacity), mems, t).Ok?
      ensures !IsCompleted(TicksOn(MEETING, Crowd(n, capacity), mems, t).value.warps)
    {
      MeetingNeverOn(n, capacity, mems, t);
    }
  }
}
