/** Block barriers keep the warps of a block in lockstep, whatever the program and the scheduler. */
module Barriers {
  import opened Isa
  import opened WarpModel
  import opened MemoryModel
  import opened ExecutorModel
  import opened SchedulingModel
  import opened SmModel
  import opened SmRefinement

  /** A warp has arrived at one barrier more than it was released from exactly while it waits. */
  predicate Counted(w: WarpVal) {
    w.arrivals == w.releases + (if w.state == StalledAtBarrier then 1 else 0)
  }

  predicate SameBlock(a: WarpVal, b: WarpVal) { BlockOf(a).Some? && BlockOf(a) == BlockOf(b) }

  /** All warps of a block have been released from the same number of barriers. */
  ghost predicate Lockstep(warps: seq<WarpVal>) {
    && (forall i :: 0 <= i < |warps| ==> Counted(warps[i]))
    && (forall i, j :: 0 <= i < |warps| && 0 <= j < |warps| && SameBlock(warps[i], warps[j]) ==>
          warps[i].releases == warps[j].releases)
  }

  /** What lockstep means: within a block, arrivals differ by at most one, and no warp has passed its
      n-th barrier unless every warp of the block has arrived at its n-th. */
  lemma NoWarpRunsAhead(warps: seq<WarpVal>, i: nat, j: nat)
    requires Lockstep(warps) && i < |warps| && j < |warps| && SameBlock(warps[i], warps[j])
    ensures warps[i].arrivals <= warps[j].arrivals + 1
    ensures warps[i].state != StalledAtBarrier ==> warps[i].arrivals <= warps[j].arrivals
  {
    assert Counted(warps[i]) && Counted(warps[j]);
  }

  /** Equal up to what Lockstep does not look at. */
  predicate SameCounts(a: WarpVal, b: WarpVal) {
    && a.arrivals == b.arrivals && a.releases == b.releases && BlockOf(a) == BlockOf(b)
    && (a.state == StalledAtBarrier <==> b.state == StalledAtBarrier)
  }

  lemma SameCountsLockstep(before: seq<WarpVal>, after: seq<WarpVal>)
    requires Lockstep(before) && |before| == |after|
    requires forall i :: 0 <= i < |before| ==> SameCounts(before[i], after[i])
    ensures Lockstep(after)
  {
    forall i, j | 0 <= i < |after| && 0 <= j < |after| && SameBlock(after[i], after[j])
      ensures after[i].releases == after[j].releases
    {
      assert SameCounts(before[i], after[i]) && SameCounts(before[j], after[j]);
      assert SameBlock(before[i], before[j]);
    }
  }

  lemma ArrivalLockstep(warps: seq<WarpVal>, i: nat, cycle: nat)
    requires Lockstep(warps) && i < |warps| && warps[i].state == Ready
    requires BarrierArrival(warps, i, cycle).Ok?
    ensures Lockstep(BarrierArrival(warps, i, cycle).value)
  {
    var key := BarrierKey(warps[i]);
    var arrived := warps[i := ArriveAtBarrier(warps[i])];
    assert Lockstep(arrived) by {
      forall a, b | 0 <= a < |warps| && 0 <= b < |warps| && SameBlock(arrived[a], arrived[b])
        ensures arrived[a].releases == arrived[b].releases
      {
        assert SameBlock(warps[a], warps[b]);
      }
    }
    if BlockWaiting(arrived, key) {
      ReleaseLockstep(arrived, key, cycle);
    }
  }

  lemma ReleaseLockstep(warps: seq<WarpVal>, key: nat, cycle: nat)
    requires Lockstep(warps) && BlockWaiting(warps, key) && !SomeCompleted(warps, key)
    ensures Lockstep(ReleaseBlock(warps, key, cycle))
  {
    var released := ReleaseBlock(warps, key, cycle);
    forall a | 0 <= a < |warps|
      ensures Counted(released[a]) && BlockOf(released[a]) == BlockOf(warps[a])
      ensures released[a].releases == warps[a].releases + (if Belongs(warps[a], key) then 1 else 0)
    {
      assert Counted(warps[a]);
    }
    forall a, b | 0 <= a < |warps| && 0 <= b < |warps| && SameBlock(released[a], released[b])
      ensures released[a].releases == released[b].releases
    {
      assert SameBlock(warps[a], warps[b]);
    }
  }

  lemma FinishCounts(k: Code, w: WarpVal, status: Status, latency: nat)
    requires w.state == StalledAtBarrier ==> status == BarrierReached
    ensures SameCounts(w, Finish(k, w, status, latency))
  {
  }

  lemma ExecuteBlock(inst: Instruction, w: WarpVal, m: MemVal)
    requires Execute(inst, w, m).Ok?
    ensures BlockOf(Execute(inst, w, m).value.warp) == BlockOf(w)
  {
    match inst.opcode
    case LOAD =>
      var addresses := LoadAddresses(inst, w.threads, w.mask, 0).value;
      ScatterBlocks(inst.dst, w.threads, w.mask, WarpLoad(m, addresses).value.values, 0);
    case BRANCH | SSY | SYNC | BARRIER | STORE | ATOMIC_ADD =>
    case _ => AluBlocks(inst, w.threads, w.mask, 0);
  }

  lemma ScatterBlocks(dst: int, ts: seq<Thread>, mask: set<nat>, values: seq<int>, i: nat)
    requires i <= |ts| && Scatter(dst, ts, mask, values, i).Ok?
    ensures forall l :: 0 <= l < |ts| ==> Scatter(dst, ts, mask, values, i).value[l].blockId == ts[l].blockId
    decreases |ts| - i
  {
    if i < |ts| && values != [] {
      if i !in mask {
        ScatterBlocks(dst, ts, mask, values, i + 1);
      } else {
        ScatterBlocks(dst, ts[i := WriteReg(ts[i], dst, values[0]).value], mask, values[1..], i + 1);
      }
    }
  }

  lemma AluBlocks(inst: Instruction, ts: seq<Thread>, mask: set<nat>, i: nat)
    requires IsAlu(inst.opcode) && i <= |ts| && AluLanes(inst, ts, mask, i).Ok?
    ensures forall l :: 0 <= l < |ts| ==> AluLanes(inst, ts, mask, i).value[l].blockId == ts[l].blockId
    decreases |ts| - i
  {
    if i < |ts| {
      if i !in mask {
        AluBlocks(inst, ts, mask, i + 1);
      } else {
        AluBlocks(inst, ts[i := AluThread(inst, ts[i]).value], mask, i + 1);
      }
    }
  }

  /** Issuing any instruction of any program keeps lockstep. */
  lemma IssueLockstep(k: Code, warps: seq<WarpVal>, i: nat, m: MemVal, cycle: nat)
    requires Lockstep(warps) && i < |warps| && warps[i].state == Ready
    requires Issue(k, warps, i, m, cycle).Ok?
    ensures Lockstep(Issue(k, warps, i, m, cycle).value.warps)
  {
    hide Execute, Finish, BarrierArrival, Lockstep;
    var w := warps[i];
    var r := Issue(k, warps, i, m, cycle).value;
    if w.pc >= |k| {
      SameCountsLockstep(warps, r.warps);
    } else {
      var o := Execute(k[w.pc], w, m).value;
      ExecuteKeepsState(k[w.pc], w, m);
      ExecuteBlock(k[w.pc], w, m);
      var executed := warps[i := o.warp];
      SameCountsLockstep(warps, executed);
      var arrived := if o.status == BarrierReached then BarrierArrival(executed, i, cycle).value else executed;
      if o.status == BarrierReached {
        ArrivalLockstep(executed, i, cycle);
      }
      FinishCounts(k, arrived[i], o.status, o.latency);
      SameCountsLockstep(arrived, r.warps);
    }
  }

  /** Every tick keeps lockstep, for every program, memory and scheduler. */
  lemma TickLockstep(k: Code, s: SmVal, m: MemVal)
    requires Lockstep(s.warps) && Tick(k, s, m).Ok?
    ensures Lockstep(Tick(k, s, m).value.sm.warps)
  {
    hide Lockstep, Select, Issue;
    if !IsCompleted(s.warps) {
      var warps := TickStalls(s.warps, s.cycles);
      SameCountsLockstep(s.warps, warps);
      var c := Select(s.sched, warps);
      if c.warp.Some? {
        IssueLockstep(k, warps, c.warp.value, m, s.cycles + 1);
      }
    }
  }

  // ---------------------------------------------------------------------------------------------
  // Silent deadlock

  /** Nothing can ever move: every warp waits at a barrier or has completed, and some still wait. */
  predicate Stuck(warps: seq<WarpVal>) {
    && (forall i :: 0 <= i < |warps| ==> warps[i].state == StalledAtBarrier || warps[i].state == Completed)
    && !IsCompleted(warps)
  }

  lemma StuckTick(k: Code, s: SmVal, m: MemVal)
    requires Stuck(s.warps)
    ensures Tick(k, s, m).Ok? && Tick(k, s, m).value.sm.warps == s.warps && Tick(k, s, m).value.mem == m
  {
    var warps := TickStalls(s.warps, s.cycles);
    assert warps == s.warps;
    assert Select(s.sched, warps).warp.None?;
  }

  /** A stuck SM stays as it is for any number of ticks and never completes. */
  lemma {:induction false} StuckForever(k: Code, s: SmVal, m: MemVal, n: nat)
    requires Stuck(s.warps)
    ensures Ticks(k, s, m, n).Ok? && Ticks(k, s, m, n).value.sm.warps == s.warps
    ensures !IsCompleted(Ticks(k, s, m, n).value.sm.warps)
  {
    if n > 0 {
      StuckForever(k, s, m, n - 1);
      var t := Ticks(k, s, m, n - 1).value;
      StuckTick(k, t.sm, t.mem);
    }
  }
}
