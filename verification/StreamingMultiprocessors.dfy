/** The SM object: resident warps and blocks, what is allocated to them, its scheduler and its clock. */
module StreamingMultiprocessors {
  import opened Common
  import opened Isa
  import opened WarpModel
  import opened MemoryModel
  import opened ExecutorModel
  import opened SchedulingModel
  import opened SmModel
  import opened Residency
  import opened Warps
  import opened Caches
  import opened Memories
  import opened MemorySystems
  import opened Schedulers
  import opened InstructionExecutor

  class SM {
    const l1: Cache
    const shared: SharedMemory
    var warps: seq<Warp>
    var resident: seq<ResidentBlock>
    var allocatedBlocks: int
    var allocatedWarps: int
    var allocatedThreads: int
    var allocatedRegisters: int
    var allocatedSharedMemory: int
    var cycles: nat
    const scheduler: Scheduler

    /** The SM, its warps and its scheduler. */
    ghost function Repr(): set<object>
      reads this
    {
      (set w: object | w in warps) + {this} + scheduler.Objects()
    }

    ghost predicate Valid()
      reads this
    {
      Distinct(warps)
    }

    function Used(): Usage
      reads this
    {
      Usage(allocatedBlocks, allocatedWarps, allocatedThreads, allocatedRegisters, allocatedSharedMemory)
    }

    ghost function Abs(): SmVal
      reads this, Repr()
    {
      SmVal(Views(warps), resident, Used(), cycles, scheduler.Abs())
    }

    constructor (scheduler: Scheduler, l1: Cache, shared: SharedMemory)
      ensures Valid() && warps == [] && this.scheduler == scheduler && this.l1 == l1 && this.shared == shared
      ensures Abs() == SmVal([], [], NOTHING, 0, scheduler.Abs())
    {
      this.l1 := l1;
      this.shared := shared;
      warps := [];
      resident := [];
      allocatedBlocks := 0;
      allocatedWarps := 0;
      allocatedThreads := 0;
      allocatedRegisters := 0;
      allocatedSharedMemory := 0;
      cycles := 0;
      this.scheduler := scheduler;
    }

    // -------------------------------------------------------------------------------------------
    // Residency

    method IsCompleted() returns (done: bool)
      ensures done <==> SmModel.IsCompleted(Views(warps))
    {
      for i := 0 to |warps|
        invariant forall j :: 0 <= j < i ==> Views(warps)[j].state == Completed
      {
        if warps[i].state != Completed {
          assert Views(warps)[i].state != Completed;
          return false;
        }
      }
      return true;
    }

    method ClearWarps()
      modifies this
      ensures Valid() && warps == []
      ensures Abs() == SmModel.ClearWarps(old(Abs()))
    {
      warps := [];
      resident := [];
      allocatedBlocks := 0;
      allocatedWarps := 0;
      allocatedThreads := 0;
      allocatedRegisters := 0;
      allocatedSharedMemory := 0;
    }

    method CanAdmit(block: ThreadBlock, limits: Limits, needs: Needs) returns (fits: bool)
      ensures fits <==> SmModel.CanAdmit(Used(), block, limits, needs)
    {
      if allocatedBlocks + 1 > limits.blocks {
        return false;
      }
      var threads := CountThreads(block.warps);
      var registers := threads * needs.registersPerThread;
      if allocatedWarps + |block.warps| > limits.warps {
        return false;
      }
      if allocatedThreads + threads > limits.threads {
        return false;
      }
      if allocatedRegisters + registers > limits.registers {
        return false;
      }
      return allocatedSharedMemory + needs.sharedPerBlock <= limits.sharedMemory;
    }

    /** Account for a block and make it resident. */
    method Charge(block: ThreadBlock, needs: Needs)
      modifies this`allocatedBlocks, this`allocatedWarps, this`allocatedThreads, this`allocatedRegisters,
               this`allocatedSharedMemory, this`resident
      ensures Used() == Add(old(Used()), Footprint(block, needs))
      ensures resident == old(resident) + [Footprint(block, needs)]
    {
      hide ThreadCount;
      var threads := CountThreads(block.warps);
      var registers := threads * needs.registersPerThread;
      allocatedBlocks := allocatedBlocks + 1;
      allocatedWarps := allocatedWarps + |block.warps|;
      allocatedThreads := allocatedThreads + threads;
      allocatedRegisters := allocatedRegisters + registers;
      allocatedSharedMemory := allocatedSharedMemory + needs.sharedPerBlock;
      resident := resident + [ResidentBlock(block.id, threads, |block.warps|, registers, needs.sharedPerBlock)];
    }

    /** Admit a block: account for it and take copies of its warps. */
    method AllocateBlock(block: ThreadBlock, needs: Needs)
      requires Valid()
      modifies this
      ensures Valid()
      ensures forall w :: w in warps ==> w in old(warps) || fresh(w)
      ensures Abs() == SmModel.AllocateBlock(old(Abs()), block, needs)
    {
      hide Footprint, Add;
      var copies := CopyWarps(block.warps);
      JoinDistinct(warps, copies);
      ViewsJoin(warps, copies);
      Charge(block, needs);
      warps := warps + copies;
    }

    /** Whether every warp of a block has completed. */
    method AllCompleted(blockId: nat) returns (done: bool)
      ensures done <==> BlockCompleted(Views(warps), blockId)
    {
      for i := 0 to |warps|
        invariant forall j :: 0 <= j < i && Belongs(Views(warps)[j], blockId) ==> Views(warps)[j].state == Completed
      {
        var b := warps[i].BlockId();
        if b == Some(blockId) && warps[i].state != Completed {
          assert Belongs(Views(warps)[i], blockId) && Views(warps)[i].state != Completed;
          return false;
        }
      }
      return true;
    }

    /** Take the completed block at `i` off the account. */
    method ReleaseResident(i: nat)
      requires Valid() && i < |resident|
      modifies this
      ensures Valid() && Among(warps, old(warps))
      ensures Abs() == ReleaseOne(old(Abs()), i)
    {
      hide WithoutBlock;
      var r := resident[i];
      var kept := RemoveWarps(warps, r.blockId);
      allocatedBlocks := allocatedBlocks - 1;
      allocatedWarps := allocatedWarps - r.warps;
      allocatedThreads := allocatedThreads - r.threads;
      allocatedRegisters := allocatedRegisters - r.registers;
      allocatedSharedMemory := allocatedSharedMemory - r.sharedMemory;
      warps := kept;
      resident := resident[..i] + resident[i + 1..];
    }

    method ReleaseCompletedBlocks()
      requires Valid()
      modifies this
      ensures Valid() && Among(warps, old(warps))
      ensures Abs() == ReleaseCompleted(old(Abs()))
    {
      hide ReleaseOne, BlockCompleted, WithoutBlock;
      var i := 0;
      while i < |resident|
        invariant Valid() && i <= |resident| && Among(warps, old(warps))
        invariant ReleaseFrom(Abs(), i) == ReleaseCompleted(old(Abs()))
        decreases |resident| - i
      {
        ReleaseStep(Abs(), i);
        var done := AllCompleted(resident[i].blockId);
        if done {
          ReleaseResident(i);
        } else {
          i := i + 1;
        }
      }
    }

    // -------------------------------------------------------------------------------------------
    // Barriers

    /** Count a block's warps, and of those the completed and the waiting ones. */
    method CountArrivals(blockId: nat) returns (total: nat, completed: nat, stalled: nat)
      ensures stalled + completed == total <==> BlockWaiting(Views(warps), blockId)
      ensures completed > 0 <==> SomeCompleted(Views(warps), blockId)
    {
      total, completed, stalled := 0, 0, 0;
      for i := 0 to |warps|
        invariant stalled + completed <= total
        invariant stalled + completed == total <==>
                  forall j :: 0 <= j < i && Belongs(Views(warps)[j], blockId) ==>
                    Views(warps)[j].state == Completed || Views(warps)[j].state == StalledAtBarrier
        invariant completed > 0 <==>
                  exists j :: 0 <= j < i && Belongs(Views(warps)[j], blockId) && Views(warps)[j].state == Completed
      {
        var b := warps[i].BlockId();
        if b == Some(blockId) {
          total := total + 1;
          if warps[i].state == Completed {
            completed := completed + 1;
          }
          if warps[i].state == StalledAtBarrier {
            stalled := stalled + 1;
          }
        }
        assert Belongs(Views(warps)[i], blockId) <==> b == Some(blockId);
      }
    }

    /** Every warp of the block that waits becomes ready. */
    method ReleaseWaiting(blockId: nat)
      requires Valid()
      modifies warps
      ensures Views(warps) == ReleaseBlock(old(Views(warps)), blockId, cycles)
    {
      for i := 0 to |warps|
        invariant forall j :: 0 <= j < i ==> warps[j].Abs() == ReleaseBlock(old(Views(warps)), blockId, cycles)[j]
        invariant forall j :: i <= j < |warps| ==> warps[j].Abs() == old(Views(warps))[j]
      {
        var b := warps[i].BlockId();
        if b == Some(blockId) && warps[i].state == StalledAtBarrier {
          warps[i].SetReady(cycles);
        }
      }
    }

    method HandleBarrierArrival(i: nat) returns (r: Result<()>)
      requires Valid() && i < |warps|
      modifies warps
      ensures match BarrierArrival(old(Views(warps)), i, cycles)
              case Ok(views) => r == Ok(()) && Views(warps) == views
              case Throw(e) => r == Throw(e)
    {
      hide BlockWaiting, SomeCompleted, ReleaseBlock;
      var warp := warps[i];
      warp.SetStalledAtBarrier();
      assert Views(warps) == old(Views(warps))[i := ArriveAtBarrier(old(Views(warps))[i])];
      var b := warp.BlockId();
      var blockId := if b.None? then 0 else b.value;
      var total, completed, stalled := CountArrivals(blockId);
      if stalled + completed == total {
        if completed > 0 {
          return Throw(MalformedBarrier);
        }
        ReleaseWaiting(blockId);
      }
      return Ok(());
    }

    // -------------------------------------------------------------------------------------------
    // The clock tick

    method TickStalledWarps()
      requires Valid()
      modifies warps
      ensures Views(warps) == TickStalls(old(Views(warps)), cycles)
    {
      for i := 0 to |warps|
        invariant forall j :: 0 <= j < i ==> warps[j].Abs() == TickStalls(old(Views(warps)), cycles)[j]
        invariant forall j :: i <= j < |warps| ==> warps[j].Abs() == old(Views(warps))[j]
      {
        warps[i].TickStall(cycles);
      }
    }

    /** Execute the instruction at the warp's program counter. */
    method ExecuteWarp(inst: Instruction, i: nat, memory: MemorySystem) returns (r: Result<ExecutionResult>)
      requires Valid() && memory.Valid() && i < |warps|
      modifies warps, memory.Repr()
      ensures memory.Valid()
      ensures match ExecutorModel.Execute(inst, old(Views(warps))[i], old(memory.Abs()))
              case Ok(o) =>
                && r == Ok(ExecutionResult(o.status, o.latency)) && memory.Abs() == o.mem
                && Views(warps) == old(Views(warps))[i := o.warp]
              case Throw(e) => r == Throw(e)
    {
      hide ExecutorModel.Execute, Cache.Repr, Cache.Abs, Cache.Valid, Cache.SetAt;
      Apart(memory);
      r := InstructionExecutor.Execute(inst, warps[i], memory);
      assert Views(warps) == old(Views(warps))[i := warps[i].Abs()];
    }

    /** Let a warp that reached a barrier arrive there, then update its state. */
    method Settle(k: Code, i: nat, result: ExecutionResult) returns (r: Result<()>)
      requires Valid() && i < |warps|
      modifies warps
      ensures match Settled(k, old(Views(warps)), i, cycles, result)
              case Ok(views) => r == Ok(()) && Views(warps) == views
              case Throw(e) => r == Throw(e)
    {
      hide BarrierArrival, Finish;
      if result.status == BarrierReached {
        var _ :- HandleBarrierArrival(i);
      }
      ghost var arrived := Views(warps);
      UpdateWarpState(k, warps[i], result);
      assert Views(warps) == arrived[i := Finish(k, arrived[i], result.status, result.latency)];
      return Ok(());
    }

    /** Settling a warp does not touch memory. */
    method SettleApart(k: Code, i: nat, result: ExecutionResult, ghost memory: MemorySystem) returns (r: Result<()>)
      requires Valid() && i < |warps| && memory.Valid()
      modifies warps
      ensures memory.Valid() && memory.Abs() == old(memory.Abs())
      ensures match Settled(k, old(Views(warps)), i, cycles, result)
              case Ok(views) => r == Ok(()) && Views(warps) == views
              case Throw(e) => r == Throw(e)
    {
      hide Settled, Cache.Repr, Cache.Abs, Cache.Valid, Cache.SetAt;
      Apart(memory);
      r := Settle(k, i, result);
    }

    /** Past the end of the kernel a warp completes. */
    method Retire(i: nat, ghost memory: MemorySystem)
      requires Valid() && i < |warps| && memory.Valid()
      modifies warps
      ensures memory.Valid() && memory.Abs() == old(memory.Abs())
      ensures Views(warps) == old(Views(warps))[i := old(Views(warps))[i].(state := Completed)]
    {
      Apart(memory);
      warps[i].SetCompleted();
    }

    /** Fetch, execute and settle one instruction of the selected warp. */
    method Issue(k: Code, i: nat, memory: MemorySystem) returns (r: Result<()>)
      requires Valid() && memory.Valid() && i < |warps|
      modifies warps, memory.Repr()
      ensures memory.Valid()
      ensures match SmModel.Issue(k, old(Views(warps)), i, old(memory.Abs()), cycles)
              case Ok(o) => r == Ok(()) && Views(warps) == o.warps && memory.Abs() == o.mem
              case Throw(e) => r == Throw(e)
    {
      hide ExecutorModel.Execute, SmModel.Issue, Settled, Distinct, Cache.Repr, Cache.Abs, Cache.Valid, Cache.SetAt,
           MemorySystem.Abs;
      Apart(memory);
      ghost var views, m := Views(warps), memory.Abs();
      IssueIs(k, views, i, m, cycles);
      var pc := warps[i].pc;
      assert pc == views[i].pc;
      if pc >= |k| {
        Retire(i, memory);
        return Ok(());
      }
      var result :- ExecuteWarp(k[pc], i, memory);
      r := SettleApart(k, i, result, memory);
    }

    /** Neither the SM nor its warps are part of the memory system. */
    lemma Apart(memory: MemorySystem)
      ensures this !in memory.Repr() && forall w :: w in warps ==> w !in memory.Repr()
      ensures scheduler.Objects() !! memory.Repr()
      ensures forall o :: o in memory.Repr() ==> allocated(o)
    {
      NotMemory(memory);
      AliveMemory(memory);
    }

    /** Count stalls down, advance the clock and let the scheduler choose. */
    method StartCycle() returns (selected: Option<nat>)
      requires Valid()
      modifies this`cycles, warps, scheduler.Objects()
      ensures Views(warps) == TickStalls(old(Views(warps)), old(cycles)) && cycles == old(cycles) + 1
      ensures Selected(old(scheduler.Abs()), Views(warps), selected, scheduler.Abs())
    {
      hide TickStalls, Selected;
      NotWarps();
      TickStalledWarps();
      cycles := cycles + 1;
      selected := scheduler.SelectWarp(warps);
    }

    method StartCycleApart(ghost memory: MemorySystem) returns (selected: Option<nat>)
      requires Valid() && memory.Valid()
      modifies this`cycles, warps, scheduler.Objects()
      ensures memory.Valid() && memory.Abs() == old(memory.Abs())
      ensures Views(warps) == TickStalls(old(Views(warps)), old(cycles)) && cycles == old(cycles) + 1
      ensures Selected(old(scheduler.Abs()), Views(warps), selected, scheduler.Abs())
    {
      hide TickStalls, Selected, Cache.Repr, Cache.Abs, Cache.Valid, Cache.SetAt;
      Apart(memory);
      selected := StartCycle();
    }

    /** Issuing does not touch the scheduler. */
    method IssueApart(k: Code, i: nat, memory: MemorySystem) returns (r: Result<()>)
      requires Valid() && memory.Valid() && i < |warps|
      modifies warps, memory.Repr()
      ensures memory.Valid() && scheduler.Abs() == old(scheduler.Abs())
      ensures match SmModel.Issue(k, old(Views(warps)), i, old(memory.Abs()), cycles)
              case Ok(o) => r == Ok(()) && Views(warps) == o.warps && memory.Abs() == o.mem
              case Throw(e) => r == Throw(e)
    {
      hide SmModel.Issue, Cache.Repr, Cache.Abs, Cache.Valid, Cache.SetAt, MemorySystem.Abs;
      Apart(memory);
      NotWarps();
      r := Issue(k, i, memory);
    }

    /** A scheduler is not a warp. */
    lemma NotWarps()
      ensures forall w: Warp :: w !in scheduler.Objects()
    {
    }

    /** One cycle of an SM that still has work. */
    method Step(k: Code, memory: MemorySystem) returns (r: Result<()>)
      requires Valid() && memory.Valid()
      modifies this`cycles, warps, scheduler.Objects(), memory.Repr()
      ensures Valid() && memory.Valid()
      ensures match Stepped(k, old(Abs()), old(memory.Abs()))
              case Ok(t) => r == Ok(()) && Abs() == t.sm && memory.Abs() == t.mem
              case Throw(e) => r == Throw(e)
    {
      hide SmModel.Issue, SchedulingModel.Select, TickStalls, Cache.Repr, Cache.Abs, Cache.Valid, Cache.SetAt,
           MemorySystem.Abs, Distinct;
      Apart(memory);
      ghost var s := Abs();
      var selected := StartCycleApart(memory);
      assert Abs() == Started(s, Choice(selected, scheduler.Abs()));
      if selected.None? {
        return Ok(());
      }
      r := IssueApart(k, selected.value, memory);
    }

    method Tick(k: Code, memory: MemorySystem) returns (r: Result<()>)
      requires Valid() && memory.Valid()
      modifies this`cycles, warps, scheduler.Objects(), memory.Repr()
      ensures Valid() && memory.Valid()
      ensures match SmModel.Tick(k, old(Abs()), old(memory.Abs()))
              case Ok(t) => r == Ok(()) && Abs() == t.sm && memory.Abs() == t.mem
              case Throw(e) => r == Throw(e)
    {
      hide SmModel.Tick, Stepped, Cache.Repr, Cache.Abs, Cache.Valid, Cache.SetAt;
      Apart(memory);
      TickIs(k, Abs(), memory.Abs());
      var done := IsCompleted();
      if done {
        return Ok(());
      }
      r := Step(k, memory);
    }
  }

  /** The state after the clock has advanced and the scheduler has chosen. */
  ghost function Started(s: SmVal, c: Choice): SmVal {
    s.(warps := TickStalls(s.warps, s.cycles), cycles := s.cycles + 1, sched := c.sched)
  }

  ghost function Stepped(k: Code, s: SmVal, m: MemVal): Result<Ticked> {
    var c := SchedulingModel.Select(s.sched, TickStalls(s.warps, s.cycles));
    var s' := Started(s, c);
    if c.warp.None? then Ok(Ticked(s', m))
    else
      var o :- SmModel.Issue(k, s'.warps, c.warp.value, m, s'.cycles);
      Ok(Ticked(s'.(warps := o.warps), o.mem))
  }

  lemma TickIs(k: Code, s: SmVal, m: MemVal)
    ensures SmModel.Tick(k, s, m) == if SmModel.IsCompleted(s.warps) then Ok(Ticked(s, m)) else Stepped(k, s, m)
  {
    hide SmModel.Issue, SchedulingModel.Select, TickStalls;
  }

  /** Resume a pending path or complete at the end of the kernel; otherwise stall for what is left of the latency. */
  method UpdateWarpState(k: Code, warp: Warp, result: ExecutionResult)
    modifies warp
    ensures warp.Abs() == Finish(k, old(warp.Abs()), result.status, result.latency)
  {
    if warp.pc >= |k| {
      var next := warp.PopSimtStack();
      if next.Some? {
        warp.SetPath(next.value.mask, next.value.targetPc, next.value.reconvergencePc);
      } else if warp.state != StalledAtBarrier {
        warp.SetCompleted();
      }
    } else if result.status != BarrierReached && result.latency > 1 {
      warp.Stall(result.latency - 1);
    }
  }

  /** Only memories, caches and policies make up a memory system. */
  lemma NotMemory(memory: MemorySystem)
    ensures forall o: SM :: o !in memory.Repr()
    ensures forall o: Warp :: o !in memory.Repr()
    ensures forall s: Scheduler :: s.Objects() !! memory.Repr()
  {
  }

  /** The warps after a barrier arrival, if there is one, and the final state update. */
  ghost function Settled(k: Code, views: seq<WarpVal>, i: nat, cycle: nat,
                         result: ExecutionResult): Result<seq<WarpVal>>
    requires i < |views|
  {
    var arrived :- if result.status == BarrierReached then BarrierArrival(views, i, cycle) else Ok(views);
    Ok(arrived[i := Finish(k, arrived[i], result.status, result.latency)])
  }

  lemma IssueIs(k: Code, views: seq<WarpVal>, i: nat, m: MemVal, cycle: nat)
    requires i < |views|
    ensures views[i].pc >= |k| ==>
            SmModel.Issue(k, views, i, m, cycle) == Ok(Issued(views[i := views[i].(state := Completed)], m))
    ensures views[i].pc < |k| ==>
              match ExecutorModel.Execute(k[views[i].pc], views[i], m)
              case Throw(e) => SmModel.Issue(k, views, i, m, cycle) == Throw(e)
              case Ok(o) =>
                match Settled(k, views[i := o.warp], i, cycle, ExecutionResult(o.status, o.latency))
                case Throw(e) => SmModel.Issue(k, views, i, m, cycle) == Throw(e)
                case Ok(after) => SmModel.Issue(k, views, i, m, cycle) == Ok(Issued(after, o.mem))
  {
    hide ExecutorModel.Execute, Finish;
  }

  /** Every one of `a` is one of `b`. */
  ghost predicate Among(a: seq<Warp>, b: seq<Warp>) { forall w :: w in a ==> w in b }

  lemma ReleaseStep(s: SmVal, i: nat)
    requires i < |s.resident|
    ensures |ReleaseOne(s, i).resident| == |s.resident| - 1
    ensures ReleaseFrom(s, i) ==
            if BlockCompleted(s.warps, s.resident[i].blockId) then ReleaseFrom(ReleaseOne(s, i), i)
            else ReleaseFrom(s, i + 1)
  {
    hide BlockCompleted;
  }

  lemma JoinDistinct(a: seq<Warp>, b: seq<Warp>)
    requires Distinct(a) && Distinct(b) && forall w :: w in b ==> w !in a
    ensures Distinct(a + b)
  {
    forall i, j | 0 <= i < j < |a + b|
      ensures (a + b)[i] != (a + b)[j]
    {
      if i < |a| <= j { assert a[i] in a && b[j - |a|] in b; }
    }
  }

  lemma ViewsJoin(a: seq<Warp>, b: seq<Warp>)
    ensures Views(a + b) == Views(a) + Views(b)
  {
  }

  /** Erase the warps of a block. */
  method RemoveWarps(warps: seq<Warp>, blockId: nat) returns (kept: seq<Warp>)
    requires Distinct(warps)
    ensures Distinct(kept) && Among(kept, warps)
    ensures Views(kept) == WithoutBlock(Views(warps), blockId)
  {
    hide WithoutBlock;
    kept := [];
    NothingFiltered(blockId);
    for i := 0 to |warps|
      invariant Distinct(kept) && Among(kept, warps[..i])
      invariant Views(kept) == WithoutBlock(Views(warps[..i]), blockId)
    {
      var b := warps[i].BlockId();
      assert warps[..i + 1] == warps[..i] + [warps[i]];
      ViewsJoin(warps[..i], [warps[i]]);
      FilterMore(Views(warps[..i]), warps[i].Abs(), blockId);
      assert Views([warps[i]]) == [warps[i].Abs()];
      if b != Some(blockId) {
        ViewsJoin(kept, [warps[i]]);
        JoinDistinct(kept, [warps[i]]);
        kept := kept + [warps[i]];
      }
    }
    assert warps[..|warps|] == warps;
  }

  lemma NothingFiltered(blockId: nat)
    ensures WithoutBlock([], blockId) == []
  {
  }

  lemma FilterMore(views: seq<WarpVal>, w: WarpVal, blockId: nat)
    ensures WithoutBlock(views + [w], blockId) ==
            WithoutBlock(views, blockId) + (if Belongs(w, blockId) then [] else [w])
  {
    assert (views + [w])[..|views + [w]| - 1] == views;
  }

  method CountThreads(warps: seq<WarpVal>) returns (n: nat)
    ensures n == ThreadCount(warps)
  {
    n := 0;
    for i := 0 to |warps|
      invariant n == ThreadCount(warps[..i])
    {
      assert warps[..i + 1][..|warps[..i + 1]| - 1] == warps[..i];
      n := n + |warps[i].threads|;
    }
    assert warps[..|warps|] == warps;
  }

  method CopyWarps(block: seq<WarpVal>) returns (copies: seq<Warp>)
    ensures Distinct(copies) && (forall w :: w in copies ==> fresh(w)) && Views(copies) == block
  {
    copies := [];
    for i := 0 to |block|
      invariant |copies| == i && Distinct(copies) && (forall w :: w in copies ==> fresh(w))
      invariant Views(copies) == block[..i]
    {
      var w := new Warp.Copy(block[i]);
      assert block[..i + 1] == block[..i] + [block[i]];
      copies := copies + [w];
    }
  }
}
