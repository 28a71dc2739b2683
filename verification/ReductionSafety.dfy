/** When a thread of the reduction kernel can fault: only over an address, and not at all if the memories hold the
    block. */
module ReductionSafety {
  import opened Common
  import opened Isa
  import opened WarpModel
  import opened MemoryModel
  import opened ExecutorModel
  import opened CacheSoundness
  import opened Structured
  import opened Nesting
  import opened Refinement
  import opened SmRefinement
  import opened Barriers
  import opened Progress
  import opened Kernels
  import opened ReductionMath
  import opened ReductionThreads
  import opened Reduction
  import opened ReductionRuns

  /** Global memory holds the block's input and output. */
  predicate GlobalRoom(j: Job, d: Data) { j.source + 4 * (j.threads - 1) < |d.global| && j.out < |d.global| }

  /** The memories are large enough for the block. */
  predicate Room(j: Job, d: Data) { SharedRoom(j, d) && GlobalRoom(j, d) }

  /** Whether the instruction at `p` addresses shared memory: all but the first load and the last store do. */
  predicate SharedAt(j: Job, p: nat) { p != 0 && p != RoundStart(j.e) + 4 }

  lemma CellGood(j: Job, t: nat, d: Data)
    requires GoodJob(j) && t < j.size && t <= ReachOf(j) && Room(j, d)
    ensures GoodAddress(d, CellOf(j, t), true) && CellOf(j, t) < WORD
  {
  }

  /** Every thread's own cell and, in every round, its partner's are within reach. */
  lemma WithinReach(j: Job, r: nat, t: nat)
    requires GoodJob(j) && t < j.threads && r <= j.e
    ensures t <= ReachOf(j)
    ensures r < j.e && t < Stride(j.size, r) ==> t + Stride(j.size, r) <= ReachOf(j)
  {
    hide ReductionCode;
    if r < j.e && t < Stride(j.size, r) {
      WidthPositive(j.size, 0);
      if r > 0 { StrideShrinks(j.size, r); }
    }
  }

  lemma SourceGood(j: Job, t: nat, d: Data)
    requires GoodJob(j) && t < j.threads && Room(j, d)
    ensures GoodAddress(d, SourceOf(j, t), false) && SourceOf(j, t) < WORD
  {
  }

  lemma OutGood(j: Job, d: Data)
    requires GoodJob(j) && Room(j, d)
    ensures GoodAddress(d, j.out, false) && j.out < WORD
  {
  }

  /** A LOAD through a register that holds a good address. */
  lemma LoadGood(inst: Instruction, th: Thread, d: Data, a: nat, inShared: bool)
    requires inst.opcode == LOAD && inst.immediate == 0 && |th.registers| == 32 && 0 <= inst.src1 < 32 &&
             0 <= inst.dst < 32
    requires th.registers[inst.src1] == a && a < WORD && GoodAddress(d, a, inShared)
    ensures LaneGood(inst, th, d, inShared)
  {
  }

  /** A STORE through a register that holds a good address. */
  lemma StoreGood(inst: Instruction, th: Thread, d: Data, a: nat, inShared: bool)
    requires inst.opcode == STORE && inst.immediate == 0 && |th.registers| == 32 && 0 <= inst.src2 < 32 &&
             0 <= inst.src1 < 32
    requires th.registers[inst.src2] == a && a < WORD && GoodAddress(d, a, inShared)
    ensures LaneGood(inst, th, d, inShared)
  {
  }

  lemma PrologueGood(j: Job, t: nat, p: nat, th: Thread, d: Data)
    requires GoodJob(j) && t < j.threads && p < 4 && Launched(j, t, th) && Room(j, d)
    ensures LaneGood(Prologue()[p], th, d, p != 0)
  {
    hide GoodAddress, Room, LaneGood, ReachOf;
    WithinReach(j, 0, t);
    CellGood(j, t, d);
    SourceGood(j, t, d);
    if p == 0 {
      LoadGood(Prologue()[0], th, d, SourceOf(j, t), false);
    } else if p == 1 {
      StoreGood(Prologue()[1], th, d, CellOf(j, t), true);
    } else {
      PlainPrologueGood(th, d, p);
    }
  }

  lemma PlainPrologueGood(th: Thread, d: Data, p: nat)
    requires p in {2, 3} && |th.registers| == 32
    ensures LaneGood(Prologue()[p], th, d, true)
  {
  }

  lemma RoundGood(j: Job, r: nat, t: nat, i: nat, th: Thread, d: Data)
    requires GoodJob(j) && r < j.e && t < j.threads && i < 11 && Room(j, d)
    requires Launched(j, t, th) && RoundPhase(j, r, t, i, th)
    ensures LaneGood(Round(Stride(j.size, r), r)[i], th, d, true)
  {
    hide GoodAddress, Room, LaneGood, Partial, Width, RoundsOf, ReachOf;
    var s := Stride(j.size, r);
    WithinReach(j, r, t);
    CellGood(j, t, d);
    if i == 3 {
      LoadGood(Round(s, r)[3], th, d, CellOf(j, t), true);
    } else if i == 6 {
      StrideFits(j.size, r, t);
      CellGood(j, t + s, d);
      LoadGood(Round(s, r)[6], th, d, CellOf(j, t + s), true);
    } else if i == 8 {
      StoreGood(Round(s, r)[8], th, d, CellOf(j, t), true);
    } else {
      PlainRoundGood(s, r, i, th, d);
    }
  }

  lemma PlainRoundGood(stride: nat, step: nat, i: nat, th: Thread, d: Data)
    requires step < 12 && i < 11 && i !in {3, 6, 8} && |th.registers| == 32
    ensures LaneGood(Round(stride, step)[i], th, d, true)
  {
  }

  lemma EpilogueGood(j: Job, t: nat, i: nat, th: Thread, d: Data)
    requires GoodJob(j) && t < j.threads && i < 6 && Launched(j, t, th) && Room(j, d)
    ensures LaneGood(Epilogue()[i], th, d, i != 4)
  {
    hide GoodAddress, Room, LaneGood, Width, RoundsOf, ReachOf;
    WithinReach(j, 0, t);
    CellGood(j, t, d);
    OutGood(j, d);
    if i == 3 {
      LoadGood(Epilogue()[3], th, d, CellOf(j, t), true);
    } else if i == 4 {
      StoreGood(Epilogue()[4], th, d, j.out, false);
    } else {
      PlainEpilogueGood(th, d, i);
    }
  }

  lemma PlainEpilogueGood(th: Thread, d: Data, i: nat)
    requires i < 6 && i !in {3, 4} && |th.registers| == 32
    ensures LaneGood(Epilogue()[i], th, d, true)
  {
  }

  /** A thread inside phase `n` can execute the instruction it stands at. */
  lemma ThreadGood(j: Job, n: nat, t: nat, p: nat, th: Thread, d: Data)
    requires GoodJob(j) && t < j.threads && t < j.size && p < |ReductionCode(j.size)| &&
             BarriersBefore(ReductionCode(j.size), p) == n
    requires GoodThread(j, n, t, p, th) && Room(j, d)
    ensures LaneGood(ReductionCode(j.size)[p], th, d, SharedAt(j, p))
  {
    hide GoodJob, LaneGood, ReductionCode, BarriersBefore, Room, RoundPhase, WritePhase, Launched, Width, RoundsOf;
    JobFits(j);
    var i := PlaceInPhase(j, n, p);
    if n == 0 || (n == 1 && p == 3) {
      PrologueAt(j.size, p);
      PrologueGood(j, t, p, th, d);
    } else if n <= j.e {
      RoundAt(j.size, n - 1, i);
      InRound(j, n - 1, t, i, th);
      RoundGood(j, n - 1, t, i, th, d);
    } else {
      EpilogueAt(j.size, i);
      InEpilogue(j, t, i, th);
      EpilogueGood(j, t, i, th, d);
    }
  }

  // ---------------------------------------------------------------------------------------------
  // Whole warps

  /** Every active lane of a ready warp could execute the warp's instruction on a memory with room. */
  lemma WarpGood(j: Job, ws: nat, n: nat, warps: seq<WarpVal>, i: nat, d: Data, roomy: Data)
    requires GoodJob(j) && |ReductionCode(j.size)| < WORD && WellStructured(ReductionCode(j.size)) && Room(j, roomy)
    requires Reducing(j, ws, n, warps, d) && i < |warps| && warps[i].state == Ready &&
             warps[i].pc < |ReductionCode(j.size)|
    ensures LanesGood(ReductionCode(j.size)[warps[i].pc], warps[i].threads, warps[i].mask, roomy,
            SharedAt(j, warps[i].pc), 0)
  {
    var k: Code := ReductionCode(j.size);
    var w := warps[i];
    assert PacedWarp(k, w) && Counted(w);
    hide GoodJob, ReductionCode, BarriersBefore, AsMachine, WellStructured, InStep, Rooted, InMachine, SoloAt, LaneGood,
         Room, Lively, GoodThread, GoodCell, Layout, Reached;
    var c := AsMachine(k, warps, d);
    forall l | 0 <= l < |w.threads| && l in w.mask
      ensures LaneGood(k[w.pc], w.threads[l], roomy, SharedAt(j, w.pc))
    {
      var at := Place(i, l);
      MachinePlace(k, warps, d, at);
      ActiveAtPc(k, w, l);
      LayoutTid(j, ws, c, at);
      assert GoodPlace(j, ws, n, c, at);
      ThreadGood(j, n, Tid(ws, at), w.pc, w.threads[l], roomy);
    }
  }

  lemma ActiveAtPc(k: Code, w: WarpVal, l: nat)
    requires l in w.mask && w.pc <= |k|
    ensures LanePc(k, w, l) == w.pc
  {
  }

  /** A memory that holds any given block. */
  lemma RoomExists(j: Job) returns (d: Data)
    ensures Room(j, d)
  {
    d := Data(seq(j.cells + 4 * ReachOf(j) + 1, _ => 0), seq(j.source + 4 * j.threads + j.out + 1, _ => 0));
  }

  /** A ready warp of a reducing block, with sound caches, throws over an address or not at all, and never if the
      memories hold the block. */
  lemma ReducingExecutes(j: Job, ws: nat, n: nat, warps: seq<WarpVal>, i: nat, m: MemVal)
    requires GoodJob(j) && |ReductionCode(j.size)| < WORD && WellStructured(ReductionCode(j.size)) && SoundMemory(m)
    requires Reducing(j, ws, n, warps, m.data) && i < |warps| && warps[i].state == Ready &&
             warps[i].pc < |ReductionCode(j.size)|
    ensures var r := Execute(ReductionCode(j.size)[warps[i].pc], warps[i], m);
            r.Throw? ==> r.error == OutOfRange && !Room(j, m.data)
  {
    var k: Code := ReductionCode(j.size);
    var w := warps[i];
    assert PacedWarp(k, w);
    hide GoodJob, ReductionCode, Execute, WellStructured, InStep, Rooted, Room, SoundMemory, PhaseHolds, Lively,
         LanesGood;
    if k[w.pc].opcode in {BRANCH, SSY, SYNC, BARRIER} {
      ControlNeverThrows(k, w, m);
    } else {
      var roomy := RoomExists(j);
      WarpGood(j, ws, n, warps, i, m.data, roomy);
      DataFaults(k[w.pc], w, m, roomy, SharedAt(j, w.pc));
      if Room(j, m.data) {
        WarpGood(j, ws, n, warps, i, m.data, m.data);
        DataSucceeds(k[w.pc], w, m, SharedAt(j, w.pc));
      }
    }
  }
}
