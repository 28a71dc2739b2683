/** The blocks of one reduction launch: where their memory lies, and that the built grid runs them. */
module ReductionJobs {
  import opened Common
  import opened Sequences
  import opened Cyclic
  import opened WarpModel
  import opened MemoryModel
  import opened WarpMemory
  import opened SmModel
  import opened SmRefinement
  import opened SchedulingModel
  import opened Dispatch
  import opened Kernels
  import opened Halving
  import opened ReductionMath
  import opened ReductionThreads
  import opened Reduction
  import opened ReductionRuns
  import opened ReductionSafety
  import opened ReductionBlocks
  import opened ReductionGrids
  import opened GridBuilder
  import opened GpuModel
  import CacheSoundness
  import Termination

  type BlockSize = size: nat | size > 0 witness 1

  /** How many blocks of `size` elements `n` elements make. */
  function Blocks(n: nat, size: BlockSize): nat { CeilDiv(n, size) }

  /** Inputs and outputs lie below shared memory. */
  predicate BelowShared(n: nat, count: nat) { n > 0 && count > 0 ==> 4 * n + 4 * (count - 1) < SHARED_MEM_BASE }

  /** The `b`-th portion of the input. */
  function Slice(input: seq<int>, size: BlockSize, b: nat): seq<int>
    requires b < Blocks(|input|, size)
  {
    PortionWithin(|input|, size, b);
    input[b * size..b * size + Portion(|input|, size, b)]
  }

  function JobOf(input: seq<int>, size: BlockSize, b: nat): Job
    requires b < Blocks(|input|, size)
  {
    var m := Portion(|input|, size, b);
    PortionWithin(|input|, size, b);
    Job(m, Slice(input, size, b) + seq(size - m, _ => 0), b * size * 4, b * size * 4, |input| * 4 + b * 4)
  }

  function JobsOf(input: seq<int>, size: BlockSize): (jobs: seq<Job>)
    ensures |jobs| == Blocks(|input|, size)
  {
    seq(Blocks(|input|, size), b requires 0 <= b < Blocks(|input|, size) => JobOf(input, size, b))
  }

  // ---------------------------------------------------------------------------------------------
  // Portions

  lemma CeilFacts(total: nat, size: nat, i: nat)
    requires size > 0
    ensures i < CeilDiv(total, size) <==> i * size < total
  {
    if i * size < total {
      var q := (total + size - 1) / size;
      if q <= i {
        Scale(q + 1, i + 1, size);
      }
    } else {
      QuotientBound(total + size - 1, size, i);
    }
  }

  /** A portion is not empty and lies within the whole; only the last may be short. */
  lemma PortionWithin(n: nat, size: nat, b: nat)
    requires size > 0 && b < CeilDiv(n, size)
    ensures 0 < Portion(n, size, b) <= size && b * size + Portion(n, size, b) <= n
    ensures b + 1 < CeilDiv(n, size) ==> Portion(n, size, b) == size
  {
    hide CeilDiv;
    CeilFacts(n, size, b);
    CeilFacts(n, size, b + 1);
    NextStart(b, size);
  }

  lemma NextStart(b: nat, size: nat)
    ensures (b + 1) * size == b * size + size
  {
  }

  // ---------------------------------------------------------------------------------------------
  // Memory

  lemma JobShape(input: seq<int>, size: BlockSize, b: nat)
    requires b < Blocks(|input|, size)
    ensures var j := JobOf(input, size, b);
            && j.size == size && 0 < j.threads <= size && j.threads == Portion(|input|, size, b)
            && (forall t :: j.threads <= t < size ==> j.input[t] == 0)
            && j.source == b * size * 4 && j.cells == j.source && j.out == |input| * 4 + b * 4
            && j.source + 4 * j.threads <= 4 * |input|
            && (forall t :: 0 <= t < j.threads ==> b * size + t < |input| && j.input[t] == input[b * size + t])
  {
    hide Width, RoundsOf, Portion, CeilDiv;
    PortionWithin(|input|, size, b);
  }

  lemma OutBelow(input: seq<int>, size: BlockSize, b: nat)
    requires b < Blocks(|input|, size) && BelowShared(|input|, Blocks(|input|, size))
    ensures JobOf(input, size, b).out < SHARED_MEM_BASE && |input| > 0
  {
    hide Width, RoundsOf, CeilDiv, JobOf;
    JobShape(input, size, b);
  }

  lemma JobGood(input: seq<int>, size: BlockSize, b: nat)
    requires b < Blocks(|input|, size) && RoundsOf(size) <= 12 && BelowShared(|input|, Blocks(|input|, size))
    ensures GoodJob(JobOf(input, size, b))
  {
    hide ReductionCode, Width, RoundsOf, JobOf, CeilDiv, Portion;
    JobShape(input, size, b);
    OutBelow(input, size, b);
    CodeLength(size);
    SizeBound(size);
  }

  /** Twelve flag registers are enough for blocks of up to 8191 threads. */
  lemma SizeBound(size: nat)
    requires RoundsOf(size) <= 12
    ensures size < 8192
  {
    hide Pow2;
    HalvingsBound(size / 2, 12);
    Sixteen();
    Pow2Add(6, 6);
  }

  lemma Pow2Add(a: nat, b: nat)
    ensures Pow2(a + b) == Pow2(a) * Pow2(b)
  {
    if a > 0 {
      Pow2Add(a - 1, b);
      assert Pow2(a + b) == 2 * Pow2(a - 1 + b);
    }
  }

  /** The code of every block size fits the instruction memory's index. */
  lemma SmallCode(size: nat)
    requires size < WORD
    ensures |ReductionCode(size)| < WORD
  {
    hide ReductionCode, Halvings;
    CodeLength(size);
    WordOfBits();
    HalvingsAtMost(size / 2, 64);
  }

  lemma WordOfBits()
    ensures Pow2(64) == WORD
  {
    hide Pow2;
    Sixteen();
    Pow2Add(4, 4);
    Pow2Add(8, 8);
    Pow2Add(16, 16);
    Pow2Add(32, 32);
  }

  lemma Sixteen()
    ensures Pow2(4) == 16 && Pow2(6) == 64
  {
  }

  lemma {:induction false} HalvingsAtMost(stride: nat, k: nat)
    requires stride < Pow2(k)
    ensures Halvings(stride) <= k
    decreases k
  {
    if stride > 0 { HalvingsAtMost(stride / 2, k - 1); }
  }

  lemma {:induction false} HalvingsBound(stride: nat, k: nat)
    requires Halvings(stride) <= k
    ensures stride < Pow2(k)
    decreases k
  {
    if stride > 0 { HalvingsBound(stride / 2, k - 1); }
  }

  /** Cells of different blocks differ. */
  lemma CellsDiffer(input: seq<int>, size: BlockSize, b: nat, c: nat, t: nat, u: nat)
    requires b < Blocks(|input|, size) && c < Blocks(|input|, size) && b != c && t < size && u < size
    ensures CellOf(JobOf(input, size, b), t) != CellOf(JobOf(input, size, c), u)
  {
    hide Width, RoundsOf, JobOf, CeilDiv, Portion;
    JobShape(input, size, b);
    JobShape(input, size, c);
    if b * size + t == c * size + u {
      DivisionUnique(size, b, t, c, u);
    }
  }

  lemma JobsApart(input: seq<int>, size: BlockSize, b: nat, c: nat)
    requires b < Blocks(|input|, size) && c < Blocks(|input|, size) && b != c &&
             BelowShared(|input|, Blocks(|input|, size))
    ensures Apart(JobOf(input, size, b), JobOf(input, size, c))
  {
    hide Width, RoundsOf, JobOf, CeilDiv, Portion;
    var i, j := JobOf(input, size, b), JobOf(input, size, c);
    JobShape(input, size, b);
    JobShape(input, size, c);
    OutBelow(input, size, b);
    OutBelow(input, size, c);
    forall a: nat | InArea(i, a)
      ensures !Matters(j, a)
    {
      if a != i.out {
        var t: nat :| t < i.threads && a == CellOf(i, t);
        forall u: nat | u < size
          ensures a != CellOf(j, u)
        {
          CellsDiffer(input, size, b, c, t, u);
        }
      }
    }
  }

  lemma JobsSpareSources(input: seq<int>, size: BlockSize, b: nat, c: nat)
    requires b < Blocks(|input|, size) && c < Blocks(|input|, size) && BelowShared(|input|, Blocks(|input|, size))
    ensures SparesSources(JobOf(input, size, b), JobOf(input, size, c))
  {
    hide Width, RoundsOf, JobOf, CeilDiv, Portion;
    JobShape(input, size, b);
    JobShape(input, size, c);
    OutBelow(input, size, b);
  }

  lemma JobsGood(input: seq<int>, size: BlockSize)
    requires size < WORD && (|input| > 0 ==> RoundsOf(size) <= 12) && BelowShared(|input|, Blocks(|input|, size))
    ensures GoodJobs(JobsOf(input, size), size)
  {
    hide GoodJob, Apart, SparesSources, ReductionCode, Width, RoundsOf, JobOf, CeilDiv, Portion;
    var jobs := JobsOf(input, size);
    SmallCode(size);
    forall b | 0 <= b < |jobs|
      ensures GoodJob(jobs[b]) && jobs[b].size == size
    {
      CeilFacts(|input|, size, b);
      JobGood(input, size, b);
      JobShape(input, size, b);
    }
    forall b, c | 0 <= b < |jobs| && 0 <= c < |jobs|
      ensures b != c ==> Apart(jobs[b], jobs[c])
      ensures SparesSources(jobs[b], jobs[c])
    {
      JobsSpareSources(input, size, b, c);
      if b != c { JobsApart(input, size, b, c); }
    }
  }

  /** The elements are in global memory, four addresses apart. */
  predicate Stored(input: seq<int>, global: seq<int>) {
    forall i :: 0 <= i < |input| ==> 4 * i < |global| && global[4 * i] == input[i]
  }

  lemma JobsLoaded(input: seq<int>, size: BlockSize, global: seq<int>)
    requires BelowShared(|input|, Blocks(|input|, size)) && Stored(input, global)
    ensures InputsInPlace(JobsOf(input, size), global)
  {
    hide Width, RoundsOf, CeilDiv, Portion, JobOf;
    var jobs := JobsOf(input, size);
    forall b | 0 <= b < |jobs|
      ensures jobs[b].threads <= jobs[b].size
      ensures InputsLoaded(jobs[b], GlobalData(global))
    {
      JobShape(input, size, b);
      OutBelow(input, size, b);
      forall t | 0 <= t < jobs[b].threads
        ensures At(GlobalData(global), SourceOf(jobs[b], t)) == jobs[b].input[t]
      {
        assert SourceOf(jobs[b], t) == 4 * (b * size + t);
        assert global[4 * (b * size + t)] == input[b * size + t];
      }
    }
  }

  /** Shared memory that is all zero is clear where threads are missing. */
  lemma ZeroPads(jobs: seq<Job>, shared: seq<int>, global: seq<int>)
    requires forall i :: 0 <= i < |shared| ==> shared[i] == 0
    ensures AllPadsClear(jobs, Data(shared, global))
  {
  }

  // ---------------------------------------------------------------------------------------------
  // The grid

  lemma {:induction false} FlagsKeep(registers: seq<int>, stride: nat, step: nat, t: nat, i: nat)
    requires i < 20 + step && i < |registers|
    ensures Flags(registers, stride, step, t)[i] == registers[i]
    decreases stride
  {
    if stride != 0 && 20 + step < |registers| {
      FlagsKeep(registers[20 + step := if t < stride then 1 else 0], stride / 2, step + 1, t, i);
    }
  }

  lemma {:induction false} FlagsSet(registers: seq<int>, stride: nat, step: nat, t: nat, r: nat)
    requires Width(stride, r) > 0 && 20 + step + r < |registers|
    ensures Flags(registers, stride, step, t)[20 + step + r] == if t < Width(stride, r) then 1 else 0
    decreases r
  {
    NoneLeft(r);
    var next := registers[20 + step := if t < stride then 1 else 0];
    if r == 0 {
      FlagsKeep(next, stride / 2, step + 1, t, 20 + step);
    } else {
      FlagsSet(next, stride / 2, step + 1, t, r - 1);
    }
  }

  lemma {:induction false} NoneLeft(r: nat)
    ensures Width(0, r) == 0
  {
    if r > 0 { NoneLeft(r - 1); }
  }

  lemma StrideIs(size: nat, r: nat)
    ensures Stride(size, r) == Width(size / 2, r)
    ensures r == 0 ==> Stride(size, r) == size / 2
  {
  }

  lemma ThreadFlags(n: nat, size: BlockSize, b: nat, t: nat, r: nat)
    requires r < RoundsOf(size) <= 12
    ensures ReductionThread(n, size, b, t).registers[20 + r] == if t < Stride(size, r) then 1 else 0
  {
    hide Flags, BaseRegisters, Width, RoundsOf;
    WidthPositive(size, r);
    assert Stride(size, r) == Width(size / 2, r) by { StrideIs(size, r); }
    FlagsSet(BaseRegisters(n, size, b, t), size / 2, 0, t, r);
  }

  lemma ThreadRegisters(n: nat, size: nat, b: nat, t: nat)
    ensures var th := ReductionThread(n, size, b, t);
            && |th.registers| == 32 && th.blockId == b
            && th.registers[0] == (b * size + t) * 4
            && th.registers[1] == SHARED_MEM_BASE + b * size * 4 + t * 4
            && th.registers[2] == n * 4 + b * 4
            && th.registers[3] == if t == 0 then 1 else 0
  {
    hide Flags;
    var registers := BaseRegisters(n, size, b, t);
    FlagsKeep(registers, size / 2, 0, t, 0);
    FlagsKeep(registers, size / 2, 0, t, 1);
    FlagsKeep(registers, size / 2, 0, t, 2);
    FlagsKeep(registers, size / 2, 0, t, 3);
  }

  lemma ThreadLaunched(input: seq<int>, size: BlockSize, b: nat, t: nat)
    requires b < Blocks(|input|, size) && RoundsOf(size) <= 12
    ensures Launched(JobOf(input, size, b), t, ReductionThread(|input|, size, b, t))
  {
    hide Width, RoundsOf, ReductionThread, JobOf, CeilDiv, Portion;
    var j := JobOf(input, size, b);
    JobShape(input, size, b);
    ThreadRegisters(|input|, size, b, t);
    forall r | 0 <= r < RoundsOf(size)
      ensures ReductionThread(|input|, size, b, t).registers[20 + r] == if t < Stride(size, r) then 1 else 0
    {
      ThreadFlags(|input|, size, b, t, r);
    }
  }

  lemma LaneOfWarp(size: nat, ws: nat, w: nat, l: nat)
    requires ws > 0
    ensures (w < CeilDiv(size, ws) && l < Portion(size, ws, w)) <==> (l < ws && ws * w + l < size)
  {
    CeilFacts(size, ws, w);
  }

  /** A block is built as its job says. */
  lemma BlockBuilt(input: seq<int>, size: BlockSize, ws: nat, b: nat)
    requires b < Blocks(|input|, size) && RoundsOf(size) <= 12 && 0 < ws <= 32
    ensures BuiltBlock(JobOf(input, size, b), ws, ReductionBlock(|input|, size, ws, b), b)
  {
    hide Width, RoundsOf, JobOf, Launched, Portion, CeilDiv;
    var j, block := JobOf(input, size, b), ReductionBlock(|input|, size, ws, b);
    JobShape(input, size, b);
    LaneOfWarp(j.threads, ws, 0, 0);
    forall i | 0 <= i < |block.warps|
      ensures StartsAsBuilt(block.warps[i]) && Belongs(block.warps[i], b)
    {
      WarpStarts(|input|, size, ws, b, i);
    }
    forall at: Place
      ensures (at.warp < |block.warps| && at.lane < |block.warps[at.warp].threads|) <==>
              (at.lane < ws && Tid(ws, at) < j.threads)
    {
      LaneOfWarp(j.threads, ws, at.warp, at.lane);
    }
    forall at: Place | at.warp < |block.warps| && at.lane < |block.warps[at.warp].threads|
      ensures Launched(j, Tid(ws, at), block.warps[at.warp].threads[at.lane])
    {
      ThreadLaunched(input, size, b, Tid(ws, at));
    }
  }

  lemma WarpStarts(n: nat, size: nat, ws: nat, b: nat, w: nat)
    requires size > 0 && b < CeilDiv(n, size) && 0 < ws <= 32 && w < CeilDiv(Portion(n, size, b), ws)
    ensures var warp := BuiltWarp(w, WarpThreads(n, size, ws, b, w));
            StartsAsBuilt(warp) && Belongs(warp, b) && warp.state == Ready && warp.priority == w
  {
    hide ReductionThread, CeilDiv, Below;
    CeilFacts(Portion(n, size, b), ws, w);
    ThreadRegisters(n, size, b, w * ws);
    var threads := WarpThreads(n, size, ws, b, w);
    assert threads[0] == ReductionThread(n, size, b, w * ws + 0);
  }

  lemma GridBuilt(input: seq<int>, size: BlockSize, ws: nat)
    requires (|input| > 0 ==> RoundsOf(size) <= 12) && 0 < ws <= 32
    ensures Built(JobsOf(input, size), ws, ReductionGrid(|input|, size, ws))
  {
    hide Width, RoundsOf, JobOf, BuiltBlock, ReductionBlock, CeilDiv;
    forall b | 0 <= b < Blocks(|input|, size)
      ensures BuiltBlock(JobsOf(input, size)[b], ws, ReductionGrid(|input|, size, ws)[b], b)
    {
      CeilFacts(|input|, size, b);
      BlockBuilt(input, size, ws, b);
    }
  }

  // ---------------------------------------------------------------------------------------------
  // Residency

  /** A block of `m` threads fits an empty SM. */
  predicate BlockFits(limits: Limits, needs: Needs, m: nat, ws: nat)
    requires ws > 0
  {
    && 1 <= limits.blocks && CeilDiv(m, ws) <= limits.warps && m <= limits.threads
    && m * needs.registersPerThread <= limits.registers && needs.sharedPerBlock <= limits.sharedMemory
  }

  /** The first `i` warps of a block of `size` threads have `ws` threads each, up to the last. */
  lemma {:induction false} CountsThreads(warps: seq<WarpVal>, size: nat, ws: nat, i: nat)
    requires i <= |warps| && forall w :: 0 <= w < |warps| ==> |warps[w].threads| == Portion(size, ws, w)
    ensures ThreadCount(warps[..i]) == Min(i * ws, size)
  {
    hide Portion;
    if i > 0 {
      CountsThreads(warps, size, ws, i - 1);
      assert warps[..i][..i - 1] == warps[..i - 1];
      NextPortion(size, ws, i - 1);
    }
  }

  lemma NextPortion(size: nat, ws: nat, i: nat)
    ensures Min(i * ws, size) + Portion(size, ws, i) == Min((i + 1) * ws, size)
  {
    assert (i + 1) * ws == i * ws + ws;
  }

  lemma BlockThreads(n: nat, size: nat, ws: nat, b: nat)
    requires ws > 0 && size > 0
    ensures var block := ReductionBlock(n, size, ws, b);
            ThreadCount(block.warps) == Portion(n, size, b) && |block.warps| == CeilDiv(Portion(n, size, b), ws)
  {
    hide ReductionThread, Below, Portion, CeilDiv, ThreadCount;
    var block, m := ReductionBlock(n, size, ws, b), Portion(n, size, b);
    var k := |block.warps|;
    CountsThreads(block.warps, m, ws, k);
    assert block.warps[..k] == block.warps;
    CeilFacts(m, ws, k);
  }

  /** Fewer threads fit where more do. */
  lemma FewerFit(limits: Limits, needs: Needs, m: nat, more: nat, ws: nat)
    requires ws > 0 && m <= more && BlockFits(limits, needs, more, ws)
    ensures BlockFits(limits, needs, m, ws)
  {
    hide CeilDiv;
    Scale(m, more, needs.registersPerThread);
    var q := CeilDiv(more, ws);
    CeilFacts(m, ws, q);
    CeilFacts(more, ws, q);
  }

  lemma BlockAdmitted(n: nat, size: nat, ws: nat, b: nat, limits: Limits, needs: Needs)
    requires size > 0 && b < CeilDiv(n, size) && 0 < ws <= 32 && BlockFits(limits, needs, Min(n, size), ws)
    ensures GoodBlock(ReductionBlock(n, size, ws, b), limits, needs)
  {
    hide Portion, CeilDiv, ThreadCount, BuiltWarp, WarpThreads, StartsAsBuilt, BlockFits;
    var block := ReductionBlock(n, size, ws, b);
    PortionWithin(n, size, b);
    BlockThreads(n, size, ws, b);
    FewerFit(limits, needs, Portion(n, size, b), Min(n, size), ws);
    BlockTaken(block, Portion(n, size, b), ws, limits, needs);
    CeilFacts(Portion(n, size, b), ws, 0);
    forall i | 0 <= i < |block.warps|
      ensures Belongs(block.warps[i], b) && block.warps[i].state == Ready
    {
      WarpStarts(n, size, ws, b, i);
    }
  }

  lemma BlockTaken(block: ThreadBlock, m: nat, ws: nat, limits: Limits, needs: Needs)
    requires ws > 0 && BlockFits(limits, needs, m, ws) && ThreadCount(block.warps) == m &&
             |block.warps| == CeilDiv(m, ws)
    ensures CanAdmit(NOTHING, block, limits, needs)
  {
    hide CeilDiv, ThreadCount;
  }

  lemma GridAdmitted(n: nat, size: nat, ws: nat, limits: Limits, needs: Needs)
    requires size > 0 && 0 < ws <= 32 && (n > 0 ==> BlockFits(limits, needs, Min(n, size), ws))
    ensures GoodGrid(ReductionGrid(n, size, ws), limits, needs)
    ensures PrioritiesFit(ReductionGrid(n, size, ws))
  {
    hide CeilDiv, GoodBlock, BlockFits, BuiltWarp, WarpThreads, Portion, StartsAsBuilt;
    var grid := ReductionGrid(n, size, ws);
    forall b | 0 <= b < |grid|
      ensures GoodBlock(grid[b], limits, needs)
      ensures forall i :: 0 <= i < |grid[b].warps| ==> grid[b].warps[i].priority > LOWEST_PRIORITY
    {
      CeilFacts(n, size, b);
      BlockAdmitted(n, size, ws, b, limits, needs);
      forall i | 0 <= i < |grid[b].warps|
        ensures grid[b].warps[i].priority > LOWEST_PRIORITY
      {
        WarpStarts(n, size, ws, b, i);
      }
    }
  }

  /** If the first block, which is the largest, does not fit an empty SM, the launch reports it. */
  lemma MisfitRefused(n: nat, size: nat, ws: nat, limits: Limits, needs: Needs, g: GpuVal)
    requires size > 0 && ws > 0 && n > 0 && |g.cores| > 0 && !BlockFits(limits, needs, Min(n, size), ws)
    ensures Launch(g, ReductionGrid(n, size, ws), limits, needs) == Throw(ImpossibleBlock)
  {
    hide CeilDiv, ThreadCount, BuiltWarp, WarpThreads, BlockFits;
    var grid := ReductionGrid(n, size, ws);
    CeilFacts(n, size, 0);
    BlockThreads(n, size, ws, 0);
    BlockRefused(grid[0], Min(n, size), ws, limits, needs);
    assert Portion(n, size, 0) == Min(n, size);
  }

  lemma BlockRefused(block: ThreadBlock, m: nat, ws: nat, limits: Limits, needs: Needs)
    requires ws > 0 && !BlockFits(limits, needs, m, ws) && ThreadCount(block.warps) == m &&
             |block.warps| == CeilDiv(m, ws)
    ensures !CanAdmit(NOTHING, block, limits, needs)
  {
    hide CeilDiv, ThreadCount;
  }

  // ---------------------------------------------------------------------------------------------
  // How much shared memory is needed

  /** The largest index of a cell that reducing `n` elements in blocks of `size` touches: in the last block, its last
      thread's own or the partner of its last adding thread in the first round. */
  function LastCell(n: nat, size: BlockSize): nat
    requires n > 0
  {
    var b, m, half := (n - 1) / size, (n - 1) % size + 1, size / 2;
    b * size + if half == 0 then m - 1 else Max(m - 1, Min(m, half) - 1 + half)
  }

  lemma LastBlock(n: nat, size: nat)
    requires n > 0 && size > 0
    ensures CeilDiv(n, size) == (n - 1) / size + 1 && Portion(n, size, (n - 1) / size) == (n - 1) % size + 1
  {
    hide CeilDiv;
    var b := (n - 1) / size;
    CeilFacts(n, size, b);
    CeilFacts(n, size, b + 1);
    NextStart(b, size);
  }

  /** Shared memory of `shared` words holds every cell the reduction touches. */
  predicate CellsFit(n: nat, size: BlockSize, shared: nat)
  {
    n > 0 ==> 4 * LastCell(n, size) < shared
  }

  lemma LastJob(input: seq<int>, size: BlockSize)
    requires |input| > 0
    ensures Blocks(|input|, size) > 0
    ensures var j := JobOf(input, size, Blocks(|input|, size) - 1);
            j.cells + 4 * ReachOf(j) == 4 * LastCell(|input|, size)
  {
    hide JobOf, Portion, CeilDiv;
    StrideIs(size, 0);
    LastBlock(|input|, size);
    JobShape(input, size, Blocks(|input|, size) - 1);
  }

  lemma EarlierJob(input: seq<int>, size: BlockSize, b: nat)
    requires b + 1 < Blocks(|input|, size)
    ensures |input| > 0
    ensures var j := JobOf(input, size, b); j.cells + 4 * ReachOf(j) < 4 * LastCell(|input|, size)
  {
    hide JobOf, Portion, CeilDiv;
    var last := Blocks(|input|, size) - 1;
    PortionWithin(|input|, size, last);
    LastBlock(|input|, size);
    JobShape(input, size, b);
    JobShape(input, size, last);
    ReachBound(JobOf(input, size, b));
    NextStart(b, size);
    Scale(b + 1, last, size);
    PortionWithin(|input|, size, b);
    PortionWithin(|input|, size, last);
  }

  lemma ReachBound(j: Job)
    requires 0 < j.threads <= j.size
    ensures ReachOf(j) < j.size
  {
    StrideIs(j.size, 0);
  }

  /** The memories of `g` hold every block if and only if every shared memory holds the last cell. */
  lemma RoomIff(input: seq<int>, size: BlockSize, g: GpuVal)
    requires |g.cores| > 0 && Stored(input, g.global)
    requires |input| > 0 ==> 4 * |input| + 4 * (Blocks(|input|, size) - 1) < |g.global|
    ensures (forall c :: 0 <= c < |g.cores| ==> CellsFit(|input|, size, |g.cores[c].shared|)) ==>
            Roomy(JobsOf(input, size), g)
    ensures |input| > 0 && RoomSomewhere(JobsOf(input, size), g, Blocks(|input|, size) - 1) ==>
              exists c :: 0 <= c < |g.cores| && CellsFit(|input|, size, |g.cores[c].shared|)
  {
    hide JobOf, LastCell, ReachOf, CeilDiv, Portion, Width, RoundsOf;
    var jobs, count := JobsOf(input, size), Blocks(|input|, size);
    if |input| > 0 {
      LastJob(input, size);
      forall c, b | 0 <= c < |g.cores| && 0 <= b < |jobs| && CellsFit(|input|, size, |g.cores[c].shared|)
        ensures Room(jobs[b], DataAt(g, c))
      {
        JobShape(input, size, b);
        if b + 1 < count { EarlierJob(input, size, b); }
      }
      if RoomSomewhere(jobs, g, count - 1) {
        var c :| 0 <= c < |g.cores| && SharedRoom(jobs[count - 1], DataAt(g, c));
        assert CellsFit(|input|, size, |g.cores[c].shared|);
      }
    } else {
      CeilFacts(0, size, 0);
    }
  }

  // ---------------------------------------------------------------------------------------------
  // The launch

  /** A GPU on which a reduction of `input` can start: idle, with zeroed shared memories of one size, sound caches,
      work-conserving schedulers, and global memory for inputs and outputs. */
  ghost predicate ReadyGpu(input: seq<int>, size: BlockSize, shared: nat, g: GpuVal) {
    && CacheSoundness.Sound(g.l2) && |g.cores| > 0 && Stored(input, g.global)
    && (|input| > 0 ==> 4 * |input| + 4 * (Blocks(|input|, size) - 1) < |g.global|)
    && forall c :: 0 <= c < |g.cores| ==>
         && g.cores[c].sm.warps == [] && Termination.LiveSched(g.cores[c].sm.sched, [])
         && g.cores[c].shared == seq(shared, _ => 0) && CacheSoundness.Sound(g.cores[c].l1)
  }

  lemma ReadyIdle(input: seq<int>, size: BlockSize, shared: nat, g: GpuVal)
    requires ReadyGpu(input, size, shared, g)
    ensures IdleGpu(JobsOf(input, size), g)
  {
    hide JobsOf, CacheSoundness.Sound, Termination.LiveSched, AllPadsClear, Stored;
    forall c | 0 <= c < |g.cores|
      ensures AllPadsClear(JobsOf(input, size), DataAt(g, c))
    {
      ZeroPads(JobsOf(input, size), g.cores[c].shared, g.global);
    }
  }

  /** The sum of block `b` of the input. */
  function BlockSum(input: seq<int>, size: BlockSize, b: nat): int
    requires b < Blocks(|input|, size)
  {
    Total(Slice(input, size, b))
  }

  /** What the rounds make of block `b`, with zeros where threads are missing. */
  function BlockReduced(input: seq<int>, size: BlockSize, b: nat): int
    requires b < Blocks(|input|, size)
  {
    Reduced(JobOf(input, size, b).input)
  }

  lemma TotalZeros(s: seq<int>, n: nat)
    ensures Total(s + seq(n, _ => 0)) == Total(s)
  {
    if n == 0 {
      assert s + seq(n, _ => 0) == s;
    } else {
      var t := s + seq(n, _ => 0);
      assert t[..|t| - 1] == s + seq(n - 1, _ => 0);
      TotalZeros(s, n - 1);
    }
  }

  lemma JobSum(input: seq<int>, size: BlockSize, b: nat)
    requires b < Blocks(|input|, size)
    ensures Total(JobOf(input, size, b).input) == BlockSum(input, size, b)
  {
    hide Total, CeilDiv, Portion;
    PortionWithin(|input|, size, b);
    TotalZeros(Slice(input, size, b), size - Portion(|input|, size, b));
  }

  /** The rounds add up every block of this input. */
  predicate AddsUp(input: seq<int>, size: BlockSize) {
    forall b: nat :: b < Blocks(|input|, size) ==> BlockReduced(input, size, b) == BlockSum(input, size, b)
  }

  predicate Positive(input: seq<int>) { forall i :: 0 <= i < |input| ==> input[i] > 0 }

  /** Blocks with no more threads than cells that count are added up. */
  lemma FewAddUp(input: seq<int>, size: BlockSize)
    requires Min(|input|, size) <= Counted(size)
    ensures AddsUp(input, size)
  {
    hide Total, Reduced, CeilDiv, Portion, JobOf, Counted;
    forall b: nat | b < Blocks(|input|, size)
      ensures BlockReduced(input, size, b) == BlockSum(input, size, b)
    {
      JobShape(input, size, b);
      PortionWithin(|input|, size, b);
      CeilFacts(|input|, size, b);
      CountedSums(JobOf(input, size, b).input);
      JobSum(input, size, b);
    }
  }

  /** Positive inputs are added up exactly when the first block, which is the largest, has no more threads than that. */
  lemma PositiveAddUpIff(input: seq<int>, size: BlockSize)
    requires Positive(input)
    ensures AddsUp(input, size) <==> Min(|input|, size) <= Counted(size)
  {
    hide Total, Reduced, CeilDiv, JobOf, Counted;
    if Min(|input|, size) <= Counted(size) {
      FewAddUp(input, size);
    } else {
      CeilFacts(|input|, size, 0);
      JobShape(input, size, 0);
      OthersFallShort(JobOf(input, size, 0).input);
      JobSum(input, size, 0);
      assert BlockReduced(input, size, 0) != BlockSum(input, size, 0);
    }
  }

  /** All inputs of `n` elements are added up if and only if the first block has no more threads than cells that
      count; if it is full, if and only if the block size is a power of two. */
  lemma AllAddUpIff(n: nat, size: BlockSize)
    ensures (forall input: seq<int> :: |input| == n ==> AddsUp(input, size)) <==> Min(n, size) <= Counted(size)
    ensures n >= size ==> (Min(n, size) <= Counted(size) <==> IsPow2(size))
  {
    hide AddsUp, Counted, IsPow2;
    AllCountIff(size);
    if Min(n, size) <= Counted(size) {
      forall input: seq<int> | |input| == n
        ensures AddsUp(input, size)
      {
        FewAddUp(input, size);
      }
    } else {
      var input := seq(n, _ => 1);
      PositiveAddUpIff(input, size);
    }
  }

  /** Every output word holds what the rounds make of its block. */
  ghost predicate Outputs(input: seq<int>, size: BlockSize, global: seq<int>) {
    forall b: nat :: b < Blocks(|input|, size) ==>
      At(GlobalData(global), |input| * 4 + b * 4) == BlockReduced(input, size, b)
  }

  /** Every output word holds the sum of its block: the benchmark's own check. */
  ghost predicate Summed(input: seq<int>, size: BlockSize, global: seq<int>) {
    forall b: nat :: b < Blocks(|input|, size) ==>
      At(GlobalData(global), |input| * 4 + b * 4) == BlockSum(input, size, b)
  }

  lemma SummedIff(input: seq<int>, size: BlockSize, global: seq<int>)
    requires Outputs(input, size, global)
    ensures Summed(input, size, global) <==> AddsUp(input, size)
  {
    hide At, BlockSum, BlockReduced, CeilDiv;
  }

  /** Launching the built grid on a ready GPU and running it: if shared memory holds the last cell, the run completes
      and every output word holds what the rounds make of its block; otherwise it throws over an address. The last
      block may be partial. */
  lemma ReductionDelivers(input: seq<int>, size: BlockSize, ws: nat, shared: nat, g: GpuVal, limits: Limits,
                          needs: Needs)
    returns (n: nat)
    requires size < WORD && 0 < ws <= 32 && BelowShared(|input|, Blocks(|input|, size)) &&
             ReadyGpu(input, size, shared, g)
    requires |input| > 0 ==> RoundsOf(size) <= 12 && BlockFits(limits, needs, Min(|input|, size), ws)
    ensures |ReductionCode(size)| < WORD
    ensures var launched := Launch(g, ReductionGrid(|input|, size, ws), limits, needs);
            && launched.Ok?
            && var run := RunToCompletion(ReductionCode(size), launched.value, n);
               if CellsFit(|input|, size, shared) then
                 run.Ok? && run.value.done && Outputs(input, size, run.value.gpu.global)
               else run == Throw(OutOfRange)
  {
    hide Width, RoundsOf, JobOf, ReductionCode, GoodJobs, Built, InputsInPlace, IdleGpu, GoodGrid, PrioritiesFit,
         ReductionGrid, BlockFits, CacheSoundness.Sound, Termination.LiveSched, Stored, Reduced, At, Launch,
         RunToCompletion, AllDispatchedAndReturned, CellsFit, Roomy, RoomSomewhere, CeilDiv;
    var jobs, grid := JobsOf(input, size), ReductionGrid(|input|, size, ws);
    JobsGood(input, size);
    SmallCode(size);
    GridBuilt(input, size, ws);
    JobsLoaded(input, size, g.global);
    ReadyIdle(input, size, shared, g);
    GridAdmitted(|input|, size, ws, limits, needs);
    RoomIff(input, size, g);
    n := GridReduces(jobs, size, ws, g, grid, limits, needs);
    var run := RunToCompletion(ReductionCode(size), Launch(g, grid, limits, needs).value, n);
    if run.Ok? {
      SomeRoom(input, size, shared, jobs, g, run.value.gpu);
      forall b: nat | b < Blocks(|input|, size)
        ensures jobs[b].out == |input| * 4 + b * 4 && Reduced(jobs[b].input) == BlockReduced(input, size, b)
      {
        JobShape(input, size, b);
      }
    }
  }

  /** When the benchmark's own check passes, for every block size. If shared memory does not hold the last cell the
      run throws. If it does, the check passes on all inputs whose blocks have no more threads than cells that count,
      and of the positive inputs, such as the benchmark's own, on no others. */
  lemma ReductionSucceedsIff(input: seq<int>, size: BlockSize, ws: nat, shared: nat, g: GpuVal, limits: Limits,
                             needs: Needs)
    returns (n: nat)
    requires size < WORD && 0 < ws <= 32 && BelowShared(|input|, Blocks(|input|, size)) &&
             ReadyGpu(input, size, shared, g)
    requires |input| > 0 ==> RoundsOf(size) <= 12 && BlockFits(limits, needs, Min(|input|, size), ws)
    ensures |ReductionCode(size)| < WORD
    ensures var launched := Launch(g, ReductionGrid(|input|, size, ws), limits, needs);
            && launched.Ok?
            && var run := RunToCompletion(ReductionCode(size), launched.value, n);
               if !CellsFit(|input|, size, shared) then run == Throw(OutOfRange)
               else
                 && run.Ok? && run.value.done
                 && (Min(|input|, size) <= Counted(size) ==> Summed(input, size, run.value.gpu.global))
                 && (Positive(input) ==>
                       (Summed(input, size, run.value.gpu.global) <==> Min(|input|, size) <= Counted(size)))
  {
    hide ReadyGpu, BlockFits, CellsFit, Launch, RunToCompletion, ReductionGrid, ReductionCode, CeilDiv, Outputs, Summed,
         AddsUp, Counted;
    n := ReductionDelivers(input, size, ws, shared, g, limits, needs);
    if CellsFit(|input|, size, shared) {
      var launched := Launch(g, ReductionGrid(|input|, size, ws), limits, needs).value;
      SummedIff(input, size, RunToCompletion(ReductionCode(size), launched, n).value.gpu.global);
      if Min(|input|, size) <= Counted(size) { FewAddUp(input, size); }
      if Positive(input) { PositiveAddUpIff(input, size); }
    }
  }

  /** A run that has delivered every result had room for the last block. */
  lemma SomeRoom(input: seq<int>, size: BlockSize, shared: nat, jobs: seq<Job>, g: GpuVal, g': GpuVal)
    requires jobs == JobsOf(input, size) && AllReduced(jobs, g, g')
    ensures |input| > 0 ==> Blocks(|input|, size) > 0 && RoomSomewhere(jobs, g, Blocks(|input|, size) - 1)
    ensures |input| == 0 ==> CellsFit(|input|, size, shared)
  {
    hide CeilDiv, JobOf, RoomSomewhere, At, Total, LastCell, Width, RoundsOf;
    if |input| > 0 { CeilFacts(|input|, size, 0); }
  }
}
