/** The reduction benchmark, from the host's input to the host's check of the output. */
module ReductionDriver {
  import opened Common
  import opened Isa
  import opened MemoryModel
  import opened WarpMemory
  import opened CacheSoundness
  import opened SmModel
  import opened GpuModel
  import opened Schedulers
  import opened Gpus
  import opened Kernels
  import opened Halving
  import opened GridBuilder
  import opened ReductionMath
  import opened ReductionGrids
  import opened ReductionJobs
  import Caches
  import StreamingMultiprocessors
  import Termination

  /** The requirements the benchmark launches with. */
  function ReductionNeeds(blockSize: nat): Needs { Needs(REGISTERS, blockSize * 4) }

  /** Ensure enough memory for the reduction's buffers. */
  function Enlarged(config: SystemConfig): SystemConfig {
    config.(globalSize := Max(config.globalSize, 10 * 1024 * 1024))
  }

  /** Global memory holds inputs and outputs. */
  predicate GlobalFits(n: nat, size: BlockSize, globalSize: nat) {
    n > 0 ==> 4 * n + 4 * (Blocks(n, size) - 1) < globalSize
  }

  /** Why the benchmark fails on `input`, if it does. */
  ghost function Failure(config: SystemConfig, input: seq<int>): Option<Error>
    requires config.blockSize > 0 && config.warpSize > 0
  {
    var n, size := |input|, config.blockSize;
    if ShapedCache(config.l2).Throw? || ShapedCache(config.l1).Throw? then Some(BadDimensions)
    else if !GlobalFits(n, size, Enlarged(config).globalSize) then Some(OutOfRange)
    else if n > 0 && RoundsOf(size) > 12 then Some(OutOfRange)
    else if n > 0 && !BlockFits(config.limits, ReductionNeeds(size), Min(n, size), config.warpSize) then
      Some(ImpossibleBlock)
    else if !CellsFit(n, size, config.limits.sharedMemory) then Some(OutOfRange)
    else if !AddsUp(input, size) then Some(CheckFailed)
    else None
  }

  lemma FreshLives(name: SchedulerName)
    requires !name.TWO_LEVEL?
    ensures Termination.LiveSched(FreshScheduler(name), [])
  {
  }

  lemma ShapedSound(c: CacheShape)
    requires ShapedCache(c).Ok?
    ensures Sound(ShapedCache(c).value)
  {
    FreshSound(c.sets, c.associativity, c.lineSize, c.policy);
  }

  /** A new GPU is ready once the elements are stored. */
  lemma NewGpuReady(config: SystemConfig, input: seq<int>, size: BlockSize, g: GpuVal)
    requires config.numSms > 0 && ShapedCache(config.l1).Ok? && ShapedCache(config.l2).Ok? &&
             !config.scheduler.TWO_LEVEL?
    requires GlobalFits(|input|, size, config.globalSize)
    requires |g.cores| == config.numSms && g.l2 == ShapedCache(config.l2).value
    requires forall i :: 0 <= i < |g.cores| ==> g.cores[i] == FreshCore(config, ShapedCache(config.l1).value)
    requires |g.global| == config.globalSize && Stored(input, g.global)
    ensures ReadyGpu(input, size, config.limits.sharedMemory, g)
  {
    hide Sound, ShapedCache, FreshScheduler, Stored, CeilDiv;
    ShapedSound(config.l1);
    ShapedSound(config.l2);
    FreshLives(config.scheduler);
  }

  lemma GlobalOf(gpu: GPU)
    requires gpu.Valid()
    ensures gpu.Abs().global == gpu.global.data[..] && |gpu.Abs().global| == gpu.global.data.Length
  {
  }

  lemma OutputWord(global: seq<int>, a: nat)
    requires a < |global| && a < SHARED_MEM_BASE
    ensures At(GlobalData(global), a) == global[a]
  {
  }

  // ---------------------------------------------------------------------------------------------
  // The host's own sums

  /** The elements of block `b` among the first `i`. */
  function Gathered(input: seq<int>, size: BlockSize, b: nat, i: nat): seq<int>
    requires i <= |input|
  {
    if i <= b * size then [] else input[b * size..Min(i, b * size + size)]
  }

  lemma GatherOne(input: seq<int>, size: BlockSize, b: nat, i: nat)
    requires i < |input|
    ensures Gathered(input, size, b, i + 1) ==
            if b == i / size then Gathered(input, size, b, i) + [input[i]] else Gathered(input, size, b, i)
  {
    BlockOfElement(size, b, i);
    var from := b * size;
    if b == i / size {
      assert input[from..i + 1] == input[from..i] + [input[i]];
    }
  }

  /** Element `i` lies in block `i / size`. */
  lemma BlockOfElement(size: BlockSize, b: nat, i: nat)
    ensures b < i / size ==> b * size + size <= i
    ensures b == i / size ==> b * size <= i < b * size + size
    ensures b > i / size ==> i < b * size
  {
    var q := i / size;
    assert q * size <= i < q * size + size;
    if b < q {
      Scale(b + 1, q, size);
      assert (b + 1) * size == b * size + size;
    } else if b > q {
      Scale(q + 1, b, size);
      assert (q + 1) * size == q * size + size;
    }
  }

  lemma GatheredAll(input: seq<int>, size: BlockSize, b: nat)
    requires b < Blocks(|input|, size)
    ensures Gathered(input, size, b, |input|) == Slice(input, size, b)
  {
    hide CeilDiv;
    PortionWithin(|input|, size, b);
  }

  lemma TotalOneMore(s: seq<int>, x: int)
    ensures Total(s + [x]) == Total(s) + x
  {
    assert (s + [x])[..|s|] == s;
  }

  /** Add an element to the sum of its block. */
  lemma SumsStep(input: seq<int>, size: BlockSize, i: nat, sums: seq<int>) returns (after: seq<int>)
    requires i < |input| && |sums| == Blocks(|input|, size)
    requires forall b: nat :: b < |sums| ==> sums[b] == Total(Gathered(input, size, b, i))
    ensures i / size < |sums| && after == sums[i / size := sums[i / size] + input[i]]
    ensures forall b: nat :: b < |after| ==> after[b] == Total(Gathered(input, size, b, i + 1))
  {
    hide Total, CeilDiv, Gathered;
    CeilFacts(|input|, size, i / size);
    after := sums[i / size := sums[i / size] + input[i]];
    forall b: nat | b < |after|
      ensures after[b] == Total(Gathered(input, size, b, i + 1))
    {
      GatherOne(input, size, b, i);
      TotalOneMore(Gathered(input, size, b, i), input[i]);
    }
  }

  // ---------------------------------------------------------------------------------------------
  // The host

  /** Store the elements, four addresses apart, and sum each block. */
  method StoreInput(gpu: GPU, input: seq<int>, size: BlockSize, ghost frame: set<object>) returns (r: Result<seq<int>>)
    requires gpu.Valid() && gpu.Inside(frame)
    modifies gpu.global.data
    ensures gpu.Valid() && gpu.Inside(frame)
    ensures |gpu.Abs().global| == |old(gpu.Abs()).global|
    ensures gpu.Abs() == old(gpu.Abs()).(global := gpu.Abs().global)
    ensures r.Throw? ==> r.error == OutOfRange && |input| > 0 && |gpu.Abs().global| <= 4 * (|input| - 1)
    ensures r.Ok? ==> |r.value| == Blocks(|input|, size) && Stored(input, gpu.Abs().global)
    ensures r.Ok? ==> forall b: nat :: b < |r.value| ==> r.value[b] == BlockSum(input, size, b)
  {
    hide GPU.Valid, GPU.Inside, GPU.Abs, Total, CeilDiv, Gathered, Slice;
    var sums := seq(CeilDiv(|input|, size), _ => 0);
    EmptySums(input, size);
    for i := 0 to |input|
      invariant gpu.Valid() && gpu.Inside(frame)
      invariant |gpu.Abs().global| == |old(gpu.Abs()).global|
      invariant gpu.Abs() == old(gpu.Abs()).(global := gpu.Abs().global)
      invariant forall k :: 0 <= k < i ==> 4 * k < |gpu.Abs().global| && gpu.Abs().global[4 * k] == input[k]
      invariant |sums| == Blocks(|input|, size)
      invariant forall b: nat :: b < |sums| ==> sums[b] == Total(Gathered(input, size, b, i))
    {
      var _ :- gpu.StoreGlobal(i * 4, input[i], frame);
      ghost var _ := SumsStep(input, size, i, sums);
      sums := sums[i / size := sums[i / size] + input[i]];
    }
    forall b: nat | b < |sums|
      ensures sums[b] == BlockSum(input, size, b)
    {
      GatheredAll(input, size, b);
    }
    return Ok(sums);
  }

  lemma EmptySums(input: seq<int>, size: BlockSize)
    ensures forall b: nat :: Total(Gathered(input, size, b, 0)) == 0
  {
  }

  /** Clear the outputs. */
  method ClearOutputs(gpu: GPU, ghost input: seq<int>, n: nat, count: nat, ghost frame: set<object>)
    returns (r: Result<()>)
    requires gpu.Valid() && gpu.Inside(frame) && n == |input| && Stored(input, gpu.Abs().global)
    modifies gpu.global.data
    ensures gpu.Valid() && gpu.Inside(frame)
    ensures |gpu.Abs().global| == |old(gpu.Abs()).global| && Stored(input, gpu.Abs().global)
    ensures gpu.Abs() == old(gpu.Abs()).(global := gpu.Abs().global)
    ensures r.Throw? ==> r.error == OutOfRange
    ensures r.Ok? <==> count > 0 ==> 4 * n + 4 * (count - 1) < |gpu.Abs().global|
  {
    hide GPU.Valid, GPU.Inside, GPU.Abs;
    for b := 0 to count
      invariant gpu.Valid() && gpu.Inside(frame)
      invariant |gpu.Abs().global| == |old(gpu.Abs()).global| && Stored(input, gpu.Abs().global)
      invariant gpu.Abs() == old(gpu.Abs()).(global := gpu.Abs().global)
      invariant b > 0 ==> 4 * n + 4 * (b - 1) < |gpu.Abs().global|
    {
      var _ :- gpu.StoreGlobal(n * 4 + b * 4, 0, frame);
    }
    return Ok(());
  }

  /** Load the outputs and compare them with the host's sums. */
  method CheckOutputs(gpu: GPU, n: nat, sums: seq<int>) returns (r: Result<seq<int>>)
    requires gpu.Valid() && (sums != [] ==> 4 * n + 4 * (|sums| - 1) < gpu.global.data.Length)
    ensures r == if forall b :: 0 <= b < |sums| ==> gpu.global.data[n * 4 + b * 4] == sums[b] then Ok(sums)
                 else Throw(CheckFailed)
  {
    var correct := true;
    for b := 0 to |sums|
      invariant correct <==> forall c :: 0 <= c < b ==> gpu.global.data[n * 4 + c * 4] == sums[c]
    {
      var v := gpu.global.Load(n * 4 + b * 4);
      if v.value != sums[b] {
        correct := false;
      }
    }
    return if correct then Ok(sums) else Throw(CheckFailed);
  }

  lemma FrameHas(gpu: GPU, frame: set<object>)
    requires gpu.Inside(frame)
    ensures gpu.global.data in frame && forall i :: 0 <= i < |gpu.sms| ==> gpu.sms[i] in frame
  {
    gpu.SmsWithin(frame);
  }

  /** Generate the kernel and the grid; the GPU is not concerned. */
  method BuildProgram(n: nat, blockSize: BlockSize, warpSize: nat, ghost gpu: GPU, ghost frame: set<object>)
    returns (kernel: seq<Instruction>, grid: Result<seq<ThreadBlock>>)
    requires warpSize > 0 && gpu.Valid() && gpu.Inside(frame)
    ensures kernel == ReductionCode(blockSize)
    ensures grid == if n > 0 && RoundsOf(blockSize) > 12 then Throw(OutOfRange)
                    else Ok(ReductionGrid(n, blockSize, warpSize))
    ensures gpu.Valid() && gpu.Inside(frame) && gpu.Abs() == old(gpu.Abs())
  {
    hide ReductionCode, ReductionGrid, Static, Separate, Caches.Cache.Abs, Caches.Cache.Valid, Caches.Cache.SetAt,
         Caches.Cache.Repr, StreamingMultiprocessors.SM.Abs, StreamingMultiprocessors.SM.Valid;
    AliveCache(gpu.l2);
    forall j | 0 <= j < |gpu.sms|
      ensures forall o :: o in Parts(gpu.sms[j]) ==> allocated(o)
    {
      Alive(gpu.sms[j]);
    }
    kernel := GenerateReductionKernel(blockSize);
    grid := BuildReductionGrid(n, blockSize, warpSize);
  }

  lemma NoBlocks(n: nat, size: BlockSize)
    ensures Blocks(n, size) == 0 <==> n == 0
  {
    hide CeilDiv;
    CeilFacts(n, size, 0);
  }

  /** The sums of all blocks. */
  function BlockSums(input: seq<int>, size: BlockSize): seq<int> {
    seq(Blocks(|input|, size), b requires 0 <= b < Blocks(|input|, size) => BlockSum(input, size, b))
  }

  lemma OutputsChecked(input: seq<int>, size: BlockSize, global: seq<int>, sums: seq<int>)
    requires Outputs(input, size, global) && sums == BlockSums(input, size) &&
             BelowShared(|input|, Blocks(|input|, size))
    requires GlobalFits(|input|, size, |global|)
    ensures (forall b :: 0 <= b < |sums| ==> global[|input| * 4 + b * 4] == sums[b]) <==> AddsUp(input, size)
  {
    hide BlockSum, BlockReduced, CeilDiv;
    NoBlocks(|input|, size);
    forall b: nat | b < |sums|
      ensures global[|input| * 4 + b * 4] == sums[b] <==> BlockReduced(input, size, b) == BlockSum(input, size, b)
    {
      OutputWord(global, |input| * 4 + b * 4);
    }
    if forall b :: 0 <= b < |sums| ==> global[|input| * 4 + b * 4] == sums[b] {
      assert forall b: nat :: b < |sums| ==> BlockReduced(input, size, b) == BlockSum(input, size, b);
    }
  }

  /** How the launch and the run turn out, and within how many iterations. */
  lemma Outcome(config: SystemConfig, input: seq<int>, g: GpuVal) returns (bound: nat)
    requires 0 < config.blockSize < WORD && 0 < config.warpSize <= 32
    requires BelowShared(|input|, Blocks(|input|, config.blockSize)) &&
             (|input| > 0 ==> RoundsOf(config.blockSize) <= 12)
    requires ReadyGpu(input, config.blockSize, config.limits.sharedMemory, g)
    ensures var n, size, needs := |input|, config.blockSize, ReductionNeeds(config.blockSize);
            var fits := n > 0 ==> BlockFits(config.limits, needs, Min(n, size), config.warpSize);
            var launched := Launch(g, ReductionGrid(n, size, config.warpSize), config.limits, needs);
            if launched.Throw? then launched.error == ImpossibleBlock && !fits
            else
              && fits && |ReductionCode(size)| < WORD
              && var run := RunToCompletion(ReductionCode(size), launched.value, bound);
                 if run.Throw? then run.error == OutOfRange && !CellsFit(n, size, config.limits.sharedMemory)
                 else
                   && CellsFit(n, size, config.limits.sharedMemory) && run.value.done
                   && Outputs(input, size, run.value.gpu.global)
  {
    hide ReductionCode, ReductionGrid, Launch, RunToCompletion, BlockFits, CellsFit, CeilDiv, RoundsOf, Outputs;
    var n, size, needs := |input|, config.blockSize, ReductionNeeds(config.blockSize);
    SmallCode(size);
    bound := 0;
    if n == 0 || BlockFits(config.limits, needs, Min(n, size), config.warpSize) {
      bound := ReductionDelivers(input, size, config.warpSize, config.limits.sharedMemory, g, config.limits, needs);
    } else {
      MisfitRefused(n, size, config.warpSize, config.limits, needs, g);
    }
  }

  /** `run_reduction_benchmark` up to its check, for every input, block size and configuration whose policy is
      work-conserving: it terminates; it fails, for the reason given, exactly when `Failure` says so; and otherwise the
      words loaded are the sums of the blocks. */
  method RunReduction(config: SystemConfig, input: seq<int>) returns (r: Result<seq<int>>)
    requires config.numSms > 0 && 0 < config.blockSize < WORD && 0 < config.warpSize <= 32
    requires !config.scheduler.TWO_LEVEL? && BelowShared(|input|, Blocks(|input|, config.blockSize))
    ensures match Failure(config, input)
            case Some(e) => r == Throw(e)
            case None => r == Ok(BlockSums(input, config.blockSize))
  {
    hide GPU.Valid, GPU.Inside, GPU.Abs, ReadyGpu, ReductionCode, BlockSum, BlockReduced, ReductionGrid, Launch,
         GpuModel.RunToCompletion, Stored, ShapedCache, FreshCore, BlockFits, CellsFit, CeilDiv, RoundsOf, AddsUp,
         Outputs;
    var n, size, large := |input|, config.blockSize, Enlarged(config);
    NoBlocks(n, size);
    var made, frame := MakeGpu(large);
    if made.Throw? {
      return Throw(made.error);
    }
    var gpu := made.value;
    GlobalOf(gpu);
    FrameHas(gpu, frame);
    var sums :- StoreInput(gpu, input, size, frame);
    var _ :- ClearOutputs(gpu, input, n, |sums|, frame);
    var kernel, grid := BuildProgram(n, size, config.warpSize, gpu, frame);
    if grid.Throw? {
      return Throw(grid.error);
    }
    NewGpuReady(large, input, size, gpu.Abs());
    var needs := ReductionNeeds(size);
    ghost var bound := Outcome(large, input, gpu.Abs());
    var launched, frame' := gpu.LaunchKernel(grid.value, config.limits, needs, frame);
    if launched.Throw? {
      return Throw(launched.error);
    }
    var ran := gpu.RunToCompletion(kernel, bound, frame');
    if ran.Throw? {
      return Throw(ran.error);
    }
    GlobalOf(gpu);
    assert sums == BlockSums(input, size);
    OutputsChecked(input, size, gpu.global.data[..], sums);
    r := CheckOutputs(gpu, n, sums);
  }

  /** The elements the benchmark stores. */
  function Elements(n: nat): (input: seq<int>)
    ensures |input| == n && Positive(input)
  {
    seq(n, i => i % 5 + 1)
  }

  /** What a configuration must offer for the benchmark of `n` elements to pass. */
  ghost predicate Suits(config: SystemConfig, n: nat)
    requires config.blockSize > 0 && config.warpSize > 0
  {
    var size := config.blockSize;
    && ShapedCache(config.l1).Ok? && ShapedCache(config.l2).Ok? && GlobalFits(n, size, Enlarged(config).globalSize)
    && (n > 0 ==> RoundsOf(size) <= 12 && BlockFits(config.limits, ReductionNeeds(size), Min(n, size), config.warpSize))
    && CellsFit(n, size, config.limits.sharedMemory)
    && Min(n, size) <= Counted(size)
  }

  /** The benchmark on its own elements: it passes if and only if the configuration suits it. */
  method RunBenchmark(config: SystemConfig, n: nat) returns (r: Result<seq<int>>)
    requires config.numSms > 0 && 0 < config.blockSize < WORD && 0 < config.warpSize <= 32
    requires !config.scheduler.TWO_LEVEL? && BelowShared(n, Blocks(n, config.blockSize))
    ensures r.Ok? <==> Suits(config, n)
    ensures r.Ok? ==> r.value == BlockSums(Elements(n), config.blockSize)
  {
    hide ShapedCache, BlockFits, CellsFit, RoundsOf, Counted, AddsUp, BlockSums;
    var input: seq<int> := [];
    for i := 0 to n
      invariant input == Elements(i)
    {
      input := input + [i % 5 + 1];
    }
    PositiveAddUpIff(input, config.blockSize);
    r := RunReduction(config, input);
  }

  // ---------------------------------------------------------------------------------------------
  // Runs that fail

  /** An SM that holds exactly one block of four threads. */
  const NARROW := Limits(1, 4, 4, 128, 16)

  lemma NarrowAdmits(ws: nat)
    requires 0 < ws
    ensures BlockFits(NARROW, ReductionNeeds(4), Min(8, 4), ws) && Blocks(8, 4) == 2 && RoundsOf(4) == 2
    ensures !CellsFit(8, 4, 16)
  {
    QuotientBound(4 + ws - 1, ws, 4);
    assert Halvings(1) == 1;
    assert LastCell(8, 4) == 7;
  }

  /** A block is admitted by what it needs for itself, but addresses its cells by its number in the grid: with eight
      elements in blocks of four, on SMs with shared memory for one block, both blocks are admitted, and the run throws
      over an address of the second. */
  lemma AdmittedButOutOfRange(input: seq<int>, ws: nat, g: GpuVal) returns (n: nat)
    requires |input| == 8 && 0 < ws <= 32 && ReadyGpu(input, 4, 16, g)
    ensures var launched := Launch(g, ReductionGrid(8, 4, ws), NARROW, ReductionNeeds(4));
            launched.Ok? && |ReductionCode(4)| < WORD &&
            RunToCompletion(ReductionCode(4), launched.value, n) == Throw(OutOfRange)
  {
    hide ReadyGpu, BlockFits, CellsFit, Launch, RunToCompletion, ReductionGrid, ReductionCode, CeilDiv, RoundsOf;
    NarrowAdmits(ws);
    n := ReductionDelivers(input, 4, ws, 16, g, NARROW, ReductionNeeds(4));
  }

  /** An SM that holds a block of six threads and all its cells. */
  const SIX := Limits(1, 6, 6, 192, 24)

  lemma SixAdmits(ws: nat)
    requires 0 < ws
    ensures BlockFits(SIX, ReductionNeeds(6), Min(6, 6), ws) && Blocks(6, 6) == 1 && RoundsOf(6) == 2
    ensures CellsFit(6, 6, 24)
  {
    QuotientBound(6 + ws - 1, ws, 6);
    assert Halvings(1) == 1;
    assert LastCell(6, 6) == 5;
  }

  /** Six elements in one block of six: the run completes, and the output word lacks the third and the sixth. */
  lemma SixFallShort(input: seq<int>, ws: nat, g: GpuVal) returns (n: nat)
    requires |input| == 6 && 0 < ws <= 32 && ReadyGpu(input, 6, 24, g)
    ensures var launched := Launch(g, ReductionGrid(6, 6, ws), SIX, ReductionNeeds(6));
            && launched.Ok? && |ReductionCode(6)| < WORD
            && var run := RunToCompletion(ReductionCode(6), launched.value, n);
               && run.Ok? && run.value.done
               && At(GlobalData(run.value.gpu.global), 24) == Total(input) - input[2] - input[5]
  {
    hide ReadyGpu, BlockFits, CellsFit, Launch, RunToCompletion, ReductionGrid, ReductionCode, RoundsOf, Total, Reduced,
         At;
    SixAdmits(ws);
    n := ReductionDelivers(input, 6, ws, 24, g, SIX, ReductionNeeds(6));
    JobShape(input, 6, 0);
    assert JobOf(input, 6, 0).input == input;
    SixLoseTheThird(input);
    assert BlockReduced(input, 6, 0) == Reduced(input);
  }

  // ---------------------------------------------------------------------------------------------
  // The benchmark's figures

  /** A block of six needs 32 registers for each thread and four addresses of shared memory for each cell: with either
      limit one smaller it no longer fits. */
  lemma SixNeedsAll(ws: nat)
    requires 0 < ws
    ensures BlockFits(SIX, ReductionNeeds(6), 6, ws)
    ensures !BlockFits(SIX.(registers := 191), ReductionNeeds(6), 6, ws)
    ensures !BlockFits(SIX.(sharedMemory := 23), ReductionNeeds(6), 6, ws)
  {
    SixAdmits(ws);
  }

  /** The elements are 1, 2, 3, 4, 5 over and over. */
  lemma ElementsAre(n: nat, i: nat)
    ensures i < n && i < 5 ==> Elements(n)[i] == i + 1
    ensures i + 5 < n ==> Elements(n)[i + 5] == Elements(n)[i]
  {
  }

  /** Global memory has at least 10 MiB, more only if configured, and nothing else of the configuration changes. */
  lemma EnlargedMeans(config: SystemConfig)
    ensures Enlarged(config).globalSize >= 10485760 && Enlarged(config).globalSize >= config.globalSize
    ensures Enlarged(config).globalSize in {10485760, config.globalSize}
    ensures Enlarged(config).(globalSize := config.globalSize) == config
  {
  }
}
