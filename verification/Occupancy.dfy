/** The static occupancy calculation predicts exactly how many blocks admission lets onto an empty SM. */
module Occupancy {
  import opened Common
  import opened SmModel

  datatype Factor = Registers | SharedMemory | Warps | Threads | Blocks

  /** Resident blocks and warps, the fraction of the warp slots they fill, and the limiting resource. */
  datatype OccupancyResult = OccupancyResult(blocks: nat, warps: nat, fraction: real, factor: Factor)

  function WarpsPerBlock(blockSize: nat, warpSize: nat): nat
    requires warpSize > 0
  {
    (blockSize + warpSize - 1) / warpSize
  }

  /** How many blocks one resource allows: no limit beyond `otherwise` if a block needs none of it. */
  function Bound(limit: nat, need: nat, otherwise: nat): nat {
    if need > 0 then limit / need else otherwise
  }

  /** `OccupancyCalculator::compute`. */
  function Compute(limits: Limits, needs: Needs, blockSize: nat, warpSize: nat): Result<OccupancyResult> {
    if blockSize == 0 || warpSize == 0 then Throw(BadDimensions)
    else
      var warps := WarpsPerBlock(blockSize, warpSize);
      var registers := blockSize * needs.registersPerThread;
      var byThreads := limits.threads / blockSize;
      SomeWarps(blockSize, warpSize);
      var byWarps := limits.warps / warps;
      var byRegisters := Bound(limits.registers, registers, limits.blocks);
      var byShared := Bound(limits.sharedMemory, needs.sharedPerBlock, limits.blocks);
      var blocks := Min(limits.blocks, Min(byThreads, Min(byWarps, Min(byRegisters, byShared))));
      var factor :=
        if blocks == byRegisters && registers > 0 then Registers
        else if blocks == byShared && needs.sharedPerBlock > 0 then SharedMemory
        else if blocks == byWarps then Warps
        else if blocks == byThreads then Threads
        else Blocks;
      Ok(OccupancyResult(blocks, blocks * warps,
                         if limits.warps > 0 then (blocks * warps) as real / limits.warps as real else 0.0, factor))
  }

  /** A block of `blockSize` threads in as many warps as they take. */
  predicate FullBlock(b: ThreadBlock, blockSize: nat, warpSize: nat) {
    warpSize > 0 && ThreadCount(b.warps) == blockSize && |b.warps| == WarpsPerBlock(blockSize, warpSize)
  }

  /** What an SM uses after admitting `n` such blocks. */
  function UsageOf(b: ThreadBlock, needs: Needs, n: nat): Usage {
    if n == 0 then NOTHING else Add(UsageOf(b, needs, n - 1), Footprint(b, needs))
  }

  lemma UsageScales(b: ThreadBlock, needs: Needs, n: nat)
    ensures var r := Footprint(b, needs);
            UsageOf(b, needs, n) == Usage(n, n * r.warps, n * r.threads, n * r.registers, n * r.sharedMemory)
  {
    if n > 0 {
      UsageScales(b, needs, n - 1);
      var r := Footprint(b, needs);
      Distribute(n - 1, r.warps);
      Distribute(n - 1, r.threads);
      Distribute(n - 1, r.registers);
      Distribute(n - 1, r.sharedMemory);
    }
  }

  lemma Distribute(n: nat, x: nat)
    ensures n * x + x == (n + 1) * x
  {
  }

  /** One more of `need` fits under `limit` exactly while fewer than `limit / need` are there. */
  lemma FitsIff(limit: nat, need: nat, n: nat)
    requires need > 0
    ensures (n + 1) * need <= limit <==> n < limit / need
  {
    var q, r := limit / need, limit % need;
    assert limit == need * q + r;
    if n < q {
      Monotone(n + 1, q, need);
    } else {
      Monotone(q + 1, n + 1, need);
      assert (q + 1) * need == need * q + need;
    }
  }

  lemma Monotone(a: nat, b: nat, x: nat)
    requires a <= b
    ensures a * x <= b * x
  {
    assert b * x == a * x + (b - a) * x;
    NonNegative(b - a, x);
  }

  lemma NonNegative(a: nat, b: nat)
    ensures a * b >= 0
  {
  }

  lemma SomeWarps(blockSize: nat, warpSize: nat)
    requires blockSize > 0 && warpSize > 0
    ensures WarpsPerBlock(blockSize, warpSize) > 0
  {
    FitsIff(blockSize + warpSize - 1, warpSize, 0);
  }

  lemma BoundFits(limit: nat, need: nat, otherwise: nat, n: nat)
    requires n < otherwise
    ensures (n + 1) * need <= limit <==> n < Bound(limit, need, otherwise)
  {
    if need > 0 {
      FitsIff(limit, need, n);
    }
  }

  /** Static occupancy equals dynamic admission: with n identical full blocks resident, the next is admitted
      exactly when n is below the computed number of resident blocks. */
  lemma OccupancyIsAdmission(limits: Limits, needs: Needs, blockSize: nat, warpSize: nat, b: ThreadBlock, n: nat)
    requires blockSize > 0 && warpSize > 0 && FullBlock(b, blockSize, warpSize)
    ensures Compute(limits, needs, blockSize, warpSize).Ok?
    ensures CanAdmit(UsageOf(b, needs, n), b, limits, needs) <==>
            n < Compute(limits, needs, blockSize, warpSize).value.blocks
  {
    var r := Footprint(b, needs);
    SomeWarps(blockSize, warpSize);
    AdmitIff(limits, needs, b, n);
    if n < limits.blocks {
      FitsIff(limits.warps, r.warps, n);
      FitsIff(limits.threads, r.threads, n);
      BoundFits(limits.registers, r.registers, limits.blocks, n);
      BoundFits(limits.sharedMemory, r.sharedMemory, limits.blocks, n);
    }
    hide WarpsPerBlock, Bound;
  }

  lemma AdmitIff(limits: Limits, needs: Needs, b: ThreadBlock, n: nat)
    ensures var r := Footprint(b, needs);
            CanAdmit(UsageOf(b, needs, n), b, limits, needs) <==>
            && n + 1 <= limits.blocks && (n + 1) * r.warps <= limits.warps && (n + 1) * r.threads <= limits.threads
            && (n + 1) * r.registers <= limits.registers && (n + 1) * r.sharedMemory <= limits.sharedMemory
  {
    var r := Footprint(b, needs);
    UsageScales(b, needs, n);
    Distribute(n, r.warps);
    Distribute(n, r.threads);
    Distribute(n, r.registers);
    Distribute(n, r.sharedMemory);
  }

  /** The named resource is one that a further block would exhaust. */
  lemma FactorExhausted(limits: Limits, needs: Needs, blockSize: nat, warpSize: nat, b: ThreadBlock)
    requires blockSize > 0 && warpSize > 0 && FullBlock(b, blockSize, warpSize)
    ensures Compute(limits, needs, blockSize, warpSize).Ok?
    ensures var o := Compute(limits, needs, blockSize, warpSize).value;
            var u := Add(UsageOf(b, needs, o.blocks), Footprint(b, needs));
            match o.factor
            case Registers => u.registers > limits.registers
            case SharedMemory => u.sharedMemory > limits.sharedMemory
            case Warps => u.warps > limits.warps
            case Threads => u.threads > limits.threads
            case Blocks => u.blocks > limits.blocks
  {
    var o := Compute(limits, needs, blockSize, warpSize).value;
    var r := Footprint(b, needs);
    SomeWarps(blockSize, warpSize);
    UsageScales(b, needs, o.blocks);
    Distribute(o.blocks, r.warps);
    Distribute(o.blocks, r.threads);
    Distribute(o.blocks, r.registers);
    Distribute(o.blocks, r.sharedMemory);
    match o.factor
    case Registers => FitsIff(limits.registers, r.registers, o.blocks);
    case SharedMemory => FitsIff(limits.sharedMemory, r.sharedMemory, o.blocks);
    case Warps => FitsIff(limits.warps, r.warps, o.blocks);
    case Threads => FitsIff(limits.threads, r.threads, o.blocks);
    case Blocks =>
  }

  /** A block takes the fewest warps whose lanes hold its threads. */
  lemma WarpsPerBlockLeast(blockSize: nat, warpSize: nat, w: nat)
    requires warpSize > 0
    ensures WarpsPerBlock(blockSize, warpSize) * warpSize >= blockSize
    ensures w * warpSize >= blockSize ==> WarpsPerBlock(blockSize, warpSize) <= w
  {
    var q := WarpsPerBlock(blockSize, warpSize);
    var x := blockSize + warpSize - 1;
    assert x == warpSize * q + x % warpSize;
    if w * warpSize >= blockSize && w < q {
      Monotone(w + 1, q, warpSize);
      Distribute(w, warpSize);
    }
  }

  /** The reported figures: the warps are those of as many resident blocks as reported, and the fraction is the part
      of the warp slots they take, from nothing to all of them. */
  lemma FiguresMean(limits: Limits, needs: Needs, blockSize: nat, warpSize: nat, b: ThreadBlock)
    requires blockSize > 0 && warpSize > 0 && FullBlock(b, blockSize, warpSize)
    ensures Compute(limits, needs, blockSize, warpSize).Ok?
    ensures var o := Compute(limits, needs, blockSize, warpSize).value;
            && o.warps == UsageOf(b, needs, o.blocks).warps && o.warps <= limits.warps
            && 0.0 <= o.fraction <= 1.0 && o.fraction * limits.warps as real == o.warps as real
            && (limits.warps == 0 ==> o.fraction == 0.0)
  {
    hide Compute, WarpsPerBlock, UsageOf;
    FiguresAre(limits, needs, blockSize, warpSize);
    var o := Compute(limits, needs, blockSize, warpSize).value;
    UsageScales(b, needs, o.blocks);
    if limits.warps > 0 { Fraction(o.warps, limits.warps); }
  }

  lemma FiguresAre(limits: Limits, needs: Needs, blockSize: nat, warpSize: nat)
    requires blockSize > 0 && warpSize > 0
    ensures Compute(limits, needs, blockSize, warpSize).Ok?
    ensures var o := Compute(limits, needs, blockSize, warpSize).value;
            && o.warps == o.blocks * WarpsPerBlock(blockSize, warpSize) <= limits.warps
            && o.fraction == if limits.warps > 0 then o.warps as real / limits.warps as real else 0.0
  {
    hide WarpsPerBlock, Bound;
    SomeWarps(blockSize, warpSize);
    var warps := WarpsPerBlock(blockSize, warpSize);
    WithinQuotient(Compute(limits, needs, blockSize, warpSize).value.blocks, limits.warps, warps);
  }

  lemma WithinQuotient(n: nat, limit: nat, x: nat)
    requires x > 0
    ensures n <= limit / x ==> n * x <= limit
  {
    if n <= limit / x {
      assert limit == x * (limit / x) + limit % x;
      Monotone(n, limit / x, x);
    }
  }

  lemma Fraction(a: nat, b: nat)
    requires a <= b && b > 0
    ensures 0.0 <= a as real / b as real <= 1.0 && a as real / b as real * b as real == a as real
  {
  }

  /** Of the resources a further block would exceed the one named is the first, in the order registers, shared memory,
      warps, threads, blocks. */
  lemma FactorFirst(limits: Limits, needs: Needs, blockSize: nat, warpSize: nat, b: ThreadBlock)
    requires blockSize > 0 && warpSize > 0 && FullBlock(b, blockSize, warpSize)
    ensures Compute(limits, needs, blockSize, warpSize).Ok?
    ensures var o := Compute(limits, needs, blockSize, warpSize).value;
            var u := Add(UsageOf(b, needs, o.blocks), Footprint(b, needs));
            && (!o.factor.Registers? ==> u.registers <= limits.registers)
            && (o.factor in {Warps, Threads, Blocks} ==> u.sharedMemory <= limits.sharedMemory)
            && (o.factor in {Threads, Blocks} ==> u.warps <= limits.warps)
            && (o.factor == Blocks ==> u.threads <= limits.threads)
  {
    hide Compute, UsageOf, WarpsPerBlock, Add;
    OccupancyIsAdmission(limits, needs, blockSize, warpSize, b, 0);
    var o := Compute(limits, needs, blockSize, warpSize).value;
    FurtherBlock(b, needs, o.blocks);
    FactorOrder(limits, needs, blockSize, warpSize, o.blocks + 1);
  }

  lemma FurtherBlock(b: ThreadBlock, needs: Needs, n: nat)
    ensures var r, u := Footprint(b, needs), Add(UsageOf(b, needs, n), Footprint(b, needs));
            && u.registers == (n + 1) * r.registers && u.sharedMemory == (n + 1) * r.sharedMemory
            && u.warps == (n + 1) * r.warps && u.threads == (n + 1) * r.threads
  {
    var r := Footprint(b, needs);
    UsageScales(b, needs, n);
    Distribute(n, r.warps);
    Distribute(n, r.threads);
    Distribute(n, r.registers);
    Distribute(n, r.sharedMemory);
  }

  lemma BoundAllows(limit: nat, need: nat, otherwise: nat, n: nat)
    requires n <= Bound(limit, need, otherwise) && (n == Bound(limit, need, otherwise) ==> need == 0)
    ensures (n + 1) * need <= limit
  {
    if need > 0 { FitsIff(limit, need, n); }
  }

  lemma FactorOrder(limits: Limits, needs: Needs, blockSize: nat, warpSize: nat, m: nat)
    requires blockSize > 0 && warpSize > 0 && Compute(limits, needs, blockSize, warpSize).Ok?
    requires m == Compute(limits, needs, blockSize, warpSize).value.blocks + 1
    ensures var o := Compute(limits, needs, blockSize, warpSize).value;
            && (!o.factor.Registers? ==> m * (blockSize * needs.registersPerThread) <= limits.registers)
            && (o.factor in {Warps, Threads, Blocks} ==> m * needs.sharedPerBlock <= limits.sharedMemory)
            && (o.factor in {Threads, Blocks} ==> m * WarpsPerBlock(blockSize, warpSize) <= limits.warps)
            && (o.factor == Blocks ==> m * blockSize <= limits.threads)
  {
    hide WarpsPerBlock, Bound;
    SomeWarps(blockSize, warpSize);
    var n, warps, registers := m - 1, WarpsPerBlock(blockSize, warpSize), blockSize * needs.registersPerThread;
    var o := Compute(limits, needs, blockSize, warpSize).value;
    if !o.factor.Registers? { BoundAllows(limits.registers, registers, limits.blocks, n); }
    if o.factor in {Warps, Threads, Blocks} {
      BoundAllows(limits.sharedMemory, needs.sharedPerBlock, limits.blocks, n);
    }
    if o.factor in {Threads, Blocks} { FitsIff(limits.warps, warps, n); }
    if o.factor == Blocks { FitsIff(limits.threads, blockSize, n); }
  }
}
