/** Conservation across the cache hierarchy of a whole GPU, in every run of every kernel. */
module Hierarchy {
  import opened Common
  import opened Isa
  import opened Sequences
  import opened CacheModel
  import opened CacheStats
  import opened WarpModel
  import opened MemoryModel
  import opened ExecutorModel
  import opened SchedulingModel
  import opened SmModel
  import opened GpuModel

  // ---------------------------------------------------------------------------------------------
  // How often an L1 is written: once for every line a STORE or an ATOMIC_ADD touches in global memory

  function WarpWrites(m: MemVal, addresses: seq<nat>): nat {
    if addresses == [] || IsShared(addresses[0]) then 0 else |Coalesce(addresses, m.l1.lineSize)|
  }

  function ExecuteWrites(inst: Instruction, w: WarpVal, m: MemVal): nat {
    if inst.opcode != STORE && inst.opcode != ATOMIC_ADD then 0
    else
      match WriteRequests(inst, w.threads, w.mask, 0)
      case Ok(writes) => WarpWrites(m, AddressesOf(writes))
      case Throw(_) => 0
  }

  /** What the selected warp's instruction writes. */
  function TickWrites(k: Code, s: SmVal, m: MemVal): nat {
    if IsCompleted(s.warps) then 0
    else
      var warps := TickStalls(s.warps, s.cycles);
      match Select(s.sched, warps).warp
      case Some(i) => if warps[i].pc < |k| then ExecuteWrites(k[warps[i].pc], warps[i], m) else 0
      case None => 0
  }

  /** The L1 writes so far, one count per SM, after phase 2 from SM `i` on. */
  function TickAllWrites(k: Code, g: GpuVal, i: nat, writes: seq<nat>): (r: seq<nat>)
    requires |writes| == |g.cores|
    ensures |r| == |writes|
    decreases |g.cores| - i
  {
    if i >= |g.cores| then writes
    else if IsCompleted(g.cores[i].sm.warps) then TickAllWrites(k, g, i + 1, writes)
    else if TickCore(k, g, i).Throw? then writes
    else
      var more := TickWrites(k, g.cores[i].sm, MemoryOf(g, g.cores[i]));
      TickAllWrites(k, TickCore(k, g, i).value, i + 1, writes[i := writes[i] + more])
  }

  /** The same after `n` iterations. */
  function RunWrites(k: Code, g: GpuVal, n: nat, writes: seq<nat>): seq<nat>
    requires |writes| == |g.cores|
    decreases n
  {
    if n == 0 || Refill(g, 0).Throw? || Iterate(k, g).Throw? then writes
    else
      var more := TickAllWrites(k, Refill(g, 0).value, 0, writes);
      if Iterate(k, g).value.done then more else RunWrites(k, Iterate(k, g).value.gpu, n - 1, more)
  }

  // ---------------------------------------------------------------------------------------------
  // One SM

  /** The laws seen by one SM: its L1 conserves after `writes` writes, the L2 has never been written, and its accesses
      are this SM's L1 misses plus `others`, those of the other SMs. */
  ghost predicate MemoryConserved(m: MemVal, writes: nat, others: nat) {
    Conserved(m.l1, writes) && Conserved(m.l2, 0) && m.l2.stats.accesses == m.l1.stats.misses + others
  }

  lemma CacheCounts(c: CacheVal, address: nat, isWrite: bool)
    requires CacheAccess(c, address, isWrite).Ok?
    ensures var o := CacheAccess(c, address, isWrite).value;
            && o.cache.stats.accesses == c.stats.accesses + 1
            && o.cache.stats.misses == c.stats.misses + (if o.result.hit then 0 else 1)
  {
  }

  lemma LatencyConserves(m: MemVal, address: nat, isWrite: bool, writes: nat, others: nat)
    requires MemoryConserved(m, writes, others) && CacheLatency(m, address, isWrite).Ok?
    ensures MemoryConserved(CacheLatency(m, address, isWrite).value.mem, writes + Bit(isWrite), others)
  {
    hide Conserved, CacheAccess;
    AccessConserves(m.l1, writes, address, isWrite);
    CacheCounts(m.l1, address, isWrite);
    if !CacheAccess(m.l1, address, isWrite).value.result.hit {
      AccessConserves(m.l2, 0, address, false);
      CacheCounts(m.l2, address, false);
    }
  }

  lemma {:induction false} LinesConserve(m: MemVal, lines: seq<nat>, isWrite: bool, latency: nat, dirty: nat,
                                         writes: nat,
                                         others: nat)
    requires MemoryConserved(m, writes, others) && ServiceLines(m, lines, isWrite, latency, dirty).Ok?
    ensures MemoryConserved(ServiceLines(m, lines, isWrite, latency, dirty).value.mem,
                            writes + (if isWrite then |lines| else 0), others)
    decreases |lines|
  {
    hide MemoryConserved, CacheLatency;
    if lines != [] {
      LatencyConserves(m, lines[0], isWrite, writes, others);
      var t := CacheLatency(m, lines[0], isWrite).value;
      LinesConserve(t.mem, lines[1..], isWrite, Max(latency, t.latency), dirty + t.dirtyEvictions,
        writes + Bit(isWrite), others);
    }
  }

  lemma WarpConserves(m: MemVal, addresses: seq<nat>, isWrite: bool, writes: nat, others: nat)
    requires MemoryConserved(m, writes, others) && ServiceWarp(m, addresses, isWrite).Ok?
    ensures MemoryConserved(ServiceWarp(m, addresses, isWrite).value.mem,
                            writes + (if isWrite then WarpWrites(m, addresses) else 0), others)
  {
    hide MemoryConserved, ServiceLines, BankConflicts, Coalesce;
    if addresses != [] && !IsShared(addresses[0]) {
      LinesConserve(m, Coalesce(addresses, m.l1.lineSize), isWrite, 1, 0, writes, others);
    }
  }

  lemma DataIrrelevant(m: MemVal, d: Data, writes: nat, others: nat)
    requires MemoryConserved(m, writes, others)
    ensures MemoryConserved(m.(data := d), writes, others)
  {
  }

  /** Every instruction conserves. */
  lemma ExecuteConserves(inst: Instruction, w: WarpVal, m: MemVal, writes: nat, others: nat)
    requires MemoryConserved(m, writes, others) && Execute(inst, w, m).Ok?
    ensures MemoryConserved(Execute(inst, w, m).value.mem, writes + ExecuteWrites(inst, w, m), others)
  {
    hide MemoryConserved, ServiceWarp, AluLanes, Scatter, LoadAddresses, WriteRequests, StoreAll, AddAll, LoadAll,
         WarpWrites;
    match inst.opcode
    case LOAD => WarpConserves(m, LoadAddresses(inst, w.threads, w.mask, 0).value, false, writes, others);
    case STORE =>
      var sent := WriteRequests(inst, w.threads, w.mask, 0).value;
      WarpConserves(m, AddressesOf(sent), true, writes, others);
      DataIrrelevant(ServiceWarp(m, AddressesOf(sent), true).value.mem, StoreAll(m.data, sent).value,
                     writes + WarpWrites(m, AddressesOf(sent)), others);
    case ATOMIC_ADD =>
      var sent := WriteRequests(inst, w.threads, w.mask, 0).value;
      WarpConserves(m, AddressesOf(sent), true, writes, others);
      DataIrrelevant(ServiceWarp(m, AddressesOf(sent), true).value.mem, AddAll(m.data, sent).value,
                     writes + WarpWrites(m, AddressesOf(sent)), others);
    case _ =>
  }

  lemma TickConserves(k: Code, s: SmVal, m: MemVal, writes: nat, others: nat)
    requires MemoryConserved(m, writes, others) && Tick(k, s, m).Ok?
    ensures MemoryConserved(Tick(k, s, m).value.mem, writes + TickWrites(k, s, m), others)
  {
    hide MemoryConserved, Execute, ExecuteWrites, Select, TickStalls, BarrierArrival, Finish;
    if !IsCompleted(s.warps) {
      var warps := TickStalls(s.warps, s.cycles);
      var c := Select(s.sched, warps);
      if c.warp.Some? && warps[c.warp.value].pc < |k| {
        ExecuteConserves(k[warps[c.warp.value].pc], warps[c.warp.value], m, writes, others);
      }
    }
  }

  // ---------------------------------------------------------------------------------------------
  // The whole GPU

  function Misses(cores: seq<CoreVal>): seq<nat> {
    seq(|cores|, c requires 0 <= c < |cores| => cores[c].l1.stats.misses)
  }

  /** Every L1 conserves after as many writes as `writes` says, the L2 conserves without any, and its accesses are the
      L1 misses of all SMs. */
  ghost predicate GpuConserved(g: GpuVal, writes: seq<nat>) {
    && |writes| == |g.cores|
    && (forall c :: 0 <= c < |g.cores| ==> Conserved(g.cores[c].l1, writes[c]))
    && Conserved(g.l2, 0)
    && g.l2.stats.accesses == Sum(Misses(g.cores))
  }

  /** A GPU whose caches are all new conserves, no L1 having been written. */
  lemma FreshGpuConserved(g: GpuVal, sets: nat, assoc: nat, lineSize: nat, name: PolicyName,
                          sets2: nat, assoc2: nat, lineSize2: nat, name2: PolicyName)
    requires sets > 0 && assoc > 0 && lineSize > 0 && sets2 > 0 && assoc2 > 0 && lineSize2 > 0
    requires forall c :: 0 <= c < |g.cores| ==> g.cores[c].l1 == FreshCache(sets, assoc, lineSize, name).value
    requires g.l2 == FreshCache(sets2, assoc2, lineSize2, name2).value
    ensures GpuConserved(g, seq(|g.cores|, _ => 0))
  {
    hide Conserved;
    FreshConserved(sets, assoc, lineSize, name);
    FreshConserved(sets2, assoc2, lineSize2, name2);
    SumZero(Misses(g.cores));
  }

  /** What conservation says of the L2: none of its lines is dirty. */
  lemma NoDirtyL2(g: GpuVal, writes: seq<nat>, i: nat, way: nat)
    requires GpuConserved(g, writes) && i < |g.l2.sets| && way < |g.l2.sets[i].lines|
    ensures !g.l2.sets[i].lines[way].dirty
  {
    SumPositive(DirtyCounts(g.l2.sets), i);
    SumPositive(DirtyBits(g.l2.sets[i].lines), way);
  }

  /** What it says of an L1: dirty evictions and dirty lines are no more than its writes. */
  lemma DirtyWithinWrites(g: GpuVal, writes: seq<nat>, c: nat)
    requires GpuConserved(g, writes) && c < |g.cores|
    ensures g.cores[c].l1.stats.dirtyEvictions + DirtyLines(g.cores[c].l1) <= writes[c]
    ensures g.cores[c].l1.stats.accesses == g.cores[c].l1.stats.hits + g.cores[c].l1.stats.misses
    ensures g.cores[c].l1.stats.misses == g.cores[c].l1.stats.evictions + ValidLines(g.cores[c].l1)
  {
    hide DirtyLines, ValidLines, Misses;
    assert Conserved(g.cores[c].l1, writes[c]);
  }

  lemma CoreConserves(k: Code, g: GpuVal, i: nat, writes: seq<nat>)
    requires GpuConserved(g, writes) && i < |g.cores| && TickCore(k, g, i).Ok?
    ensures var more := TickWrites(k, g.cores[i].sm, MemoryOf(g, g.cores[i]));
            GpuConserved(TickCore(k, g, i).value, writes[i := writes[i] + more])
  {
    hide Conserved, Tick, TickWrites, Sum;
    var c := g.cores[i];
    var m := MemoryOf(g, c);
    var misses := Misses(g.cores);
    SumPositive(misses, i);
    var others := Sum(misses) - misses[i];
    TickConserves(k, c.sm, m, writes[i], others);
    var t := Tick(k, c.sm, m).value;
    var g' := TickCore(k, g, i).value;
    SumUpdate(misses, i, t.mem.l1.stats.misses);
    assert Misses(g'.cores) == misses[i := t.mem.l1.stats.misses];
  }

  lemma {:induction false} TickAllConserves(k: Code, g: GpuVal, i: nat, writes: seq<nat>)
    requires GpuConserved(g, writes) && TickAll(k, g, i).Ok?
    ensures GpuConserved(TickAll(k, g, i).value, TickAllWrites(k, g, i, writes))
    decreases |g.cores| - i
  {
    hide GpuConserved, TickCore, TickWrites, IsCompleted;
    SameCount(g, writes);
    if i < |g.cores| {
      if IsCompleted(g.cores[i].sm.warps) {
        TickAllConserves(k, g, i + 1, writes);
      } else {
        CoreConserves(k, g, i, writes);
        var more := TickWrites(k, g.cores[i].sm, MemoryOf(g, g.cores[i]));
        TickAllConserves(k, TickCore(k, g, i).value, i + 1, writes[i := writes[i] + more]);
      }
    }
  }

  lemma SameCount(g: GpuVal, writes: seq<nat>)
    requires GpuConserved(g, writes)
    ensures |writes| == |g.cores|
  {
  }

  lemma {:induction false} RefillConserves(g: GpuVal, i: nat, writes: seq<nat>)
    requires GpuConserved(g, writes) && Refill(g, i).Ok?
    ensures GpuConserved(Refill(g, i).value, writes)
    decreases |g.cores| - i
  {
    hide Conserved, Sum, Admit, ReleaseCompleted;
    if i < |g.cores| {
      var g' := AdmitTo(g, i, ReleaseCompleted(g.cores[i].sm)).value;
      assert Misses(g'.cores) == Misses(g.cores);
      RefillConserves(g', i + 1, writes);
    }
  }

  /** In every run of every kernel the hierarchy conserves, each L1 with the number of writes the run made to it. */
  lemma {:induction false} RunConservesHierarchy(k: Code, g: GpuVal, n: nat, writes: seq<nat>)
    requires GpuConserved(g, writes) && RunToCompletion(k, g, n).Ok?
    ensures |writes| == |g.cores|
    ensures GpuConserved(RunToCompletion(k, g, n).value.gpu, RunWrites(k, g, n, writes))
    decreases n
  {
    hide GpuConserved, Refill, TickAll, TickAllWrites, AllCompleted;
    SameCount(g, writes);
    if n > 0 {
      RefillConserves(g, 0, writes);
      var g' := Refill(g, 0).value;
      SameCount(g', writes);
      TickAllConserves(k, g', 0, writes);
      if !AllCompleted(g') {
        RunConservesHierarchy(k, TickAll(k, g', 0).value, n - 1, TickAllWrites(k, g', 0, writes));
      }
    }
  }
}
