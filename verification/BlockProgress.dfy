/** Deadlock freedom of structured kernels block by block, over whole runs of an SM and of a GPU. */
module BlockProgress {
  import opened Isa
  import opened WarpModel
  import opened MemoryModel
  import opened SmModel
  import opened SmRefinement
  import opened Barriers
  import opened Structured
  import opened Progress
  import opened Deadlock
  import opened GpuModel
  import opened Dispatch
  import opened GpuTermination
  import Departures

  /** Every unfinished warp has a ready or stalled warp in its own block. */
  ghost predicate BlocksAwake(warps: seq<WarpVal>) {
    forall i :: 0 <= i < |warps| && warps[i].state != Completed ==> MateAwake(warps, i)
  }

  predicate MateAwake(warps: seq<WarpVal>, i: nat)
    requires i < |warps|
  {
    exists j :: 0 <= j < |warps| && SameBlock(warps[i], warps[j]) && Awake(warps[j])
  }

  lemma LivelyAwake(k: Code, warps: seq<WarpVal>)
    requires Lively(k, warps)
    ensures BlocksAwake(warps)
  {
    hide Lively;
    forall i | 0 <= i < |warps| && warps[i].state != Completed
      ensures MateAwake(warps, i)
    {
      NeverDeadlocked(k, warps, i);
    }
  }

  lemma AwakeNotStuck(warps: seq<WarpVal>, id: nat)
    requires BlocksAwake(warps)
    ensures !BlockStuck(warps, id)
  {
  }

  /** In every state an SM reaches with a structured kernel, every unfinished warp has a ready or stalled warp in its
      block, and no block is stranded at a barrier. */
  lemma {:induction false} RunsAwake(k: Code, s: SmVal, m: MemVal, n: nat, id: nat)
    requires WellStructured(k) && Lively(k, s.warps) && Ticks(k, s, m, n).Ok?
    ensures var warps := Ticks(k, s, m, n).value.sm.warps;
            Lively(k, warps) && BlocksAwake(warps) && !BlockStuck(warps, id)
  {
    hide WellStructured, Lively, BlocksAwake, BlockStuck, Tick;
    if n > 0 {
      RunsAwake(k, s, m, n - 1, id);
      var t := Ticks(k, s, m, n - 1).value;
      TickLively(k, t.sm, t.mem);
    }
    var warps := Ticks(k, s, m, n).value.sm.warps;
    LivelyAwake(k, warps);
    AwakeNotStuck(warps, id);
  }

  /** The same on every SM of a GPU, after any number of iterations of a launched grid. */
  lemma {:induction false} GpuRunsAwake(k: Code, g: GpuVal, n: nat, c: nat, id: nat)
    requires WellStructured(k) && GpuLively(k, g) && RunToCompletion(k, g, n).Ok?
    ensures var g' := RunToCompletion(k, g, n).value.gpu;
            && GpuLively(k, g')
            && (c < |g'.cores| ==> BlocksAwake(g'.cores[c].sm.warps) && !BlockStuck(g'.cores[c].sm.warps, id))
    decreases n
  {
    hide WellStructured, GpuLively, BlocksAwake, BlockStuck, Iterate;
    if n > 0 {
      IterateLive(k, g);
      var it := Iterate(k, g).value;
      if it.done {
        GpuAwake(k, it.gpu, c, id);
      } else {
        GpuRunsAwake(k, it.gpu, n - 1, c, id);
      }
    } else {
      GpuAwake(k, g, c, id);
    }
  }

  lemma GpuAwake(k: Code, g: GpuVal, c: nat, id: nat)
    requires GpuLively(k, g)
    ensures c < |g.cores| ==> BlocksAwake(g.cores[c].sm.warps) && !BlockStuck(g.cores[c].sm.warps, id)
  {
    hide Lively, Dispatched, StartingGrid, BlocksAwake, BlockStuck;
    if c < |g.cores| {
      assert LiveCore(k, g.cores[c].sm);
      LivelyAwake(k, g.cores[c].sm.warps);
      AwakeNotStuck(g.cores[c].sm.warps, id);
    }
  }

  /** So no issue of a structured kernel meets the condition under which a block is stranded. */
  lemma NeverStrands(k: Code, warps: seq<WarpVal>, i: nat, m: MemVal, cycle: nat, id: nat)
    requires WellStructured(k) && Lively(k, warps) && i < |warps| && warps[i].state == Ready
    requires Issue(k, warps, i, m, cycle).Ok?
    ensures !(Departures.Retires(k, warps[i]) && LastAwake(warps, i, id))
  {
    hide WellStructured, Lively, BlocksAwake, BlockStuck, Issue, Departures.Retires, LastAwake;
    IssueLively(k, warps, i, m, cycle);
    LivelyAwake(k, warps);
    AwakeNotStuck(warps, id);
    var after := Issue(k, warps, i, m, cycle).value.warps;
    LivelyAwake(k, after);
    AwakeNotStuck(after, id);
    LivelyThreads(k, warps, i);
    StrandsIff(k, warps, i, m, cycle, id);
  }

  lemma LivelyThreads(k: Code, warps: seq<WarpVal>, i: nat)
    requires Lively(k, warps) && i < |warps|
    ensures warps[i].threads != []
  {
    hide GoodWarp, Rooted, Paced;
    assert PacedWarp(k, warps[i]);
    PaceBound(k, warps[i]);
  }
}
