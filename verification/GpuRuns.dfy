/** Lockstep barriers and laminar masks on a whole GPU, in every run of every kernel, well formed or not. */
module GpuRuns {
  import opened Common
  import opened Isa
  import opened WarpModel
  import opened SmModel
  import opened SimtStack
  import opened StackRuns
  import opened Barriers
  import opened Residency
  import opened GpuModel
  import opened Dispatch

  /** A warp that has met no barrier yet, all of whose lanes are accounted for. */
  ghost predicate Unstarted(w: WarpVal) {
    Laminar(w) && Chained(w) && w.state == Ready && w.arrivals == 0 && w.releases == 0
  }

  ghost predicate UnstartedGrid(grid: seq<ThreadBlock>) {
    forall j, i :: 0 <= j < |grid| && 0 <= i < |grid[j].warps| ==> Unstarted(grid[j].warps[i])
  }

  /** The blocks' warps are in lockstep, and each warp's masks and reconvergence PC are in order. */
  ghost predicate OrderlyWarps(warps: seq<WarpVal>) { Lockstep(warps) && Stacked(warps) }

  ghost predicate Orderly(g: GpuVal) {
    && Dispatched(g) && UnstartedGrid(g.pending)
    && forall c :: 0 <= c < |g.cores| ==> OrderlyWarps(g.cores[c].sm.warps)
  }

  lemma FreshUnstarted(id: nat, threads: seq<Thread>, priority: int)
    requires threads != []
    ensures Unstarted(FreshWarp(id, threads, priority))
  {
    FreshInvariants(id, threads, priority);
  }

  lemma AppendOrderly(warps: seq<WarpVal>, more: seq<WarpVal>, id: nat)
    requires OrderlyWarps(warps)
    requires forall i :: 0 <= i < |warps| ==> !Belongs(warps[i], id)
    requires forall i :: 0 <= i < |more| ==> Belongs(more[i], id) && Unstarted(more[i])
    ensures OrderlyWarps(warps + more)
  {
    hide Laminar, Chained;
    var all := warps + more;
    forall i, j | 0 <= i < |all| && 0 <= j < |all| && SameBlock(all[i], all[j])
      ensures all[i].releases == all[j].releases
    {
      assert i < |warps| <==> j < |warps|;
      if i < |warps| {
        assert SameBlock(warps[i], warps[j]);
      }
    }
  }

  lemma WithoutOrderly(warps: seq<WarpVal>, id: nat)
    requires OrderlyWarps(warps)
    ensures OrderlyWarps(WithoutBlock(warps, id))
  {
    hide Laminar, Chained;
    var left := WithoutBlock(warps, id);
    WithoutMembers(warps, id);
    forall i | 0 <= i < |left|
      ensures Counted(left[i]) && Laminar(left[i]) && Chained(left[i])
    {
      assert left[i] in warps;
    }
    forall i, j | 0 <= i < |left| && 0 <= j < |left| && SameBlock(left[i], left[j])
      ensures left[i].releases == left[j].releases
    {
      assert left[i] in warps && left[j] in warps;
    }
  }

  lemma {:induction false} ReleaseOrderly(s: SmVal, i: nat)
    requires i <= |s.resident| && OrderlyWarps(s.warps)
    ensures OrderlyWarps(ReleaseFrom(s, i).warps)
    decreases |s.resident| - i
  {
    hide OrderlyWarps, BlockCompleted;
    if i < |s.resident| {
      if BlockCompleted(s.warps, s.resident[i].blockId) {
        WithoutOrderly(s.warps, s.resident[i].blockId);
        ReleaseOrderly(ReleaseOne(s, i), i);
      } else {
        ReleaseOrderly(s, i + 1);
      }
    }
  }

  lemma AllocateOrderly(s: SmVal, limits: Limits, b: ThreadBlock, needs: Needs)
    requires OrderlyWarps(s.warps) && Accounted(s, limits)
    requires forall i :: 0 <= i < |s.resident| ==> s.resident[i].blockId != b.id
    requires forall i :: 0 <= i < |b.warps| ==> Belongs(b.warps[i], b.id) && Unstarted(b.warps[i])
    ensures OrderlyWarps(AllocateBlock(s, b, needs).warps)
  {
    hide OrderlyWarps, Unstarted;
    forall i | 0 <= i < |s.warps|
      ensures !Belongs(s.warps[i], b.id)
    {
      assert IsResident(s.resident, s.warps[i]);
    }
    AppendOrderly(s.warps, b.warps, b.id);
  }

  lemma {:induction false} AdmitOrderly(s: SmVal, c: nat, grid: seq<ThreadBlock>, next: nat, limits: Limits,
                                        needs: Needs,
                                        placement: seq<nat>)
    requires next <= |grid| && |placement| == next && GoodGrid(grid, limits, needs) && UnstartedGrid(grid)
    requires Accounted(s, limits) && PlacedCore(s, c, grid, next, needs, placement) && OrderlyWarps(s.warps)
    ensures Admit(s, grid, next, limits, needs).Ok? ==> OrderlyWarps(Admit(s, grid, next, limits, needs).value.sm.warps)
    decreases |grid| - next
  {
    hide OrderlyWarps, CanAdmit, Unstarted;
    if next < |grid| && CanAdmit(s.usage, grid[next], limits, needs) {
      AdmitOne(s, c, grid, next, limits, needs, placement);
      forall i | 0 <= i < |s.resident|
        ensures s.resident[i].blockId != grid[next].id
      {
        assert PlacedAt(s.resident[i], c, grid, next, needs, placement);
      }
      assert GoodBlock(grid[next], limits, needs);
      AllocateOrderly(s, limits, grid[next], needs);
      AdmitOrderly(AllocateBlock(s, grid[next], needs), c, grid, next + 1, limits, needs, placement + [c]);
    }
  }

  lemma RefillOneOrderly(g: GpuVal, i: nat) returns (g': GpuVal)
    requires Orderly(g) && i < |g.cores|
    ensures AdmitTo(g, i, ReleaseCompleted(g.cores[i].sm)) == Ok(g')
    ensures Orderly(g') && |g'.cores| == |g.cores| && g'.pending == g.pending
  {
    hide OrderlyWarps, Accounted, GoodGrid, UnstartedGrid, Admit;
    var s := g.cores[i].sm;
    assert GoodCore(g, i);
    NoneBefore(s);
    ReleaseAccounted(s, g.limits, 0);
    ReleaseOrderly(s, 0);
    var s' := ReleaseCompleted(s);
    AdmitToFacts(g, i, s');
    AdmitOrderly(s', i, g.pending, g.next, g.limits, g.needs, g.placement);
    g' := AdmitTo(g, i, s').value;
  }

  lemma {:induction false} RefillOrderly(g: GpuVal, i: nat)
    requires Orderly(g) && i <= |g.cores|
    ensures Refill(g, i).Ok? && Orderly(Refill(g, i).value)
    decreases |g.cores| - i
  {
    hide Orderly, AdmitTo, ReleaseCompleted;
    if i < |g.cores| {
      var g1 := RefillOneOrderly(g, i);
      RefillOrderly(g1, i + 1);
    }
  }

  lemma TickCoreOrderly(k: Code, g: GpuVal, i: nat)
    requires Orderly(g) && i < |g.cores| && TickCore(k, g, i).Ok?
    ensures Orderly(TickCore(k, g, i).value)
  {
    hide Dispatched, UnstartedGrid, Lockstep, Stacked, Tick;
    var s, m := g.cores[i].sm, MemoryOf(g, g.cores[i]);
    assert OrderlyWarps(s.warps);
    TickLockstep(k, s, m);
    TickStacked(k, s, m);
    TickCoreFacts(k, g, i);
  }

  lemma {:induction false} TickAllOrderly(k: Code, g: GpuVal, i: nat)
    requires Orderly(g) && TickAll(k, g, i).Ok?
    ensures Orderly(TickAll(k, g, i).value)
    decreases |g.cores| - i
  {
    hide Orderly, TickCore, IsCompleted;
    if i < |g.cores| {
      if IsCompleted(g.cores[i].sm.warps) {
        TickAllOrderly(k, g, i + 1);
      } else {
        TickCoreOrderly(k, g, i);
        TickAllOrderly(k, TickCore(k, g, i).value, i + 1);
      }
    }
  }

  /** Launching a grid of unstarted warps. */
  lemma {:induction false} DispatchOrderly(g: GpuVal, i: nat)
    requires i <= |g.cores| && g.next <= |g.pending| && |g.placement| == g.next &&
             GoodGrid(g.pending, g.limits, g.needs)
    requires UnstartedGrid(g.pending)
    requires forall c :: 0 <= c < i ==> OrderlyWarps(g.cores[c].sm.warps)
    ensures var r := DispatchFrom(g, i);
            r.Ok? ==> forall c :: 0 <= c < |g.cores| ==> OrderlyWarps(r.value.cores[c].sm.warps)
    decreases |g.cores| - i
  {
    hide GoodGrid, Accounted, UnstartedGrid, CanAdmit, Admit, OrderlyWarps;
    if i < |g.cores| {
      var s := ClearWarps(g.cores[i].sm);
      ClearedAccounted(g.cores[i].sm, g.limits);
      ClearedOrderly();
      AdmitFacts(s, i, g.pending, g.next, g.limits, g.needs, g.placement);
      AdmitOrderly(s, i, g.pending, g.next, g.limits, g.needs, g.placement);
      DispatchOrderly(AdmitTo(g, i, s).value, i + 1);
    }
  }

  lemma ClearedOrderly()
    ensures OrderlyWarps([])
  {
  }

  lemma LaunchOrderly(g: GpuVal, grid: seq<ThreadBlock>, limits: Limits, needs: Needs)
    requires GoodGrid(grid, limits, needs) && UnstartedGrid(grid)
    ensures Launch(g, grid, limits, needs).Ok? && Orderly(Launch(g, grid, limits, needs).value)
  {
    hide Dispatched, OrderlyWarps;
    LaunchFacts(g, grid, limits, needs);
    DispatchOrderly(g.(pending := grid, next := 0, limits := limits, needs := needs, placement := []), 0);
    assert |Launch(g, grid, limits, needs).value.cores| == |g.cores|;
  }

  /** After any number of iterations, under any kernel and any schedulers, the warps of every resident block are in
      lockstep and every warp's masks are laminar and its reconvergence PCs chained. */
  lemma {:induction false} RunsOrderly(k: Code, g: GpuVal, n: nat)
    requires Orderly(g) && RunToCompletion(k, g, n).Ok?
    ensures Orderly(RunToCompletion(k, g, n).value.gpu)
    decreases n
  {
    hide Orderly, Refill, TickAll, AllCompleted;
    if n > 0 {
      RefillOrderly(g, 0);
      TickAllOrderly(k, Refill(g, 0).value, 0);
      var it := Iterate(k, g).value;
      if !it.done { RunsOrderly(k, it.gpu, n - 1); }
    }
  }

  /** Every warp is as its constructor and `add_thread` leave it. */
  ghost predicate FreshGrid(grid: seq<ThreadBlock>) {
    forall j, i :: 0 <= j < |grid| && 0 <= i < |grid[j].warps| ==>
      var w := grid[j].warps[i];
      w.threads != [] && w == FreshWarp(w.id, w.threads, w.priority)
  }

  /** A grid of fresh warps of any kernel runs in order, from its launch on. */
  lemma FreshRunsOrderly(k: Code, g: GpuVal, grid: seq<ThreadBlock>, limits: Limits, needs: Needs, n: nat)
    requires GoodGrid(grid, limits, needs) && FreshGrid(grid)
    ensures Launch(g, grid, limits, needs).Ok?
    ensures var run := RunToCompletion(k, Launch(g, grid, limits, needs).value, n);
            run.Ok? ==> Orderly(run.value.gpu)
  {
    hide GoodGrid, Orderly, Unstarted, RunToCompletion;
    forall j, i | 0 <= j < |grid| && 0 <= i < |grid[j].warps|
      ensures Unstarted(grid[j].warps[i])
    {
      var w := grid[j].warps[i];
      FreshUnstarted(w.id, w.threads, w.priority);
    }
    LaunchOrderly(g, grid, limits, needs);
    if RunToCompletion(k, Launch(g, grid, limits, needs).value, n).Ok? {
      RunsOrderly(k, Launch(g, grid, limits, needs).value, n);
    }
  }
}
