/** Exact dispatch: every block is admitted once, in grid order, and every resource returns. */
module Dispatch {
  import opened Common
  import opened Isa
  import opened WarpModel
  import opened MemoryModel
  import opened ExecutorModel
  import opened SchedulingModel
  import opened SmModel
  import opened Residency
  import opened GpuModel
  import Progress

  /** A block as a grid builder emits it, no larger than an empty SM. */
  ghost predicate GoodBlock(b: ThreadBlock, limits: Limits, needs: Needs) {
    && b.warps != []
    && (forall i :: 0 <= i < |b.warps| ==> Belongs(b.warps[i], b.id) && b.warps[i].state == Ready)
    && CanAdmit(NOTHING, b, limits, needs)
  }

  ghost predicate GoodGrid(grid: seq<ThreadBlock>, limits: Limits, needs: Needs) {
    && (forall j :: 0 <= j < |grid| ==> GoodBlock(grid[j], limits, needs))
    && (forall i, j :: 0 <= i < j < |grid| ==> grid[i].id != grid[j].id)
  }

  /** Resident block `r` is one of the first `next` blocks, and was placed on SM `c`. */
  predicate PlacedAt(r: ResidentBlock, c: nat, grid: seq<ThreadBlock>, next: nat, needs: Needs, placement: seq<nat>)
    requires next <= |grid| && |placement| == next
  {
    exists j :: 0 <= j < next && placement[j] == c && r == Footprint(grid[j], needs)
  }

  /** The residents of a core were all admitted to it. */
  ghost predicate PlacedCore(s: SmVal, c: nat, grid: seq<ThreadBlock>, next: nat, needs: Needs, placement: seq<nat>)
    requires next <= |grid| && |placement| == next
  {
    forall r :: r in s.resident ==> PlacedAt(r, c, grid, next, needs, placement)
  }

  ghost predicate GoodCore(g: GpuVal, c: nat)
    requires c < |g.cores| && g.next <= |g.pending| && |g.placement| == g.next
  {
    Accounted(g.cores[c].sm, g.limits) && PlacedCore(g.cores[c].sm, c, g.pending, g.next, g.needs, g.placement)
  }

  /** The invariant of dispatch: one placement per admitted block, and every SM accounts for its own. */
  ghost predicate Dispatched(g: GpuVal) {
    && g.next <= |g.pending| && |g.placement| == g.next
    && GoodGrid(g.pending, g.limits, g.needs)
    && (forall j :: 0 <= j < g.next ==> g.placement[j] < |g.cores|)
    && forall c :: 0 <= c < |g.cores| ==> GoodCore(g, c)
  }

  /** The core holds nothing. */
  predicate EmptyCore(s: SmVal) { s.warps == [] && s.resident == [] && s.usage == NOTHING }

  /** Admission from `s`: what was added, why it stopped, and that it did not throw. */
  lemma {:induction false} AdmitFacts(s: SmVal, c: nat, grid: seq<ThreadBlock>, next: nat, limits: Limits, needs: Needs,
                                      placement: seq<nat>)
    requires next <= |grid| && |placement| == next && GoodGrid(grid, limits, needs)
    requires Accounted(s, limits) && PlacedCore(s, c, grid, next, needs, placement)
    ensures var r := Admit(s, grid, next, limits, needs);
            && r.Ok? && Accounted(r.value.sm, limits)
            && PlacedCore(r.value.sm, c, grid, r.value.next, needs, placement + seq(r.value.next - next, _ => c))
            && (r.value.next == next ==> r.value.sm == s)
            && (r.value.next > next ==> !IsCompleted(r.value.sm.warps))
            && (EmptyCore(r.value.sm) ==> r.value.next == |grid|)
    decreases |grid| - next
  {
    hide GoodGrid, Accounted, CanAdmit;
    if next < |grid| {
      if CanAdmit(s.usage, grid[next], limits, needs) {
        AdmitOne(s, c, grid, next, limits, needs, placement);
        var s1 := AllocateBlock(s, grid[next], needs);
        AdmitFacts(s1, c, grid, next + 1, limits, needs, placement + [c]);
        var r := Admit(s1, grid, next + 1, limits, needs).value;
        assert placement + [c] + seq(r.next - (next + 1), _ => c) == placement + seq(r.next - next, _ => c);
      } else {
        NotEmptyWhenFull(s, grid, next, limits, needs);
        assert placement + seq(0, _ => c) == placement;
      }
    } else {
      assert placement + seq(0, _ => c) == placement;
    }
  }

  lemma AdmitOne(s: SmVal, c: nat, grid: seq<ThreadBlock>, next: nat, limits: Limits, needs: Needs, placement: seq<nat>)
    requires next < |grid| && |placement| == next && GoodGrid(grid, limits, needs)
    requires Accounted(s, limits) && PlacedCore(s, c, grid, next, needs, placement)
    requires CanAdmit(s.usage, grid[next], limits, needs)
    ensures var s1 := AllocateBlock(s, grid[next], needs);
            && Accounted(s1, limits) && PlacedCore(s1, c, grid, next + 1, needs, placement + [c])
            && !IsCompleted(s1.warps)
  {
    var b := grid[next];
    var s1 := AllocateBlock(s, b, needs);
    var placement' := placement + [c];
    assert GoodBlock(b, limits, needs);
    forall i | 0 <= i < |s.resident|
      ensures s.resident[i].blockId != b.id
    {
      assert PlacedAt(s.resident[i], c, grid, next, needs, placement);
    }
    AllocateAccounted(s, limits, b, needs);
    assert s1.warps[|s.warps|] == b.warps[0];
    forall r | r in s1.resident
      ensures PlacedAt(r, c, grid, next + 1, needs, placement')
    {
      if r in s.resident {
        assert PlacedAt(r, c, grid, next, needs, placement);
        var j :| 0 <= j < next && placement[j] == c && r == Footprint(grid[j], needs);
        assert placement'[j] == c;
      } else {
        assert r == Footprint(grid[next], needs) && placement'[next] == c;
      }
    }
  }

  /** A block refused by an SM finds it occupied, so dispatch never reports an impossible block. */
  lemma NotEmptyWhenFull(s: SmVal, grid: seq<ThreadBlock>, next: nat, limits: Limits, needs: Needs)
    requires next < |grid| && GoodGrid(grid, limits, needs) && Accounted(s, limits)
    requires !CanAdmit(s.usage, grid[next], limits, needs)
    ensures s.usage.blocks != 0 && !EmptyCore(s)
  {
    TotalBlocks(s.resident);
    assert GoodBlock(grid[next], limits, needs);
  }

  lemma MorePlaced(r: ResidentBlock, c: nat, grid: seq<ThreadBlock>, next: nat, next': nat, needs: Needs,
                   placement: seq<nat>, placement': seq<nat>)
    requires next <= next' <= |grid| && |placement| == next && |placement'| == next' && placement <= placement'
    requires PlacedAt(r, c, grid, next, needs, placement)
    ensures PlacedAt(r, c, grid, next', needs, placement')
  {
    var j :| 0 <= j < next && placement[j] == c && r == Footprint(grid[j], needs);
    assert placement'[j] == c;
  }

  /** Dispatching to one SM, given what it holds beforehand. */
  lemma AdmitToFacts(g: GpuVal, i: nat, s: SmVal)
    requires Dispatched(g) && i < |g.cores|
    requires Accounted(s, g.limits) && PlacedCore(s, i, g.pending, g.next, g.needs, g.placement)
    ensures AdmitTo(g, i, s).Ok?
    ensures var g' := AdmitTo(g, i, s).value;
            && Dispatched(g') && |g'.cores| == |g.cores| && g'.pending == g.pending && g'.next >= g.next
            && (forall c :: 0 <= c < |g.cores| && c != i ==> g'.cores[c] == g.cores[c])
            && (g'.next == g.next ==> g'.cores[i].sm == s)
            && (g'.next > g.next ==> !IsCompleted(g'.cores[i].sm.warps))
            && (EmptyCore(g'.cores[i].sm) ==> g'.next == |g'.pending|)
  {
    hide GoodGrid, Accounted, Admit, IsCompleted;
    AdmitFacts(s, i, g.pending, g.next, g.limits, g.needs, g.placement);
    var g' := AdmitTo(g, i, s).value;
    forall c | 0 <= c < |g.cores|
      ensures GoodCore(g', c)
    {
      if c != i {
        assert GoodCore(g, c);
        forall r | r in g'.cores[c].sm.resident
          ensures PlacedAt(r, c, g'.pending, g'.next, g'.needs, g'.placement)
        {
          MorePlaced(r, c, g.pending, g.next, g'.next, g.needs, g.placement, g'.placement);
        }
      }
    }
  }

  /** The initial dispatch of a good grid succeeds. */
  lemma {:induction false} DispatchFacts(g: GpuVal, i: nat)
    requires i <= |g.cores| && g.next <= |g.pending| && |g.placement| == g.next &&
             GoodGrid(g.pending, g.limits, g.needs)
    requires forall j :: 0 <= j < g.next ==> g.placement[j] < i
    requires forall c :: 0 <= c < i ==> GoodCore(g, c)
    ensures DispatchFrom(g, i).Ok? && Dispatched(DispatchFrom(g, i).value)
    ensures DispatchFrom(g, i).value.pending == g.pending
    decreases |g.cores| - i
  {
    hide GoodGrid, Accounted;
    if i < |g.cores| {
      var s := ClearWarps(g.cores[i].sm);
      ClearedAccounted(g.cores[i].sm, g.limits);
      AdmitFacts(s, i, g.pending, g.next, g.limits, g.needs, g.placement);
      var g' := AdmitTo(g, i, s).value;
      forall c | 0 <= c < i + 1
        ensures GoodCore(g', c)
      {
        if c != i {
          assert GoodCore(g, c);
          forall r | r in g'.cores[c].sm.resident
            ensures PlacedAt(r, c, g'.pending, g'.next, g'.needs, g'.placement)
          {
            MorePlaced(r, c, g.pending, g.next, g'.next, g.needs, g.placement, g'.placement);
          }
        }
      }
      DispatchFacts(g', i + 1);
    }
  }

  lemma ClearedAccounted(s: SmVal, limits: Limits)
    ensures Accounted(ClearWarps(s), limits)
  {
  }

  /** Launching a good grid succeeds and establishes the invariant. */
  lemma LaunchFacts(g: GpuVal, grid: seq<ThreadBlock>, limits: Limits, needs: Needs)
    requires GoodGrid(grid, limits, needs)
    ensures Launch(g, grid, limits, needs).Ok? && Dispatched(Launch(g, grid, limits, needs).value)
    ensures Launch(g, grid, limits, needs).value.pending == grid
  {
    DispatchFacts(g.(pending := grid, next := 0, limits := limits, needs := needs, placement := []), 0);
  }

  /** Refilling never throws; a core that is completed afterwards is empty, and nothing is pending any more. */
  lemma {:induction false} RefillFacts(g: GpuVal, i: nat)
    requires Dispatched(g) && i <= |g.cores|
    ensures Refill(g, i).Ok?
    ensures var g' := Refill(g, i).value;
            && Dispatched(g') && g'.pending == g.pending && g'.next >= g.next
            && (forall c :: 0 <= c < i ==> g'.cores[c] == g.cores[c])
            && (forall c :: i <= c < |g.cores| && IsCompleted(g'.cores[c].sm.warps) ==>
                  EmptyCore(g'.cores[c].sm) && g'.next == |g'.pending|)
    decreases |g.cores| - i
  {
    hide Dispatched, IsCompleted, EmptyCore, ReleaseCompleted;
    if i < |g.cores| {
      var g' := RefillOne(g, i);
      RefillFacts(g', i + 1);
      NextWithin(g');
      NextWithin(Refill(g', i + 1).value);
    }
  }

  lemma NextWithin(g: GpuVal)
    requires Dispatched(g)
    ensures g.next <= |g.pending|
  {
  }

  lemma RefillOne(g: GpuVal, i: nat) returns (g': GpuVal)
    requires Dispatched(g) && i < |g.cores|
    ensures AdmitTo(g, i, ReleaseCompleted(g.cores[i].sm)) == Ok(g')
    ensures Dispatched(g') && |g'.cores| == |g.cores| && g'.pending == g.pending && g'.next >= g.next
    ensures forall c :: 0 <= c < |g.cores| && c != i ==> g'.cores[c] == g.cores[c]
    ensures IsCompleted(g'.cores[i].sm.warps) ==> EmptyCore(g'.cores[i].sm) && g'.next == |g'.pending|
  {
    hide GoodGrid, Accounted, Admit, IsCompleted;
    var s := g.cores[i].sm;
    assert GoodCore(g, i);
    NoneBefore(s);
    ReleaseAccounted(s, g.limits, 0);
    var s' := ReleaseCompleted(s);
    AdmitToFacts(g, i, s');
    g' := AdmitTo(g, i, s').value;
    if IsCompleted(g'.cores[i].sm.warps) {
      AllReturned(s, g.limits);
    }
  }

  lemma NoneBefore(s: SmVal)
    ensures NoneCompleted(s, 0)
  {
  }

  lemma ExecuteThrows(inst: Instruction, w: WarpVal, m: MemVal)
    requires Execute(inst, w, m).Throw?
    ensures Execute(inst, w, m).error != ImpossibleBlock
  {
    if inst.opcode !in {BRANCH, SSY, SYNC, BARRIER} {
      Progress.DataThrows(inst, w, m);
    }
  }

  lemma TickThrows(k: Code, s: SmVal, m: MemVal)
    requires Tick(k, s, m).Throw?
    ensures Tick(k, s, m).error != ImpossibleBlock
  {
    hide Execute, Select, TickStalls;
    var warps := TickStalls(s.warps, s.cycles);
    var i := Select(s.sched, warps).warp.value;
    if Execute(k[warps[i].pc], warps[i], m).Throw? {
      ExecuteThrows(k[warps[i].pc], warps[i], m);
    }
  }

  /** Ticking keeps the invariant and can never report an impossible block. */
  lemma {:induction false} TickAllFacts(k: Code, g: GpuVal, i: nat)
    requires Dispatched(g)
    ensures var r := TickAll(k, g, i);
            if r.Throw? then r.error != ImpossibleBlock
            else
              && Dispatched(r.value) && r.value.pending == g.pending && r.value.next == g.next
              && r.value.placement == g.placement
    decreases |g.cores| - i
  {
    hide Dispatched, IsCompleted, Tick;
    if i < |g.cores| {
      if IsCompleted(g.cores[i].sm.warps) {
        TickAllFacts(k, g, i + 1);
      } else {
        var m := MemoryOf(g, g.cores[i]);
        if Tick(k, g.cores[i].sm, m).Throw? {
          TickThrows(k, g.cores[i].sm, m);
        } else {
          TickCoreFacts(k, g, i);
          TickAllFacts(k, TickCore(k, g, i).value, i + 1);
        }
      }
    }
  }

  lemma TickCoreFacts(k: Code, g: GpuVal, i: nat)
    requires Dispatched(g) && i < |g.cores| && TickCore(k, g, i).Ok?
    ensures Dispatched(TickCore(k, g, i).value)
  {
    hide GoodGrid, Accounted, Tick;
    var g' := TickCore(k, g, i).value;
    assert GoodCore(g, i);
    TickAccounted(k, g.cores[i].sm, MemoryOf(g, g.cores[i]), g.limits);
    forall c | 0 <= c < |g.cores|
      ensures GoodCore(g', c)
    {
      assert GoodCore(g, c);
    }
  }

  lemma TickAllIdle(k: Code, g: GpuVal, i: nat)
    requires AllCompleted(g)
    ensures TickAll(k, g, i) == Ok(g)
    decreases |g.cores| - i
  {
    hide IsCompleted;
    if i < |g.cores| {
      TickAllIdle(k, g, i + 1);
    }
  }

  /** The whole grid was placed and every SM is empty again. */
  predicate AllDispatchedAndReturned(g: GpuVal) {
    g.next == |g.pending| == |g.placement| && forall c :: 0 <= c < |g.cores| ==> EmptyCore(g.cores[c].sm)
  }

  /** One iteration, for any kernel: the invariant is kept, and a last iteration leaves nothing behind. */
  lemma IterateFacts(k: Code, g: GpuVal)
    requires Dispatched(g) && |g.cores| > 0
    ensures var r := Iterate(k, g);
            if r.Throw? then r.error != ImpossibleBlock
            else
              && Dispatched(r.value.gpu) && r.value.gpu.pending == g.pending && |r.value.gpu.cores| == |g.cores|
              && (r.value.done ==> AllDispatchedAndReturned(r.value.gpu))
  {
    hide IsCompleted, EmptyCore;
    RefillFacts(g, 0);
    var g' := Refill(g, 0).value;
    TickAllFacts(k, g', 0);
    if AllCompleted(g') {
      TickAllIdle(k, g', 0);
      assert IsCompleted(g'.cores[0].sm.warps);
      PlacementLength(g');
    }
  }

  lemma PlacementLength(g: GpuVal)
    requires Dispatched(g)
    ensures |g.placement| == g.next
  {
  }

  /** Running any kernel never reports an impossible block, keeps the account after every iteration, and
      returns only when every block has been placed and every resource is free. */
  lemma {:induction false} RunDispatchesExactly(k: Code, g: GpuVal, n: nat)
    requires Dispatched(g) && |g.cores| > 0
    ensures var r := RunToCompletion(k, g, n);
            if r.Throw? then r.error != ImpossibleBlock
            else
              && Dispatched(r.value.gpu) && r.value.gpu.pending == g.pending
              && (r.value.done ==> AllDispatchedAndReturned(r.value.gpu))
    decreases n
  {
    hide Dispatched, AllDispatchedAndReturned, Iterate;
    if n > 0 {
      IterateFacts(k, g);
      if Iterate(k, g).Ok? && !Iterate(k, g).value.done {
        RunDispatchesExactly(k, Iterate(k, g).value.gpu, n - 1);
      }
    }
  }
}
