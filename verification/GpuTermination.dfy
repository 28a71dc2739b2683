/** A whole GPU running a structured kernel finishes its grid. */
module GpuTermination {
  import opened Common
  import opened Isa
  import opened Sequences
  import opened WarpModel
  import opened SchedulingModel
  import opened SmModel
  import opened Barriers
  import opened Structured
  import opened Progress
  import opened Termination
  import opened Residency
  import opened GpuModel
  import opened Dispatch

  /** A warp that has not started and that every work-conserving scheduler will serve. */
  ghost predicate StartingWarp(k: Code, w: WarpVal) {
    PacedWarp(k, w) && w.state == Ready && w.arrivals == 0 && w.releases == 0 && w.priority > LOWEST_PRIORITY
  }

  ghost predicate StartingGrid(k: Code, grid: seq<ThreadBlock>) {
    forall j, i :: 0 <= j < |grid| && 0 <= i < |grid[j].warps| ==> StartingWarp(k, grid[j].warps[i])
  }

  ghost predicate LiveCore(k: Code, s: SmVal) { Lively(k, s.warps) && LiveSched(s.sched, s.warps) }

  /** The invariant of a GPU that is certain to finish. */
  ghost predicate GpuLively(k: Code, g: GpuVal) {
    && Dispatched(g) && |g.cores| > 0 && StartingGrid(k, g.pending)
    && forall c :: 0 <= c < |g.cores| ==> LiveCore(k, g.cores[c].sm)
  }

  // ---------------------------------------------------------------------------------------------
  // Admission and release keep every SM lively

  lemma AppendLively(k: Code, warps: seq<WarpVal>, more: seq<WarpVal>, id: nat)
    requires Lively(k, warps)
    requires forall i :: 0 <= i < |warps| ==> !Belongs(warps[i], id)
    requires forall i :: 0 <= i < |more| ==> Belongs(more[i], id) && StartingWarp(k, more[i])
    ensures Lively(k, warps + more)
  {
    hide PacedWarp;
    var all := warps + more;
    assert PacedWarps(k, all);
    forall i, j | 0 <= i < |all| && 0 <= j < |all| && SameBlock(all[i], all[j])
      ensures all[i].releases == all[j].releases
    {
      assert i < |warps| <==> j < |warps|;
      if i < |warps| {
        assert SameBlock(warps[i], warps[j]);
      }
    }
    forall i | 0 <= i < |all| && all[i].state == StalledAtBarrier
      ensures MissingFor(all, i)
    {
      assert MissingFor(warps, i);
      var j :| 0 <= j < |warps| && SameBlock(warps[i], warps[j]) && warps[j].state != StalledAtBarrier;
      assert all[j] == warps[j];
    }
  }

  lemma AllocateLive(k: Code, s: SmVal, limits: Limits, b: ThreadBlock, needs: Needs)
    requires LiveCore(k, s) && Accounted(s, limits)
    requires forall i :: 0 <= i < |s.resident| ==> s.resident[i].blockId != b.id
    requires forall i :: 0 <= i < |b.warps| ==> Belongs(b.warps[i], b.id) && StartingWarp(k, b.warps[i])
    ensures LiveCore(k, AllocateBlock(s, b, needs))
  {
    hide Lively, StartingWarp;
    forall i | 0 <= i < |s.warps|
      ensures !Belongs(s.warps[i], b.id)
    {
      assert IsResident(s.resident, s.warps[i]);
    }
    AppendLively(k, s.warps, b.warps, b.id);
    AppendLiveSched(k, s.sched, s.warps, b.warps);
  }

  lemma AppendLiveSched(k: Code, sched: SchedVal, warps: seq<WarpVal>, more: seq<WarpVal>)
    requires LiveSched(sched, warps) && forall i :: 0 <= i < |more| ==> StartingWarp(k, more[i])
    ensures LiveSched(sched, warps + more)
  {
  }

  lemma {:induction false} AdmitLive(k: Code, s: SmVal, c: nat, grid: seq<ThreadBlock>, next: nat, limits: Limits,
                                     needs: Needs,
                                     placement: seq<nat>)
    requires next <= |grid| && |placement| == next && GoodGrid(grid, limits, needs) && StartingGrid(k, grid)
    requires Accounted(s, limits) && PlacedCore(s, c, grid, next, needs, placement) && LiveCore(k, s)
    ensures Admit(s, grid, next, limits, needs).Ok? ==> LiveCore(k, Admit(s, grid, next, limits, needs).value.sm)
    decreases |grid| - next
  {
    hide LiveCore, CanAdmit, StartingWarp;
    if next < |grid| && CanAdmit(s.usage, grid[next], limits, needs) {
      AdmitOne(s, c, grid, next, limits, needs, placement);
      forall i | 0 <= i < |s.resident|
        ensures s.resident[i].blockId != grid[next].id
      {
        assert PlacedAt(s.resident[i], c, grid, next, needs, placement);
      }
      assert GoodBlock(grid[next], limits, needs);
      AllocateLive(k, s, limits, grid[next], needs);
      AdmitLive(k, AllocateBlock(s, grid[next], needs), c, grid, next + 1, limits, needs, placement + [c]);
    }
  }

  lemma WithoutLively(k: Code, warps: seq<WarpVal>, id: nat)
    requires Lively(k, warps)
    ensures Lively(k, WithoutBlock(warps, id))
  {
    hide PacedWarp;
    var left := WithoutBlock(warps, id);
    WithoutMembers(warps, id);
    forall i | 0 <= i < |left|
      ensures PacedWarp(k, left[i]) && Counted(left[i])
    {
      assert left[i] in warps;
    }
    forall i, j | 0 <= i < |left| && 0 <= j < |left| && SameBlock(left[i], left[j])
      ensures left[i].releases == left[j].releases
    {
      assert left[i] in warps && left[j] in warps;
    }
    forall i | 0 <= i < |left| && left[i].state == StalledAtBarrier
      ensures MissingFor(left, i)
    {
      assert left[i] in warps;
      var a :| 0 <= a < |warps| && warps[a] == left[i];
      assert MissingFor(warps, a);
      var b :| 0 <= b < |warps| && SameBlock(warps[a], warps[b]) && warps[b].state != StalledAtBarrier;
      assert warps[b] in left;
      var j :| 0 <= j < |left| && left[j] == warps[b];
      assert SameBlock(left[i], left[j]);
    }
  }

  lemma WithoutLiveSched(sched: SchedVal, warps: seq<WarpVal>, id: nat)
    requires LiveSched(sched, warps)
    ensures LiveSched(sched, WithoutBlock(warps, id))
  {
    var left := WithoutBlock(warps, id);
    WithoutMembers(warps, id);
    if sched.Priority? {
      forall i | 0 <= i < |left|
        ensures left[i].priority > LOWEST_PRIORITY
      {
        assert left[i] in warps;
      }
    }
  }

  predicate NoMore(a: Measure, b: Measure) {
    a.work <= b.work && a.depth <= b.depth && a.undone <= b.undone && a.stalls <= b.stalls
  }

  lemma WithoutNoMore(k: Code, warps: seq<WarpVal>, id: nat)
    ensures NoMore(MeasureOf(k, WithoutBlock(warps, id)), MeasureOf(k, warps))
  {
    if warps != [] {
      var init, last := warps[..|warps| - 1], warps[|warps| - 1];
      WithoutNoMore(k, init, id);
      var left := WithoutBlock(init, id);
      MeasureAppend(k, init, last);
      MeasureAppend(k, left, last);
      assert init + [last] == warps;
      assert left + [] == left;
    }
  }

  lemma MeasureAppend(k: Code, warps: seq<WarpVal>, w: WarpVal)
    ensures var a, b := MeasureOf(k, warps + [w]), MeasureOf(k, warps);
            a == Measure(b.work + WarpWork(k, w), b.depth + |w.stack|, b.undone + Undone(w),
                         b.stalls + StallOf(w))
  {
    hide WarpWork, StallOf;
    assert Works(k, warps + [w]) == Works(k, warps) + [WarpWork(k, w)];
    assert Depths(warps + [w]) == Depths(warps) + [|w.stack|];
    assert Undones(warps + [w]) == Undones(warps) + [Undone(w)];
    assert StallsOf(warps + [w]) == StallsOf(warps) + [StallOf(w)];
    SumSnoc(Works(k, warps), WarpWork(k, w));
    SumSnoc(Depths(warps), |w.stack|);
    SumSnoc(Undones(warps), Undone(w));
    SumSnoc(StallsOf(warps), StallOf(w));
  }

  lemma SumSnoc(s: seq<nat>, x: nat)
    ensures Sum(s + [x]) == Sum(s) + x
  {
    assert (s + [x])[..|s|] == s;
  }

  lemma {:induction false} ReleaseLive(k: Code, s: SmVal, i: nat)
    requires i <= |s.resident| && LiveCore(k, s)
    ensures LiveCore(k, ReleaseFrom(s, i))
    ensures NoMore(MeasureOf(k, ReleaseFrom(s, i).warps), MeasureOf(k, s.warps))
    decreases |s.resident| - i
  {
    hide MeasureOf, Lively, LiveSched, BlockCompleted;
    if i < |s.resident| {
      if BlockCompleted(s.warps, s.resident[i].blockId) {
        WithoutLively(k, s.warps, s.resident[i].blockId);
        WithoutLiveSched(s.sched, s.warps, s.resident[i].blockId);
        WithoutNoMore(k, s.warps, s.resident[i].blockId);
        ReleaseLive(k, ReleaseOne(s, i), i);
      } else {
        ReleaseLive(k, s, i + 1);
      }
    }
  }

  // ---------------------------------------------------------------------------------------------
  // The measure of a GPU

  function WorkSums(k: Code, cores: seq<CoreVal>): seq<nat> {
    seq(|cores|, c requires 0 <= c < |cores| => MeasureOf(k, cores[c].sm.warps).work)
  }

  function DepthSums(k: Code, cores: seq<CoreVal>): seq<nat> {
    seq(|cores|, c requires 0 <= c < |cores| => MeasureOf(k, cores[c].sm.warps).depth)
  }

  function UndoneSums(k: Code, cores: seq<CoreVal>): seq<nat> {
    seq(|cores|, c requires 0 <= c < |cores| => MeasureOf(k, cores[c].sm.warps).undone)
  }

  function StallSums(k: Code, cores: seq<CoreVal>): seq<nat> {
    seq(|cores|, c requires 0 <= c < |cores| => MeasureOf(k, cores[c].sm.warps).stalls)
  }

  function GpuMeasure(k: Code, cores: seq<CoreVal>): Measure {
    Measure(Sum(WorkSums(k, cores)), Sum(DepthSums(k, cores)), Sum(UndoneSums(k, cores)), Sum(StallSums(k, cores)))
  }

  /** The measure of the GPU follows that of the one SM that changed. */
  lemma OneCore(k: Code, cores: seq<CoreVal>, i: nat, c: CoreVal)
    requires i < |cores|
    ensures var m', m := MeasureOf(k, c.sm.warps), MeasureOf(k, cores[i].sm.warps);
            var g', g := GpuMeasure(k, cores[i := c]), GpuMeasure(k, cores);
            (LexBelow(m', m) ==> LexBelow(g', g)) && (NoMore(m', m) ==> NoMore(g', g))
  {
    hide MeasureOf, Sum;
    var cores' := cores[i := c];
    var m := MeasureOf(k, c.sm.warps);
    SumUpdate(WorkSums(k, cores), i, m.work);
    assert WorkSums(k, cores') == WorkSums(k, cores)[i := m.work];
    SumUpdate(DepthSums(k, cores), i, m.depth);
    assert DepthSums(k, cores') == DepthSums(k, cores)[i := m.depth];
    SumUpdate(UndoneSums(k, cores), i, m.undone);
    assert UndoneSums(k, cores') == UndoneSums(k, cores)[i := m.undone];
    SumUpdate(StallSums(k, cores), i, m.stalls);
    assert StallSums(k, cores') == StallSums(k, cores)[i := m.stalls];
  }

  // ---------------------------------------------------------------------------------------------
  // One iteration

  lemma RefillOneLive(k: Code, g: GpuVal, i: nat) returns (g': GpuVal)
    requires GpuLively(k, g) && i < |g.cores|
    ensures AdmitTo(g, i, ReleaseCompleted(g.cores[i].sm)) == Ok(g')
    ensures GpuLively(k, g') && |g'.cores| == |g.cores| && g'.pending == g.pending && g'.next >= g.next
    ensures g'.next == g.next ==> NoMore(GpuMeasure(k, g'.cores), GpuMeasure(k, g.cores))
  {
    hide LiveCore, Accounted, GoodGrid, StartingGrid, GpuMeasure, NoMore, Admit;
    var s := g.cores[i].sm;
    assert GoodCore(g, i);
    NoneBefore(s);
    ReleaseAccounted(s, g.limits, 0);
    ReleaseLive(k, s, 0);
    var s' := ReleaseCompleted(s);
    AdmitToFacts(g, i, s');
    AdmitLive(k, s', i, g.pending, g.next, g.limits, g.needs, g.placement);
    g' := AdmitTo(g, i, s').value;
    OneCore(k, g.cores, i, g'.cores[i]);
  }

  lemma NoMoreTrans(a: Measure, b: Measure, c: Measure)
    requires NoMore(a, b) && NoMore(b, c)
    ensures NoMore(a, c)
  {
  }

  lemma {:induction false} RefillLive(k: Code, g: GpuVal, i: nat)
    requires GpuLively(k, g) && i <= |g.cores|
    ensures Refill(g, i).Ok?
    ensures var g' := Refill(g, i).value;
            && GpuLively(k, g') && g'.pending == g.pending && g'.next >= g.next
            && (g'.next == g.next ==> NoMore(GpuMeasure(k, g'.cores), GpuMeasure(k, g.cores)))
    decreases |g.cores| - i
  {
    hide GpuLively, GpuMeasure, NoMore, AdmitTo, ReleaseCompleted;
    if i < |g.cores| {
      var g1 := RefillOneLive(k, g, i);
      RefillLive(k, g1, i + 1);
      var g' := Refill(g1, i + 1).value;
      if g'.next == g.next {
        NoMoreTrans(GpuMeasure(k, g'.cores), GpuMeasure(k, g1.cores), GpuMeasure(k, g.cores));
      }
    } else {
      NoMoreRefl(GpuMeasure(k, g.cores));
    }
  }

  lemma NoMoreRefl(a: Measure)
    ensures NoMore(a, a)
  {
  }

  lemma TickCoreLive(k: Code, g: GpuVal, i: nat)
    requires WellStructured(k) && GpuLively(k, g) && i < |g.cores| && !IsCompleted(g.cores[i].sm.warps)
    ensures var r := TickCore(k, g, i);
            if r.Throw? then DataError(r.error)
            else
              && GpuLively(k, r.value) && r.value.pending == g.pending && r.value.next == g.next
              && LexBelow(GpuMeasure(k, r.value.cores), GpuMeasure(k, g.cores))
              && (forall c :: 0 <= c < |g.cores| && c != i ==> r.value.cores[c].sm == g.cores[c].sm)
  {
    hide WellStructured, Dispatched, Lively, LiveSched, StartingGrid, GpuMeasure, LexBelow, Tick, MeasureOf;
    var s, m := g.cores[i].sm, MemoryOf(g, g.cores[i]);
    assert LiveCore(k, s);
    TickLively(k, s, m);
    if Tick(k, s, m).Ok? {
      TickKeepsLive(k, s, m);
      TickDecreases(k, s, m);
      TickCoreFacts(k, g, i);
      OneCore(k, g.cores, i, TickCore(k, g, i).value.cores[i]);
    }
  }

  predicate LexBelowOrSame(a: Measure, b: Measure) { a == b || LexBelow(a, b) }

  lemma {:induction false} TickAllLive(k: Code, g: GpuVal, i: nat)
    requires WellStructured(k) && GpuLively(k, g)
    ensures var r := TickAll(k, g, i);
            if r.Throw? then DataError(r.error)
            else
              && GpuLively(k, r.value) && r.value.pending == g.pending && r.value.next == g.next
              && LexBelowOrSame(GpuMeasure(k, r.value.cores), GpuMeasure(k, g.cores))
              && ((exists c :: i <= c < |g.cores| && !IsCompleted(g.cores[c].sm.warps)) ==>
                    LexBelow(GpuMeasure(k, r.value.cores), GpuMeasure(k, g.cores)))
    decreases |g.cores| - i
  {
    hide WellStructured, GpuLively, GpuMeasure, TickCore, IsCompleted;
    if i < |g.cores| {
      if IsCompleted(g.cores[i].sm.warps) {
        TickAllLive(k, g, i + 1);
      } else {
        TickCoreLive(k, g, i);
        if TickCore(k, g, i).Ok? {
          TickAllLive(k, TickCore(k, g, i).value, i + 1);
        }
      }
    }
  }

  /** An iteration that is not the last admits a block or lowers the measure. */
  lemma IterateLive(k: Code, g: GpuVal)
    requires WellStructured(k) && GpuLively(k, g)
    ensures var r := Iterate(k, g);
            if r.Throw? then DataError(r.error)
            else
              && GpuLively(k, r.value.gpu) && r.value.gpu.pending == g.pending && r.value.gpu.next >= g.next
              && (!r.value.done ==> r.value.gpu.next > g.next ||
                                    LexBelow(GpuMeasure(k, r.value.gpu.cores), GpuMeasure(k, g.cores)))
  {
    hide WellStructured, GpuLively, GpuMeasure, IsCompleted, Refill, TickAll;
    RefillLive(k, g, 0);
    var g' := Refill(g, 0).value;
    TickAllLive(k, g', 0);
  }

  /** A GPU launched with a good grid of starting warps on idle SMs with work-conserving schedulers is lively. */
  lemma LaunchLive(k: Code, g: GpuVal, grid: seq<ThreadBlock>, limits: Limits, needs: Needs)
    requires GoodGrid(grid, limits, needs) && StartingGrid(k, grid) && |g.cores| > 0
    requires forall c :: 0 <= c < |g.cores| ==> LiveSched(g.cores[c].sm.sched, [])
    ensures Launch(g, grid, limits, needs).Ok? && GpuLively(k, Launch(g, grid, limits, needs).value)
  {
    LaunchFacts(g, grid, limits, needs);
    var g0 := g.(pending := grid, next := 0, limits := limits, needs := needs, placement := []);
    DispatchLive(k, g0, 0);
  }

  lemma {:induction false} DispatchLive(k: Code, g: GpuVal, i: nat)
    requires i <= |g.cores| && g.next <= |g.pending| && |g.placement| == g.next &&
             GoodGrid(g.pending, g.limits, g.needs)
    requires StartingGrid(k, g.pending)
    requires forall c :: 0 <= c < i ==> LiveCore(k, g.cores[c].sm)
    requires forall c :: i <= c < |g.cores| ==> LiveSched(g.cores[c].sm.sched, [])
    ensures var r := DispatchFrom(g, i);
            r.Ok? ==> forall c :: 0 <= c < |g.cores| ==> LiveCore(k, r.value.cores[c].sm)
    decreases |g.cores| - i
  {
    hide GoodGrid, Accounted, LiveCore, StartingGrid, CanAdmit, Admit;
    if i < |g.cores| {
      var s := ClearWarps(g.cores[i].sm);
      ClearedAccounted(g.cores[i].sm, g.limits);
      ClearedLive(k, g.cores[i].sm);
      AdmitFacts(s, i, g.pending, g.next, g.limits, g.needs, g.placement);
      AdmitLive(k, s, i, g.pending, g.next, g.limits, g.needs, g.placement);
      DispatchLive(k, AdmitTo(g, i, s).value, i + 1);
    }
  }

  lemma ClearedLive(k: Code, s: SmVal)
    requires LiveSched(s.sched, [])
    ensures LiveCore(k, ClearWarps(s))
  {
  }

  /** The whole run: a structured kernel's grid always finishes, with every block placed and every resource free,
      unless some tick throws over data. */
  lemma GpuFinishes(k: Code, g: GpuVal, left: Measure) returns (n: nat)
    requires WellStructured(k) && GpuLively(k, g) && left == GpuMeasure(k, g.cores)
    ensures var r := RunToCompletion(k, g, n);
            if r.Throw? then DataError(r.error) else r.value.done && AllDispatchedAndReturned(r.value.gpu)
    decreases |g.pending| - g.next, left.work, left.depth, left.undone, left.stalls
  {
    hide WellStructured, GpuMeasure, AllDispatchedAndReturned, Iterate, StartingGrid, LiveCore;
    IterateLive(k, g);
    IterateFacts(k, g);
    var it := Iterate(k, g);
    if it.Throw? || it.value.done {
      n := 1;
    } else {
      NextWithin(it.value.gpu);
      var n' := GpuFinishes(k, it.value.gpu, GpuMeasure(k, it.value.gpu.cores));
      n := n' + 1;
    }
  }
}
