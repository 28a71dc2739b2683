/** Many reduction blocks on one SM: each keeps its own phase, and none disturbs another. */
module ReductionBlocks {
  import opened Common
  import opened Isa
  import opened WarpModel
  import opened MemoryModel
  import opened WarpMemory
  import opened ExecutorModel
  import opened SchedulingModel
  import opened CacheSoundness
  import opened Structured
  import opened SmModel
  import opened SmRefinement
  import opened Progress
  import opened BlockViews
  import opened Kernels
  import opened ReductionMath
  import opened ReductionThreads
  import opened Reduction
  import opened ReductionRuns
  import opened ReductionSafety
  import Residency

  /** What a block's threads read or write. */
  ghost predicate Matters(j: Job, a: nat) {
    || InArea(j, a)
    || (exists t: nat :: t < j.size && a == CellOf(j, t))
    || (exists t: nat :: t < j.threads && a == SourceOf(j, t))
  }

  /** Nothing `j` writes matters to `i`. */
  ghost predicate Apart(j: Job, i: Job) { forall a: nat :: InArea(j, a) ==> !Matters(i, a) }

  /** Good jobs of one block size whose memory does not overlap; block `b` runs `jobs[b]`. */
  ghost predicate GoodJobs(jobs: seq<Job>, size: nat) {
    && |ReductionCode(size)| < WORD
    && (forall b :: 0 <= b < |jobs| ==> GoodJob(jobs[b]) && jobs[b].size == size)
    && (forall b, c :: 0 <= b < |jobs| && 0 <= c < |jobs| && b != c ==> Apart(jobs[b], jobs[c]))
    && (forall b, c :: 0 <= b < |jobs| && 0 <= c < |jobs| ==> SparesSources(jobs[b], jobs[c]))
  }

  /** `j` does not write the inputs of `i`. */
  ghost predicate SparesSources(j: Job, i: Job) { forall t: nat :: t < i.threads ==> !InArea(j, SourceOf(i, t)) }

  lemma PhaseStable(j: Job, ws: nat, n: nat, c: Machine, d: Data)
    requires GoodJob(j) && PhaseHolds(j, ws, n, c) && SameRange(c.data, d)
    requires forall a: nat :: Matters(j, a) ==> At(d, a) == At(c.data, a)
    ensures PhaseHolds(j, ws, n, c.(data := d))
  {
    hide Partial, GoodThread, At, CellValue, Written, Reached;
    var c' := c.(data := d);
    assert Matters(j, j.out);
    assert forall t: nat :: t < j.size ==> Matters(j, CellOf(j, t));
    assert forall t: nat :: t < j.threads ==> Matters(j, SourceOf(j, t));
    forall at: Place | InMachine(c', at)
      ensures Tid(ws, at) < j.size && GoodPlace(j, ws, n, c', at)
    {
      assert InMachine(c, at) && SoloAt(c', at) == SoloAt(c, at);
      assert GoodPlace(j, ws, n, c, at);
      RangeKeeps(j, n, Tid(ws, at), SoloAt(c, at).pc, c.data, d);
    }
  }

  /** A block's phase survives writes to memory that does not matter to it. */
  lemma ReducingStable(j: Job, ws: nat, n: nat, warps: seq<WarpVal>, d: Data, d': Data)
    requires GoodJob(j) && |ReductionCode(j.size)| < WORD && Reducing(j, ws, n, warps, d) && SameRange(d, d')
    requires forall a: nat :: Matters(j, a) ==> At(d', a) == At(d, a)
    ensures Reducing(j, ws, n, warps, d')
  {
    hide ReductionCode, Lively, Matters, At, PhaseHolds, GoodJob, AllReleased, OneBlock;
    MachineData(ReductionCode(j.size), warps, d);
    PhaseStable(j, ws, n, AsMachine(ReductionCode(j.size), warps, d), d');
  }

  /** The warps of a block are in some phase. */
  ghost predicate BlockReducing(j: Job, ws: nat, view: seq<WarpVal>, d: Data) {
    |ReductionCode(j.size)| < WORD && exists n: nat :: Reducing(j, ws, n, view, d)
  }

  lemma BlockStable(j: Job, ws: nat, view: seq<WarpVal>, d: Data, d': Data)
    requires GoodJob(j) && BlockReducing(j, ws, view, d) && SameRange(d, d')
    requires forall a: nat :: Matters(j, a) ==> At(d', a) == At(d, a)
    ensures BlockReducing(j, ws, view, d')
  {
    hide ReductionCode, Reducing, Matters, At, GoodJob;
    var n: nat :| Reducing(j, ws, n, view, d);
    ReducingStable(j, ws, n, view, d, d');
  }

  predicate OfSomeJob(w: WarpVal, count: nat) { exists b: nat :: b < count && Belongs(w, b) }

  /** Every warp belongs to a block of the grid, and every block with warps here is in some phase. */
  ghost predicate CoreReducing(jobs: seq<Job>, ws: nat, warps: seq<WarpVal>, d: Data) {
    && (forall i :: 0 <= i < |warps| ==> OfSomeJob(warps[i], |jobs|))
    && forall b: nat :: b < |jobs| && BlockWarps(warps, b) != [] ==> BlockReducing(jobs[b], ws, BlockWarps(warps, b), d)
  }

  ghost predicate AllRoom(jobs: seq<Job>, d: Data) { forall b :: 0 <= b < |jobs| ==> Room(jobs[b], d) }

  lemma StallsReducing(j: Job, ws: nat, view: seq<WarpVal>, cycle: nat, d: Data)
    requires BlockReducing(j, ws, view, d)
    ensures BlockReducing(j, ws, TickStalls(view, cycle), d)
  {
    hide ReductionCode, Reducing, TickStalls;
    var n: nat :| Reducing(j, ws, n, view, d);
    TickStallsReducing(j, ws, n, view, cycle, d);
  }

  lemma StallsCore(jobs: seq<Job>, ws: nat, warps: seq<WarpVal>, cycle: nat, d: Data)
    requires CoreReducing(jobs, ws, warps, d)
    ensures CoreReducing(jobs, ws, TickStalls(warps, cycle), d)
    ensures forall b: nat :: BlockWarps(TickStalls(warps, cycle), b) == [] <==> BlockWarps(warps, b) == []
  {
    hide BlockWarps, BlockReducing, TickStalls, Belongs;
    var after := TickStalls(warps, cycle);
    Residency.TickStallsKeepsBlocks(warps, cycle);
    SameJobs(warps, after, |jobs|);
    forall b: nat
      ensures BlockWarps(after, b) == TickStalls(BlockWarps(warps, b), cycle)
      ensures b < |jobs| && BlockWarps(after, b) != [] ==> BlockReducing(jobs[b], ws, BlockWarps(after, b), d)
    {
      StallsSeen(warps, cycle, b);
      if b < |jobs| && BlockWarps(warps, b) != [] {
        StallsReducing(jobs[b], ws, BlockWarps(warps, b), cycle, d);
      }
    }
    forall b: nat
      ensures BlockWarps(after, b) == [] <==> BlockWarps(warps, b) == []
    {
      assert |TickStalls(BlockWarps(warps, b), cycle)| == |BlockWarps(warps, b)|;
    }
  }

  lemma SameJobs(before: seq<WarpVal>, after: seq<WarpVal>, count: nat)
    requires |before| == |after| && forall i :: 0 <= i < |before| ==> BlockOf(after[i]) == BlockOf(before[i])
    requires forall i :: 0 <= i < |before| ==> OfSomeJob(before[i], count)
    ensures forall i :: 0 <= i < |after| ==> OfSomeJob(after[i], count)
  {
    forall i | 0 <= i < |after|
      ensures OfSomeJob(after[i], count)
    {
      assert OfSomeJob(before[i], count);
      var b: nat :| b < count && Belongs(before[i], b);
      assert Belongs(after[i], b);
    }
  }

  /** Issuing a ready warp of block `b`, seen from that block: the phase goes on and other memory is spared; it throws
      over an address or not at all, and never if the memories hold the block. */
  lemma ViewIssue(j: Job, ws: nat, view: seq<WarpVal>, p: nat, m: MemVal, cycle: nat)
    requires GoodJob(j) && WellStructuredJob(j) && SoundMemory(m)
    requires BlockReducing(j, ws, view, m.data) && p < |view| && view[p].state == Ready
    ensures var r := Issue(ReductionCode(j.size), view, p, m, cycle);
            if r.Throw? then r.error == OutOfRange && !Room(j, m.data)
            else
              && BlockReducing(j, ws, r.value.warps, r.value.mem.data)
              && Sparing(j, m.data, r.value.mem.data)
              && SoundMemory(r.value.mem) && SameRange(m.data, r.value.mem.data)
  {
    hide ReductionCode, Reducing, Room, SoundMemory, Issue, GoodJob, Sparing, WellStructured;
    var n: nat :| Reducing(j, ws, n, view, m.data);
    ViewSucceeds(j, ws, n, view, p, m, cycle);
    if Issue(ReductionCode(j.size), view, p, m, cycle).Ok? {
      var n' := IssueReducing(j, ws, n, view, p, m, cycle);
    }
  }

  ghost predicate WellStructuredJob(j: Job) { |ReductionCode(j.size)| < WORD && WellStructured(ReductionCode(j.size)) }

  lemma ViewSucceeds(j: Job, ws: nat, n: nat, view: seq<WarpVal>, p: nat, m: MemVal, cycle: nat)
    requires GoodJob(j) && WellStructuredJob(j) && SoundMemory(m)
    requires Reducing(j, ws, n, view, m.data) && p < |view| && view[p].state == Ready
    ensures var r := Issue(ReductionCode(j.size), view, p, m, cycle);
            if r.Throw? then r.error == OutOfRange && !Room(j, m.data)
            else SoundMemory(r.value.mem) && SameRange(m.data, r.value.mem.data)
  {
    hide ReductionCode, Room, SoundMemory, GoodJob, Lively, PhaseHolds, WellStructured, Execute, BarrierArrival, Finish;
    var k: Code := ReductionCode(j.size);
    var w := view[p];
    if w.pc < |k| {
      ReducingExecutes(j, ws, n, view, p, m);
      if Execute(k[w.pc], w, m).Ok? {
        ExecutedLively(k, view, p, m, cycle);
        ExecuteSound(k[w.pc], w, m);
      }
    }
  }

  // ---------------------------------------------------------------------------------------------
  // The whole SM

  lemma OwnerOf(w: WarpVal, count: nat) returns (b: nat)
    requires OfSomeJob(w, count)
    ensures b < count && Belongs(w, b)
  {
    b :| b < count && Belongs(w, b);
  }

  /** The memory one SM's step may change: nothing, or the area of one of its blocks. */
  ghost predicate Touches(jobs: seq<Job>, warps: seq<WarpVal>, d: Data, d': Data) {
    d == d' || exists b: nat :: b < |jobs| && BlockWarps(warps, b) != [] && Sparing(jobs[b], d, d')
  }

  lemma CoreIssue(jobs: seq<Job>, size: nat, ws: nat, warps: seq<WarpVal>, i: nat, m: MemVal, cycle: nat)
    requires GoodJobs(jobs, size) && WellStructured(ReductionCode(size)) && SoundMemory(m)
    requires CoreReducing(jobs, ws, warps, m.data) && i < |warps| && warps[i].state == Ready
    ensures var r := Issue(ReductionCode(size), warps, i, m, cycle);
            if r.Throw? then r.error == OutOfRange && !AllRoom(jobs, m.data)
            else
              && CoreReducing(jobs, ws, r.value.warps, r.value.mem.data)
              && Touches(jobs, warps, m.data, r.value.mem.data)
              && SoundMemory(r.value.mem) && SameRange(m.data, r.value.mem.data)
              && forall c: nat :: BlockWarps(r.value.warps, c) == [] <==> BlockWarps(warps, c) == []
  {
    hide ReductionCode, BlockReducing, Room, SoundMemory, Issue, GoodJob, Sparing, WellStructured, BlockWarps, Belongs,
         Rank, Apart, SparesSources, SameRange;
    var k: Code := ReductionCode(size);
    assert OfSomeJob(warps[i], |jobs|);
    var b := OwnerOf(warps[i], |jobs|);
    var view, p := BlockWarps(warps, b), Rank(warps, i, b);
    IssueSeen(k, warps, i, m, cycle, b);
    ViewIssue(jobs[b], ws, view, p, m, cycle);
    if Issue(k, warps, i, m, cycle).Ok? {
      var r := Issue(k, warps, i, m, cycle).value;
      Residency.IssueKeepsBlocks(k, warps, i, m, cycle);
      SameJobs(warps, r.warps, |jobs|);
      IssueLength(k, view, p, m, cycle);
      forall c: nat
        ensures c != b ==> BlockWarps(r.warps, c) == BlockWarps(warps, c)
        ensures BlockWarps(r.warps, c) == [] <==> BlockWarps(warps, c) == []
        ensures c < |jobs| && BlockWarps(r.warps, c) != [] ==>
                  BlockReducing(jobs[c], ws, BlockWarps(r.warps, c), r.mem.data)
      {
        if c != b {
          IssueElsewhere(k, warps, i, m, cycle, b, c);
          if c < |jobs| && BlockWarps(warps, c) != [] {
            SparedElsewhere(jobs[b], jobs[c], m.data, r.mem.data);
            BlockStable(jobs[c], ws, BlockWarps(warps, c), m.data, r.mem.data);
          }
        }
      }
    }
  }

  lemma IssueLength(k: Code, warps: seq<WarpVal>, i: nat, m: MemVal, cycle: nat)
    requires i < |warps| && Issue(k, warps, i, m, cycle).Ok?
    ensures |Issue(k, warps, i, m, cycle).value.warps| == |warps|
  {
    hide Issue;
  }

  lemma SparedElsewhere(j: Job, i: Job, d: Data, d': Data)
    requires Apart(j, i) && Sparing(j, d, d')
    ensures forall a: nat :: Matters(i, a) ==> At(d', a) == At(d, a)
  {
    hide InArea, Matters, At;
  }

  lemma TouchesSame(jobs: seq<Job>, before: seq<WarpVal>, after: seq<WarpVal>, d: Data, d': Data)
    requires Touches(jobs, after, d, d') && forall b: nat :: BlockWarps(after, b) == [] <==> BlockWarps(before, b) == []
    ensures Touches(jobs, before, d, d')
  {
    hide Sparing, BlockWarps;
  }

  /** A tick of an SM full of reducing blocks keeps every block reducing and writes to the area of at most one of
      them; it throws over an address or not at all, and never if the memories hold the blocks. */
  lemma CoreTick(jobs: seq<Job>, size: nat, ws: nat, s: SmVal, m: MemVal)
    requires GoodJobs(jobs, size) && WellStructured(ReductionCode(size)) && SoundMemory(m)
    requires CoreReducing(jobs, ws, s.warps, m.data)
    ensures var t := Tick(ReductionCode(size), s, m);
            if t.Throw? then t.error == OutOfRange && !AllRoom(jobs, m.data)
            else
              && CoreReducing(jobs, ws, t.value.sm.warps, t.value.mem.data)
              && Touches(jobs, s.warps, m.data, t.value.mem.data)
              && SoundMemory(t.value.mem) && SameRange(m.data, t.value.mem.data)
              && forall c: nat :: BlockWarps(t.value.sm.warps, c) == [] <==> BlockWarps(s.warps, c) == []
  {
    hide ReductionCode, CoreReducing, SoundMemory, Issue, GoodJobs, AllRoom, Touches, WellStructured, TickStalls,
         Select, BlockWarps;
    Unchanged(jobs, s.warps, m.data);
    CodeFits(jobs, size);
    var k: Code := ReductionCode(size);
    if !IsCompleted(s.warps) {
      var warps := TickStalls(s.warps, s.cycles);
      StallsCore(jobs, ws, s.warps, s.cycles, m.data);
      var c := Select(s.sched, warps);
      if c.warp.Some? {
        CoreIssue(jobs, size, ws, warps, c.warp.value, m, s.cycles + 1);
        if Issue(k, warps, c.warp.value, m, s.cycles + 1).Ok? {
          TouchesSame(jobs, s.warps, warps, m.data, Issue(k, warps, c.warp.value, m, s.cycles + 1).value.mem.data);
        }
      }
    }
  }

  lemma CodeFits(jobs: seq<Job>, size: nat)
    requires GoodJobs(jobs, size)
    ensures |ReductionCode(size)| < WORD
  {
  }

  lemma Unchanged(jobs: seq<Job>, warps: seq<WarpVal>, d: Data)
    ensures Touches(jobs, warps, d, d) && SameRange(d, d)
  {
  }
}
