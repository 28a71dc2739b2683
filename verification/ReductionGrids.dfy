/** A whole grid of reduction blocks on a whole GPU. */
module ReductionGrids {
  import opened Common
  import opened WarpModel
  import opened MemoryModel
  import opened WarpMemory
  import opened SchedulingModel
  import opened CacheSoundness
  import opened Structured
  import opened SmModel
  import opened GpuModel
  import opened Dispatch
  import opened GpuTermination
  import opened Termination
  import opened Kernels
  import opened BlockViews
  import opened ReductionMath
  import opened ReductionThreads
  import opened Reduction
  import opened ReductionRuns
  import opened ReductionSafety
  import opened ReductionBlocks
  import Residency
  import Progress

  /** Block `b` as the grid builder makes it for job `j`. */
  ghost predicate BuiltBlock(j: Job, ws: nat, block: ThreadBlock, b: nat) {
    && block.id == b && Launches(j, ws, block.warps)
    && forall i :: 0 <= i < |block.warps| ==> Belongs(block.warps[i], b)
  }

  /** Memory as SM `c` sees it. */
  function DataAt(g: GpuVal, c: nat): Data
    requires c < |g.cores|
  {
    Data(g.cores[c].shared, g.global)
  }

  /** Global memory alone. */
  function GlobalData(global: seq<int>): Data { Data([], global) }

  ghost predicate HasWarps(g: GpuVal, c: nat, b: nat)
    requires c < |g.cores|
  {
    BlockWarps(g.cores[c].sm.warps, b) != []
  }

  /** The cells of the blocks' missing threads are zero. */
  ghost predicate AllPadsClear(jobs: seq<Job>, d: Data) { forall b :: 0 <= b < |jobs| ==> PadsClear(jobs[b], d) }

  /** Core `c` runs only blocks placed on it, each in some phase, on a sound cache. */
  ghost predicate GoodReducer(jobs: seq<Job>, ws: nat, g: GpuVal, c: nat)
    requires c < |g.cores|
  {
    && CoreReducing(jobs, ws, g.cores[c].sm.warps, DataAt(g, c)) && AllPadsClear(jobs, DataAt(g, c)) &&
       Sound(g.cores[c].l1)
    && forall b: nat :: HasWarps(g, c, b) ==> b < g.next && b < |g.placement| && g.placement[b] == c
  }

  /** Some SM's shared memory holds every cell block `b` touches. */
  ghost predicate RoomSomewhere(jobs: seq<Job>, g: GpuVal, b: nat)
    requires b < |jobs|
  {
    exists c :: 0 <= c < |g.cores| && SharedRoom(jobs[b], DataAt(g, c))
  }

  /** A dispatched block that has no warp left has delivered its result, from an SM with room for it. */
  ghost predicate Delivered(jobs: seq<Job>, g: GpuVal, b: nat)
    requires b < |jobs|
  {
    (forall c :: 0 <= c < |g.cores| ==> !HasWarps(g, c, b)) ==>
      At(GlobalData(g.global), jobs[b].out) == Reduced(jobs[b].input) && RoomSomewhere(jobs, g, b)
  }

  ghost predicate Built(jobs: seq<Job>, ws: nat, pending: seq<ThreadBlock>) {
    |pending| == |jobs| && forall b :: 0 <= b < |jobs| ==> BuiltBlock(jobs[b], ws, pending[b], b)
  }

  /** Every block's input lies in global memory. */
  ghost predicate InputsInPlace(jobs: seq<Job>, global: seq<int>) {
    forall b :: 0 <= b < |jobs| ==>
      jobs[b].threads <= jobs[b].size && InputsLoaded(jobs[b], GlobalData(global))
  }

  ghost predicate GpuReducing(jobs: seq<Job>, size: nat, ws: nat, g: GpuVal) {
    && GoodJobs(jobs, size) && Built(jobs, ws, g.pending) && InputsInPlace(jobs, g.global) && Sound(g.l2)
    && |g.placement| == g.next <= |jobs|
    && (forall c :: 0 <= c < |g.cores| ==> GoodReducer(jobs, ws, g, c))
    && (forall b: nat :: b < g.next ==> Delivered(jobs, g, b))
  }

  // ---------------------------------------------------------------------------------------------
  // One tick of one SM

  /** What a global address holds does not depend on shared memory, nor the other way round. */
  lemma AtParts(s: seq<int>, s': seq<int>, global: seq<int>, global': seq<int>, a: nat)
    ensures !IsShared(a) ==> At(Data(s, global), a) == At(Data(s', global), a)
    ensures IsShared(a) ==> At(Data(s, global), a) == At(Data(s, global'), a)
  {
  }

  /** Writing to the area of `j` through one SM, seen from another. */
  lemma SparedRemotely(j: Job, i: Job, s: seq<int>, s': seq<int>, global: seq<int>, global': seq<int>, other: seq<int>)
    requires Apart(j, i) && Sparing(j, Data(s, global), Data(s', global'))
    ensures forall a: nat :: Matters(i, a) ==> At(Data(other, global'), a) == At(Data(other, global), a)
  {
    hide InArea, Matters, At, IsShared;
    forall a: nat | Matters(i, a)
      ensures At(Data(other, global'), a) == At(Data(other, global), a)
    {
      AtParts(s, other, global, global', a);
      AtParts(s', other, global', global, a);
      AtParts(other, other, global, global', a);
    }
  }

  lemma OutMatters(j: Job)
    ensures Matters(j, j.out) && InArea(j, j.out)
  {
  }

  lemma SourcesSpared(j: Job, i: Job, s: seq<int>, s': seq<int>, global: seq<int>, global': seq<int>)
    requires SparesSources(j, i) && Sparing(j, Data(s, global), Data(s', global'))
    requires GoodJob(i) && InputsLoaded(i, GlobalData(global))
    ensures InputsLoaded(i, GlobalData(global'))
  {
    hide InArea, At;
    forall t | 0 <= t < i.threads
      ensures At(GlobalData(global'), SourceOf(i, t)) == i.input[t]
    {
      AtParts(s, [], global, global', SourceOf(i, t));
      AtParts(s', [], global', global, SourceOf(i, t));
    }
  }

  /** The effect of a core's tick on global and shared memory, for everyone else. */
  lemma TouchesOthers(jobs: seq<Job>, size: nat, ws: nat, g: GpuVal, i: nat, shared': seq<int>, global': seq<int>,
                      c: nat)
    requires GoodJobs(jobs, size) && i < |g.cores| && c < |g.cores| && c != i
    requires GoodReducer(jobs, ws, g, i) && GoodReducer(jobs, ws, g, c) && |global'| == |g.global|
    requires Touches(jobs, g.cores[i].sm.warps, DataAt(g, i), Data(shared', global'))
    ensures CoreReducing(jobs, ws, g.cores[c].sm.warps, Data(g.cores[c].shared, global'))
  {
    hide BlockReducing, Sparing, GoodJob, Matters, Apart, SparesSources, Room, Sound, BlockWarps, ReductionCode, At;
    var warps, other := g.cores[c].sm.warps, g.cores[c].shared;
    if DataAt(g, i) != Data(shared', global') {
      var b: nat :| b < |jobs| && BlockWarps(g.cores[i].sm.warps, b) != [] &&
                    Sparing(jobs[b], DataAt(g, i), Data(shared', global'));
      assert HasWarps(g, i, b);
      forall b': nat | b' < |jobs| && BlockWarps(warps, b') != []
        ensures BlockReducing(jobs[b'], ws, BlockWarps(warps, b'), Data(other, global'))
      {
        assert HasWarps(g, c, b') && b' != b;
        SparedRemotely(jobs[b], jobs[b'], g.cores[i].shared, shared', g.global, global', other);
        BlockStable(jobs[b'], ws, BlockWarps(warps, b'), Data(other, g.global), Data(other, global'));
      }
    }
  }

  lemma TouchesLoaded(jobs: seq<Job>, size: nat, warps: seq<WarpVal>, s: seq<int>, s': seq<int>, global: seq<int>,
                      global': seq<int>)
    requires GoodJobs(jobs, size) && InputsInPlace(jobs, global) &&
             Touches(jobs, warps, Data(s, global), Data(s', global'))
    ensures InputsInPlace(jobs, global')
  {
    hide Sparing, GoodJob, Apart, SparesSources, ReductionCode, InputsLoaded, BlockWarps;
    if global != global' {
      var b: nat :| b < |jobs| && BlockWarps(warps, b) != [] && Sparing(jobs[b], Data(s, global), Data(s', global'));
      forall c | 0 <= c < |jobs|
        ensures InputsLoaded(jobs[c], GlobalData(global'))
      {
        SourcesSpared(jobs[b], jobs[c], s, s', global, global');
      }
    }
  }

  /** A block without warps keeps its output whatever another block's step writes. */
  lemma TouchesDelivered(jobs: seq<Job>, size: nat, warps: seq<WarpVal>, s: seq<int>, s': seq<int>, global: seq<int>,
                         global': seq<int>, b: nat)
    requires GoodJobs(jobs, size) && b < |jobs| && BlockWarps(warps, b) == []
    requires Touches(jobs, warps, Data(s, global), Data(s', global'))
    ensures At(GlobalData(global'), jobs[b].out) == At(GlobalData(global), jobs[b].out)
  {
    hide Sparing, GoodJob, Apart, SparesSources, ReductionCode, BlockWarps, At, Matters;
    if global != global' {
      var c: nat :| c < |jobs| && BlockWarps(warps, c) != [] && Sparing(jobs[c], Data(s, global), Data(s', global'));
      OutMatters(jobs[b]);
      SparedRemotely(jobs[c], jobs[b], s, s', global, global', []);
    }
  }

  /** No block writes a cell of a missing thread. */
  lemma PadSpared(jobs: seq<Job>, size: nat, b: nat, c: nat, d: Data, d': Data)
    requires GoodJobs(jobs, size) && b < |jobs| && c < |jobs| && PadsClear(jobs[c], d) && Sparing(jobs[b], d, d')
    ensures PadsClear(jobs[c], d')
  {
    hide At, ReductionCode, SparesSources;
    var j := jobs[c];
    assert GoodJob(jobs[b]) && GoodJob(j);
    forall t: nat | j.threads <= t < j.size
      ensures At(d', CellOf(j, t)) == 0
    {
      if b != c {
        assert Apart(jobs[b], j);
        assert Matters(j, CellOf(j, t));
      }
      assert !InArea(jobs[b], CellOf(j, t));
    }
  }

  lemma TouchesPads(jobs: seq<Job>, size: nat, warps: seq<WarpVal>, d: Data, d': Data)
    requires GoodJobs(jobs, size) && AllPadsClear(jobs, d) && Touches(jobs, warps, d, d')
    ensures AllPadsClear(jobs, d')
  {
    hide Sparing, GoodJobs, PadsClear, BlockWarps;
    if d != d' {
      var b: nat :| b < |jobs| && BlockWarps(warps, b) != [] && Sparing(jobs[b], d, d');
      forall c | 0 <= c < |jobs|
        ensures PadsClear(jobs[c], d')
      {
        PadSpared(jobs, size, b, c, d, d');
      }
    }
  }

  /** Cells do not depend on global memory. */
  lemma PadsElsewhere(jobs: seq<Job>, shared: seq<int>, global: seq<int>, global': seq<int>)
    requires AllPadsClear(jobs, Data(shared, global))
    ensures AllPadsClear(jobs, Data(shared, global'))
  {
    hide At;
    forall b | 0 <= b < |jobs|
      ensures PadsClear(jobs[b], Data(shared, global'))
    {
      assert PadsClear(jobs[b], Data(shared, global));
      forall t: nat | jobs[b].threads <= t < jobs[b].size
        ensures At(Data(shared, global'), CellOf(jobs[b], t)) == 0
      {
        AtParts(shared, shared, global, global', CellOf(jobs[b], t));
      }
    }
  }

  /** The memories have kept their sizes. */
  ghost predicate SameSizes(g: GpuVal, g': GpuVal) {
    && |g'.cores| == |g.cores| && |g'.global| == |g.global|
    && forall c :: 0 <= c < |g.cores| ==> |g'.cores[c].shared| == |g.cores[c].shared|
  }

  /** Every SM's memories hold every block. */
  ghost predicate Roomy(jobs: seq<Job>, g: GpuVal) { forall c :: 0 <= c < |g.cores| ==> AllRoom(jobs, DataAt(g, c)) }

  lemma RoomKept(jobs: seq<Job>, g: GpuVal, g': GpuVal)
    requires SameSizes(g, g')
    ensures Roomy(jobs, g) ==> Roomy(jobs, g')
    ensures forall b: nat :: b < |jobs| && RoomSomewhere(jobs, g, b) ==> RoomSomewhere(jobs, g', b)
  {
    hide ReachOf;
    if Roomy(jobs, g) {
      forall c | 0 <= c < |g'.cores|
        ensures AllRoom(jobs, DataAt(g', c))
      {
        assert AllRoom(jobs, DataAt(g, c));
      }
    }
    forall b: nat | b < |jobs| && RoomSomewhere(jobs, g, b)
      ensures RoomSomewhere(jobs, g', b)
    {
      var c :| 0 <= c < |g.cores| && SharedRoom(jobs[b], DataAt(g, c));
      assert SharedRoom(jobs[b], DataAt(g', c));
    }
  }

  /** One SM's tick, on a GPU of reducing SMs. */
  lemma TickCoreReducing(jobs: seq<Job>, size: nat, ws: nat, g: GpuVal, i: nat)
    requires GpuReducing(jobs, size, ws, g) && WellStructured(ReductionCode(size)) && |ReductionCode(size)| < WORD &&
             i < |g.cores|
    ensures var r := TickCore(ReductionCode(size), g, i);
            if r.Throw? then r.error == OutOfRange && !Roomy(jobs, g)
            else GpuReducing(jobs, size, ws, r.value) && SameSizes(g, r.value)
  {
    hide ReductionCode, GoodJobs, WellStructured, CoreReducing, AllRoom, AllPadsClear, Touches, InputsInPlace, Built,
         Sound, Tick, Reduced, Delivered, SharedRoom;
    var c := g.cores[i];
    var m := MemoryOf(g, c);
    assert GoodReducer(jobs, ws, g, i);
    CoreTick(jobs, size, ws, c.sm, m);
    if Tick(ReductionCode(size), c.sm, m).Ok? {
      var t := Tick(ReductionCode(size), c.sm, m).value;
      var g' := TickCore(ReductionCode(size), g, i).value;
      TouchesLoaded(jobs, size, c.sm.warps, c.shared, t.mem.data.shared, g.global, g'.global);
      TouchesPads(jobs, size, c.sm.warps, m.data, t.mem.data);
      assert g' == g.(cores := g.cores[i := CoreVal(t.sm, t.mem.data.shared, t.mem.l1)], l2 := t.mem.l2,
                      global := t.mem.data.global);
      forall x, b: nat | 0 <= x < |g'.cores|
        ensures HasWarps(g', x, b) <==> HasWarps(g, x, b)
      {
        if x == i {
          assert BlockWarps(t.sm.warps, b) == [] <==> BlockWarps(c.sm.warps, b) == [];
        }
      }
      forall x | 0 <= x < |g'.cores|
        ensures GoodReducer(jobs, ws, g', x)
      {
        assert GoodReducer(jobs, ws, g, x);
        if x != i {
          TouchesOthers(jobs, size, ws, g, i, t.mem.data.shared, t.mem.data.global, x);
          PadsElsewhere(jobs, g.cores[x].shared, g.global, g'.global);
        }
      }
      forall b: nat | b < g'.next
        ensures Delivered(jobs, g', b)
      {
        StillDelivered(jobs, size, g, i, g', b);
      }
    }
  }

  /** What has been delivered stays delivered when SM `i` ticks. */
  lemma StillDelivered(jobs: seq<Job>, size: nat, g: GpuVal, i: nat, g': GpuVal, b: nat)
    requires GoodJobs(jobs, size) && b < |jobs| && i < |g.cores| && SameSizes(g, g') && Delivered(jobs, g, b)
    requires Touches(jobs, g.cores[i].sm.warps, DataAt(g, i), DataAt(g', i))
    requires forall x :: 0 <= x < |g.cores| ==> (HasWarps(g', x, b) <==> HasWarps(g, x, b))
    ensures Delivered(jobs, g', b)
  {
    hide GoodJobs, Touches, Reduced, At, SharedRoom, BlockWarps;
    RoomKept(jobs, g, g');
    if forall x :: 0 <= x < |g'.cores| ==> !HasWarps(g', x, b) {
      assert !HasWarps(g', i, b);
      TouchesDelivered(jobs, size, g.cores[i].sm.warps, g.cores[i].shared, g'.cores[i].shared, g.global, g'.global, b);
    }
  }

  lemma SizesTrans(a: GpuVal, b: GpuVal, c: GpuVal)
    requires SameSizes(a, b) && SameSizes(b, c)
    ensures SameSizes(a, c)
  {
  }

  lemma {:induction false} TickAllReducing(jobs: seq<Job>, size: nat, ws: nat, g: GpuVal, i: nat)
    requires GpuReducing(jobs, size, ws, g) && WellStructured(ReductionCode(size)) && |ReductionCode(size)| < WORD
    ensures var r := TickAll(ReductionCode(size), g, i);
            if r.Throw? then r.error == OutOfRange && !Roomy(jobs, g)
            else GpuReducing(jobs, size, ws, r.value) && SameSizes(g, r.value)
    decreases |g.cores| - i
  {
    hide ReductionCode, GpuReducing, WellStructured, IsCompleted, TickCore, Roomy, RoomSomewhere;
    if i < |g.cores| {
      if IsCompleted(g.cores[i].sm.warps) {
        TickAllReducing(jobs, size, ws, g, i + 1);
      } else {
        TickCoreReducing(jobs, size, ws, g, i);
        if TickCore(ReductionCode(size), g, i).Ok? {
          var g1 := TickCore(ReductionCode(size), g, i).value;
          RoomKept(jobs, g, g1);
          TickAllReducing(jobs, size, ws, g1, i + 1);
        }
      }
    }
  }

  // ---------------------------------------------------------------------------------------------
  // Admission

  lemma AllocatedView(warps: seq<WarpVal>, block: ThreadBlock, id: nat, b: nat)
    requires forall i :: 0 <= i < |block.warps| ==> Belongs(block.warps[i], id)
    ensures BlockWarps(warps + block.warps, b) == BlockWarps(warps, b) + (if b == id then block.warps else [])
  {
    hide BlockWarps;
    Joined(warps, block.warps, b);
    if b == id {
      AllOfBlock(block.warps, b);
    } else {
      NoneOfBlock(block.warps, b);
    }
  }

  /** Admitting a block adds its warps, in phase 0. */
  lemma AllocatedReducing(jobs: seq<Job>, size: nat, ws: nat, warps: seq<WarpVal>, block: ThreadBlock, id: nat, d: Data)
    requires GoodJobs(jobs, size) && id < |jobs| && BuiltBlock(jobs[id], ws, block, id)
    requires InputsLoaded(jobs[id], d) && PadsClear(jobs[id], d)
    requires CoreReducing(jobs, ws, warps, d) && BlockWarps(warps, id) == []
    ensures CoreReducing(jobs, ws, warps + block.warps, d)
  {
    hide BlockWarps, ReductionCode, Reducing, Launches, InputsLoaded, PadsClear, GoodJob, Belongs;
    forall i | 0 <= i < |warps + block.warps|
      ensures OfSomeJob((warps + block.warps)[i], |jobs|)
    {
      if i < |warps| {
        assert OfSomeJob(warps[i], |jobs|);
      } else {
        assert Belongs(block.warps[i - |warps|], id);
      }
    }
    forall b: nat | b < |jobs| && BlockWarps(warps + block.warps, b) != []
      ensures BlockReducing(jobs[b], ws, BlockWarps(warps + block.warps, b), d)
    {
      AllocatedView(warps, block, id, b);
      if b == id {
        LaunchedPhase(jobs[b], ws, block.warps, d);
        assert BlockWarps(warps + block.warps, b) == block.warps;
      } else {
        assert BlockWarps(warps + block.warps, b) == BlockWarps(warps, b);
      }
    }
  }

  lemma LoadedHere(jobs: seq<Job>, size: nat, shared: seq<int>, global: seq<int>, b: nat)
    requires GoodJobs(jobs, size) && InputsInPlace(jobs, global) && b < |jobs|
    ensures InputsLoaded(jobs[b], Data(shared, global))
  {
    var j := jobs[b];
    assert GoodJob(j) && InputsLoaded(j, GlobalData(global));
    hide At, ReductionCode, Apart, SparesSources;
    forall t | 0 <= t < j.threads
      ensures At(Data(shared, global), SourceOf(j, t)) == j.input[t]
    {
      AtParts(shared, [], global, global, SourceOf(j, t));
    }
  }

  /** What admission does to an SM of reducing blocks. */
  lemma {:induction false} AdmitReducing(jobs: seq<Job>, size: nat, ws: nat, s: SmVal, pending: seq<ThreadBlock>,
                                         next: nat,
                                         limits: Limits, needs: Needs, shared: seq<int>, global: seq<int>)
    requires GoodJobs(jobs, size) && Built(jobs, ws, pending) && InputsInPlace(jobs, global) && next <= |pending|
    requires AllPadsClear(jobs, Data(shared, global))
    requires CoreReducing(jobs, ws, s.warps, Data(shared, global))
    requires forall b: nat :: b >= next ==> BlockWarps(s.warps, b) == []
    requires Admit(s, pending, next, limits, needs).Ok?
    ensures var a := Admit(s, pending, next, limits, needs).value;
            && next <= a.next <= |pending| && CoreReducing(jobs, ws, a.sm.warps, Data(shared, global))
            && forall b: nat ::
                 BlockWarps(a.sm.warps, b) == if next <= b < a.next then pending[b].warps else BlockWarps(s.warps, b)
    decreases |pending| - next
  {
    hide GoodJobs, InputsInPlace, CoreReducing, BuiltBlock, BlockWarps, CanAdmit, ReductionCode, PadsClear;
    if next < |pending| && CanAdmit(s.usage, pending[next], limits, needs) {
      var s' := AllocateBlock(s, pending[next], needs);
      assert BuiltBlock(jobs[next], ws, pending[next], next);
      LoadedHere(jobs, size, shared, global, next);
      AllocatedReducing(jobs, size, ws, s.warps, pending[next], next, Data(shared, global));
      forall b: nat
        ensures BlockWarps(s'.warps, b) == if b == next then pending[b].warps else BlockWarps(s.warps, b)
      {
        BuiltBelongs(jobs[next], ws, pending[next], next);
        AllocatedView(s.warps, pending[next], next, b);
        assert [] + pending[next].warps == pending[next].warps && BlockWarps(s.warps, b) + [] == BlockWarps(s.warps, b);
      }
      AdmitReducing(jobs, size, ws, s', pending, next + 1, limits, needs, shared, global);
    }
  }

  lemma BuiltBelongs(j: Job, ws: nat, block: ThreadBlock, b: nat)
    requires BuiltBlock(j, ws, block, b)
    ensures forall i :: 0 <= i < |block.warps| ==> Belongs(block.warps[i], b)
    ensures block.warps != []
  {
  }

  /** `after` lacks some completed blocks of `before` and is otherwise the same, block by block. */
  ghost predicate Relieved(before: seq<WarpVal>, after: seq<WarpVal>) {
    && (forall w :: w in after ==> w in before)
    && forall b: nat :: BlockWarps(after, b) == BlockWarps(before, b) ||
                        (BlockWarps(after, b) == [] && BlockCompleted(before, b))
  }

  lemma RelievedReducing(jobs: seq<Job>, ws: nat, before: seq<WarpVal>, after: seq<WarpVal>, d: Data)
    requires Relieved(before, after) && CoreReducing(jobs, ws, before, d)
    ensures CoreReducing(jobs, ws, after, d)
  {
    hide BlockWarps, BlockReducing, BlockCompleted, OfSomeJob;
    forall i | 0 <= i < |after|
      ensures OfSomeJob(after[i], |jobs|)
    {
      assert after[i] in before;
    }
  }

  lemma WithoutRelieves(warps: seq<WarpVal>, id: nat)
    requires BlockCompleted(warps, id)
    ensures Relieved(warps, WithoutBlock(warps, id))
  {
    hide BlockWarps, BlockCompleted;
    Residency.WithoutMembers(warps, id);
    forall b: nat {
      WithoutSeen(warps, id, b);
    }
  }

  lemma RelievedTrans(x: seq<WarpVal>, y: seq<WarpVal>, z: seq<WarpVal>)
    requires Relieved(x, y) && Relieved(y, z)
    ensures Relieved(x, z)
  {
    hide BlockWarps, BlockCompleted;
    forall b: nat
      ensures BlockWarps(z, b) == BlockWarps(x, b) || (BlockWarps(z, b) == [] && BlockCompleted(x, b))
    {
      WaitingSeen(x, b);
      WaitingSeen(y, b);
    }
  }

  lemma {:induction false} ReleaseRelieves(s: SmVal, i: nat)
    requires i <= |s.resident|
    ensures Relieved(s.warps, ReleaseFrom(s, i).warps)
    decreases |s.resident| - i
  {
    hide Relieved, BlockCompleted;
    RelievedRefl(s.warps);
    if i < |s.resident| {
      var r := s.resident[i];
      if BlockCompleted(s.warps, r.blockId) {
        var s' := Residency.ReleaseOne(s, i);
        WithoutRelieves(s.warps, r.blockId);
        ReleaseRelieves(s', i);
        RelievedTrans(s.warps, s'.warps, ReleaseFrom(s', i).warps);
      } else {
        ReleaseRelieves(s, i + 1);
      }
    }
  }

  lemma RelievedRefl(warps: seq<WarpVal>)
    ensures Relieved(warps, warps)
  {
  }

  /** A block all of whose warps have completed has its result in place, and its cells exist. */
  lemma CompletedDelivers(j: Job, ws: nat, warps: seq<WarpVal>, b: nat, shared: seq<int>, global: seq<int>)
    requires GoodJob(j) && BlockReducing(j, ws, BlockWarps(warps, b), Data(shared, global)) && BlockCompleted(warps, b)
    ensures At(GlobalData(global), j.out) == Reduced(j.input) && SharedRoom(j, Data(shared, global))
  {
    hide ReductionCode, Reducing, BlockWarps, At, Belongs, SharedRoom;
    var view := BlockWarps(warps, b);
    var n: nat :| Reducing(j, ws, n, view, Data(shared, global));
    Members(warps, b);
    WaitingSeen(warps, b);
    forall i | 0 <= i < |view|
      ensures view[i].state == Completed
    {
      assert view[i] in view;
    }
    CompletedTotal(j, ws, n, view, Data(shared, global));
    CompletedRoom(j, ws, n, view, Data(shared, global));
    AtParts(shared, [], global, global, j.out);
  }

  /** Filling SM `i`, whose completed blocks have been released, keeps the GPU reducing. */
  lemma AdmitToReducing(jobs: seq<Job>, size: nat, ws: nat, g: GpuVal, i: nat, s: SmVal)
    requires GpuReducing(jobs, size, ws, g) && i < |g.cores| && Relieved(g.cores[i].sm.warps, s.warps) &&
             AdmitTo(g, i, s).Ok?
    ensures GpuReducing(jobs, size, ws, AdmitTo(g, i, s).value) && SameSizes(g, AdmitTo(g, i, s).value)
  {
    hide ReductionCode, GoodJobs, CoreReducing, AllPadsClear, InputsInPlace, Built, Sound, BlockWarps, Reduced, Admit,
         Relieved, SharedRoom, RoomSomewhere;
    var before, d := g.cores[i].sm.warps, DataAt(g, i);
    assert GoodReducer(jobs, ws, g, i);
    RelievedReducing(jobs, ws, before, s.warps, d);
    RelievedAt(before, s.warps);
    forall b: nat | b >= g.next
      ensures BlockWarps(s.warps, b) == []
    {
      assert !HasWarps(g, i, b);
    }
    BuiltLength(jobs, ws, g.pending);
    AdmitReducing(jobs, size, ws, s, g.pending, g.next, g.limits, g.needs, g.cores[i].shared, g.global);
    var a := Admit(s, g.pending, g.next, g.limits, g.needs).value;
    var g' := AdmitTo(g, i, s).value;
    assert g' == g.(cores := g.cores[i := g.cores[i].(sm := a.sm)], next := a.next,
                    placement := g.placement + seq(a.next - g.next, _ => i));
    RoomKept(jobs, g, g');
    forall c | 0 <= c < |g'.cores|
      ensures GoodReducer(jobs, ws, g', c)
    {
      assert GoodReducer(jobs, ws, g, c);
      forall b: nat | HasWarps(g', c, b)
        ensures b < g'.next && g'.placement[b] == c
      {
        if c == i && !(g.next <= b < a.next) {
          assert HasWarps(g, i, b);
        } else if c != i {
          assert HasWarps(g, c, b);
        }
      }
    }
    forall b: nat | b < g'.next
      ensures Delivered(jobs, g', b)
    {
      if forall c :: 0 <= c < |g'.cores| ==> !HasWarps(g', c, b) {
        assert !HasWarps(g', i, b);
        forall c | 0 <= c < |g.cores| && c != i
          ensures !HasWarps(g, c, b)
        {
          assert !HasWarps(g', c, b);
        }
        EmptiedDelivers(jobs, size, ws, g, i, s, a.sm, a.next, b);
      }
    }
  }

  lemma BuiltLength(jobs: seq<Job>, ws: nat, pending: seq<ThreadBlock>)
    requires Built(jobs, ws, pending)
    ensures |pending| == |jobs|
    ensures forall b: nat :: b < |jobs| ==> pending[b].warps != []
  {
    forall b: nat | b < |jobs|
      ensures pending[b].warps != []
    {
      assert BuiltBlock(jobs[b], ws, pending[b], b);
    }
  }

  lemma RelievedAt(before: seq<WarpVal>, after: seq<WarpVal>)
    requires Relieved(before, after)
    ensures forall b: nat :: BlockWarps(after, b) == BlockWarps(before, b) ||
                             (BlockWarps(after, b) == [] && BlockCompleted(before, b))
  {
    hide BlockWarps, BlockCompleted;
  }

  /** A dispatched block without warps after SM `i` was filled had delivered before, or was just released there. */
  lemma EmptiedDelivers(jobs: seq<Job>, size: nat, ws: nat, g: GpuVal, i: nat, s: SmVal, s': SmVal, next': nat, b: nat)
    requires GpuReducing(jobs, size, ws, g) && i < |g.cores| && Relieved(g.cores[i].sm.warps, s.warps) &&
             b < next' <= |jobs|
    requires forall c: nat ::
               BlockWarps(s'.warps, c) == if g.next <= c < next' then g.pending[c].warps else BlockWarps(s.warps, c)
    requires BlockWarps(s'.warps, b) == [] && forall c :: 0 <= c < |g.cores| && c != i ==> !HasWarps(g, c, b)
    ensures At(GlobalData(g.global), jobs[b].out) == Reduced(jobs[b].input) && RoomSomewhere(jobs, g, b)
  {
    hide ReductionCode, BlockReducing, AllPadsClear, InputsInPlace, Built, Sound, BlockWarps, Reduced, Relieved,
         BlockCompleted, GoodJob, Apart, SparesSources, At, SharedRoom;
    BuiltLength(jobs, ws, g.pending);
    RelievedAt(g.cores[i].sm.warps, s.warps);
    assert b < g.next;
    assert Delivered(jobs, g, b) && GoodReducer(jobs, ws, g, i);
    if HasWarps(g, i, b) {
      CompletedDelivers(jobs[b], ws, g.cores[i].sm.warps, b, g.cores[i].shared, g.global);
    }
  }

  lemma {:induction false} RefillReducing(jobs: seq<Job>, size: nat, ws: nat, g: GpuVal, i: nat)
    requires GpuReducing(jobs, size, ws, g) && Refill(g, i).Ok?
    ensures GpuReducing(jobs, size, ws, Refill(g, i).value) && SameSizes(g, Refill(g, i).value)
    decreases |g.cores| - i
  {
    hide GpuReducing, AdmitTo, ReleaseFrom, Relieved;
    if i < |g.cores| {
      ReleaseRelieves(g.cores[i].sm, 0);
      AdmitToReducing(jobs, size, ws, g, i, ReleaseCompleted(g.cores[i].sm));
      RefillReducing(jobs, size, ws, AdmitTo(g, i, ReleaseCompleted(g.cores[i].sm)).value, i + 1);
    }
  }

  lemma IterateReducing(jobs: seq<Job>, size: nat, ws: nat, g: GpuVal)
    requires GpuReducing(jobs, size, ws, g) && WellStructured(ReductionCode(size)) && |ReductionCode(size)| < WORD &&
             Refill(g, 0).Ok?
    ensures var r := Iterate(ReductionCode(size), g);
            if r.Throw? then r.error == OutOfRange && !Roomy(jobs, g)
            else GpuReducing(jobs, size, ws, r.value.gpu) && SameSizes(g, r.value.gpu)
  {
    hide ReductionCode, GpuReducing, WellStructured, Refill, TickAll, AllCompleted, Roomy, RoomSomewhere, SameSizes;
    RefillReducing(jobs, size, ws, g, 0);
    var g' := Refill(g, 0).value;
    RoomKept(jobs, g, g');
    TickAllReducing(jobs, size, ws, g', 0);
    if TickAll(ReductionCode(size), g', 0).Ok? { SizesTrans(g, g', TickAll(ReductionCode(size), g', 0).value); }
  }

  /** A run of a grid of reduction blocks keeps every block reducing; it throws over an address or not at all, and
      never if the memories hold the blocks. */
  lemma {:induction false} RunReducing(jobs: seq<Job>, size: nat, ws: nat, g: GpuVal, n: nat)
    requires GpuReducing(jobs, size, ws, g) && WellStructured(ReductionCode(size)) && |ReductionCode(size)| < WORD
    requires Dispatched(g) && |g.cores| > 0
    ensures var r := RunToCompletion(ReductionCode(size), g, n);
            if r.Throw? then r.error == OutOfRange && !Roomy(jobs, g)
            else GpuReducing(jobs, size, ws, r.value.gpu) && SameSizes(g, r.value.gpu)
    decreases n
  {
    hide ReductionCode, GpuReducing, WellStructured, Dispatched, Iterate, Refill, Roomy, RoomSomewhere, SameSizes;
    SizesSame(g);
    if n > 0 {
      RefillSucceeds(g);
      IterateReducing(jobs, size, ws, g);
      IterateFacts(ReductionCode(size), g);
      if Iterate(ReductionCode(size), g).Ok? && !Iterate(ReductionCode(size), g).value.done {
        var g' := Iterate(ReductionCode(size), g).value.gpu;
        RoomKept(jobs, g, g');
        RunReducing(jobs, size, ws, g', n - 1);
        if RunToCompletion(ReductionCode(size), g', n - 1).Ok? {
          SizesTrans(g, g', RunToCompletion(ReductionCode(size), g', n - 1).value.gpu);
        }
      }
    }
  }

  lemma SizesSame(g: GpuVal)
    ensures SameSizes(g, g)
  {
  }

  lemma RefillSucceeds(g: GpuVal)
    requires Dispatched(g) && |g.cores| > 0
    ensures Refill(g, 0).Ok?
  {
    RefillFacts(g, 0);
  }

  // ---------------------------------------------------------------------------------------------
  // From launch to the last block

  /** A GPU with nothing resident, zeros in the cells of missing threads, and sound caches. */
  ghost predicate IdleGpu(jobs: seq<Job>, g: GpuVal) {
    && Sound(g.l2)
    && forall c :: 0 <= c < |g.cores| ==>
         g.cores[c].sm.warps == [] && AllPadsClear(jobs, DataAt(g, c)) && Sound(g.cores[c].l1)
  }

  lemma IdleReducing(jobs: seq<Job>, size: nat, ws: nat, g: GpuVal)
    requires GoodJobs(jobs, size) && Built(jobs, ws, g.pending) && InputsInPlace(jobs, g.global) && IdleGpu(jobs, g)
    requires g.next == 0 && g.placement == []
    ensures GpuReducing(jobs, size, ws, g)
  {
    hide ReductionCode, GoodJobs, Built, InputsInPlace, AllPadsClear, Sound;
    forall c | 0 <= c < |g.cores|
      ensures GoodReducer(jobs, ws, g, c)
    {
      assert g.cores[c].sm.warps == [];
    }
  }

  lemma {:induction false} DispatchReducing(jobs: seq<Job>, size: nat, ws: nat, g: GpuVal, i: nat)
    requires GpuReducing(jobs, size, ws, g) && DispatchFrom(g, i).Ok?
    requires forall c :: i <= c < |g.cores| ==> g.cores[c].sm.warps == []
    ensures GpuReducing(jobs, size, ws, DispatchFrom(g, i).value) && SameSizes(g, DispatchFrom(g, i).value)
    decreases |g.cores| - i
  {
    hide GpuReducing, Admit, Relieved;
    if i < |g.cores| {
      var s := ClearWarps(g.cores[i].sm);
      RelievedRefl(s.warps);
      AdmitToReducing(jobs, size, ws, g, i, s);
      DispatchReducing(jobs, size, ws, AdmitTo(g, i, s).value, i + 1);
    }
  }

  lemma LaunchReducing(jobs: seq<Job>, size: nat, ws: nat, g: GpuVal, grid: seq<ThreadBlock>, limits: Limits,
                       needs: Needs)
    requires GoodJobs(jobs, size) && Built(jobs, ws, grid) && InputsInPlace(jobs, g.global) && IdleGpu(jobs, g)
    requires Launch(g, grid, limits, needs).Ok?
    ensures GpuReducing(jobs, size, ws, Launch(g, grid, limits, needs).value)
    ensures SameSizes(g, Launch(g, grid, limits, needs).value)
  {
    hide ReductionCode, GoodJobs, Built, InputsInPlace, AllPadsClear, Sound, GpuReducing, DispatchFrom;
    var g' := g.(pending := grid, next := 0, limits := limits, needs := needs, placement := []);
    IdleReducing(jobs, size, ws, g');
    DispatchReducing(jobs, size, ws, g', 0);
  }

  /** When everything has been dispatched and returned, every output word holds what the rounds make of its block, and
      every block's cells exist on some SM. */
  lemma AllDelivered(jobs: seq<Job>, size: nat, ws: nat, g: GpuVal)
    requires GpuReducing(jobs, size, ws, g) && AllDispatchedAndReturned(g)
    ensures forall b: nat :: b < |jobs| ==>
              At(GlobalData(g.global), jobs[b].out) == Reduced(jobs[b].input) && RoomSomewhere(jobs, g, b)
  {
    hide ReductionCode, GoodJobs, CoreReducing, AllPadsClear, InputsInPlace, Sound, Reduced, At, SharedRoom,
         RoomSomewhere;
    BuiltLength(jobs, ws, g.pending);
    forall b: nat | b < |jobs|
      ensures At(GlobalData(g.global), jobs[b].out) == Reduced(jobs[b].input) && RoomSomewhere(jobs, g, b)
    {
      assert Delivered(jobs, g, b);
      forall c | 0 <= c < |g.cores|
        ensures !HasWarps(g, c, b)
      {
        assert g.cores[c].sm.warps == [];
      }
    }
  }

  /** Every priority is above the one no warp may have. */
  predicate PrioritiesFit(grid: seq<ThreadBlock>) {
    forall b, i :: 0 <= b < |grid| && 0 <= i < |grid[b].warps| ==> grid[b].warps[i].priority > LOWEST_PRIORITY
  }

  lemma BuiltStarts(jobs: seq<Job>, size: nat, ws: nat, grid: seq<ThreadBlock>)
    requires GoodJobs(jobs, size) && |ReductionCode(size)| < WORD && Built(jobs, ws, grid) && PrioritiesFit(grid)
    ensures StartingGrid(ReductionCode(size), grid)
  {
    hide ReductionCode, GoodJobs, Progress.PacedWarp;
    forall b, i | 0 <= b < |grid| && 0 <= i < |grid[b].warps|
      ensures StartingWarp(ReductionCode(size), grid[b].warps[i])
    {
      assert BuiltBlock(jobs[b], ws, grid[b], b);
      var w := grid[b].warps[i];
      assert StartsAsBuilt(w);
      Progress.FreshPaced(ReductionCode(size), w.id, w.threads, w.priority);
    }
  }

  /** Under any scheduler at all, a run that returns has delivered every result. */
  lemma GridReducesIfDone(jobs: seq<Job>, size: nat, ws: nat, g: GpuVal, grid: seq<ThreadBlock>, limits: Limits,
                          needs: Needs,
                          n: nat)
    requires GoodJobs(jobs, size) && |ReductionCode(size)| < WORD && Built(jobs, ws, grid) &&
             InputsInPlace(jobs, g.global)
    requires IdleGpu(jobs, g) && GoodGrid(grid, limits, needs) && |g.cores| > 0
    ensures Launch(g, grid, limits, needs).Ok?
    ensures var run := RunToCompletion(ReductionCode(size), Launch(g, grid, limits, needs).value, n);
            if run.Throw? then run.error == OutOfRange && !Roomy(jobs, g)
            else run.value.done ==> AllReduced(jobs, g, run.value.gpu)
  {
    hide ReductionCode, GoodJobs, Built, InputsInPlace, IdleGpu, GpuReducing, Dispatched, GoodGrid, WellStructured,
         Launch, RunToCompletion, AllDispatchedAndReturned, Reduced, At, Roomy, RoomSomewhere, SameSizes;
    ReductionWellStructured(size);
    LaunchFacts(g, grid, limits, needs);
    LaunchCores(g, grid, limits, needs);
    LaunchReducing(jobs, size, ws, g, grid, limits, needs);
    var g' := Launch(g, grid, limits, needs).value;
    RoomKept(jobs, g, g');
    RunReducing(jobs, size, ws, g', n);
    RunDispatchesExactly(ReductionCode(size), g', n);
    var run := RunToCompletion(ReductionCode(size), g', n);
    if run.Ok? && run.value.done {
      AllDelivered(jobs, size, ws, run.value.gpu);
      SizesTrans(g, g', run.value.gpu);
      SizesBack(g, run.value.gpu);
      RoomKept(jobs, run.value.gpu, g);
    }
  }

  /** Every output word holds what the rounds make of its block, and every block's cells exist on some SM of `g`. */
  ghost predicate AllReduced(jobs: seq<Job>, g: GpuVal, g': GpuVal) {
    forall b: nat :: b < |jobs| ==>
      At(GlobalData(g'.global), jobs[b].out) == Reduced(jobs[b].input) && RoomSomewhere(jobs, g, b)
  }

  lemma SizesBack(g: GpuVal, g': GpuVal)
    requires SameSizes(g, g')
    ensures SameSizes(g', g)
  {
  }

  lemma LaunchCores(g: GpuVal, grid: seq<ThreadBlock>, limits: Limits, needs: Needs)
    requires Launch(g, grid, limits, needs).Ok?
    ensures |Launch(g, grid, limits, needs).value.cores| == |g.cores|
  {
    hide DispatchFrom;
  }

  /** Reduction of a whole grid: on any number of SMs with work-conserving schedulers and any cache geometry and
      policy, a grid of reduction blocks that each fit an empty SM runs to completion, and then every block's output
      word holds what the rounds make of the block's input; or it throws over an address, and then some SM's memories do
      not hold every block. */
  lemma GridReduces(jobs: seq<Job>, size: nat, ws: nat, g: GpuVal, grid: seq<ThreadBlock>, limits: Limits, needs: Needs)
    returns (n: nat)
    requires GoodJobs(jobs, size) && |ReductionCode(size)| < WORD && Built(jobs, ws, grid) &&
             InputsInPlace(jobs, g.global)
    requires IdleGpu(jobs, g) && GoodGrid(grid, limits, needs) && PrioritiesFit(grid)
    requires |g.cores| > 0 && forall c :: 0 <= c < |g.cores| ==> LiveSched(g.cores[c].sm.sched, [])
    ensures Launch(g, grid, limits, needs).Ok?
    ensures var run := RunToCompletion(ReductionCode(size), Launch(g, grid, limits, needs).value, n);
            if run.Throw? then run.error == OutOfRange && !Roomy(jobs, g)
            else run.value.done && AllDispatchedAndReturned(run.value.gpu) && AllReduced(jobs, g, run.value.gpu)
  {
    hide ReductionCode, GoodJobs, Built, InputsInPlace, IdleGpu, GpuReducing, StartingGrid, GoodGrid, WellStructured,
         Launch, RunToCompletion, AllDispatchedAndReturned, GpuMeasure, LiveCore, AllReduced, Roomy, GpuLively;
    ReductionWellStructured(size);
    BuiltStarts(jobs, size, ws, grid);
    LaunchLive(ReductionCode(size), g, grid, limits, needs);
    var g' := Launch(g, grid, limits, needs).value;
    n := GpuFinishes(ReductionCode(size), g', GpuMeasure(ReductionCode(size), g'.cores));
    GridReducesIfDone(jobs, size, ws, g, grid, limits, needs, n);
  }
}
