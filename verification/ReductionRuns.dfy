/** The reduction kernel on an SM: whole runs, from launch to completion. */
module ReductionRuns {
  import opened Common
  import opened Isa
  import opened Sequences
  import opened WarpModel
  import opened MemoryModel
  import opened ExecutorModel
  import opened Nesting
  import opened Structured
  import opened ScalarModel
  import opened Refinement
  import opened SmModel
  import opened SmRefinement
  import opened Barriers
  import opened Progress
  import opened WarpMemory
  import opened Kernels
  import opened ReductionMath
  import opened ReductionThreads
  import opened Reduction
  import Residency

  /** Every lane of a paced warp stands behind exactly the barriers its warp has arrived at. */
  lemma LanePace(k: Code, w: WarpVal, l: nat)
    requires Rooted(w) && Paced(k, w) && l < |w.threads|
    ensures LanePc(k, w, l) <= |k| && BarriersBefore(k, LanePc(k, w, l)) == w.arrivals
  {
    hide BarriersBefore;
    if l !in w.mask {
      StackPace(k, w.stack, w.arrivals, l);
    }
  }

  lemma StackPace(k: Code, stack: seq<StackEntry>, arrivals: nat, l: nat)
    requires stack != [] && l in stack[0].mask
    requires forall i :: 0 <= i < |stack| ==>
               stack[i].targetPc <= |k| && BarriersBefore(k, stack[i].targetPc) == arrivals
    ensures StackPc(|k|, stack, l) <= |k| && BarriersBefore(k, StackPc(|k|, stack, l)) == arrivals
  {
    hide BarriersBefore;
    if l !in stack[|stack| - 1].mask {
      StackPace(k, stack[..|stack| - 1], arrivals, l);
    }
  }

  /** Lanes of one warp, all at `p` behind `n` barriers, step one after another. */
  lemma {:induction false} LanesKeepPhase(j: Job, ws: nat, n: nat, c: Machine, i: nat, lanes: seq<nat>, p: nat)
    requires GoodJob(j) && PhaseHolds(j, ws, n, c) && NoDup(lanes)
    requires p < |ReductionCode(j.size)| && BarriersBefore(ReductionCode(j.size), p) == n
    requires forall l :: l in lanes ==> InMachine(c, Place(i, l)) && SoloAt(c, Place(i, l)).pc == p
    requires RunPlaces(ReductionCode(j.size), c, Places(i, lanes)).Ok?
    ensures PhaseHolds(j, ws, n, RunPlaces(ReductionCode(j.size), c, Places(i, lanes)).value)
    ensures Sparing(j, c.data, RunPlaces(ReductionCode(j.size), c, Places(i, lanes)).value.data)
    decreases |lanes|
  {
    hide GoodJob, PhaseHolds, ReductionCode, BarriersBefore, StepAt, InMachine, SoloAt, InArea, At, SameRange;
    JobFits(j);
    if lanes != [] {
      var at := Place(i, lanes[0]);
      assert Places(i, lanes)[0] == at;
      assert Places(i, lanes)[1..] == Places(i, lanes[1..]);
      StepKeepsPhase(j, ws, n, c, at);
      StepShape(ReductionCode(j.size), c, at);
      var c' := StepAt(ReductionCode(j.size), c, at).value;
      forall l | l in lanes[1..]
        ensures InMachine(c', Place(i, l)) && SoloAt(c', Place(i, l)).pc == p
      {
        assert l in lanes && l != lanes[0];
      }
      LanesKeepPhase(j, ws, n, c', i, lanes[1..], p);
      SparingTrans(j, c.data, c'.data, RunPlaces(ReductionCode(j.size), c', Places(i, lanes[1..])).value.data);
    }
  }

  lemma LaneListFacts(mask: set<nat>, i: nat, n: nat)
    ensures NoDup(LaneList(mask, i, n))
    ensures forall l :: l in LaneList(mask, i, n) ==> l in mask && i <= l < n
    decreases n - i
  {
    if i < n {
      LaneListFacts(mask, i + 1, n);
    }
  }

  ghost predicate OneBlock(warps: seq<WarpVal>) {
    forall a, b :: 0 <= a < |warps| && 0 <= b < |warps| ==> SameBlock(warps[a], warps[b])
  }

  ghost predicate AllReleased(warps: seq<WarpVal>, n: nat) {
    forall i :: 0 <= i < |warps| ==> warps[i].releases == n
  }

  /** All threads of the block have been released from `n` barriers and satisfy phase `n`. */
  ghost predicate Reducing(j: Job, ws: nat, n: nat, warps: seq<WarpVal>, d: Data)
    requires |ReductionCode(j.size)| < WORD
  {
    && Lively(ReductionCode(j.size), warps)
    && AllReleased(warps, n) && OneBlock(warps)
    && PhaseHolds(j, ws, n, AsMachine(ReductionCode(j.size), warps, d))
  }

  /** The acting lanes of a ready warp are all at its PC, behind the barriers it was released from. */
  lemma ActingLanes(k: Code, w: WarpVal, l: nat)
    requires InStep(k, w) && w.pc < |k| && GoodInstruction(k, w.pc) && l in Acting(k, w)
    ensures l < |w.threads| && LanePc(k, w, l) == w.pc
  {
    LaneListFacts(ActingMask(k, w), 0, |w.threads|);
    if k[w.pc].opcode == SYNC {
      SyncPcs(k, w, l);
    }
  }

  /** The scalar steps of one issue keep the phase. */
  lemma IssuePhase(j: Job, ws: nat, n: nat, warps: seq<WarpVal>, i: nat, d: Data)
    requires GoodJob(j) && |ReductionCode(j.size)| < WORD && WellStructured(ReductionCode(j.size))
    requires Reducing(j, ws, n, warps, d) && i < |warps| && warps[i].state == Ready
    requires RunPlaces(ReductionCode(j.size), AsMachine(ReductionCode(j.size), warps, d),
             IssuePlaces(ReductionCode(j.size), warps, i)).Ok?
    ensures var c' := RunPlaces(ReductionCode(j.size), AsMachine(ReductionCode(j.size), warps, d),
            IssuePlaces(ReductionCode(j.size), warps, i)).value;
            PhaseHolds(j, ws, n, c') && Sparing(j, d, c'.data)
  {
    MachineData(ReductionCode(j.size), warps, d);
    var k: Code := ReductionCode(j.size);
    var w := warps[i];
    if w.pc < |k| {
      assert GoodInstruction(k, w.pc);
      assert PacedWarp(k, w) && Counted(w);
      hide GoodJob, PhaseHolds, ReductionCode, BarriersBefore, AsMachine, GoodInstruction, WellStructured, Lively,
           InStep, Rooted, Acting, InMachine, SoloAt, RunPlaces;
      var c := AsMachine(k, warps, d);
      var lanes := Acting(k, w);
      forall l | l in lanes
        ensures InMachine(c, Place(i, l)) && SoloAt(c, Place(i, l)).pc == w.pc
      {
        ActingLanes(k, w, l);
        MachinePlace(k, warps, d, Place(i, l));
      }
      ActingNoDup(k, w);
      LanesKeepPhase(j, ws, n, c, i, lanes, w.pc);
    }
  }

  lemma ActingNoDup(k: Code, w: WarpVal)
    requires w.pc < |k|
    ensures NoDup(Acting(k, w))
  {
    LaneListFacts(ActingMask(k, w), 0, |w.threads|);
  }

  /** When every thread stands just past the closing barrier of phase `n`, phase `n + 1` has begun. */
  lemma AdvancePhase(j: Job, ws: nat, n: nat, c: Machine)
    requires GoodJob(j) && PhaseHolds(j, ws, n, c) && n <= j.e
    requires forall at: Place :: InMachine(c, at) ==> SoloAt(c, at).pc == PhaseStart(n + 1)
    ensures PhaseHolds(j, ws, n + 1, c)
  {
    hide Partial, InMachine, SoloAt, Launched, Layout, Reached;
    forall at: Place | InMachine(c, at)
      ensures Tid(ws, at) < j.size && GoodPlace(j, ws, n + 1, c, at)
    {
      LayoutTid(j, ws, c, at);
      assert GoodPlace(j, ws, n, c, at);
      CellCarries(j, n, Tid(ws, at));
      ReachCarries(j, n, Tid(ws, at), c.data);
    }
  }

  lemma LayoutTid(j: Job, ws: nat, c: Machine, at: Place)
    requires Layout(j, ws, c) && InMachine(c, at)
    ensures Tid(ws, at) < j.threads
  {
  }

  lemma ReachCarries(j: Job, n: nat, t: nat, d: Data)
    requires n <= j.e && Reached(j, n, t, PhaseStart(n + 1), d)
    ensures Reached(j, n + 1, t, PhaseStart(n + 1), d)
  {
  }

  lemma CellCarries(j: Job, n: nat, t: nat)
    requires t < j.size && n <= j.e
    ensures CellValue(j, n + 1, t, PhaseStart(n + 1)) == CellValue(j, n, t, PhaseStart(n + 1))
  {
  }

  /** In phase `n` no thread is past the start of the next. */
  lemma PhaseUpTo(j: Job, n: nat, t: nat, p: nat, th: Thread)
    requires GoodJob(j) && t < j.size && GoodThread(j, n, t, p, th) && n <= j.e
    ensures p <= PhaseStart(n + 1)
  {
    hide Partial;
  }

  lemma AtPhaseStart(size: nat, n: nat, p: nat)
    requires p <= |ReductionCode(size)| < WORD && BarriersBefore(ReductionCode(size), p) >= n + 1 &&
             p <= PhaseStart(n + 1)
    ensures n <= RoundsOf(size) && p == PhaseStart(n + 1)
  {
    PhaseOf(size, BarriersBefore(ReductionCode(size), p), p);
  }

  /** After the block has been released from one more barrier, the next phase has begun for every thread. */
  lemma ReleasedAdvance(j: Job, ws: nat, n: nat, warps: seq<WarpVal>, d: Data)
    requires GoodJob(j) && |ReductionCode(j.size)| < WORD && Lively(ReductionCode(j.size), warps) && warps != []
    requires AllReleased(warps, n + 1)
    requires PhaseHolds(j, ws, n, AsMachine(ReductionCode(j.size), warps, d))
    ensures PhaseHolds(j, ws, n + 1, AsMachine(ReductionCode(j.size), warps, d))
  {
    var k: Code := ReductionCode(j.size);
    var c := AsMachine(k, warps, d);
    forall i | 0 <= i < |warps|
      ensures PacedWarp(k, warps[i]) && warps[i].arrivals >= n + 1
    {
      assert Counted(warps[i]);
    }
    PaceBound(k, warps[0]);
    BarriersAt(j.size, |k|);
    CodeLength(j.size);
    hide ReductionCode, BarriersBefore, Lively, AsMachine, InMachine, SoloAt, Rooted, InStep, Paced, GoodThread,
         GoodCell, GoodJob;
    assert n <= j.e;
    forall at: Place | InMachine(c, at)
      ensures SoloAt(c, at).pc == PhaseStart(n + 1)
    {
      MachinePlace(k, warps, d, at);
      LanePace(k, warps[at.warp], at.lane);
      assert GoodPlace(j, ws, n, c, at);
      PhaseUpTo(j, n, Tid(ws, at), SoloAt(c, at).pc, SoloAt(c, at).thread);
      AtPhaseStart(j.size, n, SoloAt(c, at).pc);
    }
    AdvancePhase(j, ws, n, c);
  }

  lemma IssueReleases(k: Code, warps: seq<WarpVal>, i: nat, m: MemVal, cycle: nat)
    requires i < |warps| && Issue(k, warps, i, m, cycle).Ok?
    ensures var r := Issue(k, warps, i, m, cycle).value.warps[i].releases;
            r == warps[i].releases || r == warps[i].releases + 1
  {
    hide Execute;
    if warps[i].pc < |k| {
      ExecuteKeepsState(k[warps[i].pc], warps[i], m);
    }
  }

  lemma SameReleases(warps: seq<WarpVal>, i: nat, n: nat)
    requires Lockstep(warps) && i < |warps| && warps[i].releases == n
    requires OneBlock(warps)
    ensures AllReleased(warps, n)
  {
  }

  lemma BlocksKept(before: seq<WarpVal>, after: seq<WarpVal>)
    requires |before| == |after| && forall i :: 0 <= i < |before| ==> BlockOf(after[i]) == BlockOf(before[i])
    requires OneBlock(before)
    ensures OneBlock(after)
  {
    forall a, b | 0 <= a < |after| && 0 <= b < |after|
      ensures SameBlock(after[a], after[b])
    {
      assert SameBlock(before[a], before[b]);
    }
  }

  lemma ReleasedOf(warps: seq<WarpVal>, i: nat, n: nat)
    requires AllReleased(warps, n) && i < |warps|
    ensures warps[i].releases == n
  {
  }

  lemma IssuedPhase(j: Job, ws: nat, n: nat, warps: seq<WarpVal>, i: nat, m: MemVal, cycle: nat)
    requires GoodJob(j) && |ReductionCode(j.size)| < WORD && WellStructured(ReductionCode(j.size))
    requires Reducing(j, ws, n, warps, m.data) && i < |warps| && warps[i].state == Ready
    requires Issue(ReductionCode(j.size), warps, i, m, cycle).Ok?
    ensures var r := Issue(ReductionCode(j.size), warps, i, m, cycle).value;
            PhaseHolds(j, ws, n, AsMachine(ReductionCode(j.size), r.warps, r.mem.data)) &&
              Sparing(j, m.data, r.mem.data)
  {
    hide Sparing, ReductionCode, PhaseHolds, Lockstep, SomeoneMissing, Issue, AsMachine, GoodJob, GoodWarps, RunPlaces,
         IssuePlaces, OneBlock, AllReleased, GoodThroughout, PacedWarps;
    var k: Code := ReductionCode(j.size);
    GoodWarpsOf(k, warps);
    IssueMachine(k, warps, i, m, cycle);
    IssuePhase(j, ws, n, warps, i, m.data);
    var r := Issue(k, warps, i, m, cycle).value;
    MachineData(k, r.warps, r.mem.data);
  }

  lemma IssuedBlock(k: Code, warps: seq<WarpVal>, i: nat, m: MemVal, cycle: nat, n: nat) returns (n': nat)
    requires WellStructured(k) && Lively(k, warps) && OneBlock(warps) && AllReleased(warps, n)
    requires i < |warps| && warps[i].state == Ready && Issue(k, warps, i, m, cycle).Ok?
    ensures var r := Issue(k, warps, i, m, cycle).value;
            Lively(k, r.warps) && OneBlock(r.warps) && AllReleased(r.warps, n') && (n' == n || n' == n + 1)
  {
    hide WellStructured, Lockstep, SomeoneMissing, PacedWarps, Issue, OneBlock, AllReleased, BlockOf;
    var r := Issue(k, warps, i, m, cycle).value;
    IssueLively(k, warps, i, m, cycle);
    IssueReleases(k, warps, i, m, cycle);
    ReleasedOf(warps, i, n);
    Residency.IssueKeepsBlocks(k, warps, i, m, cycle);
    BlocksKept(warps, r.warps);
    n' := r.warps[i].releases;
    SameReleases(r.warps, i, n');
  }

  /** Issuing one warp of the block: the phase is kept, or the next has begun. */
  lemma IssueReducing(j: Job, ws: nat, n: nat, warps: seq<WarpVal>, i: nat, m: MemVal, cycle: nat) returns (n': nat)
    requires GoodJob(j) && |ReductionCode(j.size)| < WORD && WellStructured(ReductionCode(j.size))
    requires Reducing(j, ws, n, warps, m.data) && i < |warps| && warps[i].state == Ready
    requires Issue(ReductionCode(j.size), warps, i, m, cycle).Ok?
    ensures var r := Issue(ReductionCode(j.size), warps, i, m, cycle).value;
            Reducing(j, ws, n', r.warps, r.mem.data) && Sparing(j, m.data, r.mem.data)
  {
    hide Sparing, ReductionCode, PhaseHolds, Lively, Issue, AsMachine, GoodJob, OneBlock, AllReleased, WellStructured;
    var r := Issue(ReductionCode(j.size), warps, i, m, cycle).value;
    IssuedPhase(j, ws, n, warps, i, m, cycle);
    n' := IssuedBlock(ReductionCode(j.size), warps, i, m, cycle, n);
    if n' == n + 1 {
      ReleasedAdvance(j, ws, n, r.warps, r.mem.data);
    }
  }

  lemma TickStallsReducing(j: Job, ws: nat, n: nat, warps: seq<WarpVal>, cycle: nat, d: Data)
    requires |ReductionCode(j.size)| < WORD && Reducing(j, ws, n, warps, d)
    ensures Reducing(j, ws, n, TickStalls(warps, cycle), d)
  {
    var k: Code := ReductionCode(j.size);
    var after := TickStalls(warps, cycle);
    Residency.TickStallsKeepsBlocks(warps, cycle);
    BlocksKept(warps, after);
    StallsKeepReleases(warps, cycle);
    hide ReductionCode, PhaseHolds, Lockstep, PacedWarps, SomeoneMissing, AsMachine, TickStalls, SameBlock;
    TickStallsLively(k, warps, cycle);
    GoodWarpsOf(k, warps);
    TickStallsGood(k, warps, cycle, d);
  }

  lemma StallsKeepReleases(warps: seq<WarpVal>, cycle: nat)
    ensures forall i :: 0 <= i < |warps| ==> TickStalls(warps, cycle)[i].releases == warps[i].releases
  {
  }

  // ---------------------------------------------------------------------------------------------
  // From launch to completion

  /** The warps the grid builder makes of one block: thread t is lane t % ws of warp t / ws. */
  ghost predicate Launches(j: Job, ws: nat, warps: seq<WarpVal>) {
    && ws > 0 && warps != []
    && (forall i :: 0 <= i < |warps| ==> StartsAsBuilt(warps[i]))
    && OneBlock(warps)
    && (forall at: Place :: (at.warp < |warps| && at.lane < |warps[at.warp].threads|) <==>
                            (at.lane < ws && Tid(ws, at) < j.threads))
    && (forall at: Place :: at.warp < |warps| && at.lane < |warps[at.warp].threads| ==>
          Launched(j, Tid(ws, at), warps[at.warp].threads[at.lane]))
  }

  predicate StartsAsBuilt(w: WarpVal) {
    w.threads != [] && w == FreshWarp(w.id, w.threads, w.priority)
  }

  /** The block's input lies in global memory. */
  ghost predicate InputsLoaded(j: Job, d: Data)
    requires j.threads <= j.size
  {
    forall t :: 0 <= t < j.threads ==> At(d, SourceOf(j, t)) == j.input[t]
  }

  lemma LaunchedLively(j: Job, ws: nat, warps: seq<WarpVal>)
    requires |ReductionCode(j.size)| < WORD && Launches(j, ws, warps)
    ensures Lively(ReductionCode(j.size), warps)
  {
    forall i | 0 <= i < |warps|
      ensures PacedWarp(ReductionCode(j.size), warps[i]) && Counted(warps[i])
    {
      assert StartsAsBuilt(warps[i]);
      FreshPaced(ReductionCode(j.size), warps[i].id, warps[i].threads, warps[i].priority);
    }
    forall i | 0 <= i < |warps|
      ensures warps[i].state == Ready && warps[i].releases == 0
    {
      assert StartsAsBuilt(warps[i]);
    }
  }

  lemma LaunchedPhase(j: Job, ws: nat, warps: seq<WarpVal>, d: Data)
    requires GoodJob(j) && |ReductionCode(j.size)| < WORD && Launches(j, ws, warps) && InputsLoaded(j, d) &&
             PadsClear(j, d)
    ensures Reducing(j, ws, 0, warps, d)
  {
    var k: Code := ReductionCode(j.size);
    LaunchedLively(j, ws, warps);
    hide ReductionCode, Lively, AsMachine, InMachine, SoloAt, Launched, PadsClear;
    var c := AsMachine(k, warps, d);
    forall at: Place
      ensures InMachine(c, at) <==> at.lane < ws && Tid(ws, at) < j.threads
    {
      MachinePlace(k, warps, d, at);
    }
    forall at: Place | InMachine(c, at)
      ensures Tid(ws, at) < j.size && GoodPlace(j, ws, 0, c, at)
    {
      MachinePlace(k, warps, d, at);
      assert StartsAsBuilt(warps[at.warp]);
    }
    assert c.data == d by { MachineData(k, warps, d); }
    forall i | 0 <= i < |warps|
      ensures warps[i].releases == 0
    {
      assert StartsAsBuilt(warps[i]);
    }
  }

  /** A completed warp stands, on all lanes, at the end of the code, behind all its barriers. */
  lemma CompletedWarp(j: Job, n: nat, warps: seq<WarpVal>, i: nat, l: nat)
    requires |ReductionCode(j.size)| < WORD && Lively(ReductionCode(j.size), warps) && AllReleased(warps, n)
    requires i < |warps| && warps[i].state == Completed && l < |warps[i].threads|
    ensures n == j.e + 1 && LanePc(ReductionCode(j.size), warps[i], l) == |ReductionCode(j.size)|
  {
    var k: Code := ReductionCode(j.size);
    assert PacedWarp(k, warps[i]) && Counted(warps[i]);
    CodeLength(j.size);
    BarriersAt(j.size, |k|);
    hide BarriersBefore, ReductionCode, RoundsOf, Lively, Mirrors;
    PaceBound(k, warps[i]);
  }

  lemma CompletedPlace(j: Job, ws: nat, n: nat, warps: seq<WarpVal>, d: Data, at: Place)
    requires |ReductionCode(j.size)| < WORD && Reducing(j, ws, n, warps, d) && IsCompleted(warps)
    requires at.lane < ws && Tid(ws, at) < j.threads
    ensures var c := AsMachine(ReductionCode(j.size), warps, d);
            n == j.e + 1 && InMachine(c, at) && c.data == d && SoloAt(c, at).pc == RoundStart(j.e) + 6
  {
    hide ReductionCode, Lively, AllReleased, InMachine, SoloAt, AsMachine, LanePc;
    var k: Code := ReductionCode(j.size);
    MachineData(k, warps, d);
    assert InMachine(AsMachine(k, warps, d), at);
    MachinePlace(k, warps, d, at);
    CompletedWarp(j, n, warps, at.warp, at.lane);
    CodeLength(j.size);
  }

  /** Once every warp has completed, the output word holds what the rounds make of the input. */
  lemma CompletedTotal(j: Job, ws: nat, n: nat, warps: seq<WarpVal>, d: Data)
    requires GoodJob(j) && |ReductionCode(j.size)| < WORD && Reducing(j, ws, n, warps, d) && IsCompleted(warps)
    ensures At(d, j.out) == Reduced(j.input)
  {
    hide ReductionCode, Lively, AllReleased, InMachine, SoloAt, AsMachine, IsCompleted, Partial, GoodThread, GoodCell,
         Reached;
    var first := Place(0, 0);
    assert Tid(ws, first) == 0;
    CompletedPlace(j, ws, n, warps, d, first);
    assert GoodPlace(j, ws, n, AsMachine(ReductionCode(j.size), warps, d), first);
  }

  /** The largest cell index the block touches: with its own cells, its threads' partners' in the first round. */
  function ReachOf(j: Job): nat {
    if j.threads == 0 then 0
    else if Stride(j.size, 0) == 0 then j.threads - 1
    else Max(j.threads - 1, Min(j.threads, Stride(j.size, 0)) - 1 + Stride(j.size, 0))
  }

  /** Shared memory holds every cell the block touches. */
  predicate SharedRoom(j: Job, d: Data) { j.cells + 4 * ReachOf(j) < |d.shared| }

  /** Once every warp has completed, the block has shown shared memory to hold all the cells it touches. */
  lemma CompletedRoom(j: Job, ws: nat, n: nat, warps: seq<WarpVal>, d: Data)
    requires GoodJob(j) && |ReductionCode(j.size)| < WORD && Reducing(j, ws, n, warps, d) && IsCompleted(warps)
    ensures SharedRoom(j, d)
  {
    hide ReductionCode, Reducing, Reached, IsCompleted, InRange;
    CompletedReached(j, ws, n, warps, d, j.threads - 1);
    ReachesEnd(j, j.threads - 1, d);
    WidthPositive(j.size, 0);
    if j.e > 0 {
      var t := Min(j.threads, Stride(j.size, 0)) - 1;
      CompletedReached(j, ws, n, warps, d, t);
      ReachesEnd(j, t, d);
    }
  }

  lemma ReachesEnd(j: Job, t: nat, d: Data)
    requires Reached(j, j.e + 1, t, RoundStart(j.e) + 6, d)
    ensures j.cells + 4 * t < |d.shared|
    ensures j.e > 0 && t < Stride(j.size, 0) ==> j.cells + 4 * (t + Stride(j.size, 0)) < |d.shared|
  {
  }

  /** Once every warp has completed, every thread stands at the end. */
  lemma CompletedReached(j: Job, ws: nat, n: nat, warps: seq<WarpVal>, d: Data, t: nat)
    requires GoodJob(j) && |ReductionCode(j.size)| < WORD && Reducing(j, ws, n, warps, d) && IsCompleted(warps)
    requires t < j.threads
    ensures Reached(j, j.e + 1, t, RoundStart(j.e) + 6, d)
  {
    hide ReductionCode, Lively, AllReleased, InMachine, SoloAt, AsMachine, IsCompleted, Partial, GoodThread, GoodCell,
         Reached, PlaceOf;
    PlaceOfTid(ws, t);
    CompletedPlace(j, ws, n, warps, d, PlaceOf(ws, t));
    assert GoodPlace(j, ws, n, AsMachine(ReductionCode(j.size), warps, d), PlaceOf(ws, t));
  }
}
