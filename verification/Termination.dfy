/** Structured kernels terminate: every tick that finds work makes a lexicographic measure smaller. */
module Termination {
  import opened Common
  import opened Isa
  import opened Sequences
  import opened Cyclic
  import opened WarpModel
  import opened MemoryModel
  import opened ExecutorModel
  import opened SchedulingModel
  import opened SimtStack
  import opened Nesting
  import opened Structured
  import opened ScalarModel
  import opened Refinement
  import opened SmModel
  import opened SmRefinement
  import opened Barriers
  import opened Progress

  /** How far a lane may still have to go. */
  function ToGo(end: nat, pc: nat): nat { if pc <= end then end - pc else 0 }

  function LaneWork(k: Code, w: WarpVal): (s: seq<nat>)
    ensures |s| == |w.threads|
  {
    seq(|w.threads|, l requires 0 <= l < |w.threads| => ToGo(|k|, LanePc(k, w, l)))
  }

  function WarpWork(k: Code, w: WarpVal): nat { Sum(LaneWork(k, w)) }

  function StallOf(w: WarpVal): nat { if w.state == Stalled then w.stallCycles else 0 }

  function Works(k: Code, warps: seq<WarpVal>): seq<nat> {
    seq(|warps|, i requires 0 <= i < |warps| => WarpWork(k, warps[i]))
  }

  function Depths(warps: seq<WarpVal>): seq<nat> {
    seq(|warps|, i requires 0 <= i < |warps| => |warps[i].stack|)
  }

  function Undones(warps: seq<WarpVal>): seq<nat> {
    seq(|warps|, i requires 0 <= i < |warps| => Undone(warps[i]))
  }

  function StallsOf(warps: seq<WarpVal>): seq<nat> {
    seq(|warps|, i requires 0 <= i < |warps| => StallOf(warps[i]))
  }

  /** Remaining lane instructions, stacked entries, unfinished warps, remaining stall cycles. */
  datatype Measure = Measure(work: nat, depth: nat, undone: nat, stalls: nat)

  function MeasureOf(k: Code, warps: seq<WarpVal>): Measure {
    Measure(Sum(Works(k, warps)), Sum(Depths(warps)), Sum(Undones(warps)), Sum(StallsOf(warps)))
  }

  predicate LexBelow(a: Measure, b: Measure) {
    || a.work < b.work
    || (a.work == b.work && a.depth < b.depth)
    || (a.work == b.work && a.depth == b.depth && a.undone < b.undone)
    || (a.work == b.work && a.depth == b.depth && a.undone == b.undone && a.stalls < b.stalls)
  }

  /** In a structured kernel every step of a lane goes forward. */
  lemma NextPcForward(k: Code, p: nat, t: Thread)
    requires p < |k| && ForwardAt(k, p)
    ensures p < NextPc(k, p, t) <= |k|
  {
  }

  /** Advancing a non-empty set of lanes leaves less work. */
  lemma AdvanceWork(k: Code, w: WarpVal, w': WarpVal)
    requires w.pc < |k| && ForwardAt(k, w.pc) && |w'.threads| == |w.threads|
    requires LanePcs(k, w') == Advanced(k, LanePcs(k, w), w.threads, ActingMask(k, w), w.pc, 0)
    requires forall l :: 0 <= l < |w.threads| && l in ActingMask(k, w) ==> LanePcs(k, w)[l] == w.pc
    ensures WarpWork(k, w') <= WarpWork(k, w)
    ensures (exists l :: 0 <= l < |w.threads| && l in ActingMask(k, w)) ==> WarpWork(k, w') < WarpWork(k, w)
    ensures (forall l :: 0 <= l < |w.threads| ==> l !in ActingMask(k, w)) ==> WarpWork(k, w') == WarpWork(k, w)
  {
    hide ActingMask, ForwardAt, LanePc;
    var a, b := LaneWork(k, w'), LaneWork(k, w);
    forall l | 0 <= l < |a|
      ensures a[l] <= b[l]
      ensures l in ActingMask(k, w) ==> a[l] < b[l]
      ensures l !in ActingMask(k, w) ==> a[l] == b[l]
    {
      NextPcForward(k, w.pc, w.threads[l]);
      assert LanePcs(k, w')[l] == LanePc(k, w', l) && LanePcs(k, w)[l] == LanePc(k, w, l);
    }
    SumPointwise(a, b);
    if forall l :: 0 <= l < |w.threads| ==> l !in ActingMask(k, w) {
      assert a == b;
    }
  }

  /** One issue by a running warp: less work, or the same work on a shallower stack. */
  lemma IssueWork(k: Code, w: WarpVal, m: MemVal, x: WarpVal)
    requires WellStructured(k) && InStep(k, w) && w.pc < |k|
    requires Execute(k[w.pc], w, m).Ok? && SameCore(x, Execute(k[w.pc], w, m).value.warp)
    requires |x.threads| == |w.threads|
    ensures var o := Execute(k[w.pc], w, m).value;
            var w' := Finish(k, x, o.status, o.latency);
            WarpWork(k, w') < WarpWork(k, w) || (WarpWork(k, w') == WarpWork(k, w) && |w'.stack| < |w.stack|)
  {
    var o := Execute(k[w.pc], w, m).value;
    var w' := Finish(k, x, o.status, o.latency);
    assert ForwardAt(k, w.pc) && GoodInstruction(k, w.pc);
    ActingOrShallower(k, w, m, x);
    hide Execute, Finish, ForwardAt, GoodInstruction, InStep, WellStructured, LanePcs, Advanced, ActingMask;
    IssuePcs(k, w, m, x);
    FinishThreads(k, x, o.status, o.latency);
    AdvanceWork(k, w, w');
  }

  lemma ActingOrShallower(k: Code, w: WarpVal, m: MemVal, x: WarpVal)
    requires Laminar(w) && Mirrors(k, w) && w.pc < |k| && GoodInstruction(k, w.pc)
    requires Execute(k[w.pc], w, m).Ok? && SameCore(x, Execute(k[w.pc], w, m).value.warp)
    ensures var o := Execute(k[w.pc], w, m).value;
            || (exists l :: 0 <= l < |w.threads| && l in ActingMask(k, w))
            || ((forall l :: 0 <= l < |w.threads| ==> l !in ActingMask(k, w)) &&
                |Finish(k, x, o.status, o.latency).stack| < |w.stack|)
  {
    if k[w.pc].opcode == SYNC {
      SyncRecognises(k, w);
      PopNested(k, w.stack);
      if Top(w).kind.Token? {
        var l :| l in Top(w).mask;
        assert l in ActingMask(k, w) && l in Lanes(w);
      }
    } else {
      var l :| l in w.mask;
      assert l in ActingMask(k, w) && l in Lanes(w);
    }
  }

  lemma SameCoreWork(k: Code, a: WarpVal, b: WarpVal)
    requires SameCore(a, b)
    ensures WarpWork(k, a) == WarpWork(k, b) && |a.stack| == |b.stack|
  {
    assert forall l :: 0 <= l < |a.threads| ==> LanePc(k, a, l) == LanePc(k, b, l);
    assert LaneWork(k, a) == LaneWork(k, b);
  }

  lemma WorksReplace(k: Code, before: seq<WarpVal>, after: seq<WarpVal>, i: nat)
    requires |before| == |after| && i < |before|
    requires forall j :: 0 <= j < |before| && j != i ==> SameCore(after[j], before[j])
    ensures Sum(Works(k, after)) + WarpWork(k, before[i]) == Sum(Works(k, before)) + WarpWork(k, after[i])
    ensures Sum(Depths(after)) + |before[i].stack| == Sum(Depths(before)) + |after[i].stack|
  {
    forall j | 0 <= j < |before| && j != i
      ensures WarpWork(k, after[j]) == WarpWork(k, before[j])
    {
      SameCoreWork(k, before[j], after[j]);
    }
    hide WarpWork, Sum;
    SumUpdate(Works(k, before), i, WarpWork(k, after[i]));
    assert Works(k, after) == Works(k, before)[i := WarpWork(k, after[i])];
    SumUpdate(Depths(before), i, |after[i].stack|);
    assert Depths(after) == Depths(before)[i := |after[i].stack|];
  }

  function Undone(w: WarpVal): nat { if w.state == Completed then 0 else 1 }

  lemma UndonesReplace(before: seq<WarpVal>, after: seq<WarpVal>, i: nat)
    requires |before| == |after| && i < |before|
    requires forall j :: 0 <= j < |before| && j != i ==> (after[j].state == Completed <==> before[j].state == Completed)
    ensures Sum(Undones(after)) + Undone(before[i]) == Sum(Undones(before)) + Undone(after[i])
  {
    hide Sum;
    SumUpdate(Undones(before), i, Undone(after[i]));
    assert Undones(after) == Undones(before)[i := Undone(after[i])];
  }

  /** Replacing one warp by one with less to do, the others keeping their cores, lowers the measure. */
  lemma OneWarpLess(k: Code, before: seq<WarpVal>, after: seq<WarpVal>, i: nat)
    requires |before| == |after| && i < |before|
    requires forall j :: 0 <= j < |before| && j != i ==>
               SameCore(after[j], before[j]) && (after[j].state == Completed <==> before[j].state == Completed)
    requires || WarpWork(k, after[i]) < WarpWork(k, before[i])
             || (WarpWork(k, after[i]) == WarpWork(k, before[i]) && |after[i].stack| < |before[i].stack|)
             || (SameCore(after[i], before[i]) && before[i].state != Completed && after[i].state == Completed)
    ensures LexBelow(MeasureOf(k, after), MeasureOf(k, before))
  {
    hide Works, Depths, Undones, StallsOf, Sum, WarpWork;
    if SameCore(after[i], before[i]) {
      SameCoreWork(k, before[i], after[i]);
    }
    WorksReplace(k, before, after, i);
    UndonesReplace(before, after, i);
  }

  /** Issuing a ready warp lowers the measure. */
  lemma IssueDecreases(k: Code, warps: seq<WarpVal>, i: nat, m: MemVal, cycle: nat)
    requires WellStructured(k) && Lively(k, warps) && i < |warps| && warps[i].state == Ready
    requires Issue(k, warps, i, m, cycle).Ok?
    ensures LexBelow(MeasureOf(k, Issue(k, warps, i, m, cycle).value.warps), MeasureOf(k, warps))
  {
    hide MeasureOf, LexBelow, WarpWork, Lockstep, SomeoneMissing, BarrierArrival, Rooted, Paced, Execute,
         GoodThroughout;
    var w := warps[i];
    var r := Issue(k, warps, i, m, cycle).value;
    assert PacedWarp(k, w);
    if w.pc >= |k| {
      OneWarpLess(k, warps, r.warps, i);
    } else {
      var o := Execute(k[w.pc], w, m).value;
      ExecuteKeepsState(k[w.pc], w, m);
      var a := Arrived(warps, i, o, cycle).value;
      if o.status == BarrierReached {
        ArrivalKeepsCores(warps[i := o.warp], i, cycle);
      }
      IssueWork(k, w, m, a[i]);
      OneWarpLess(k, warps, r.warps, i);
    }
  }

  lemma StallsDecrease(k: Code, warps: seq<WarpVal>, cycle: nat)
    ensures var a, b := MeasureOf(k, TickStalls(warps, cycle)), MeasureOf(k, warps);
            && a.work == b.work && a.depth == b.depth && a.undone == b.undone && a.stalls <= b.stalls
            && ((exists i :: 0 <= i < |warps| && warps[i].state == Stalled && warps[i].stallCycles > 0) ==>
               a.stalls < b.stalls)
  {
    var after := TickStalls(warps, cycle);
    forall i | 0 <= i < |warps|
      ensures WarpWork(k, after[i]) == WarpWork(k, warps[i])
    {
      SameCoreWork(k, warps[i], after[i]);
    }
    hide WarpWork, Sum;
    assert Works(k, after) == Works(k, warps);
    assert Depths(after) == Depths(warps);
    assert Undones(after) == Undones(warps);
    SumPointwise(StallsOf(after), StallsOf(warps));
    if i :| 0 <= i < |warps| && warps[i].state == Stalled && warps[i].stallCycles > 0 {
      assert StallsOf(after)[i] < StallsOf(warps)[i];
    }
  }

  // ---------------------------------------------------------------------------------------------
  // Work-conserving schedulers

  /** The schedulers that pick a ready warp whenever there is one; Priority ignores the lowest priority. */
  ghost predicate LiveSched(s: SchedVal, warps: seq<WarpVal>) {
    match s
    case RoundRobin(_) => true
    case Greedy => true
    case OldestFirst => true
    case Gto(_) => true
    case Priority(_) => forall i :: 0 <= i < |warps| ==> warps[i].priority > LOWEST_PRIORITY
    case TwoLevel(_, _, _) => false
    case Unset => false
  }

  lemma CyclicFinds(warps: seq<WarpVal>, next: nat, i: nat, d: nat)
    requires i <= d < |warps| && IsReady(warps[(next + d) % |warps|])
    ensures ScanCyclic(warps, next, i).Some?
    decreases d - i
  {
    if i < d { CyclicFinds(warps, next, i + 1, d); }
  }

  lemma FirstFinds(warps: seq<WarpVal>, i: nat, d: nat)
    requires i <= d < |warps| && IsReady(warps[d])
    ensures ScanFirst(warps, i).Some?
    decreases d - i
  {
    if i < d { FirstFinds(warps, i + 1, d); }
  }

  lemma OldestFinds(warps: seq<WarpVal>, i: nat, d: nat, chosen: Option<nat>)
    requires i <= d < |warps| && IsReady(warps[d])
    requires chosen.Some? ==> chosen.value < |warps| && IsReady(warps[chosen.value])
    ensures ScanOldest(warps, i, chosen).Some?
    decreases d - i
  {
    if i < d {
      if IsReady(warps[i]) && (chosen.None? || Older(warps[i], warps[chosen.value])) {
        OldestFinds(warps, i + 1, d, Some(i));
      } else {
        OldestFinds(warps, i + 1, d, chosen);
      }
    }
  }

  lemma PriorityFinds(warps: seq<WarpVal>, next: nat, i: nat, d: nat)
    requires i <= d < |warps| && IsReady(warps[(next + d) % |warps|])
    requires warps[(next + d) % |warps|].priority > LOWEST_PRIORITY
    ensures ScanPriority(warps, next, i, LOWEST_PRIORITY, None).Some?
    decreases d - i
  {
    if i < d { PriorityFinds(warps, next, i + 1, d); }
  }

  lemma SelectsSomeone(s: SchedVal, warps: seq<WarpVal>)
    requires LiveSched(s, warps) && AnyReady(warps)
    ensures Select(s, warps).warp.Some?
  {
    var i :| 0 <= i < |warps| && IsReady(warps[i]);
    match s
    case RoundRobin(next) =>
      var d := CyclicCovers(|warps|, next, i);
      CyclicFinds(warps, next, 0, d);
    case Greedy => FirstFinds(warps, 0, i);
    case OldestFirst => OldestFinds(warps, 0, i, None);
    case Gto(_) => OldestFinds(warps, 0, i, None);
    case Priority(next) =>
      var d := CyclicCovers(|warps|, next, i);
      PriorityFinds(warps, next, 0, d);
  }

  // ---------------------------------------------------------------------------------------------
  // Every run ends

  /** A tick of an unfinished SM lowers the measure. */
  lemma TickDecreases(k: Code, s: SmVal, m: MemVal)
    requires WellStructured(k) && Lively(k, s.warps) && !IsCompleted(s.warps)
    requires LiveSched(s.sched, s.warps) && Tick(k, s, m).Ok?
    ensures LexBelow(MeasureOf(k, Tick(k, s, m).value.sm.warps), MeasureOf(k, s.warps))
  {
    hide WellStructured, Lively, MeasureOf, Issue, Select, TickStalls;
    var warps := TickStalls(s.warps, s.cycles);
    TickStallsLively(k, s.warps, s.cycles);
    StallsDecrease(k, s.warps, s.cycles);
    var c := Select(s.sched, warps);
    if c.warp.Some? {
      IssueDecreases(k, warps, c.warp.value, m, s.cycles + 1);
    } else {
      SomeoneStalled(k, s);
    }
  }

  lemma SomeoneStalled(k: Code, s: SmVal)
    requires Lively(k, s.warps) && !IsCompleted(s.warps) && LiveSched(s.sched, s.warps)
    requires Lively(k, TickStalls(s.warps, s.cycles))
    requires Select(s.sched, TickStalls(s.warps, s.cycles)).warp.None?
    ensures exists i :: 0 <= i < |s.warps| && s.warps[i].state == Stalled && s.warps[i].stallCycles > 0
  {
    hide Select, Lockstep, SomeoneMissing, InStep, Rooted, Paced;
    var warps := TickStalls(s.warps, s.cycles);
    if AnyReady(warps) {
      SelectsSomeone(s.sched, warps);
    } else {
      var j :| 0 <= j < |s.warps| && s.warps[j].state != Completed;
      assert warps[j].state != Completed;
      NeverDeadlocked(k, warps, j);
      var i :| 0 <= i < |warps| && SameBlock(warps[j], warps[i]) && Awake(warps[i]);
      assert !IsReady(warps[i]);
      assert PacedWarp(k, warps[i]) && PacedWarp(k, s.warps[i]);
      assert s.warps[i].state == Stalled;
    }
  }

  lemma IssueKeepsPriorities(k: Code, warps: seq<WarpVal>, i: nat, m: MemVal, cycle: nat)
    requires i < |warps| && Issue(k, warps, i, m, cycle).Ok?
    ensures forall j :: 0 <= j < |warps| ==> Issue(k, warps, i, m, cycle).value.warps[j].priority == warps[j].priority
  {
    hide Execute;
    if warps[i].pc < |k| {
      ExecuteKeepsState(k[warps[i].pc], warps[i], m);
    }
  }

  lemma TickStallsKeepsPriorities(warps: seq<WarpVal>, cycle: nat)
    ensures forall j :: 0 <= j < |warps| ==> TickStalls(warps, cycle)[j].priority == warps[j].priority
  {
  }

  lemma TickKeepsLive(k: Code, s: SmVal, m: MemVal)
    requires LiveSched(s.sched, s.warps) && Tick(k, s, m).Ok?
    ensures LiveSched(Tick(k, s, m).value.sm.sched, Tick(k, s, m).value.sm.warps)
  {
    hide Issue, TickStalls;
    if !IsCompleted(s.warps) {
      var warps := TickStalls(s.warps, s.cycles);
      TickStallsKeepsPriorities(s.warps, s.cycles);
      var c := Select(s.sched, warps);
      if c.warp.Some? {
        IssueKeepsPriorities(k, warps, c.warp.value, m, s.cycles + 1);
      }
    }
  }

  /** `n` ticks, each on whatever memory it is handed. */
  function TicksOn(k: Code, s: SmVal, mems: nat -> MemVal, n: nat): Result<SmVal> {
    if n == 0 then Ok(s)
    else
      var s' :- TicksOn(k, s, mems, n - 1);
      var t :- Tick(k, s', mems(n - 1));
      Ok(t.sm)
  }

  /** A structured kernel under a work-conserving scheduler runs to completion whatever other SMs do to the memory
      between its ticks, unless a tick throws over data. */
  lemma Terminates(k: Code, s: SmVal, mems: nat -> MemVal) returns (n: nat)
    requires WellStructured(k) && Lively(k, s.warps) && LiveSched(s.sched, s.warps)
    ensures var r := TicksOn(k, s, mems, n);
            if r.Ok? then IsCompleted(r.value.warps) else DataError(r.error)
  {
    n := TerminatesFrom(k, s, mems, 0, MeasureOf(k, s.warps));
  }

  lemma TerminatesFrom(k: Code, s: SmVal, mems: nat -> MemVal, i: nat, left: Measure) returns (n: nat)
    requires WellStructured(k) && TicksOn(k, s, mems, i).Ok?
    requires var s' := TicksOn(k, s, mems, i).value;
             Lively(k, s'.warps) && LiveSched(s'.sched, s'.warps) && left == MeasureOf(k, s'.warps)
    ensures var r := TicksOn(k, s, mems, n);
            if r.Ok? then IsCompleted(r.value.warps) else DataError(r.error)
    decreases left.work, left.depth, left.undone, left.stalls
  {
    hide WellStructured, Lively, MeasureOf, LiveSched, Tick;
    var s' := TicksOn(k, s, mems, i).value;
    if IsCompleted(s'.warps) {
      n := i;
    } else {
      TickLively(k, s', mems(i));
      if Tick(k, s', mems(i)).Throw? {
        n := i + 1;
      } else {
        TickKeepsLive(k, s', mems(i));
        TickDecreases(k, s', mems(i));
        n := TerminatesFrom(k, s, mems, i + 1, MeasureOf(k, TicksOn(k, s, mems, i + 1).value.warps));
      }
    }
  }
}
