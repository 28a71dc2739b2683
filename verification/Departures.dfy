/** How a warp comes to the end of a kernel, and when it leaves paths behind there. */
module Departures {
  import opened Common
  import opened Isa
  import opened WarpModel
  import opened MemoryModel
  import opened SchedulingModel
  import opened ExecutorModel
  import opened SmModel
  import opened SmRefinement
  import opened Nesting

  /** The PC an instruction leaves a warp at, by the warp's PC, opcode, predicates and topmost entry. */
  function NextPlace(inst: Instruction, w: WarpVal): nat {
    match inst.opcode
    case BRANCH => if TakenMask(w) == {} then w.pc + 1 else BranchTarget(w.pc, inst.immediate)
    case SYNC => if w.stack == [] || Top(w).targetPc == w.pc then w.pc + 1 else Top(w).targetPc
    case _ => w.pc + 1
  }

  predicate Diverges(w: WarpVal) { TakenMask(w) != {} && TakenMask(w) != w.mask }

  /** The targets of the entries an instruction leaves on a warp's stack, bottom first. */
  function NextTargets(inst: Instruction, w: WarpVal): seq<nat> {
    var targets := seq(|w.stack|, i requires 0 <= i < |w.stack| => w.stack[i].targetPc);
    match inst.opcode
    case SSY => targets + [BranchTarget(w.pc, inst.immediate)]
    case BRANCH => if Diverges(w) then targets + [w.pc + 1] else targets
    case SYNC => if targets == [] then [] else targets[..|targets| - 1]
    case _ => targets
  }

  lemma ExecuteLands(inst: Instruction, w: WarpVal, m: MemVal)
    requires Execute(inst, w, m).Ok?
    ensures var w' := Execute(inst, w, m).value.warp;
            && w'.pc == NextPlace(inst, w) && |w'.stack| == |NextTargets(inst, w)|
            && forall i :: 0 <= i < |w'.stack| ==> w'.stack[i].targetPc == NextTargets(inst, w)[i]
    ensures Execute(inst, w, m).value.status == BarrierReached <==> inst.opcode == BARRIER
  {
    hide WarpLoad, WarpStore, WarpAtomicAdd, AluLanes, Scatter, LoadAddresses, WriteRequests, TakenMask;
  }

  /** Issuing the warp completes it: it is past the end, or the instruction takes it there with nothing to resume. */
  predicate Retires(k: Code, w: WarpVal) {
    w.pc >= |k| ||
    (k[w.pc].opcode != BARRIER && NextPlace(k[w.pc], w) >= |k| && NextTargets(k[w.pc], w) == [])
  }

  predicate Arrives(k: Code, w: WarpVal) { w.pc < |k| && k[w.pc].opcode == BARRIER }

  /** A ready warp completes with paths still on its stack exactly when it was fetched past the end with them. */
  lemma CompletesLeavingIff(k: Code, warps: seq<WarpVal>, i: nat, m: MemVal, cycle: nat)
    requires i < |warps| && warps[i].state == Ready && Issue(k, warps, i, m, cycle).Ok?
    ensures var w := Issue(k, warps, i, m, cycle).value.warps[i];
            w.state == Completed && w.stack != [] <==> warps[i].pc >= |k| && warps[i].stack != []
  {
    hide Execute;
    if warps[i].pc < |k| {
      ExecuteKeepsState(k[warps[i].pc], warps[i], m);
    }
  }

  /** The instruction lies beyond the end with its path and with the path it would resume, and more paths wait. */
  predicate Overruns(k: Code, w: WarpVal) {
    w.pc < |k| && NextPlace(k[w.pc], w) >= |k| &&
    var targets := NextTargets(k[w.pc], w); |targets| >= 2 && targets[|targets| - 1] >= |k|
  }

  /** The exact condition under which an instruction brings a warp there. */
  lemma BroughtPastIff(k: Code, warps: seq<WarpVal>, i: nat, m: MemVal, cycle: nat)
    requires i < |warps| && warps[i].state == Ready && warps[i].pc < |k| && Issue(k, warps, i, m, cycle).Ok?
    ensures var w := Issue(k, warps, i, m, cycle).value.warps[i];
            w.pc >= |k| && w.stack != [] <==> Overruns(k, warps[i])
  {
    hide Execute, NextPlace, NextTargets, BarrierArrival;
    var w := warps[i];
    var o := Execute(k[w.pc], w, m).value;
    ExecuteLands(k[w.pc], w, m);
    var executed := warps[i := o.warp];
    if o.status == BarrierReached { ArrivalKeepsCores(executed, i, cycle); }
  }

  /** No warp of a well-nested kernel ever completes with paths left, nor is any warp ever brought there. */
  lemma NestedLeavesNothing(k: Code, s: SmVal, m: MemVal, n: nat, i: nat)
    requires WellNested(k) && GoodWarps(k, s.warps) && Ticks(k, s, m, n).Ok? && i < |Ticks(k, s, m, n).value.sm.warps|
    ensures var w := Ticks(k, s, m, n).value.sm.warps[i]; w.pc >= |k| ==> w.stack == []
    ensures var w := Ticks(k, s, m, n).value.sm.warps[i]; w.state == Completed ==> w.stack == []
  {
    hide WellNested, Ticks;
    TicksRefine(k, s, m, n);
  }

  // ---------------------------------------------------------------------------------------------
  // A warp that does

  /** Lane 0 is to skip nothing and write 7; the others jump over its instruction, compare, and part at the end. */
  const STRANDING: seq<Instruction> := [
    Instruction(BRANCH, 0, 0, 0, 2), Instruction(MOV, 0, -1, 0, 7), Instruction(CMP, 0, 0, 1, 0),
      Instruction(BRANCH, 0, 0, 0, 1)]

  const WAITING_LANE := StackEntry({0}, 1, NO_RECONVERGENCE, Deferred)

  function Lane(first: int, taken: bool): Thread { Thread(0, [first, 0], taken) }

  function Trio(): WarpVal { FreshWarp(0, [Lane(0, false), Lane(0, true), Lane(1, true)], 0) }

  /** The trio after lanes 1 and 2 have jumped to `pc`. */
  function Jumped(pc: nat): WarpVal { Trio().(pc := pc, mask := {1, 2}, stack := [WAITING_LANE]) }

  /** After they have compared. */
  function Compared(): WarpVal { Jumped(3).(threads := [Lane(0, false), Lane(0, true), Lane(1, false)]) }

  /** Past the end on lane 2's path, with lane 0's still deferred. */
  function Stranded(): WarpVal { Compared().(pc := 4, mask := {2}) }

  function Alone(w: WarpVal, cycles: nat): SmVal { SmVal([w], [], NOTHING, cycles, Greedy) }

  lemma AloneTicks(k: Code, w: WarpVal, m: MemVal, cycles: nat)
    requires w.state == Ready
    ensures Tick(k, Alone(w, cycles), m) ==
            match Issue(k, [w], 0, m, cycles + 1)
            case Ok(o) => Ok(Ticked(SmVal(o.warps, [], NOTHING, cycles + 1, Greedy), o.mem))
            case Throw(e) => Throw(e)
  {
    hide Issue;
    var warps := [w];
    assert warps[0].state == Ready;
    assert TickStalls(warps, cycles) == warps;
    assert ScanFirst(warps, 0) == Some(0);
  }

  lemma IssuesTo(k: Code, w: WarpVal, m: MemVal, cycle: nat, o: WarpVal, w': WarpVal, status: Status)
    requires w.pc < |k| && Execute(k[w.pc], w, m) == Ok(Outcome(o, m, status, 1)) && status != BarrierReached
    requires Finish(k, o, status, 1) == w'
    ensures Issue(k, [w], 0, m, cycle) == Ok(Issued([w'], m))
  {
    hide Execute, Finish;
    assert [w][0 := o] == [o] && [o][0 := w'] == [w'];
  }

  lemma FirstBranch(m: MemVal)
    ensures Execute(STRANDING[0], Trio(), m) == Ok(Outcome(Jumped(2), m, BranchTaken, 1))
  {
    var w := Trio();
    assert w.mask == {0, 1, 2};
    assert TakenMask(w) == {1, 2};
    assert w.mask - {1, 2} == {0};
    assert [] + [WAITING_LANE] == [WAITING_LANE];
  }

  lemma Compares(m: MemVal)
    ensures Execute(STRANDING[2], Jumped(2), m) == Ok(Outcome(Compared(), m, Done, 1))
  {
    var inst, w := STRANDING[2], Jumped(2);
    var t0, t1, t2, t2' := Lane(0, false), Lane(0, true), Lane(1, true), Lane(1, false);
    assert w.threads == [t0, t1, t2];
    assert AluThread(inst, t1) == Ok(t1) && AluThread(inst, t2) == Ok(t2');
    assert [t0, t1, t2][1 := t1] == [t0, t1, t2] && [t0, t1, t2][2 := t2'] == [t0, t1, t2'];
    assert AluLanes(inst, [t0, t1, t2'], {1, 2}, 3) == Ok([t0, t1, t2']);
    assert AluLanes(inst, [t0, t1, t2], {1, 2}, 2) == Ok([t0, t1, t2']);
    assert AluLanes(inst, [t0, t1, t2], {1, 2}, 1) == Ok([t0, t1, t2']);
    assert AluLanes(inst, w.threads, w.mask, 0) == Ok([t0, t1, t2']);
  }

  lemma LastBranch(m: MemVal)
    ensures var o := Execute(STRANDING[3], Compared(), m);
            o.Ok? && o.value == Outcome(o.value.warp, m, BranchTaken, 1) &&
              Finish(STRANDING, o.value.warp, BranchTaken, 1) == Stranded()
  {
    var w := Compared();
    assert TakenMask(w) == {1};
    assert w.mask - {1} == {2};
    var deferred := StackEntry({2}, 4, NO_RECONVERGENCE, Deferred);
    var o := w.(stack := [WAITING_LANE, deferred], mask := {1}, pc := 4);
    assert [WAITING_LANE] + [deferred] == [WAITING_LANE, deferred];
    assert Execute(STRANDING[3], w, m) == Ok(Outcome(o, m, BranchTaken, 1));
    assert [WAITING_LANE, deferred][..1] == [WAITING_LANE];
  }

  /** From a fresh warp: after four ticks the SM is completed without an error, the stack still defers lane 0, and
      lane 0 has executed nothing of its path. */
  lemma CompletesWithPathsLeft(m: MemVal)
    ensures Ticks(STRANDING, Alone(Trio(), 0), m, 4).Ok?
    ensures var s := Ticks(STRANDING, Alone(Trio(), 0), m, 4).value.sm;
            && IsCompleted(s.warps) && |s.warps| == 1 && s.warps[0].stack == [WAITING_LANE]
            && |s.warps[0].threads| == 3 && s.warps[0].threads[0] == Lane(0, false)
  {
    hide Issue, Tick, Finish, Execute;
    var k: Code := STRANDING;
    FirstBranch(m);
    Compares(m);
    LastBranch(m);
    StaysShort(k, Jumped(2), BranchTaken);
    StaysShort(k, Compared(), Done);
    var o := Execute(k[3], Compared(), m).value.warp;
    IssuesTo(k, Trio(), m, 1, Jumped(2), Jumped(2), BranchTaken);
    IssuesTo(k, Jumped(2), m, 2, Compared(), Compared(), Done);
    IssuesTo(k, Compared(), m, 3, o, Stranded(), BranchTaken);
    Retired(k, m);
    AloneTicks(k, Trio(), m, 0);
    AloneTicks(k, Jumped(2), m, 1);
    AloneTicks(k, Compared(), m, 2);
    AloneTicks(k, Stranded(), m, 3);
    assert Ticks(k, Alone(Trio(), 0), m, 0) == Ok(Ticked(Alone(Trio(), 0), m));
    assert Ticks(k, Alone(Trio(), 0), m, 1) == Ok(Ticked(Alone(Jumped(2), 1), m));
    assert Ticks(k, Alone(Trio(), 0), m, 2) == Ok(Ticked(Alone(Compared(), 2), m));
    assert Ticks(k, Alone(Trio(), 0), m, 3) == Ok(Ticked(Alone(Stranded(), 3), m));
  }

  lemma StaysShort(k: Code, w: WarpVal, status: Status)
    requires w.pc < |k|
    ensures Finish(k, w, status, 1) == w
  {
  }

  lemma Retired(k: Code, m: MemVal)
    requires |k| == 4
    ensures Issue(k, [Stranded()], 0, m, 4) == Ok(Issued([Stranded().(state := Completed)], m))
  {
    assert [Stranded()][0 := Stranded().(state := Completed)] == [Stranded().(state := Completed)];
  }

  /** Run alone, the same lane writes 7. */
  lemma AloneLaneWrites(d: Data)
    ensures RunSolo(STRANDING, Solo(0, Lane(0, false)), d, 4) == Ok(Solo(4, Lane(7, false)))
  {
    var k: Code := STRANDING;
    assert StepSolo(k, Solo(0, Lane(0, false)), d) == Ok(Solo(1, Lane(0, false)));
    assert [0, 0][0 := 7] == [7, 0];
    assert StepSolo(k, Solo(1, Lane(0, false)), d) == Ok(Solo(2, Lane(7, false)));
    assert StepSolo(k, Solo(2, Lane(7, false)), d) == Ok(Solo(3, Lane(7, false)));
    assert StepSolo(k, Solo(3, Lane(7, false)), d) == Ok(Solo(4, Lane(7, false)));
    hide StepSolo;
    assert RunSolo(k, Solo(0, Lane(0, false)), d, 0) == Ok(Solo(0, Lane(0, false)));
    assert RunSolo(k, Solo(0, Lane(0, false)), d, 1) == Ok(Solo(1, Lane(0, false)));
    assert RunSolo(k, Solo(0, Lane(0, false)), d, 2) == Ok(Solo(2, Lane(7, false)));
    assert RunSolo(k, Solo(0, Lane(0, false)), d, 3) == Ok(Solo(3, Lane(7, false)));
  }
}
