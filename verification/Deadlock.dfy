/** When a block can be left waiting at a barrier for ever, for any kernel. */
module Deadlock {
  import opened Isa
  import opened WarpModel
  import opened MemoryModel
  import opened ExecutorModel
  import opened SchedulingModel
  import opened SmModel
  import opened SmRefinement
  import opened Barriers
  import opened Departures

  predicate SomeWaiting(warps: seq<WarpVal>, id: nat) {
    exists i :: 0 <= i < |warps| && Belongs(warps[i], id) && warps[i].state == StalledAtBarrier
  }

  /** Some warp of the block waits at a barrier, and no warp of the block can ever arrive at it. */
  predicate BlockStuck(warps: seq<WarpVal>, id: nat) { BlockWaiting(warps, id) && SomeWaiting(warps, id) }

  /** The warp at `i` is the last of its block that neither waits nor has completed, and some warp waits. */
  predicate LastAwake(warps: seq<WarpVal>, i: nat, id: nat)
    requires i < |warps|
  {
    && Belongs(warps[i], id)
    && (forall j :: 0 <= j < |warps| && j != i && Belongs(warps[j], id) ==>
          warps[j].state == Completed || warps[j].state == StalledAtBarrier)
    && (exists j :: 0 <= j < |warps| && j != i && Belongs(warps[j], id) && warps[j].state == StalledAtBarrier)
  }

  /** Replacing a ready warp strands its block exactly when it completes as the last one awake. */
  lemma ReplaceStrands(warps: seq<WarpVal>, i: nat, w: WarpVal, id: nat)
    requires i < |warps| && warps[i].state == Ready && BlockOf(w) == BlockOf(warps[i]) && w.state != StalledAtBarrier
    requires !BlockStuck(warps, id)
    ensures BlockStuck(warps[i := w], id) <==> w.state == Completed && LastAwake(warps, i, id)
  {
    var after := warps[i := w];
    assert forall j :: 0 <= j < |warps| && j != i ==> after[j] == warps[j];
    if BlockStuck(after, id) {
      var j :| 0 <= j < |after| && Belongs(after[j], id) && after[j].state == StalledAtBarrier;
      assert warps[j] == after[j];
      assert after[i] == w;
    }
  }

  /** An issue that is not a barrier arrival replaces one warp, and completes it exactly when it retires. */
  lemma PlainIssue(k: Code, warps: seq<WarpVal>, i: nat, m: MemVal, cycle: nat)
    requires i < |warps| && warps[i].state == Ready && Issue(k, warps, i, m, cycle).Ok? && !Arrives(k, warps[i])
    ensures var after := Issue(k, warps, i, m, cycle).value.warps;
            && after == warps[i := after[i]] && BlockOf(after[i]) == BlockOf(warps[i])
            && after[i].state != StalledAtBarrier && (after[i].state == Completed <==> Retires(k, warps[i]))
  {
    hide Execute, NextPlace, NextTargets;
    if warps[i].pc < |k| {
      ExecuteLands(k[warps[i].pc], warps[i], m);
      ExecuteBlock(k[warps[i].pc], warps[i], m);
      ExecuteKeepsState(k[warps[i].pc], warps[i], m);
    }
  }

  /** The last to arrive releases the block or reports the error. */
  lemma ArrivalNotStuck(warps: seq<WarpVal>, i: nat, cycle: nat, id: nat)
    requires i < |warps| && warps[i].threads != [] && BarrierArrival(warps, i, cycle).Ok? && !BlockStuck(warps, id)
    ensures var after := BarrierArrival(warps, i, cycle).value;
            if id == BarrierKey(warps[i]) then !BlockWaiting(after, id) || !SomeWaiting(after, id)
            else !BlockStuck(after, id)
  {
    var after := BarrierArrival(warps, i, cycle).value;
    if id != BarrierKey(warps[i]) {
      assert forall j :: 0 <= j < |warps| && Belongs(warps[j], id) ==> after[j] == warps[j];
      assert forall j :: 0 <= j < |warps| ==> (Belongs(after[j], id) <==> Belongs(warps[j], id));
    }
  }

  lemma ArrivalIssue(k: Code, warps: seq<WarpVal>, i: nat, m: MemVal, cycle: nat, id: nat)
    requires i < |warps| && warps[i].state == Ready && warps[i].threads != [] && Arrives(k, warps[i])
    requires Issue(k, warps, i, m, cycle).Ok? && !BlockStuck(warps, id)
    ensures !BlockStuck(Issue(k, warps, i, m, cycle).value.warps, id) && !Retires(k, warps[i])
  {
    hide Execute, NextPlace, NextTargets;
    var w := warps[i];
    var o := Execute(k[w.pc], w, m).value;
    ExecuteLands(k[w.pc], w, m);
    ExecuteBlock(k[w.pc], w, m);
    ExecuteKeepsState(k[w.pc], w, m);
    var executed := warps[i := o.warp];
    var arrived := BarrierArrival(executed, i, cycle).value;
    ReplaceStrands(warps, i, o.warp, id);
    ArrivalNotStuck(executed, i, cycle, id);
    var after := Issue(k, warps, i, m, cycle).value.warps;
    assert forall j :: 0 <= j < |warps| && j != i ==> after[j] == arrived[j];
  }

  /** The exact condition under which an issue strands a block: the issued warp completes while every other unfinished
      warp of its block waits at a barrier.  No error is reported. */
  lemma StrandsIff(k: Code, warps: seq<WarpVal>, i: nat, m: MemVal, cycle: nat, id: nat)
    requires i < |warps| && warps[i].state == Ready && warps[i].threads != []
    requires Issue(k, warps, i, m, cycle).Ok? && !BlockStuck(warps, id)
    ensures BlockStuck(Issue(k, warps, i, m, cycle).value.warps, id) <==>
            Retires(k, warps[i]) && LastAwake(warps, i, id)
  {
    hide BlockStuck, LastAwake, Execute, Retires;
    var after := Issue(k, warps, i, m, cycle).value.warps;
    if Arrives(k, warps[i]) {
      ArrivalIssue(k, warps, i, m, cycle, id);
    } else {
      PlainIssue(k, warps, i, m, cycle);
      ReplaceStrands(warps, i, after[i], id);
    }
  }

  ghost predicate AllThreaded(warps: seq<WarpVal>) { forall i :: 0 <= i < |warps| ==> warps[i].threads != [] }

  /** The warps of the block are the same in `a` and `b`. */
  ghost predicate SameOfBlock(a: seq<WarpVal>, b: seq<WarpVal>, id: nat) {
    |a| == |b| && forall i :: 0 <= i < |a| && (Belongs(a[i], id) || Belongs(b[i], id)) ==> a[i] == b[i]
  }

  lemma IssueElsewhere(k: Code, warps: seq<WarpVal>, i: nat, m: MemVal, cycle: nat, id: nat)
    requires i < |warps| && AllThreaded(warps) && !Belongs(warps[i], id) && Issue(k, warps, i, m, cycle).Ok?
    ensures var after := Issue(k, warps, i, m, cycle).value.warps; AllThreaded(after) && SameOfBlock(warps, after, id)
  {
    hide Execute;
    if warps[i].pc < |k| {
      ExecuteBlock(k[warps[i].pc], warps[i], m);
      ExecuteKeepsState(k[warps[i].pc], warps[i], m);
    }
  }

  lemma StuckTickElsewhere(k: Code, s: SmVal, m: MemVal, id: nat)
    requires AllThreaded(s.warps) && BlockStuck(s.warps, id) && Tick(k, s, m).Ok?
    ensures var after := Tick(k, s, m).value.sm.warps; AllThreaded(after) && SameOfBlock(s.warps, after, id)
  {
    hide Issue, Select;
    if !IsCompleted(s.warps) {
      var warps := TickStalls(s.warps, s.cycles);
      assert SameOfBlock(s.warps, warps, id);
      var c := Select(s.sched, warps);
      if c.warp.Some? {
        IssueElsewhere(k, warps, c.warp.value, m, s.cycles + 1, id);
      }
    }
  }

  /** A stranded block stays as it is for ever, whatever the other blocks of the SM do, and keeps the SM from
      completing. */
  lemma {:induction false} StrandedForever(k: Code, s: SmVal, m: MemVal, n: nat, id: nat)
    requires AllThreaded(s.warps) && BlockStuck(s.warps, id) && Ticks(k, s, m, n).Ok?
    ensures var after := Ticks(k, s, m, n).value.sm.warps;
            AllThreaded(after) && SameOfBlock(s.warps, after, id) && BlockStuck(after, id) && !IsCompleted(after)
  {
    hide Tick, AllThreaded;
    if n > 0 {
      StrandedForever(k, s, m, n - 1, id);
      var t := Ticks(k, s, m, n - 1).value;
      StuckTickElsewhere(k, t.sm, t.mem, id);
    }
    var after := Ticks(k, s, m, n).value.sm.warps;
    var i :| 0 <= i < |s.warps| && Belongs(s.warps[i], id) && s.warps[i].state == StalledAtBarrier;
    assert after[i] == s.warps[i];
  }
}
