/** How long an issued instruction keeps its warp from being offered to the scheduler again. */
module Stalls {
  import opened Common
  import opened Isa
  import opened WarpModel
  import opened MemoryModel
  import opened SchedulingModel
  import opened ExecutorModel
  import opened SmModel
  import opened SmRefinement
  import opened Termination

  /** The warps a tick offers to its scheduler. */
  function Offered(s: SmVal): (r: seq<WarpVal>)
    ensures |r| == |s.warps|
  {
    TickStalls(s.warps, s.cycles)
  }

  /** A tick that selects the warp at `i` and executes its instruction with outcome `o`. */
  ghost predicate Issues(k: Code, s: SmVal, m: MemVal, i: nat, o: Outcome) {
    && !IsCompleted(s.warps) && i < |s.warps| && Select(s.sched, Offered(s)).warp == Some(i)
    && Offered(s)[i].pc < |k| && Execute(k[Offered(s)[i].pc], Offered(s)[i], m) == Ok(o)
    && Tick(k, s, m).Ok?
  }

  /** The warp's next instruction lies in the kernel, and it has not just reached a barrier. */
  predicate GoesOn(k: Code, o: Outcome) { o.status != BarrierReached && o.warp.pc < |k| }

  lemma IssueStalls(k: Code, s: SmVal, m: MemVal, i: nat, o: Outcome)
    requires Issues(k, s, m, i, o) && GoesOn(k, o)
    ensures var s' := Tick(k, s, m).value.sm;
            && |s'.warps| == |s.warps| && s'.cycles == s.cycles + 1 && o.warp.state == Ready
            && s'.warps[i] == (if o.latency > 1 then o.warp.(state := Stalled,
               stallCycles := o.latency - 1) else o.warp)
  {
    hide Select, Execute, TickStalls;
    ExecuteKeepsState(k[Offered(s)[i].pc], Offered(s)[i], m);
  }

  lemma ArrivalSpares(warps: seq<WarpVal>, j: nat, i: nat, cycle: nat)
    requires j < |warps| && i < |warps| && i != j && warps[i].state != StalledAtBarrier
    requires BarrierArrival(warps, j, cycle).Ok?
    ensures BarrierArrival(warps, j, cycle).value[i] == warps[i]
  {
  }

  /** A tick leaves a warp that is not ready, and waits at no barrier, to its countdown. */
  lemma TickSpares(k: Code, s: SmVal, m: MemVal, i: nat)
    requires i < |s.warps| && Offered(s)[i].state == Stalled && Tick(k, s, m).Ok?
    ensures var s' := Tick(k, s, m).value.sm;
            |s'.warps| == |s.warps| && s'.warps[i] == Offered(s)[i] && s'.cycles == s.cycles + 1
  {
    hide Select, Execute, BlockWaiting, SomeCompleted;
    assert s.warps[i].state != Completed;
    var c := Select(s.sched, Offered(s));
    if c.warp.Some? {
      var j := c.warp.value;
      var w := Offered(s)[j];
      if w.pc < |k| {
        var o := Execute(k[w.pc], w, m).value;
        var executed := Offered(s)[j := o.warp];
        if o.status == BarrierReached { ArrivalSpares(executed, j, i, s.cycles + 1); }
      }
    }
  }

  /** After `j` more ticks. */
  lemma {:induction false} CountsDown(k: Code, s: SmVal, mems: nat -> MemVal, i: nat, n: nat, j: nat)
    requires i < |s.warps| && s.warps[i].state == Stalled && s.warps[i].stallCycles == n
    requires j < n && TicksOn(k, s, mems, j).Ok?
    ensures var s' := TicksOn(k, s, mems, j).value;
            && |s'.warps| == |s.warps| && s'.cycles == s.cycles + j
            && s'.warps[i] == s.warps[i].(stallCycles := n - j)
    decreases j
  {
    hide Tick;
    if j > 0 {
      CountsDown(k, s, mems, i, n, j - 1);
      TickSpares(k, TicksOn(k, s, mems, j - 1).value, mems(j - 1), i);
    }
  }

  /** The latency of an instruction, in ticks: a warp issued with outcome latency L > 1 that goes on in the kernel is
      stalled after each of the following L - 2 ticks, whatever the other warps, the other SMs and the scheduler do;
      until then it is not offered as ready, and in tick L - 1 it is, ready since that tick's cycle. */
  lemma LatencyHolds(k: Code, s: SmVal, m: MemVal, i: nat, o: Outcome, mems: nat -> MemVal, j: nat)
    requires Issues(k, s, m, i, o) && GoesOn(k, o) && o.latency > 1
    requires j <= o.latency - 2 && TicksOn(k, Tick(k, s, m).value.sm, mems, j).Ok?
    ensures var s' := TicksOn(k, Tick(k, s, m).value.sm, mems, j).value;
            && |s'.warps| == |s.warps| && s'.cycles == s.cycles + 1 + j
            && s'.warps[i] == o.warp.(state := Stalled, stallCycles := o.latency - 1 - j)
            && Offered(s')[i] == if j < o.latency - 2 then o.warp.(state := Stalled, stallCycles := o.latency - 2 - j)
                                 else o.warp.(state := Ready, stallCycles := 0, readySince := s.cycles + 1 + j)
  {
    hide Tick, Select, Execute;
    IssueStalls(k, s, m, i, o);
    CountsDown(k, Tick(k, s, m).value.sm, mems, i, o.latency - 1, j);
  }

  /** A warp issued with latency one at most is offered as ready in the next tick, ready since it was before. */
  lemma NoLatency(k: Code, s: SmVal, m: MemVal, i: nat, o: Outcome)
    requires Issues(k, s, m, i, o) && GoesOn(k, o) && o.latency <= 1
    ensures |Tick(k, s, m).value.sm.warps| == |s.warps|
    ensures Offered(Tick(k, s, m).value.sm)[i] == o.warp && o.warp.state == Ready
  {
    hide Tick, Select, Execute;
    IssueStalls(k, s, m, i, o);
  }

  // ---------------------------------------------------------------------------------------------
  // Barriers

  /** Every other warp of the block of the warp at `i` waits at a barrier. */
  predicate OthersWait(warps: seq<WarpVal>, i: nat)
    requires i < |warps|
  {
    forall j :: 0 <= j < |warps| && j != i && Belongs(warps[j], BarrierKey(warps[i])) ==>
      warps[j].state == StalledAtBarrier
  }

  lemma BarrierOutcome(inst: Instruction, w: WarpVal, m: MemVal)
    requires Execute(inst, w, m).Ok? && Execute(inst, w, m).value.status == BarrierReached
    ensures Execute(inst, w, m) == Ok(Outcome(w.(pc := w.pc + 1), m, BarrierReached, 1))
  {
    hide WarpLoad, WarpStore, WarpAtomicAdd, AluLanes, Scatter, LoadAddresses, WriteRequests;
  }

  /** What an arrival makes of the warp at `j`. */
  lemma ArrivalTiming(warps: seq<WarpVal>, i: nat, cycle: nat, j: nat)
    requires i < |warps| && j < |warps| && warps[i].threads != [] && BarrierArrival(warps, i, cycle).Ok?
    ensures var w, w' := warps[j], BarrierArrival(warps, i, cycle).value[j];
            if OthersWait(warps, i) then
              if Belongs(w, BarrierKey(warps[i])) then w'.state == Ready && w'.readySince == cycle && w'.pc == w.pc
              else w' == w
            else if j == i then w'.state == StalledAtBarrier && w'.pc == w.pc
            else w' == w
  {
    var key, arrived := BarrierKey(warps[i]), warps[i := ArriveAtBarrier(warps[i])];
    if OthersWait(warps, i) {
      assert BlockWaiting(arrived, key) && !SomeCompleted(arrived, key);
    } else {
      NotAllWait(warps, i);
    }
  }

  lemma NotAllWait(warps: seq<WarpVal>, i: nat)
    requires i < |warps| && !OthersWait(warps, i)
    ensures var key, arrived := BarrierKey(warps[i]), warps[i := ArriveAtBarrier(warps[i])];
            BlockWaiting(arrived, key) ==> SomeCompleted(arrived, key)
  {
    var x :| 0 <= x < |warps| && x != i && Belongs(warps[x], BarrierKey(warps[i])) &&
      warps[x].state != StalledAtBarrier;
    assert warps[i := ArriveAtBarrier(warps[i])][x] == warps[x];
  }

  /** A warp that arrives while another of its block runs on waits and changes nobody else; the last to arrive opens the
      barrier: it and every warp of its block that waits are ready since the tick's cycle, and nobody else changes. */
  lemma BarrierTiming(k: Code, s: SmVal, m: MemVal, i: nat, o: Outcome, j: nat)
    requires Issues(k, s, m, i, o) && o.status == BarrierReached && o.warp.pc < |k|
    requires Offered(s)[i].threads != [] && j < |s.warps|
    ensures |Tick(k, s, m).value.sm.warps| == |s.warps|
    ensures var w, w' := Offered(s)[j], Tick(k, s, m).value.sm.warps[j];
            if OthersWait(Offered(s), i) then
              if Belongs(w, BarrierKey(Offered(s)[i])) then
                w'.state == Ready && w'.readySince == s.cycles + 1 && w'.pc == (if j == i then w.pc + 1 else w.pc)
              else w' == w
            else if j == i then w'.state == StalledAtBarrier && w'.pc == w.pc + 1
            else w' == w
  {
    BarrierOutcome(k[Offered(s)[i].pc], Offered(s)[i], m);
    var executed := Offered(s)[i := o.warp];
    assert OthersWait(executed, i) <==> OthersWait(Offered(s), i) by {
      forall x | 0 <= x < |executed| && x != i
        ensures executed[x] == Offered(s)[x]
      {
      }
    }
    hide Select, Execute, BarrierArrival, TickStalls;
    ArrivalTiming(executed, i, s.cycles + 1, j);
    ArrivalTiming(executed, i, s.cycles + 1, i);
  }
}
