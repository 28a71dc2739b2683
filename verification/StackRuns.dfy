/** The SIMT-stack invariants over whole runs of an SM, for every kernel whatever its shape. */
module StackRuns {
  import opened Isa
  import opened WarpModel
  import opened MemoryModel
  import opened ExecutorModel
  import opened SchedulingModel
  import opened SimtStack
  import opened SmModel
  import opened SmRefinement

  /** Every warp's masks are laminar and its reconvergence PC is the innermost token's target. */
  ghost predicate Stacked(warps: seq<WarpVal>) {
    forall i :: 0 <= i < |warps| ==> Laminar(warps[i]) && Chained(warps[i])
  }

  lemma SameCoreStacked(a: WarpVal, b: WarpVal)
    requires SameCore(a, b) && Laminar(a) && Chained(a)
    ensures Laminar(b) && Chained(b)
  {
  }

  lemma IssueStacked(k: Code, warps: seq<WarpVal>, i: nat, m: MemVal, cycle: nat)
    requires Stacked(warps) && i < |warps| && Issue(k, warps, i, m, cycle).Ok?
    ensures Stacked(Issue(k, warps, i, m, cycle).value.warps)
  {
    hide Execute, BarrierArrival, Finish, Laminar, Chained;
    var w := warps[i];
    SameCoreStacked(w, w.(state := Completed));
    if w.pc < |k| {
      var o := Execute(k[w.pc], w, m).value;
      ExecuteInvariants(k[w.pc], w, m);
      var executed := warps[i := o.warp];
      var arrived := if o.status == BarrierReached then BarrierArrival(executed, i, cycle).value else executed;
      if o.status == BarrierReached {
        ArrivalKeepsCores(executed, i, cycle);
      }
      forall j | 0 <= j < |warps|
        ensures Laminar(arrived[j]) && Chained(arrived[j])
      {
        if o.status == BarrierReached { SameCoreStacked(executed[j], arrived[j]); }
      }
      FinishInvariants(k, arrived[i], o.status, o.latency);
    }
  }

  lemma TickStacked(k: Code, s: SmVal, m: MemVal)
    requires Stacked(s.warps) && Tick(k, s, m).Ok?
    ensures Stacked(Tick(k, s, m).value.sm.warps)
  {
    hide Issue, Laminar, Chained, Select;
    if !IsCompleted(s.warps) {
      var warps := TickStalls(s.warps, s.cycles);
      forall i | 0 <= i < |warps|
        ensures Laminar(warps[i]) && Chained(warps[i])
      {
        SameCoreStacked(s.warps[i], warps[i]);
      }
      var c := Select(s.sched, warps);
      if c.warp.Some? {
        IssueStacked(k, warps, c.warp.value, m, s.cycles + 1);
      }
    }
  }

  /** In every reachable state of every kernel: stack masks are laminar, the reconvergence PC is that of the innermost
      token, and at most one deferred path per lane but one is stacked. */
  lemma {:induction false} RunsStacked(k: Code, s: SmVal, m: MemVal, n: nat, i: nat)
    requires Stacked(s.warps) && Ticks(k, s, m, n).Ok?
    ensures var warps := Ticks(k, s, m, n).value.sm.warps;
            Stacked(warps) && (i < |warps| ==> DeferredPaths(warps[i].stack) < |warps[i].threads|)
  {
    hide Tick, Laminar, Chained, DeferredPaths;
    if n > 0 {
      RunsStacked(k, s, m, n - 1, i);
      var t := Ticks(k, s, m, n - 1).value;
      TickStacked(k, t.sm, t.mem);
    }
    var warps := Ticks(k, s, m, n).value.sm.warps;
    if i < |warps| { DeferredBound(warps[i]); }
  }
}
