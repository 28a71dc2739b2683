/** The GPU: dispatch of a grid's blocks to its SMs and the loop that ticks them until all is done. */
module GpuModel {
  import opened Common
  import opened Isa
  import opened CacheModel
  import opened MemoryModel
  import opened SmModel

  /** An SM with the memories it owns. */
  datatype CoreVal = CoreVal(sm: SmVal, shared: seq<int>, l1: CacheVal)

  /** `placement` records the SM each admitted block went to; like the marks on warps the machine never reads it. */
  datatype GpuVal = GpuVal(
    cores: seq<CoreVal>, l2: CacheVal, global: seq<int>, banks: nat, latencies: Latencies,
    pending: seq<ThreadBlock>, next: nat, limits: Limits, needs: Needs, placement: seq<nat>)

  /** The memory system `run_to_completion` builds around SM `c` for one tick. */
  function MemoryOf(g: GpuVal, c: CoreVal): MemVal {
    MemVal(Data(c.shared, g.global), g.banks, c.l1, g.l2, g.latencies)
  }

  datatype Admitted = Admitted(sm: SmVal, next: nat)

  /** Admit pending blocks, in order, while the next one fits. */
  function Admit(s: SmVal, pending: seq<ThreadBlock>, next: nat, limits: Limits, needs: Needs): (r: Result<Admitted>)
    ensures r.Ok? ==> next <= r.value.next && (next <= |pending| ==> r.value.next <= |pending|)
    decreases |pending| - next
  {
    if next >= |pending| then Ok(Admitted(s, next))
    else if CanAdmit(s.usage, pending[next], limits, needs) then
      Admit(AllocateBlock(s, pending[next], needs), pending, next + 1, limits, needs)
    else if s.usage.blocks == 0 then Throw(ImpossibleBlock)
    else Ok(Admitted(s, next))
  }

  /** Give SM `i` what fits it after `s` has been made of its state. */
  function AdmitTo(g: GpuVal, i: nat, s: SmVal): Result<GpuVal>
    requires i < |g.cores|
  {
    var a :- Admit(s, g.pending, g.next, g.limits, g.needs);
    Ok(g.(cores := g.cores[i := g.cores[i].(sm := a.sm)], next := a.next,
          placement := g.placement + seq(a.next - g.next, _ => i)))
  }

  /** The initial dispatch, from SM `i` on. */
  function DispatchFrom(g: GpuVal, i: nat): (r: Result<GpuVal>)
    ensures r.Ok? ==> |r.value.cores| == |g.cores|
    decreases |g.cores| - i
  {
    if i >= |g.cores| then Ok(g)
    else
      var g' :- AdmitTo(g, i, ClearWarps(g.cores[i].sm));
      DispatchFrom(g', i + 1)
  }

  /** `launch_kernel`. */
  function Launch(g: GpuVal, grid: seq<ThreadBlock>, limits: Limits, needs: Needs): Result<GpuVal> {
    DispatchFrom(g.(pending := grid, next := 0, limits := limits, needs := needs, placement := []), 0)
  }

  /** Phase 1 of one iteration, from SM `i` on: release completed blocks and admit pending ones. */
  function Refill(g: GpuVal, i: nat): (r: Result<GpuVal>)
    ensures r.Ok? ==> |r.value.cores| == |g.cores|
    decreases |g.cores| - i
  {
    if i >= |g.cores| then Ok(g)
    else
      var g' :- AdmitTo(g, i, ReleaseCompleted(g.cores[i].sm));
      Refill(g', i + 1)
  }

  /** One SM's tick on the shared memory. */
  function TickCore(k: Code, g: GpuVal, i: nat): (r: Result<GpuVal>)
    requires i < |g.cores|
    ensures r.Ok? ==> |r.value.cores| == |g.cores|
  {
    var c := g.cores[i];
    var t :- Tick(k, c.sm, MemoryOf(g, c));
    Ok(g.(cores := g.cores[i := CoreVal(t.sm, t.mem.data.shared, t.mem.l1)], l2 := t.mem.l2,
      global := t.mem.data.global))
  }

  /** Phase 2, from SM `i` on: tick every SM that has not completed. */
  function TickAll(k: Code, g: GpuVal, i: nat): (r: Result<GpuVal>)
    ensures r.Ok? ==> |r.value.cores| == |g.cores|
    decreases |g.cores| - i
  {
    if i >= |g.cores| then Ok(g)
    else if IsCompleted(g.cores[i].sm.warps) then TickAll(k, g, i + 1)
    else
      var g' :- TickCore(k, g, i);
      TickAll(k, g', i + 1)
  }

  predicate AllCompleted(g: GpuVal) {
    forall i :: 0 <= i < |g.cores| ==> IsCompleted(g.cores[i].sm.warps)
  }

  datatype Iterated = Iterated(gpu: GpuVal, done: bool)

  /** One iteration of the loop; it is the last when no SM needed a tick. */
  function Iterate(k: Code, g: GpuVal): Result<Iterated> {
    var g' :- Refill(g, 0);
    var g'' :- TickAll(k, g', 0);
    Ok(Iterated(g'', AllCompleted(g')))
  }

  /** `run_to_completion`, for at most `n` iterations. */
  function RunToCompletion(k: Code, g: GpuVal, n: nat): Result<Iterated>
    decreases n
  {
    if n == 0 then Ok(Iterated(g, false))
    else
      var it :- Iterate(k, g);
      if it.done then Ok(it) else RunToCompletion(k, it.gpu, n - 1)
  }
}
