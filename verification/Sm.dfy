/** One streaming multiprocessor: residency, barriers and the clock tick, as functions on its state. */
module SmModel {
  import opened Common
  import opened Isa
  import opened WarpModel
  import opened MemoryModel
  import opened ExecutorModel
  import opened SchedulingModel

  datatype ResidentBlock = ResidentBlock(blockId: nat, threads: nat, warps: nat, registers: nat, sharedMemory: nat)

  /** The occupancy limits of a configuration. */
  datatype Limits = Limits(blocks: nat, warps: nat, threads: nat, registers: nat, sharedMemory: nat)

  /** A kernel's resource requirements. */
  datatype Needs = Needs(registersPerThread: nat, sharedPerBlock: nat)

  datatype Usage = Usage(blocks: int, warps: int, threads: int, registers: int, sharedMemory: int)

  const NOTHING := Usage(0, 0, 0, 0, 0)

  datatype ThreadBlock = ThreadBlock(id: nat, warps: seq<WarpVal>)

  datatype SmVal = SmVal(
    warps: seq<WarpVal>, resident: seq<ResidentBlock>, usage: Usage, cycles: nat, sched: SchedVal)

  predicate Belongs(w: WarpVal, blockId: nat) { BlockOf(w) == Some(blockId) }

  predicate IsCompleted(warps: seq<WarpVal>) {
    forall i :: 0 <= i < |warps| ==> warps[i].state == Completed
  }

  // ---------------------------------------------------------------------------------------------
  // Residency

  function ThreadCount(warps: seq<WarpVal>): nat {
    if warps == [] then 0 else ThreadCount(warps[..|warps| - 1]) + |warps[|warps| - 1].threads|
  }

  /** What a block takes while resident. */
  function Footprint(b: ThreadBlock, needs: Needs): ResidentBlock {
    ResidentBlock(b.id, ThreadCount(b.warps), |b.warps|, ThreadCount(b.warps) * needs.registersPerThread,
      needs.sharedPerBlock)
  }

  function Add(a: Usage, r: ResidentBlock): Usage {
    Usage(a.blocks + 1, a.warps + r.warps, a.threads + r.threads, a.registers + r.registers,
              a.sharedMemory + r.sharedMemory)
  }

  function Remove(a: Usage, r: ResidentBlock): Usage {
    Usage(a.blocks - 1, a.warps - r.warps, a.threads - r.threads, a.registers - r.registers,
              a.sharedMemory - r.sharedMemory)
  }

  predicate Within(a: Usage, limits: Limits) {
    && a.blocks <= limits.blocks && a.warps <= limits.warps && a.threads <= limits.threads
    && a.registers <= limits.registers && a.sharedMemory <= limits.sharedMemory
  }

  predicate CanAdmit(a: Usage, b: ThreadBlock, limits: Limits, needs: Needs) {
    Within(Add(a, Footprint(b, needs)), limits)
  }

  function AllocateBlock(s: SmVal, b: ThreadBlock, needs: Needs): SmVal {
    var r := Footprint(b, needs);
    s.(warps := s.warps + b.warps, resident := s.resident + [r], usage := Add(s.usage, r))
  }

  predicate BlockCompleted(warps: seq<WarpVal>, blockId: nat) {
    forall i :: 0 <= i < |warps| && Belongs(warps[i], blockId) ==> warps[i].state == Completed
  }

  function WithoutBlock(warps: seq<WarpVal>, blockId: nat): seq<WarpVal> {
    if warps == [] then []
    else
      var last := warps[|warps| - 1];
      WithoutBlock(warps[..|warps| - 1], blockId) + (if Belongs(last, blockId) then [] else [last])
  }

  /** `release_completed_blocks` from the resident block at `i` on. */
  function ReleaseFrom(s: SmVal, i: nat): SmVal
    requires i <= |s.resident|
    decreases |s.resident| - i
  {
    if i == |s.resident| then s
    else
      var r := s.resident[i];
      if BlockCompleted(s.warps, r.blockId) then
        ReleaseFrom(s.(warps := WithoutBlock(s.warps, r.blockId),
                       resident := s.resident[..i] + s.resident[i + 1..],
                       usage := Remove(s.usage, r)), i)
      else ReleaseFrom(s, i + 1)
  }

  function ReleaseCompleted(s: SmVal): SmVal { ReleaseFrom(s, 0) }

  function ClearWarps(s: SmVal): SmVal { s.(warps := [], resident := [], usage := NOTHING) }

  // ---------------------------------------------------------------------------------------------
  // Barriers

  /** The block id a barrier is keyed on; a warp without threads counts as block 0. */
  function BarrierKey(w: WarpVal): nat { if w.threads == [] then 0 else w.threads[0].blockId }

  predicate BlockWaiting(warps: seq<WarpVal>, blockId: nat) {
    forall i :: 0 <= i < |warps| && Belongs(warps[i], blockId) ==>
      warps[i].state == Completed || warps[i].state == StalledAtBarrier
  }

  predicate SomeCompleted(warps: seq<WarpVal>, blockId: nat) {
    exists i :: 0 <= i < |warps| && Belongs(warps[i], blockId) && warps[i].state == Completed
  }

  function ReleaseBlock(warps: seq<WarpVal>, blockId: nat, cycle: nat): (r: seq<WarpVal>)
    ensures |r| == |warps|
  {
    seq(|warps|, i requires 0 <= i < |warps| =>
      if Belongs(warps[i], blockId) && warps[i].state == StalledAtBarrier then ReleaseFromBarrier(warps[i], cycle)
      else warps[i])
  }

  /** `handle_barrier_arrival` of the warp at `i`. */
  function BarrierArrival(warps: seq<WarpVal>, i: nat, cycle: nat): (r: Result<seq<WarpVal>>)
    requires i < |warps|
    ensures r.Ok? ==> |r.value| == |warps|
  {
    var key := BarrierKey(warps[i]);
    var arrived := warps[i := ArriveAtBarrier(warps[i])];
    if !BlockWaiting(arrived, key) then Ok(arrived)
    else if SomeCompleted(arrived, key) then Throw(MalformedBarrier)
    else Ok(ReleaseBlock(arrived, key, cycle))
  }

  // ---------------------------------------------------------------------------------------------
  // The tick

  function TickStalls(warps: seq<WarpVal>, cycle: nat): (r: seq<WarpVal>)
    ensures |r| == |warps|
  {
    seq(|warps|, i requires 0 <= i < |warps| => TickStall(warps[i], cycle))
  }

  datatype Issued = Issued(warps: seq<WarpVal>, mem: MemVal)

  /** Fetch, execute, barrier arrival and the final state update for the selected warp. */
  function Issue(k: Code, warps: seq<WarpVal>, i: nat, m: MemVal, cycle: nat): (r: Result<Issued>)
    requires i < |warps|
    ensures r.Ok? ==> |r.value.warps| == |warps|
  {
    var w := warps[i];
    if w.pc >= |k| then Ok(Issued(warps[i := w.(state := Completed)], m))
    else
      var o :- Execute(k[w.pc], w, m);
      var executed := warps[i := o.warp];
      var arrived :- if o.status == BarrierReached then BarrierArrival(executed, i, cycle) else Ok(executed);
      Ok(Issued(arrived[i := Finish(k, arrived[i], o.status, o.latency)], o.mem))
  }

  datatype Ticked = Ticked(sm: SmVal, mem: MemVal)

  /** `SM::tick`. */
  function Tick(k: Code, s: SmVal, m: MemVal): Result<Ticked> {
    if IsCompleted(s.warps) then Ok(Ticked(s, m))
    else
      var warps := TickStalls(s.warps, s.cycles);
      var c := Select(s.sched, warps);
      var s' := s.(warps := warps, cycles := s.cycles + 1, sched := c.sched);
      if c.warp.None? then Ok(Ticked(s', m))
      else
        var issued :- Issue(k, warps, c.warp.value, m, s'.cycles);
        Ok(Ticked(s'.(warps := issued.warps), issued.mem))
  }
}
