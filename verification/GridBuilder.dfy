/** The grid of a block reduction: `build_reduction_grid`. */
module GridBuilder {
  import opened Common
  import opened Sequences
  import opened WarpModel
  import opened MemoryModel
  import opened ExecutorModel
  import opened SmModel
  import opened Kernels
  import opened Warps

  const REGISTERS := 32

  /** The flag registers of thread `t`, from round `step` on. */
  function Flags(registers: seq<int>, stride: nat, step: nat, t: nat): (r: seq<int>)
    ensures |r| == |registers|
    decreases stride
  {
    if stride == 0 || 20 + step >= |registers| then registers
    else Flags(registers[20 + step := if t < stride then 1 else 0], stride / 2, step + 1, t)
  }

  /** The addresses of thread `t` of block `b`: its input, its shared cell and the block's output. */
  function BaseRegisters(n: nat, size: nat, b: nat, t: nat): (r: seq<int>)
    ensures |r| == REGISTERS
  {
    seq(REGISTERS, _ => 0)[0 := (b * size + t) * 4][1 := SHARED_MEM_BASE + b * size * 4 + t * 4][2 := n * 4 + b * 4]
                          [3 := if t == 0 then 1 else 0]
  }

  /** Thread `t` of block `b`, for `n` elements in blocks of `size`. */
  function ReductionThread(n: nat, size: nat, b: nat, t: nat): Thread {
    Thread(b, Flags(BaseRegisters(n, size, b, t), size / 2, 0, t), false)
  }

  function CeilDiv(x: nat, y: nat): nat
    requires y > 0
  {
    (x + y - 1) / y
  }

  /** How many of `total` fall to the `i`-th portion of `size`. */
  function Portion(total: nat, size: nat, i: nat): nat {
    if i * size <= total then Min(size, total - i * size) else 0
  }

  /** A warp after its threads were added: lanes beyond the mask's width stay inactive. */
  function BuiltWarp(id: nat, threads: seq<Thread>): WarpVal {
    FreshWarp(id, threads, id).(mask := Below(Min(|threads|, 32)))
  }

  function WarpThreads(n: nat, size: nat, ws: nat, b: nat, w: nat): (ts: seq<Thread>)
    ensures |ts| == Portion(Portion(n, size, b), ws, w)
  {
    seq(Portion(Portion(n, size, b), ws, w), l requires 0 <= l => ReductionThread(n, size, b, w * ws + l))
  }

  function ReductionBlock(n: nat, size: nat, ws: nat, b: nat): ThreadBlock
    requires ws > 0
  {
    var warps := CeilDiv(Portion(n, size, b), ws);
    ThreadBlock(b, seq(warps, w requires 0 <= w => BuiltWarp(w, WarpThreads(n, size, ws, b, w))))
  }

  function ReductionGrid(n: nat, size: nat, ws: nat): seq<ThreadBlock>
    requires size > 0 && ws > 0
  {
    seq(CeilDiv(n, size), b requires 0 <= b => ReductionBlock(n, size, ws, b))
  }

  /** Write one thread's registers; a block size of more than twelve halvings runs out of flag registers. */
  method BuildThread(n: nat, size: nat, b: nat, t: nat) returns (r: Result<Thread>)
    ensures r == if Halvings(size / 2) > 12 then Throw(OutOfRange) else Ok(ReductionThread(n, size, b, t))
  {
    var th := Thread(b, seq(REGISTERS, _ => 0), false);
    th := WriteReg(th, 0, (b * size + t) * 4).value;
    th := WriteReg(th, 1, SHARED_MEM_BASE + b * size * 4 + t * 4).value;
    th := WriteReg(th, 2, n * 4 + b * 4).value;
    th := WriteReg(th, 3, if t == 0 then 1 else 0).value;
    var step: nat := 0;
    var stride: nat := size / 2;
    while stride > 0
      invariant step <= 12 && |th.registers| == REGISTERS && th.blockId == b && !th.predicate_
      invariant step + Halvings(stride) == Halvings(size / 2)
      invariant Thread(b, Flags(th.registers, stride, step, t), false) == ReductionThread(n, size, b, t)
      decreases stride
    {
      th :- WriteReg(th, 20 + step, if t < stride then 1 else 0);
      step := step + 1;
      stride := stride / 2;
    }
    return Ok(th);
  }

  method BuildWarp(n: nat, size: nat, ws: nat, b: nat, w: nat) returns (r: Result<WarpVal>)
    ensures var threads := WarpThreads(n, size, ws, b, w);
            r == if threads != [] && Halvings(size / 2) > 12 then Throw(OutOfRange) else Ok(BuiltWarp(w, threads))
  {
    hide ReductionThread, BuiltWarp, Portion;
    var lanes := Portion(Portion(n, size, b), ws, w);
    ghost var threads := WarpThreads(n, size, ws, b, w);
    var warp := new Warp(w, w);
    NoThreads(w);
    for l := 0 to lanes
      invariant fresh(warp)
      invariant l > 0 ==> Halvings(size / 2) <= 12
      invariant warp.Abs() == BuiltWarp(w, threads[..l])
    {
      var t :- BuildThread(n, size, b, w * ws + l);
      assert threads[..l + 1] == threads[..l] + [t];
      OneThreadMore(w, threads[..l], t);
      warp.AddThread(t);
    }
    assert threads[..lanes] == threads;
    var built := warp.Snapshot();
    BuiltMarks(w, threads);
    return Ok(built);
  }

  lemma NoThreads(w: nat)
    ensures BuiltWarp(w, []) == FreshWarp(w, [], w)
  {
  }

  lemma BuiltMarks(w: nat, threads: seq<Thread>)
    ensures BuiltWarp(w, threads).arrivals == 0 && BuiltWarp(w, threads).releases == 0
  {
  }

  lemma OneThreadMore(w: nat, threads: seq<Thread>, t: Thread)
    ensures var before := BuiltWarp(w, threads);
            && before.threads == threads
            && BuiltWarp(w, threads + [t]) ==
               before.(threads := threads + [t], mask := before.mask + (if |threads| < 32 then {|threads|} else {}))
  {
    MaskGrows(|threads|);
    hide Below;
  }

  lemma MaskGrows(l: nat)
    ensures Below(Min(l + 1, 32)) == Below(Min(l, 32)) + (if l < 32 then {l} else {})
  {
    hide Below;
    var more := if l < 32 then {l} else {};
    assert forall x: nat :: x in Below(Min(l + 1, 32)) <==> x in Below(Min(l, 32)) + more;
  }

  method BuildBlock(n: nat, size: nat, ws: nat, b: nat) returns (r: Result<ThreadBlock>)
    requires ws > 0 && Portion(n, size, b) > 0
    ensures r == if Halvings(size / 2) > 12 then Throw(OutOfRange) else Ok(ReductionBlock(n, size, ws, b))
  {
    hide ReductionThread, BuiltWarp;
    var threads := Portion(n, size, b);
    var warps: seq<WarpVal> := [];
    FirstPortion(threads, ws);
    for w := 0 to CeilDiv(threads, ws)
      invariant |warps| == w && (w > 0 ==> Halvings(size / 2) <= 12)
      invariant forall i :: 0 <= i < w ==> warps[i] == BuiltWarp(i, WarpThreads(n, size, ws, b, i))
    {
      var warp :- BuildWarp(n, size, ws, b, w);
      warps := warps + [warp];
    }
    assert warps == ReductionBlock(n, size, ws, b).warps;
    return Ok(ThreadBlock(b, warps));
  }

  lemma FirstPortion(total: nat, size: nat)
    requires total > 0 && size > 0
    ensures CeilDiv(total, size) > 0 && Portion(total, size, 0) > 0
  {
  }

  /** Portions before the last are not empty. */
  lemma PortionPositive(total: nat, size: nat, i: nat)
    requires size > 0 && i < CeilDiv(total, size)
    ensures Portion(total, size, i) > 0
  {
    if total <= i * size {
      QuotientBound(total + size - 1, size, i);
    }
  }

  lemma QuotientBound(x: nat, y: nat, q: nat)
    requires y > 0 && x < (q + 1) * y
    ensures x / y <= q
  {
    if x / y > q {
      Scale(q + 1, x / y, y);
    }
  }

  lemma Scale(a: nat, b: nat, y: nat)
    requires a <= b
    ensures a * y <= b * y
  {
  }

  /** `build_reduction_grid`. */
  method BuildReductionGrid(n: nat, size: nat, ws: nat) returns (r: Result<seq<ThreadBlock>>)
    requires size > 0 && ws > 0
    ensures r == if n > 0 && Halvings(size / 2) > 12 then Throw(OutOfRange) else Ok(ReductionGrid(n, size, ws))
  {
    hide ReductionBlock;
    var blocks := CeilDiv(n, size);
    if n == 0 {
      blocks := 0;
      assert CeilDiv(n, size) == 0 by { QuotientBound(size - 1, size, 0); }
    } else {
      FirstPortion(n, size);
    }
    var grid: seq<ThreadBlock> := [];
    for b := 0 to blocks
      invariant |grid| == b && (b > 0 ==> Halvings(size / 2) <= 12)
      invariant forall i :: 0 <= i < b ==> grid[i] == ReductionBlock(n, size, ws, i)
    {
      PortionPositive(n, size, b);
      var block :- BuildBlock(n, size, ws, b);
      grid := grid + [block];
    }
    assert grid == ReductionGrid(n, size, ws);
    return Ok(grid);
  }

  /** Block `b` of the grid has id `b`, and its `w`-th warp id and priority `w`. */
  lemma GridNumbers(n: nat, size: nat, ws: nat, b: nat, w: nat)
    requires size > 0 && ws > 0 && b < |ReductionGrid(n, size, ws)| && w < |ReductionGrid(n, size, ws)[b].warps|
    ensures ReductionGrid(n, size, ws)[b].id == b
    ensures ReductionGrid(n, size, ws)[b].warps[w].id == w && ReductionGrid(n, size, ws)[b].warps[w].priority == w
  {
  }
}
