/** One thread of the reduction kernel: what its registers hold at every point, and what each step does. */
module ReductionThreads {
  import opened Common
  import opened Isa
  import opened WarpModel
  import opened MemoryModel
  import opened ScalarModel
  import opened Kernels
  import opened ReductionMath
  import opened WarpMemory

  /** One block: how many threads it has (the last block of a grid may have fewer than the block size), its input, one
      word per thread with zeros where threads are missing, and where its input, its shared cells and its output word
      are. */
  datatype Job = Job(threads: nat, input: seq<int>, source: nat, cells: nat, out: nat)
  {
    const size: nat := |input|
    const e: nat := RoundsOf(|input|)
  }

  /** The grid builder's address assignment, for a block that has flag registers for every round. */
  ghost predicate GoodJob(j: Job) {
    && j.e <= 12 && 0 < j.threads <= j.size
    && (forall t :: j.threads <= t < j.size ==> j.input[t] == 0)
    && j.source + 4 * (j.threads - 1) < SHARED_MEM_BASE
    && j.out < SHARED_MEM_BASE
    && SHARED_MEM_BASE + j.cells + 4 * j.size < WORD
    && |ReductionCode(j.size)| < WORD
  }

  function SourceOf(j: Job, t: nat): nat { j.source + 4 * t }

  function CellOf(j: Job, t: nat): nat { SHARED_MEM_BASE + j.cells + 4 * t }

  /** The registers the grid builder sets and the kernel never writes. */
  ghost predicate Launched(j: Job, t: nat, th: Thread) {
    && |th.registers| == 32 && j.e <= 12
    && th.registers[0] == SourceOf(j, t)
    && th.registers[1] == CellOf(j, t)
    && th.registers[2] == j.out
    && th.registers[3] == (if t == 0 then 1 else 0)
    && forall r :: 0 <= r < j.e ==> th.registers[20 + r] == (if t < Stride(j.size, r) then 1 else 0)
  }

  /** In phase 0 (before the first barrier), at `p`. */
  ghost predicate LoadPhase(j: Job, t: nat, p: nat, th: Thread)
    requires t < j.size && |th.registers| == 32
  {
    p <= 3 && (p == 1 ==> th.registers[10] == j.input[t])
  }

  /** In round `r`, at offset `i`; offset 11 is just past the round's barrier. */
  ghost predicate RoundPhase(j: Job, r: nat, t: nat, i: nat, th: Thread)
    requires r < j.e && t < j.size && |th.registers| == 32
  {
    var s := Stride(j.size, r);
    && i <= 11 && th.registers[19] == 0
    && (i == 2 ==> (th.predicate_ <==> t >= s))
    && (3 <= i <= 8 ==> t < s)
    && (4 <= i <= 8 ==> th.registers[10] == Partial(j.input, r, t))
    && (5 <= i <= 8 ==> th.registers[15] == s * 4)
    && (6 <= i <= 8 ==> th.registers[16] == CellOf(j, t) + s * 4)
    && (7 <= i <= 8 ==> Reaches(j, r, t) && th.registers[11] == Partial(j.input, r, t + s))
    && (i == 8 ==> (Reaches(j, r, t) && th.registers[12] == Partial(j.input, r, t) + Partial(j.input, r, t + s)))
  }

  predicate Reaches(j: Job, r: nat, t: nat)
    requires r < j.e
  {
    t + Stride(j.size, r) < j.size
  }

  /** In the epilogue, at offset `i`. */
  ghost predicate WritePhase(j: Job, t: nat, i: nat, th: Thread)
    requires j.size > 0 && |th.registers| == 32
  {
    && i <= 6 && th.registers[19] == 0
    && (i == 2 ==> (th.predicate_ <==> t != 0))
    && (3 <= i <= 4 ==> t == 0)
    && (i == 4 ==> th.registers[10] == Partial(j.input, j.e, 0))
  }

  /** In phase `n`, at `p`. */
  ghost predicate InPhase(j: Job, n: nat, t: nat, p: nat, th: Thread)
    requires t < j.size && |th.registers| == 32
  {
    if n == 0 then LoadPhase(j, t, p, th)
    else if n == 1 && p == 3 then true
    else if n <= j.e then RoundStart(n - 1) <= p && RoundPhase(j, n - 1, t, p - RoundStart(n - 1), th)
    else n == j.e + 1 && RoundStart(j.e) <= p && WritePhase(j, t, p - RoundStart(j.e), th)
  }

  ghost predicate GoodThread(j: Job, n: nat, t: nat, p: nat, th: Thread)
    requires t < j.size
  {
    Launched(j, t, th) && InPhase(j, n, t, p, th)
  }

  /** What cell `t` holds while thread `t` is at `p` in phase `n`; nothing is known before its first store. */
  function CellValue(j: Job, n: nat, t: nat, p: nat): Option<int>
    requires t < j.size
  {
    if n == 0 then (if p >= 2 then Some(j.input[t]) else None)
    else if n <= j.e then Some(Partial(j.input, if p >= RoundStart(n - 1) + 9 then n else n - 1, t))
    else Some(Partial(j.input, j.e, t))
  }

  ghost predicate GoodCell(j: Job, n: nat, t: nat, p: nat, d: Data)
    requires t < j.size
  {
    var v := CellValue(j, n, t, p);
    v.Some? ==> At(d, CellOf(j, t)) == v.value
  }

  /** Input words are in place until the first barrier; the result is in place once thread 0 has written it. */
  ghost predicate GoodGlobal(j: Job, n: nat, d: Data)
    requires j.threads <= j.size
  {
    n == 0 ==> forall t :: 0 <= t < j.threads ==> At(d, SourceOf(j, t)) == j.input[t]
  }

  /** The cells of missing threads are zero. */
  ghost predicate PadsClear(j: Job, d: Data) {
    forall t: nat :: j.threads <= t < j.size ==> At(d, CellOf(j, t)) == 0
  }

  /** The shared addresses thread `t` is known to have accessed when it is at `p` in phase `n`: its own cell from its
      first store on, and its partner's in the first round. */
  predicate Reached(j: Job, n: nat, t: nat, p: nat, d: Data) {
    && (n > 0 || p >= 2 ==> InRange(d, CellOf(j, t)))
    && (j.e > 0 && t < Stride(j.size, 0) && (n >= 2 || (n == 1 && p >= RoundStart(0) + 7)) ==>
          InRange(d, CellOf(j, t + Stride(j.size, 0))))
  }

  predicate Written(j: Job, n: nat, p: nat) { n == j.e + 1 && p >= RoundStart(j.e) + 5 }

  // ---------------------------------------------------------------------------------------------
  // Single instructions

  lemma LoadEffect(inst: Instruction, th: Thread, d: Data, a: nat)
    requires inst.opcode == LOAD && 0 <= inst.src1 < |th.registers| && th.registers[inst.src1] == a && a < WORD
    requires inst.immediate == 0 && 0 <= inst.dst < |th.registers|
    requires ScalarExecute(inst, th, d).Ok?
    ensures ScalarExecute(inst, th, d).value == (th.(registers := th.registers[inst.dst := At(d, a)]), d)
  {
  }

  lemma StoreEffect(inst: Instruction, th: Thread, d: Data, a: nat, x: nat)
    requires inst.opcode == STORE && 0 <= inst.src2 < |th.registers| && th.registers[inst.src2] == a && a < WORD
    requires inst.immediate == 0 && 0 <= inst.src1 < |th.registers|
    requires ScalarExecute(inst, th, d).Ok?
    ensures ScalarExecute(inst, th, d).value.0 == th
    ensures At(ScalarExecute(inst, th, d).value.1, x) == if x == a then th.registers[inst.src1] else At(d, x)
  {
    StoreOne(d, a, th.registers[inst.src1], x);
  }

  /** A step that leaves memory alone. */
  ghost predicate Quiet(d: Data, d': Data) { d == d' }

  /** A step that writes one word. */
  ghost predicate Writes(d: Data, d': Data, a: nat, v: int) {
    forall x: nat :: At(d', x) == if x == a then v else At(d, x)
  }

  /** What a step of thread `t` may do to memory: nothing, its own cell, or, for thread 0 at the end, the output. */
  ghost predicate Effect(j: Job, n: nat, t: nat, p: nat, d: Data, p': nat, d': Data)
    requires t < j.size
  {
    || (Quiet(d, d') && CellValue(j, n, t, p') == CellValue(j, n, t, p) &&
      (Written(j, n, p') && t == 0 ==> Written(j, n, p)))
    || (CellValue(j, n, t, p').Some? && Writes(d, d', CellOf(j, t), CellValue(j, n, t, p').value) && !Written(j, n, p'))
    || (t == 0 && n == j.e + 1 && Writes(d, d', j.out, Partial(j.input, j.e, 0)))
  }

  /** Memory facts a step may use. */
  ghost predicate Visible(j: Job, n: nat, t: nat, p: nat, d: Data)
    requires t < j.size
  {
    && (n == 0 ==> At(d, SourceOf(j, t)) == j.input[t]) && GoodCell(j, n, t, p, d)
    && (1 <= n <= j.e && t < Stride(j.size, n - 1) ==>
          Reaches(j, n - 1, t) &&
          At(d, CellOf(j, t + Stride(j.size, n - 1))) == Partial(j.input, n - 1, t + Stride(j.size, n - 1)))
  }

  lemma LoadStep(j: Job, t: nat, p: nat, th: Thread, d: Data)
    requires GoodJob(j) && t < j.size && p < 3 && GoodThread(j, 0, t, p, th) && Visible(j, 0, t, p, d)
    requires ScalarExecute(Prologue()[p], th, d).Ok?
    ensures var (th', d') := ScalarExecute(Prologue()[p], th, d).value;
            GoodThread(j, 0, t, p + 1, th') && Effect(j, 0, t, p, d, p + 1, d')
  {
    if p == 0 {
      LoadEffect(Prologue()[0], th, d, SourceOf(j, t));
    } else if p == 1 {
      var d' := ScalarExecute(Prologue()[1], th, d).value.1;
      forall x: nat
        ensures At(d', x) == if x == CellOf(j, t) then j.input[t] else At(d, x)
      {
        StoreEffect(Prologue()[1], th, d, CellOf(j, t), x);
      }
      StoreEffect(Prologue()[1], th, d, CellOf(j, t), 0);
    }
  }

  lemma ClearStep(j: Job, t: nat, th: Thread, d: Data)
    requires GoodJob(j) && t < j.size && GoodThread(j, 1, t, 3, th)
    ensures ScalarExecute(Prologue()[3], th, d).Ok?
    ensures var (th', d') := ScalarExecute(Prologue()[3], th, d).value;
            GoodThread(j, 1, t, 4, th') && Effect(j, 1, t, 3, d, 4, d')
  {
  }

  /** Where a thread goes from offset `i` of a round. */
  function RoundNext(i: nat, th: Thread): nat { if i == 2 && th.predicate_ then 9 else i + 1 }

  lemma RoundControl(j: Job, r: nat, t: nat, i: nat, th: Thread, d: Data)
    requires GoodJob(j) && r < j.e && t < j.size && i in {0, 1, 2, 9, 10}
    requires Launched(j, t, th) && RoundPhase(j, r, t, i, th)
    ensures ScalarExecute(Round(Stride(j.size, r), r)[i], th, d).Ok?
    ensures var (th', d') := ScalarExecute(Round(Stride(j.size, r), r)[i], th, d).value;
            && d' == d && Launched(j, t, th') && RoundPhase(j, r, t, RoundNext(i, th), th')
            && (RoundNext(i, th) >= 9 <==> i >= 9 || (t >= Stride(j.size, r) && i == 2))
  {
    hide Partial;
    var inst := Round(Stride(j.size, r), r)[i];
    if i == 1 {
      assert inst == Instruction(CMP, -1, 20 + r, 19, 0);
      assert th.registers[20 + r] == if t < Stride(j.size, r) then 1 else 0;
    }
  }

  /** A STORE through R1 writes the thread's own cell. */
  lemma StoreWrites(j: Job, t: nat, inst: Instruction, th: Thread, d: Data)
    requires GoodJob(j) && t < j.size && |th.registers| == 32 && th.registers[1] == CellOf(j, t)
    requires inst.opcode == STORE && inst.src2 == 1 && 0 <= inst.src1 < 32 && inst.immediate == 0
    requires ScalarExecute(inst, th, d).Ok?
    ensures ScalarExecute(inst, th, d).value.0 == th
    ensures Writes(d, ScalarExecute(inst, th, d).value.1, CellOf(j, t), th.registers[inst.src1])
  {
    var d' := ScalarExecute(inst, th, d).value.1;
    StoreEffect(inst, th, d, CellOf(j, t), 0);
    forall x: nat
      ensures At(d', x) == if x == CellOf(j, t) then th.registers[inst.src1] else At(d, x)
    {
      StoreEffect(inst, th, d, CellOf(j, t), x);
    }
  }

  lemma RoundLoadInsts(stride: nat, step: nat)
    ensures Round(stride, step)[3] == Instruction(LOAD, 10, 1, -1, 0)
    ensures Round(stride, step)[6] == Instruction(LOAD, 11, 16, -1, 0)
  {
  }

  lemma LoadsOwnCell(j: Job, r: nat, t: nat, th: Thread, d: Data)
    requires GoodJob(j) && r < j.e && t < j.size
    requires Launched(j, t, th) && RoundPhase(j, r, t, 3, th) && Visible(j, r + 1, t, RoundStart(r) + 3, d)
    requires ScalarExecute(Instruction(LOAD, 10, 1, -1, 0), th, d).Ok?
    ensures var (th', d') := ScalarExecute(Instruction(LOAD, 10, 1, -1, 0), th, d).value;
            d' == d && Launched(j, t, th') && RoundPhase(j, r, t, 4, th')
  {
    hide Partial, ScalarExecute, Stride, Width, RoundsOf;
    LoadEffect(Instruction(LOAD, 10, 1, -1, 0), th, d, CellOf(j, t));
  }

  lemma LoadsPartner(j: Job, r: nat, t: nat, th: Thread, d: Data)
    requires GoodJob(j) && r < j.e && t < j.size
    requires Launched(j, t, th) && RoundPhase(j, r, t, 6, th) && Visible(j, r + 1, t, RoundStart(r) + 6, d)
    requires ScalarExecute(Instruction(LOAD, 11, 16, -1, 0), th, d).Ok?
    ensures var (th', d') := ScalarExecute(Instruction(LOAD, 11, 16, -1, 0), th, d).value;
            d' == d && Launched(j, t, th') && RoundPhase(j, r, t, 7, th')
  {
    hide Partial, ScalarExecute, Stride, Width, RoundsOf, GoodCell;
    var s := Stride(j.size, r);
    assert CellOf(j, t) + s * 4 == CellOf(j, t + s);
    assert t < Stride(j.size, (r + 1) - 1) && Reaches(j, r, t);
    LoadEffect(Instruction(LOAD, 11, 16, -1, 0), th, d, CellOf(j, t + s));
  }

  lemma RoundLoads(j: Job, r: nat, t: nat, i: nat, th: Thread, d: Data)
    requires GoodJob(j) && r < j.e && t < j.size && i in {3, 6}
    requires Launched(j, t, th) && RoundPhase(j, r, t, i, th)
    requires Visible(j, r + 1, t, RoundStart(r) + i, d)
    requires ScalarExecute(Round(Stride(j.size, r), r)[i], th, d).Ok?
    ensures var (th', d') := ScalarExecute(Round(Stride(j.size, r), r)[i], th, d).value;
            d' == d && Launched(j, t, th') && RoundPhase(j, r, t, i + 1, th')
  {
    RoundLoadInsts(Stride(j.size, r), r);
    hide Partial, Round, ScalarExecute, Stride, Width, RoundsOf, Visible, RoundPhase, Launched, GoodJob;
    if i == 3 {
      LoadsOwnCell(j, r, t, th, d);
    } else {
      LoadsPartner(j, r, t, th, d);
    }
  }

  lemma RoundArithmetic(j: Job, r: nat, t: nat, i: nat, th: Thread, d: Data)
    requires GoodJob(j) && r < j.e && t < j.size && i in {4, 5, 7}
    requires Launched(j, t, th) && RoundPhase(j, r, t, i, th)
    ensures ScalarExecute(Round(Stride(j.size, r), r)[i], th, d).Ok?
    ensures var (th', d') := ScalarExecute(Round(Stride(j.size, r), r)[i], th, d).value;
            d' == d && Launched(j, t, th') && RoundPhase(j, r, t, i + 1, th')
  {
    hide Partial;
    var s := Stride(j.size, r);
    var inst := Round(s, r)[i];
    if i == 4 {
      assert inst == Instruction(MOV, 15, -1, -1, s * 4);
    } else if i == 5 {
      assert inst == Instruction(ADD, 16, 1, 15, 0);
    } else {
      assert inst == Instruction(ADD, 12, 10, 11, 0);
    }
  }

  lemma Combines(input: seq<int>, r: nat, t: nat)
    requires t < Stride(|input|, r) && t + Stride(|input|, r) < |input|
    ensures Partial(input, r + 1, t) == Partial(input, r, t) + Partial(input, r, t + Stride(|input|, r))
  {
    hide Stride, Width, RoundsOf;
  }

  lemma SumStored(j: Job, r: nat, t: nat, th: Thread)
    requires GoodJob(j) && r < j.e && t < j.size && |th.registers| == 32 && RoundPhase(j, r, t, 8, th)
    ensures th.registers[12] == Partial(j.input, r + 1, t)
    ensures RoundPhase(j, r, t, 9, th)
  {
    hide Partial, Stride, Width, RoundsOf;
    Combines(j.input, r, t);
  }

  lemma RoundStoreInst(stride: nat, step: nat)
    ensures Round(stride, step)[8] == Instruction(STORE, -1, 12, 1, 0)
  {
  }

  lemma RoundStores(j: Job, r: nat, t: nat, th: Thread, d: Data)
    requires GoodJob(j) && r < j.e && t < j.size
    requires Launched(j, t, th) && RoundPhase(j, r, t, 8, th)
    requires ScalarExecute(Round(Stride(j.size, r), r)[8], th, d).Ok?
    ensures var (th', d') := ScalarExecute(Round(Stride(j.size, r), r)[8], th, d).value;
            && th' == th && RoundPhase(j, r, t, 9, th')
            && Writes(d, d', CellOf(j, t), Partial(j.input, r + 1, t))
  {
    SumStored(j, r, t, th);
    RoundStoreInst(Stride(j.size, r), r);
    hide Partial, Round, ScalarExecute, Stride, Writes;
    StoreWrites(j, t, Round(Stride(j.size, r), r)[8], th, d);
  }

  /** One step of one thread inside a round. */
  lemma RoundStep(j: Job, r: nat, t: nat, i: nat, th: Thread, d: Data)
    requires GoodJob(j) && r < j.e && t < j.size && i < 11
    requires Launched(j, t, th) && RoundPhase(j, r, t, i, th) && Visible(j, r + 1, t, RoundStart(r) + i, d)
    requires ScalarExecute(Round(Stride(j.size, r), r)[i], th, d).Ok?
    ensures var (th', d') := ScalarExecute(Round(Stride(j.size, r), r)[i], th, d).value;
            && Launched(j, t, th') && RoundPhase(j, r, t, RoundNext(i, th), th')
            && Effect(j, r + 1, t, RoundStart(r) + i, d, RoundStart(r) + RoundNext(i, th), d')
  {
    hide RoundPhase, Launched, Visible;
    if i in {0, 1, 2, 9, 10} {
      RoundControl(j, r, t, i, th, d);
      SkippedCell(j, r, t);
    } else if i in {3, 6} {
      RoundLoads(j, r, t, i, th, d);
    } else if i == 8 {
      RoundStores(j, r, t, th, d);
    } else {
      RoundArithmetic(j, r, t, i, th, d);
    }
  }

  /** A thread that sits a round out already has the value its cell is to hold. */
  lemma SkippedCell(j: Job, r: nat, t: nat)
    requires r < j.e && t < j.size
    ensures t >= Stride(j.size, r) ==> Partial(j.input, r + 1, t) == Partial(j.input, r, t)
  {
  }

  function WriteNext(i: nat, th: Thread): nat { if i == 2 && th.predicate_ then 5 else i + 1 }

  /** One step of one thread in the epilogue. */
  lemma WriteStep(j: Job, t: nat, i: nat, th: Thread, d: Data)
    requires GoodJob(j) && t < j.size && i < 6
    requires Launched(j, t, th) && WritePhase(j, t, i, th) && Visible(j, j.e + 1, t, RoundStart(j.e) + i, d)
    requires ScalarExecute(Epilogue()[i], th, d).Ok?
    ensures var (th', d') := ScalarExecute(Epilogue()[i], th, d).value;
            && Launched(j, t, th') && WritePhase(j, t, WriteNext(i, th), th')
            && Effect(j, j.e + 1, t, RoundStart(j.e) + i, d, RoundStart(j.e) + WriteNext(i, th), d')
  {
    hide Partial;
    if i == 3 {
      LoadEffect(Epilogue()[3], th, d, CellOf(j, 0));
    } else if i == 4 {
      var d' := ScalarExecute(Epilogue()[4], th, d).value.1;
      forall x: nat
        ensures At(d', x) == if x == j.out then th.registers[10] else At(d, x)
      {
        StoreEffect(Epilogue()[4], th, d, j.out, x);
      }
      StoreEffect(Epilogue()[4], th, d, j.out, 0);
    }
  }
}
