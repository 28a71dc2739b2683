/** The reduction is free of races: within a phase no thread writes a word another reads or writes. And what a block's
    shared memory holds at the barriers. */
module ReductionRaces {
  import opened Common
  import opened Isa
  import opened WarpModel
  import opened MemoryModel
  import opened ExecutorModel
  import opened Structured
  import opened SmRefinement
  import opened WarpMemory
  import opened Kernels
  import opened Halving
  import opened ReductionMath
  import opened ReductionThreads
  import opened Reduction

  /** The instruction reads the word at `a` for the thread. */
  predicate Reads(inst: Instruction, th: Thread, a: nat) {
    inst.opcode == LOAD && Address(th, inst.src1, inst.immediate) == Ok(a)
  }

  /** The instruction writes the word at `a` for the thread. */
  predicate Stores(inst: Instruction, th: Thread, a: nat) {
    inst.opcode in {STORE, ATOMIC_ADD} && Address(th, inst.src2, inst.immediate) == Ok(a)
  }

  /** The words thread `t` may read in phase `n`: its input word, its own cell, and its partner's while it adds. */
  predicate MayRead(j: Job, n: nat, t: nat, a: nat) {
    || (n == 0 && t < j.threads && a == SourceOf(j, t))
    || (n > 0 && a == CellOf(j, t))
    || (1 <= n <= j.e && t < Stride(j.size, n - 1) && a == CellOf(j, t + Stride(j.size, n - 1)))
  }

  /** The words thread `t` may write in phase `n`: its own cell, in a round only while it adds, and the output word. */
  predicate MayWrite(j: Job, n: nat, t: nat, a: nat) {
    || (n <= j.e && (n > 0 ==> t < Stride(j.size, n - 1)) && a == CellOf(j, t))
    || (n == j.e + 1 && t == 0 && a == j.out)
  }

  /** What an instruction accesses for thread `t` in phase `n`. */
  ghost predicate Accesses(j: Job, n: nat, t: nat, inst: Instruction, th: Thread) {
    && (forall a: nat :: Reads(inst, th, a) ==> MayRead(j, n, t, a))
    && (forall a: nat :: Stores(inst, th, a) ==> MayWrite(j, n, t, a))
  }

  /** A LOAD or STORE through a register that holds the address, and instructions that access nothing. */
  lemma AccessesOne(j: Job, n: nat, t: nat, inst: Instruction, th: Thread, a: nat)
    requires inst.immediate == 0 && a < WORD
    requires inst.opcode == LOAD ==>
               0 <= inst.src1 < |th.registers| && th.registers[inst.src1] == a && MayRead(j, n, t, a)
    requires inst.opcode in {STORE, ATOMIC_ADD} ==>
               0 <= inst.src2 < |th.registers| && th.registers[inst.src2] == a && MayWrite(j, n, t, a)
    ensures Accesses(j, n, t, inst, th)
  {
    hide MayRead, MayWrite;
  }

  lemma AccessesNone(j: Job, n: nat, t: nat, inst: Instruction, th: Thread)
    requires inst.opcode !in {LOAD, STORE, ATOMIC_ADD}
    ensures Accesses(j, n, t, inst, th)
  {
  }

  lemma PrologueAccesses(j: Job, n: nat, t: nat, p: nat, th: Thread)
    requires GoodJob(j) && t < j.threads && p < 4 && n == (if p < 3 then 0 else 1) && Launched(j, t, th)
    ensures Accesses(j, n, t, Prologue()[p], th)
  {
    if p == 0 {
      AccessesOne(j, n, t, Prologue()[p], th, SourceOf(j, t));
    } else if p == 1 {
      AccessesOne(j, n, t, Prologue()[p], th, CellOf(j, t));
    } else {
      AccessesNone(j, n, t, Prologue()[p], th);
    }
  }

  lemma RoundInstructions(stride: nat, step: nat, i: nat)
    requires i < 11 && i !in {3, 6, 8}
    ensures Round(stride, step)[i].opcode !in {LOAD, STORE, ATOMIC_ADD}
  {
  }

  lemma RoundAccesses(j: Job, r: nat, t: nat, i: nat, th: Thread)
    requires GoodJob(j) && t < j.threads && r < j.e && i < 11 && Launched(j, t, th) && RoundPhase(j, r, t, i, th)
    ensures Accesses(j, r + 1, t, Round(Stride(j.size, r), r)[i], th)
  {
    hide Partial, Width, RoundsOf, Round, Accesses;
    var s := Stride(j.size, r);
    var inst := Round(s, r)[i];
    if i == 3 {
      RoundLoadInsts(s, r);
      AccessesOne(j, r + 1, t, inst, th, CellOf(j, t));
    } else if i == 6 {
      RoundLoadInsts(s, r);
      StrideFits(j.size, r, t);
      assert CellOf(j, t) + s * 4 == CellOf(j, t + s);
      AccessesOne(j, r + 1, t, inst, th, CellOf(j, t + s));
    } else if i == 8 {
      RoundStoreInst(s, r);
      AccessesOne(j, r + 1, t, inst, th, CellOf(j, t));
    } else {
      RoundInstructions(s, r, i);
      AccessesNone(j, r + 1, t, inst, th);
    }
  }

  lemma EpilogueInstructions(i: nat)
    requires i < 6
    ensures i !in {3, 4} ==> Epilogue()[i].opcode !in {LOAD, STORE, ATOMIC_ADD}
    ensures Epilogue()[3] == Instruction(LOAD, 10, 1, -1, 0) && Epilogue()[4] == Instruction(STORE, -1, 10, 2, 0)
  {
  }

  lemma EpilogueAccesses(j: Job, t: nat, i: nat, th: Thread)
    requires GoodJob(j) && t < j.threads && i < 6 && Launched(j, t, th) && WritePhase(j, t, i, th)
    ensures Accesses(j, j.e + 1, t, Epilogue()[i], th)
  {
    hide Partial, Width, RoundsOf, Epilogue, Accesses;
    EpilogueInstructions(i);
    if i == 3 {
      AccessesOne(j, j.e + 1, t, Epilogue()[i], th, CellOf(j, t));
    } else if i == 4 {
      AccessesOne(j, j.e + 1, t, Epilogue()[i], th, j.out);
    } else {
      AccessesNone(j, j.e + 1, t, Epilogue()[i], th);
    }
  }

  lemma InRoundAccesses(j: Job, r: nat, t: nat, i: nat, th: Thread)
    requires GoodJob(j) && r < j.e && t < j.threads && i < 11 && GoodThread(j, r + 1, t, RoundStart(r) + i, th)
    ensures RoundStart(r) + i < |ReductionCode(j.size)| &&
            Accesses(j, r + 1, t, ReductionCode(j.size)[RoundStart(r) + i], th)
  {
    assert t < j.size;
    hide GoodJob, GoodThread, ReductionCode, Launched, RoundPhase, Accesses, Width, RoundsOf, Stride, Round;
    RoundAt(j.size, r, i);
    InRound(j, r, t, i, th);
    RoundAccesses(j, r, t, i, th);
  }

  lemma InEpilogueAccesses(j: Job, t: nat, i: nat, th: Thread)
    requires GoodJob(j) && t < j.threads && i < 6 && GoodThread(j, j.e + 1, t, RoundStart(j.e) + i, th)
    ensures RoundStart(j.e) + i < |ReductionCode(j.size)| &&
            Accesses(j, j.e + 1, t, ReductionCode(j.size)[RoundStart(j.e) + i], th)
  {
    assert t < j.size;
    hide GoodJob, GoodThread, ReductionCode, Launched, WritePhase, Accesses, Width, RoundsOf, Epilogue;
    EpilogueAt(j.size, i);
    InEpilogue(j, t, i, th);
    EpilogueAccesses(j, t, i, th);
  }

  lemma InPrologueAccesses(j: Job, n: nat, t: nat, p: nat, th: Thread)
    requires GoodJob(j) && t < j.threads && p < 4 && n == (if p < 3 then 0 else 1) && GoodThread(j, n, t, p, th)
    ensures p < |ReductionCode(j.size)| && Accesses(j, n, t, ReductionCode(j.size)[p], th)
  {
    hide ReductionCode, Launched, InPhase, Accesses, Width, RoundsOf, Prologue;
    PrologueAt(j.size, p);
    PrologueAccesses(j, n, t, p, th);
  }

  lemma ThreadAccesses(j: Job, n: nat, t: nat, p: nat, th: Thread)
    requires GoodJob(j) && t < j.threads <= j.size && p < |ReductionCode(j.size)| < WORD &&
             BarriersBefore(ReductionCode(j.size), p) == n
    requires GoodThread(j, n, t, p, th)
    ensures Accesses(j, n, t, ReductionCode(j.size)[p], th)
  {
    hide *;
    var i := PlaceInPhase(j, n, p);
    if n == 0 || (n == 1 && p == 3) {
      InPrologueAccesses(j, n, t, p, th);
    } else if n <= j.e {
      InRoundAccesses(j, n - 1, t, i, th);
    } else {
      InEpilogueAccesses(j, t, i, th);
    }
  }

  /** A word one thread writes in a phase is neither read nor written by another thread in that phase. */
  lemma Disjoint(j: Job, n: nat, t: nat, u: nat, a: nat)
    requires GoodJob(j) && t < j.threads && u < j.threads && t != u && MayWrite(j, n, u, a)
    ensures !MayRead(j, n, t, a) && !MayWrite(j, n, t, a)
  {
    hide Width, RoundsOf;
  }

  /** The thread at `at` stands at an instruction behind exactly `n` barriers. */
  ghost predicate Pending(j: Job, n: nat, c: Machine, at: Place)
    requires |ReductionCode(j.size)| < WORD
  {
    InMachine(c, at) && SoloAt(c, at).pc < |ReductionCode(j.size)| &&
      BarriersBefore(ReductionCode(j.size), SoloAt(c, at).pc) == n
  }

  /** No races: take any two moments of one phase, and two different threads, one at each. The word the one is about to
      write is not a word the other is about to read or write. */
  lemma NoRace(j: Job, ws: nat, n: nat, c: Machine, c': Machine, at: Place, b: Place, a: nat)
    requires GoodJob(j) && |ReductionCode(j.size)| < WORD && PhaseHolds(j, ws, n, c) && PhaseHolds(j, ws, n, c')
    requires Pending(j, n, c, at) && Pending(j, n, c', b) && at != b
    requires Stores(ReductionCode(j.size)[SoloAt(c', b).pc], SoloAt(c', b).thread, a)
    ensures !Reads(ReductionCode(j.size)[SoloAt(c, at).pc], SoloAt(c, at).thread, a)
    ensures !Stores(ReductionCode(j.size)[SoloAt(c, at).pc], SoloAt(c, at).thread, a)
  {
    hide GoodJob, ReductionCode, GoodThread, GoodCell, Reached, Reads, Stores, MayRead, MayWrite, InMachine, SoloAt,
         BarriersBefore;
    var t, u := Tid(ws, at), Tid(ws, b);
    assert GoodPlace(j, ws, n, c, at) && GoodPlace(j, ws, n, c', b);
    ThreadAccesses(j, n, t, SoloAt(c, at).pc, SoloAt(c, at).thread);
    ThreadAccesses(j, n, u, SoloAt(c', b).pc, SoloAt(c', b).thread);
    if t == u { TidUnique(ws, at, b); }
    Disjoint(j, n, t, u, a);
  }

  // ---------------------------------------------------------------------------------------------
  // Shared memory at the barriers

  /** The sum of the first `m` shared cells. */
  function MemorySum(j: Job, d: Data, m: nat): int {
    if m == 0 then 0 else MemorySum(j, d, m - 1) + At(d, CellOf(j, m - 1))
  }

  lemma {:induction false} MemorySums(j: Job, d: Data, r: nat, m: nat)
    requires m <= j.size
    requires forall t: nat :: t < m ==> At(d, CellOf(j, t)) == Partial(j.input, r, t)
    ensures MemorySum(j, d, m) == CellSum(j.input, r, 0, m)
  {
    hide Partial, At;
    if m > 0 { MemorySums(j, d, r, m - 1); }
  }

  /** A thread at the start of phase `n` finds its cell as `n - 1` rounds leave it. */
  lemma CellAtStart(j: Job, n: nat, t: nat, d: Data)
    requires t < j.size && 1 <= n <= j.e + 1 && GoodCell(j, n, t, PhaseStart(n), d)
    ensures At(d, CellOf(j, t)) == Partial(j.input, n - 1, t)
  {
    hide Partial;
  }

  /** When a block has met for the n-th time, the cells still in use, those below the stride of the round just made,
      sum to its whole input less what the rounds have left out. */
  lemma SharedKeepsTotal(j: Job, ws: nat, n: nat, c: Machine)
    requires GoodJob(j) && PhaseHolds(j, ws, n, c) && 1 <= n <= j.e + 1
    requires forall at: Place :: InMachine(c, at) ==> SoloAt(c, at).pc == PhaseStart(n)
    ensures MemorySum(j, c.data, Width(j.size, n - 1)) == Total(j.input) - Lost(j.input, n - 1)
  {
    hide Partial, GoodThread, GoodCell, Reached, InMachine, SoloAt, At;
    RoundKeepsTotal(j.input, n - 1);
    var m := Width(j.size, n - 1);
    forall t: nat | t < m
      ensures At(c.data, CellOf(j, t)) == Partial(j.input, n - 1, t)
    {
      if t < j.threads {
        PlaceOfTid(ws, t);
        var at := PlaceOf(ws, t);
        assert GoodPlace(j, ws, n, c, at);
        CellAtStart(j, n, t, c.data);
      } else {
        PadPartial(j, n - 1, t);
      }
    }
    MemorySums(j, c.data, n - 1, m);
  }

  /** If all threads of the block count, as they do when the block size is a power of two, nothing is ever left out. */
  lemma SharedKeepsWhole(j: Job, ws: nat, n: nat, c: Machine)
    requires GoodJob(j) && PhaseHolds(j, ws, n, c) && 1 <= n <= j.e + 1
    requires forall at: Place :: InMachine(c, at) ==> SoloAt(c, at).pc == PhaseStart(n)
    requires j.threads <= Counted(j.size)
    ensures MemorySum(j, c.data, Width(j.size, n - 1)) == Total(j.input)
  {
    hide PhaseHolds, Partial, InMachine, SoloAt, At, Lost, Counted;
    SharedKeepsTotal(j, ws, n, c);
    NothingLost(j.input, n - 1);
  }
}
