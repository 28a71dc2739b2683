/** Block reduction computes the block's sum, under every interleaving of its warps the barriers allow. */
module Reduction {
  import opened Common
  import opened Isa
  import opened Cyclic
  import opened WarpModel
  import opened MemoryModel
  import opened Structured
  import opened ScalarModel
  import opened SmRefinement
  import opened WarpMemory
  import opened Kernels
  import opened ReductionMath
  import opened ReductionThreads

  /** A block's thread number, for warps of `ws` lanes. */
  function Tid(ws: nat, at: Place): nat { ws * at.warp + at.lane }

  function PlaceOf(ws: nat, t: nat): Place
    requires ws > 0
  {
    Place(t / ws, t % ws)
  }

  /** The machine consists of the block's threads, `ws` to a warp. */
  ghost predicate Layout(j: Job, ws: nat, c: Machine) {
    && ws > 0
    && forall at: Place :: InMachine(c, at) <==> at.lane < ws && Tid(ws, at) < j.threads
  }

  /** Every thread and its cell are where phase `n` says. */
  ghost predicate GoodPlace(j: Job, ws: nat, n: nat, c: Machine, at: Place)
    requires InMachine(c, at) && Tid(ws, at) < j.size
  {
    var t, s := Tid(ws, at), SoloAt(c, at);
    && GoodThread(j, n, t, s.pc, s.thread) && GoodCell(j, n, t, s.pc, c.data) && Reached(j, n, t, s.pc, c.data)
    && (t == 0 && Written(j, n, s.pc) ==> At(c.data, j.out) == Partial(j.input, j.e, 0))
  }

  ghost predicate PhaseHolds(j: Job, ws: nat, n: nat, c: Machine) {
    && j.threads <= j.size && Layout(j, ws, c)
    && GoodGlobal(j, n, c.data) && PadsClear(j, c.data)
    && forall at: Place :: InMachine(c, at) ==> GoodPlace(j, ws, n, c, at)
  }

  lemma TidUnique(ws: nat, a: Place, b: Place)
    requires a.lane < ws && b.lane < ws && Tid(ws, a) == Tid(ws, b)
    ensures a == b
  {
    DivisionUnique(ws, a.warp, a.lane, b.warp, b.lane);
  }

  lemma PlaceOfTid(ws: nat, t: nat)
    requires ws > 0
    ensures PlaceOf(ws, t).lane < ws && Tid(ws, PlaceOf(ws, t)) == t
  {
  }

  /** What the thread at `at` can rely on, from the whole machine's invariant. */
  lemma SeesMemory(j: Job, ws: nat, n: nat, c: Machine, at: Place)
    requires GoodJob(j) && PhaseHolds(j, ws, n, c) && InMachine(c, at)
    ensures Tid(ws, at) < j.size && Visible(j, n, Tid(ws, at), SoloAt(c, at).pc, c.data)
  {
    hide Partial, InPhase, InMachine, SoloAt;
    var t := Tid(ws, at);
    assert GoodPlace(j, ws, n, c, at);
    if 1 <= n <= j.e && t < Stride(j.size, n - 1) {
      SeesPartner(j, ws, n, c, t);
    }
  }

  lemma SeesPartner(j: Job, ws: nat, n: nat, c: Machine, t: nat)
    requires GoodJob(j) && PhaseHolds(j, ws, n, c) && 1 <= n <= j.e && t < Stride(j.size, n - 1)
    ensures Reaches(j, n - 1, t)
    ensures At(c.data, CellOf(j, t + Stride(j.size, n - 1))) == Partial(j.input, n - 1, t + Stride(j.size, n - 1))
  {
    hide Partial, GoodThread, InMachine, SoloAt, PlaceOf, Reached, RoundsOf, Stride, At, CellValue, GoodPlace;
    var s := Stride(j.size, n - 1);
    StrideFits(j.size, n - 1, t);
    if t + s < j.threads {
      PlaceOfTid(ws, t + s);
      var other := PlaceOf(ws, t + s);
      PartnerCell(j, ws, n, c, other, t);
    } else {
      PadPartial(j, n - 1, t + s);
    }
  }

  /** In a round a thread's partner keeps in its cell what the rounds before have left there. */
  lemma PartnerCell(j: Job, ws: nat, n: nat, c: Machine, at: Place, t: nat)
    requires 1 <= n <= j.e && t < Stride(j.size, n - 1) && Reaches(j, n - 1, t)
    requires InMachine(c, at) && Tid(ws, at) == t + Stride(j.size, n - 1) && GoodPlace(j, ws, n, c, at)
    ensures At(c.data, CellOf(j, t + Stride(j.size, n - 1))) == Partial(j.input, n - 1, t + Stride(j.size, n - 1))
  {
    hide Partial, GoodThread, InMachine, SoloAt, Reached, RoundsOf, Stride, At;
    PartnerWaits(j, n - 1, t);
  }

  /** What the cell of a missing thread is to hold is zero, in every round. */
  lemma {:induction false} PadPartial(j: Job, r: nat, t: nat)
    requires forall u :: j.threads <= u < j.size ==> j.input[u] == 0
    requires r <= j.e && j.threads <= t < j.size
    ensures Partial(j.input, r, t) == 0
  {
    hide Width, RoundsOf, Stride;
    if r > 0 {
      PadPartial(j, r - 1, t);
      if t < Stride(j.size, r - 1) {
        StrideFits(j.size, r - 1, t);
        PadPartial(j, r - 1, t + Stride(j.size, r - 1));
      }
    }
  }

  /** The partner of an adding thread sits the round out, so its cell keeps its value all through. */
  lemma PartnerWaits(j: Job, r: nat, t: nat)
    requires r < j.e && t < Stride(j.size, r) && Reaches(j, r, t)
    ensures Partial(j.input, r + 1, t + Stride(j.size, r)) == Partial(j.input, r, t + Stride(j.size, r))
  {
  }

  // ---------------------------------------------------------------------------------------------
  // One scalar step

  /** What one step from `p` in phase `n` does. */
  ghost predicate StepsWell(j: Job, n: nat, t: nat, p: nat, th: Thread, d: Data)
  {
    && p < |ReductionCode(j.size)| < WORD && t < j.size
    && var e := ScalarExecute(ReductionCode(j.size)[p], th, d);
       var p' := NextPc(ReductionCode(j.size), p, th);
       e.Ok? ==> GoodThread(j, n, t, p', e.value.0) && Effect(j, n, t, p, d, p', e.value.1)
  }

  lemma PrologueStep(j: Job, t: nat, p: nat, th: Thread, d: Data)
    requires GoodJob(j) && t < j.size && p < 3 && GoodThread(j, 0, t, p, th) && Visible(j, 0, t, p, d)
    ensures StepsWell(j, 0, t, p, th, d)
  {
    JobFits(j);
    hide GoodJob, Visible, Effect, GoodThread, ScalarExecute, ReductionCode, NextPc, Width, RoundsOf;
    PrologueAt(j.size, p);
    PlainNext(j, p, th);
    if ScalarExecute(Prologue()[p], th, d).Ok? {
      LoadStep(j, t, p, th, d);
    }
  }

  lemma ClearingStep(j: Job, t: nat, th: Thread, d: Data)
    requires GoodJob(j) && t < j.size && GoodThread(j, 1, t, 3, th)
    ensures StepsWell(j, 1, t, 3, th, d)
  {
    JobFits(j);
    hide GoodJob, Visible, Effect, GoodThread, ScalarExecute, ReductionCode, NextPc, Width, RoundsOf;
    PrologueAt(j.size, 3);
    PlainNext(j, 3, th);
    ClearStep(j, t, th, d);
  }

  lemma InRound(j: Job, r: nat, t: nat, i: nat, th: Thread)
    requires GoodJob(j) && r < j.e && t < j.size
    ensures GoodThread(j, r + 1, t, RoundStart(r) + i, th) <==> (Launched(j, t, th) && RoundPhase(j, r, t, i, th))
  {
    hide RoundPhase, Launched;
  }

  lemma RoundThreadStep(j: Job, r: nat, t: nat, i: nat, th: Thread, d: Data)
    requires GoodJob(j) && r < j.e && t < j.size && i < 11
    requires GoodThread(j, r + 1, t, RoundStart(r) + i, th) && Visible(j, r + 1, t, RoundStart(r) + i, d)
    ensures StepsWell(j, r + 1, t, RoundStart(r) + i, th, d)
  {
    JobFits(j);
    RoundAt(j.size, r, i);
    RoundNextPc(j, r, i, th);
    InRound(j, r, t, i, th);
    hide GoodJob, Visible, Effect, GoodThread, Launched, RoundPhase, ScalarExecute, ReductionCode, NextPc, Width,
         RoundsOf, Stride, Round, RoundNext;
    var inst := Round(Stride(j.size, r), r)[i];
    if ScalarExecute(inst, th, d).Ok? {
      RoundStep(j, r, t, i, th, d);
      InRound(j, r, t, RoundNext(i, th), ScalarExecute(inst, th, d).value.0);
    }
  }

  lemma InEpilogue(j: Job, t: nat, i: nat, th: Thread)
    requires GoodJob(j) && t < j.size
    ensures GoodThread(j, j.e + 1, t, RoundStart(j.e) + i, th) <==> (Launched(j, t, th) && WritePhase(j, t, i, th))
  {
    hide WritePhase, Launched;
  }

  lemma EpilogueThreadStep(j: Job, t: nat, i: nat, th: Thread, d: Data)
    requires GoodJob(j) && t < j.size && i < 6
    requires GoodThread(j, j.e + 1, t, RoundStart(j.e) + i, th) && Visible(j, j.e + 1, t, RoundStart(j.e) + i, d)
    ensures StepsWell(j, j.e + 1, t, RoundStart(j.e) + i, th, d)
  {
    hide GoodJob, Visible, Effect, GoodThread, Launched, WritePhase, ScalarExecute, ReductionCode, NextPc, Width,
         RoundsOf, WriteNext, Partial, Epilogue, RoundStart;
    JobFits(j);
    EpilogueAt(j.size, i);
    WriteNextPc(j, i, th);
    InEpilogue(j, t, i, th);
    if ScalarExecute(Epilogue()[i], th, d).Ok? {
      WriteStep(j, t, i, th, d);
      InEpilogue(j, t, WriteNext(i, th), ScalarExecute(Epilogue()[i], th, d).value.0);
    }
  }

  /** Where `p` stands in its phase. */
  lemma PlaceInPhase(j: Job, n: nat, p: nat) returns (i: nat)
    requires p < |ReductionCode(j.size)| < WORD && BarriersBefore(ReductionCode(j.size), p) == n
    ensures n <= j.e + 1
    ensures n == 0 ==> i == p < 3
    ensures n > 0 && !(n == 1 && p == 3) ==> p == RoundStart(n - 1) + i
    ensures n > 0 && n <= j.e && !(n == 1 && p == 3) ==> i < 11
    ensures n == j.e + 1 && !(n == 1 && p == 3) ==> i < 6
  {
    hide ReductionCode, BarriersBefore;
    PhaseOf(j.size, n, p);
    CodeLength(j.size);
    i := if n == 0 then p else if p >= RoundStart(n - 1) then p - RoundStart(n - 1) else 0;
  }

  /** One step of a thread that has not passed the phase's closing barrier. */
  lemma ThreadStep(j: Job, n: nat, t: nat, p: nat, th: Thread, d: Data)
    requires GoodJob(j) && t < j.size && p < |ReductionCode(j.size)| && BarriersBefore(ReductionCode(j.size), p) == n
    requires GoodThread(j, n, t, p, th) && Visible(j, n, t, p, d)
    ensures StepsWell(j, n, t, p, th, d)
  {
    hide *;
    JobFits(j);
    var i := PlaceInPhase(j, n, p);
    if n == 0 {
      PrologueStep(j, t, p, th, d);
    } else if n == 1 && p == 3 {
      ClearingStep(j, t, th, d);
    } else if n <= j.e {
      RoundThreadStep(j, n - 1, t, i, th, d);
    } else {
      EpilogueThreadStep(j, t, i, th, d);
    }
  }

  lemma PlainNext(j: Job, p: nat, th: Thread)
    requires GoodJob(j) && p < 4
    ensures p < |ReductionCode(j.size)| && NextPc(ReductionCode(j.size), p, th) == p + 1
  {
    PrologueAt(j.size, p);
    CodeLength(j.size);
  }

  lemma RoundNextPc(j: Job, r: nat, i: nat, th: Thread)
    requires GoodJob(j) && r < j.e && i < 11
    ensures RoundStart(r) + i < |ReductionCode(j.size)|
    ensures NextPc(ReductionCode(j.size), RoundStart(r) + i, th) == RoundStart(r) + RoundNext(i, th)
  {
    hide ReductionCode, Round, GoodJob, Stride, Width, RoundsOf;
    JobFits(j);
    RoundAt(j.size, r, i);
    CodeLength(j.size);
    RoundBranch(Stride(j.size, r), r, i);
    assert RoundStart(r) + 11 <= |ReductionCode(j.size)|;
  }

  lemma RoundBranch(stride: nat, step: nat, i: nat)
    requires i < 11
    ensures Round(stride, step)[i].opcode == BRANCH <==> i == 2
    ensures i == 2 ==> Round(stride, step)[i].immediate == 7
  {
  }

  lemma WriteNextPc(j: Job, i: nat, th: Thread)
    requires GoodJob(j) && i < 6
    ensures RoundStart(j.e) + i < |ReductionCode(j.size)|
    ensures NextPc(ReductionCode(j.size), RoundStart(j.e) + i, th) == RoundStart(j.e) + WriteNext(i, th)
  {
    EpilogueAt(j.size, i);
    CodeLength(j.size);
    assert ReductionCode(j.size)[RoundStart(j.e) + i].opcode == BRANCH <==> i == 2;
  }

  /** A step of one thread leaves what another thread's place says. */
  lemma OthersKeep(j: Job, n: nat, t: nat, p: nat, d: Data, p': nat, d': Data, u: nat, q: nat)
    requires GoodJob(j) && t < j.size && u < j.size && u != t
    requires Effect(j, n, t, p, d, p', d') && GoodCell(j, n, u, q, d)
    ensures GoodCell(j, n, u, q, d')
    ensures u == 0 && Written(j, n, q) ==> At(d', j.out) == At(d, j.out)
  {
    hide Partial;
  }

  lemma GlobalKeeps(j: Job, n: nat, t: nat, p: nat, d: Data, p': nat, d': Data)
    requires GoodJob(j) && t < j.threads && Effect(j, n, t, p, d, p', d') && GoodGlobal(j, n, d) && PadsClear(j, d)
    ensures GoodGlobal(j, n, d') && PadsClear(j, d')
  {
    hide Partial;
  }

  // ---------------------------------------------------------------------------------------------
  // Addresses a thread has shown to exist

  lemma ScalarRange(inst: Instruction, th: Thread, d: Data)
    requires ScalarExecute(inst, th, d).Ok?
    ensures SameRange(d, ScalarExecute(inst, th, d).value.1)
  {
  }

  lemma StoredInRange(inst: Instruction, th: Thread, d: Data, a: nat)
    requires inst.opcode == STORE && 0 <= inst.src2 < |th.registers| && th.registers[inst.src2] == a && a < WORD
    requires inst.immediate == 0 && ScalarExecute(inst, th, d).Ok?
    ensures InRange(d, a)
  {
  }

  lemma LoadedInRange(inst: Instruction, th: Thread, d: Data, a: nat)
    requires inst.opcode == LOAD && 0 <= inst.src1 < |th.registers| && th.registers[inst.src1] == a && a < WORD
    requires inst.immediate == 0 && ScalarExecute(inst, th, d).Ok?
    ensures InRange(d, a)
  {
  }

  lemma RangeKeeps(j: Job, n: nat, t: nat, p: nat, d: Data, d': Data)
    requires Reached(j, n, t, p, d) && SameRange(d, d')
    ensures Reached(j, n, t, p, d')
  {
  }

  /** A thread that steps past its first store has shown its own cell to exist; one that steps past its first load of a
      partner, its partner's. */
  lemma StepReaches(j: Job, n: nat, t: nat, p: nat, th: Thread, d: Data)
    requires GoodJob(j) && t < j.size && p < |ReductionCode(j.size)| && BarriersBefore(ReductionCode(j.size), p) == n
    requires GoodThread(j, n, t, p, th) && Reached(j, n, t, p, d) && ScalarExecute(ReductionCode(j.size)[p], th, d).Ok?
    ensures var d' := ScalarExecute(ReductionCode(j.size)[p], th, d).value.1;
            SameRange(d, d') && Reached(j, n, t, NextPc(ReductionCode(j.size), p, th), d')
  {
    hide GoodJob, ReductionCode, BarriersBefore, ScalarExecute, NextPc, Reached, GoodThread, InRange, Width,
         RoundsOf;
    JobFits(j);
    ScalarRange(ReductionCode(j.size)[p], th, d);
    var d' := ScalarExecute(ReductionCode(j.size)[p], th, d).value.1;
    RangeKeeps(j, n, t, p, d, d');
    var i := PlaceInPhase(j, n, p);
    if n == 0 {
      PrologueReaches(j, t, p, th, d);
    } else if n == 1 && p == 3 {
      PlainNext(j, 3, th);
      EarlyReached(j, t, 3, 4, d');
    } else if n == 1 && j.e > 0 {
      FirstRoundReaches(j, t, i, th, d);
    } else {
      LateReached(j, n, t, p, NextPc(ReductionCode(j.size), p, th), d');
    }
  }

  lemma PrologueReaches(j: Job, t: nat, p: nat, th: Thread, d: Data)
    requires GoodJob(j) && t < j.size && p < 3 && GoodThread(j, 0, t, p, th) && p < |ReductionCode(j.size)|
    requires Reached(j, 0, t, p, d) && ScalarExecute(ReductionCode(j.size)[p], th, d).Ok?
    ensures Reached(j, 0, t, NextPc(ReductionCode(j.size), p, th),
            ScalarExecute(ReductionCode(j.size)[p], th, d).value.1)
  {
    hide ReductionCode, ScalarExecute, NextPc, InRange, Width, RoundsOf, InPhase;
    PlainNext(j, p, th);
    PrologueAt(j.size, p);
    ScalarRange(Prologue()[p], th, d);
    RangeKeeps(j, 0, t, p, d, ScalarExecute(Prologue()[p], th, d).value.1);
    if p == 1 {
      StoredInRange(Prologue()[1], th, d, CellOf(j, t));
      RangeSame(d, ScalarExecute(Prologue()[p], th, d).value.1, CellOf(j, t));
    }
  }

  lemma RangeSame(d: Data, d': Data, a: nat)
    requires SameRange(d, d')
    ensures InRange(d, a) <==> InRange(d', a)
  {
  }

  lemma EarlyReached(j: Job, t: nat, p: nat, p': nat, d: Data)
    requires Reached(j, 1, t, p, d) && p' < RoundStart(0) + 7
    ensures Reached(j, 1, t, p', d)
  {
  }

  lemma LateReached(j: Job, n: nat, t: nat, p: nat, p': nat, d: Data)
    requires Reached(j, n, t, p, d) &&
             (n >= 2 || (n == 1 && (j.e == 0 || p >= RoundStart(0) + 7 || t >= Stride(j.size, 0))))
    ensures Reached(j, n, t, p', d)
  {
  }

  lemma FirstRoundReaches(j: Job, t: nat, i: nat, th: Thread, d: Data)
    requires GoodJob(j) && t < j.size && j.e > 0 && i < 11 && RoundStart(0) + i < |ReductionCode(j.size)|
    requires GoodThread(j, 1, t, RoundStart(0) + i, th)
    requires Reached(j, 1, t, RoundStart(0) + i, d) &&
             ScalarExecute(ReductionCode(j.size)[RoundStart(0) + i], th, d).Ok?
    ensures Reached(j, 1, t, NextPc(ReductionCode(j.size), RoundStart(0) + i, th),
                    ScalarExecute(ReductionCode(j.size)[RoundStart(0) + i], th, d).value.1)
  {
    hide ReductionCode, ScalarExecute, NextPc, InRange, Width, RoundsOf, Partial, Reached, Round;
    var p := RoundStart(0) + i;
    InRound(j, 0, t, i, th);
    RoundNextPc(j, 0, i, th);
    RoundAt(j.size, 0, i);
    var inst := Round(Stride(j.size, 0), 0)[i];
    ScalarRange(inst, th, d);
    var d' := ScalarExecute(inst, th, d).value.1;
    RangeKeeps(j, 1, t, p, d, d');
    var p' := RoundStart(0) + RoundNext(i, th);
    if t >= Stride(j.size, 0) || i >= 7 {
      LateReached(j, 1, t, p, p', d');
    } else if i == 6 {
      RoundLoadInsts(Stride(j.size, 0), 0);
      StrideFits(j.size, 0, t);
      LoadedInRange(inst, th, d, CellOf(j, t + Stride(j.size, 0)));
      PartnerReached(j, t, p, p', d, d');
    } else {
      EarlyReached(j, t, p, p', d');
    }
  }

  lemma PartnerReached(j: Job, t: nat, p: nat, p': nat, d: Data, d': Data)
    requires j.e > 0 && Reached(j, 1, t, p, d) && SameRange(d, d') && InRange(d, CellOf(j, t + Stride(j.size, 0)))
    ensures Reached(j, 1, t, p', d')
  {
  }

  lemma OwnKeeps(j: Job, n: nat, t: nat, p: nat, d: Data, p': nat, d': Data)
    requires GoodJob(j) && t < j.size && Effect(j, n, t, p, d, p', d') && GoodCell(j, n, t, p, d)
    requires t == 0 && Written(j, n, p) ==> At(d, j.out) == Partial(j.input, j.e, 0)
    ensures GoodCell(j, n, t, p', d')
    ensures t == 0 && Written(j, n, p') ==> At(d', j.out) == Partial(j.input, j.e, 0)
  {
    hide Partial;
  }

  /** What a block may write: its cells and its output word. */
  ghost predicate InArea(j: Job, a: nat) { a == j.out || exists t: nat :: t < j.threads && a == CellOf(j, t) }

  /** Memory outside the block's area is as it was. */
  ghost predicate Sparing(j: Job, d: Data, d': Data) { forall a: nat :: !InArea(j, a) ==> At(d', a) == At(d, a) }

  lemma EffectSpares(j: Job, n: nat, t: nat, p: nat, d: Data, p': nat, d': Data)
    requires GoodJob(j) && t < j.threads && Effect(j, n, t, p, d, p', d')
    ensures Sparing(j, d, d')
  {
    hide Partial, CellValue, At;
    assert InArea(j, CellOf(j, t));
  }

  lemma SparingTrans(j: Job, d: Data, d': Data, d'': Data)
    requires Sparing(j, d, d') && Sparing(j, d', d'')
    ensures Sparing(j, d, d'')
  {
    hide InArea, At;
  }

  /** What a scalar step does to the machine: one thread moves, the others stay. */
  lemma StepShape(k: Code, c: Machine, at: Place)
    requires InMachine(c, at) && StepAt(k, c, at).Ok?
    ensures SoloAt(c, at).pc < |k|
    ensures var s := SoloAt(c, at);
            var e := ScalarExecute(k[s.pc], s.thread, c.data);
            var c' := StepAt(k, c, at).value;
            && e.Ok? && InMachine(c', at) && c'.data == e.value.1
            && SoloAt(c', at) == Solo(NextPc(k, s.pc, s.thread), e.value.0)
            && (forall b: Place :: InMachine(c', b) <==> InMachine(c, b))
            && (forall b: Place :: InMachine(c, b) && b != at ==> SoloAt(c', b) == SoloAt(c, b))
  {
    hide ScalarExecute, NextPc;
  }

  lemma OtherPlaceKeeps(j: Job, ws: nat, n: nat, c: Machine, c': Machine, at: Place, b: Place, p: nat, p': nat)
    requires GoodJob(j) && InMachine(c, at) && InMachine(c, b) && InMachine(c', b) && b != at
    requires at.lane < ws && b.lane < ws && Tid(ws, at) < j.size && Tid(ws, b) < j.size
    requires GoodPlace(j, ws, n, c, b) && SoloAt(c', b) == SoloAt(c, b) && SameRange(c.data, c'.data)
    requires Effect(j, n, Tid(ws, at), p, c.data, p', c'.data)
    ensures GoodPlace(j, ws, n, c', b)
  {
    hide GoodJob, Effect, GoodThread, GoodCell, Written, InMachine, SoloAt, Reached, SameRange;
    RangeKeeps(j, n, Tid(ws, b), SoloAt(c, b).pc, c.data, c'.data);
    if Tid(ws, b) == Tid(ws, at) { TidUnique(ws, at, b); }
    OthersKeep(j, n, Tid(ws, at), p, c.data, p', c'.data, Tid(ws, b), SoloAt(c, b).pc);
  }

  /** A scalar step of any thread still inside phase `n` keeps the phase's invariant. */
  lemma StepKeepsPhase(j: Job, ws: nat, n: nat, c: Machine, at: Place)
    requires GoodJob(j) && PhaseHolds(j, ws, n, c) && InMachine(c, at)
    requires SoloAt(c, at).pc < |ReductionCode(j.size)| && BarriersBefore(ReductionCode(j.size), SoloAt(c, at).pc) == n
    requires StepAt(ReductionCode(j.size), c, at).Ok?
    ensures PhaseHolds(j, ws, n, StepAt(ReductionCode(j.size), c, at).value)
    ensures Sparing(j, c.data, StepAt(ReductionCode(j.size), c, at).value.data)
    ensures SameRange(c.data, StepAt(ReductionCode(j.size), c, at).value.data)
  {
    hide GoodJob, Visible, Effect, GoodThread, GoodCell, GoodGlobal, PadsClear, Reached, SameRange, Written,
         ScalarExecute, ReductionCode, BarriersBefore, NextPc, StepAt, InMachine, SoloAt, Tid, Sparing;
    JobFits(j);
    var c' := StepAt(ReductionCode(j.size), c, at).value;
    var t, s := Tid(ws, at), SoloAt(c, at);
    StepShape(ReductionCode(j.size), c, at);
    var s' := SoloAt(c', at);
    SeesMemory(j, ws, n, c, at);
    assert GoodPlace(j, ws, n, c, at);
    ThreadStep(j, n, t, s.pc, s.thread, c.data);
    StepReaches(j, n, t, s.pc, s.thread, c.data);
    GlobalKeeps(j, n, t, s.pc, c.data, s'.pc, c'.data);
    EffectSpares(j, n, t, s.pc, c.data, s'.pc, c'.data);
    OwnKeeps(j, n, t, s.pc, c.data, s'.pc, c'.data);
    forall b: Place | InMachine(c', b)
      ensures GoodPlace(j, ws, n, c', b)
    {
      if b != at {
        assert GoodPlace(j, ws, n, c, b);
        OtherPlaceKeeps(j, ws, n, c, c', at, b, s.pc, s'.pc);
      }
    }
  }

  lemma JobFits(j: Job)
    requires GoodJob(j)
    ensures |ReductionCode(j.size)| < WORD && 0 < j.threads <= j.size
  {
  }
}
