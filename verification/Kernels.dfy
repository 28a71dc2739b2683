/** The block-reduction kernel as its generator emits it, and that it passes the static check. */
module Kernels {
  import opened Common
  import opened Isa
  import opened Nesting
  import opened Structured

  /** Load an input word into shared memory, meet, and clear R19. */
  function Prologue(): (r: seq<Instruction>)
    ensures |r| == 4
  {
    [
      Instruction(LOAD, 10, 0, -1, 0),
      Instruction(STORE, -1, 10, 1, 0),
      Instruction(BARRIER, 0, 0, 0, 0),
      Instruction(MOV, 19, -1, -1, 0)
    ]
  }

  const ROUND_LENGTH := 11

  /** One reduction round: threads whose flag register is set add the cell `stride` words further on. */
  function Round(stride: nat, step: nat): (r: seq<Instruction>)
    ensures |r| == ROUND_LENGTH
  {
    [
      Instruction(SSY, -1, -1, -1, 9),
      Instruction(CMP, -1, 20 + step, 19, 0),
      Instruction(BRANCH, -1, -1, -1, 7),
      Instruction(LOAD, 10, 1, -1, 0),
      Instruction(MOV, 15, -1, -1, stride * 4),
      Instruction(ADD, 16, 1, 15, 0),
      Instruction(LOAD, 11, 16, -1, 0),
      Instruction(ADD, 12, 10, 11, 0),
      Instruction(STORE, -1, 12, 1, 0),
      Instruction(SYNC, 0, 0, 0, 0),
      Instruction(BARRIER, 0, 0, 0, 0)
    ]
  }

  function Rounds(stride: nat, step: nat): seq<Instruction>
    decreases stride
  {
    if stride == 0 then [] else Round(stride, step) + Rounds(stride / 2, step + 1)
  }

  /** How often a stride can be halved before it is zero. */
  function Halvings(stride: nat): nat { if stride == 0 then 0 else 1 + Halvings(stride / 2) }

  /** Thread 0 writes the first cell to global memory. */
  function Epilogue(): (r: seq<Instruction>)
    ensures |r| == 6
  {
    [
      Instruction(SSY, -1, -1, -1, 5),
      Instruction(CMP, -1, 3, 19, 0),
      Instruction(BRANCH, -1, -1, -1, 3),
      Instruction(LOAD, 10, 1, -1, 0),
      Instruction(STORE, -1, 10, 2, 0),
      Instruction(SYNC, 0, 0, 0, 0)
    ]
  }

  function ReductionCode(blockSize: nat): seq<Instruction> { Prologue() + Rounds(blockSize / 2, 0) + Epilogue() }

  /** Set the immediate of the instruction at `i`, once its target is known. */
  method Patch(insts: seq<Instruction>, i: nat, immediate: int) returns (patched: seq<Instruction>)
    requires i < |insts|
    ensures patched == insts[i := insts[i].(immediate := immediate)]
  {
    patched := insts[i := insts[i].(immediate := immediate)];
  }

  /** The loop body of the generator: push a round, then back-patch its SSY and BRANCH. */
  method EmitRound(insts: seq<Instruction>, stride: nat, step: nat) returns (r: seq<Instruction>)
    ensures r == insts + Round(stride, step)
  {
    var activeReg := 20 + step;
    var ssyIdx := |insts|;
    r := insts + [Instruction(SSY, -1, -1, -1, 0)];
    r := r + [Instruction(CMP, -1, activeReg, 19, 0)];
    var branchIdx := |r|;
    r := r + [Instruction(BRANCH, -1, -1, -1, 0)];
    r := r + [Instruction(LOAD, 10, 1, -1, 0)];
    r := r + [Instruction(MOV, 15, -1, -1, stride * 4)];
    r := r + [Instruction(ADD, 16, 1, 15, 0)];
    r := r + [Instruction(LOAD, 11, 16, -1, 0)];
    r := r + [Instruction(ADD, 12, 10, 11, 0)];
    r := r + [Instruction(STORE, -1, 12, 1, 0)];
    var syncLabel := |r|;
    r := Patch(r, branchIdx, syncLabel - branchIdx);
    r := Patch(r, ssyIdx, syncLabel - ssyIdx);
    r := r + [Instruction(SYNC, 0, 0, 0, 0)];
    r := r + [Instruction(BARRIER, 0, 0, 0, 0)];
  }

  method EmitEpilogue(insts: seq<Instruction>) returns (r: seq<Instruction>)
    ensures r == insts + Epilogue()
  {
    var ssyIdx := |insts|;
    r := insts + [Instruction(SSY, -1, -1, -1, 0)];
    r := r + [Instruction(CMP, -1, 3, 19, 0)];
    var branchIdx := |r|;
    r := r + [Instruction(BRANCH, -1, -1, -1, 0)];
    r := r + [Instruction(LOAD, 10, 1, -1, 0)];
    r := r + [Instruction(STORE, -1, 10, 2, 0)];
    var syncLabel := |r|;
    r := Patch(r, branchIdx, syncLabel - branchIdx);
    r := Patch(r, ssyIdx, syncLabel - ssyIdx);
    r := r + [Instruction(SYNC, 0, 0, 0, 0)];
  }

  /** `generate_reduction_kernel`. */
  method GenerateReductionKernel(blockSize: nat) returns (insts: seq<Instruction>)
    ensures insts == ReductionCode(blockSize)
  {
    hide Round, Epilogue, Prologue;
    insts := Prologue();
    var step: nat := 0;
    var stride: nat := blockSize / 2;
    while stride > 0
      invariant insts + Rounds(stride, step) == Prologue() + Rounds(blockSize / 2, 0)
      decreases stride
    {
      OneMoreRound(insts, stride, step);
      insts := EmitRound(insts, stride, step);
      step := step + 1;
      stride := stride / 2;
    }
    assert insts == insts + Rounds(0, step);
    insts := EmitEpilogue(insts);
  }

  lemma OneMoreRound(insts: seq<Instruction>, stride: nat, step: nat)
    requires stride > 0
    ensures insts + Rounds(stride, step) == insts + Round(stride, step) + Rounds(stride / 2, step + 1)
  {
    hide Round;
  }

  // ---------------------------------------------------------------------------------------------
  // The generated kernel is well structured

  /** `part` stands in `k` at `at`. */
  predicate PartAt(k: Code, part: seq<Instruction>, at: nat) {
    at + |part| <= |k| && forall i :: 0 <= i < |part| ==> k[at + i] == part[i]
  }

  /** Every instruction from `at` to `to` passes, and no region is open at either end. */
  ghost predicate Passes(k: Code, at: nat, to: nat) {
    && at <= to <= |k| && Open(k, at) == [] && Open(k, to) == []
    && forall p :: at <= p < to ==> GoodInstruction(k, p) && ForwardAt(k, p)
  }

  /** A guarded block `SSY; CMP; BRANCH; body; SYNC` whose body is neither empty nor contains control instructions. */
  predicate GuardedBlock(part: seq<Instruction>) {
    && |part| >= 5
    && part[0].opcode == SSY && part[0].immediate == |part| - 1
    && part[1].opcode == CMP
    && part[2].opcode == BRANCH && part[2].immediate == |part| - 3
    && part[|part| - 1].opcode == SYNC
    && forall i :: 3 <= i < |part| - 1 ==> part[i].opcode !in {SSY, SYNC, BRANCH, BARRIER}
  }

  lemma GuardedOpen(k: Code, part: seq<Instruction>, at: nat, i: nat)
    requires GuardedBlock(part) && PartAt(k, part, at) && Open(k, at) == [] && 1 <= i < |part|
    ensures Open(k, at + i) == [at + |part| - 1]
  {
    hide Open;
    OpenStep(k, at + i - 1);
    if i == 1 {
      assert k[at + 0] == part[0];
    } else {
      assert k[at + (i - 1)] == part[i - 1];
      GuardedOpen(k, part, at, i - 1);
    }
  }

  lemma GuardedAt(k: Code, part: seq<Instruction>, at: nat, i: nat)
    requires GuardedBlock(part) && PartAt(k, part, at) && Open(k, at) == [] && i < |part|
    ensures GoodInstruction(k, at + i) && ForwardAt(k, at + i)
  {
    hide Open;
    var last := |part| - 1;
    assert k[at + i] == part[i] && k[at + last] == part[last] && k[at + 3] == part[3];
    GuardedOpen(k, part, at, last);
    if i > 0 { GuardedOpen(k, part, at, i); }
    if i == 0 { assert k[at] == part[0]; }
  }

  /** A guarded block in a place where no region is open passes the check. */
  lemma GuardedPasses(k: Code, part: seq<Instruction>, at: nat)
    requires GuardedBlock(part) && PartAt(k, part, at) && Open(k, at) == []
    ensures Passes(k, at, at + |part|)
  {
    var last := |part| - 1;
    GuardedOpen(k, part, at, last);
    forall p | at <= p < at + |part|
      ensures GoodInstruction(k, p) && ForwardAt(k, p)
    {
      GuardedAt(k, part, at, p - at);
    }
    OpenStep(k, at + last);
    assert k[at + last] == part[last];
  }

  /** Code without SSY, SYNC and BRANCH passes where no region is open. */
  lemma PlainPasses(k: Code, at: nat, to: nat)
    requires at <= to <= |k| && Open(k, at) == []
    requires forall p :: at <= p < to ==> k[p].opcode !in {SSY, SYNC, BRANCH}
    ensures Passes(k, at, to)
    decreases if at <= to then to - at else 0
  {
    hide Open;
    if at < to {
      OpenStep(k, at);
      PlainPasses(k, at + 1, to);
    }
  }

  lemma JoinPasses(k: Code, a: nat, b: nat, c: nat)
    requires Passes(k, a, b) && Passes(k, b, c)
    ensures Passes(k, a, c)
  {
  }

  lemma PartSplit(k: Code, a: seq<Instruction>, b: seq<Instruction>, at: nat)
    requires PartAt(k, a + b, at)
    ensures PartAt(k, a, at) && PartAt(k, b, at + |a|)
  {
    assert forall i :: 0 <= i < |a| ==> (a + b)[i] == a[i];
    forall i | 0 <= i < |b|
      ensures k[at + |a| + i] == b[i]
    {
      assert (a + b)[|a| + i] == b[i];
    }
  }

  lemma RoundPasses(k: Code, stride: nat, step: nat, at: nat)
    requires PartAt(k, Round(stride, step), at) && Open(k, at) == []
    ensures Passes(k, at, at + ROUND_LENGTH)
  {
    var round := Round(stride, step);
    var guarded, barrier := round[..10], round[10..];
    assert guarded + barrier == round;
    PartSplit(k, guarded, barrier, at);
    GuardedPasses(k, guarded, at);
    assert k[at + 10 + 0] == barrier[0];
    PlainPasses(k, at + 10, at + 11);
    JoinPasses(k, at, at + 10, at + 11);
  }

  lemma NothingPasses(k: Code, at: nat)
    requires at <= |k| && Open(k, at) == []
    ensures Passes(k, at, at)
  {
  }

  lemma RoundsPass(k: Code, stride: nat, step: nat, at: nat)
    requires PartAt(k, Rounds(stride, step), at) && Open(k, at) == []
    ensures Passes(k, at, at + |Rounds(stride, step)|)
    decreases stride
  {
    hide Passes, PartAt, Round;
    if stride > 0 {
      assert Rounds(stride, step) == Round(stride, step) + Rounds(stride / 2, step + 1);
      PartSplit(k, Round(stride, step), Rounds(stride / 2, step + 1), at);
      RoundPasses(k, stride, step, at);
      EndsClosed(k, at, at + ROUND_LENGTH);
      RoundsPass(k, stride / 2, step + 1, at + ROUND_LENGTH);
      JoinPasses(k, at, at + ROUND_LENGTH, at + |Rounds(stride, step)|);
    } else {
      PartFits(k, Rounds(stride, step), at);
      NothingPasses(k, at);
    }
  }

  lemma PartFits(k: Code, part: seq<Instruction>, at: nat)
    requires PartAt(k, part, at)
    ensures at + |part| <= |k|
  {
  }

  /** For every block size the generated reduction kernel is well structured. */
  lemma ReductionWellStructured(blockSize: nat)
    requires |ReductionCode(blockSize)| < WORD
    ensures WellStructured(ReductionCode(blockSize))
  {
    var k: Code := ReductionCode(blockSize);
    assert GuardedBlock(Epilogue()) && |Epilogue()| == 6;
    ThreeParts(k, Prologue(), Rounds(blockSize / 2, 0), Epilogue());
    ThreePass(k, blockSize / 2, Epilogue());
  }

  lemma ThreeParts(k: Code, a: seq<Instruction>, b: seq<Instruction>, c: seq<Instruction>)
    requires k == a + b + c
    ensures PartAt(k, a, 0) && PartAt(k, b, |a|) && PartAt(k, c, |a| + |b|) && |k| == |a| + |b| + |c|
  {
    assert PartAt(k, a + b + c, 0);
    PartSplit(k, a + b, c, 0);
    PartSplit(k, a, b, 0);
  }

  lemma ThreePass(k: Code, stride: nat, last: seq<Instruction>)
    requires PartAt(k, Prologue(), 0) && PartAt(k, Rounds(stride, 0), 4) && PartAt(k, last, 4 + |Rounds(stride, 0)|)
    requires |k| == 4 + |Rounds(stride, 0)| + |last| && GuardedBlock(last)
    ensures WellStructured(k)
  {
    var end := 4 + |Rounds(stride, 0)|;
    assert Open(k, 0) == [];
    ProloguePasses(k);
    hide Rounds, Passes, Open, GuardedBlock, GoodInstruction, ForwardAt, WellStructured, PartAt;
    RoundsPass(k, stride, 0, 4);
    EndsClosed(k, 4, end);
    GuardedPasses(k, last, end);
    JoinPasses(k, 0, 4, end);
    JoinPasses(k, 0, end, |k|);
    PassesAll(k);
  }

  lemma ProloguePasses(k: Code)
    requires PartAt(k, Prologue(), 0)
    ensures Passes(k, 0, 4) && Open(k, 4) == []
  {
    forall p | 0 <= p < 4
      ensures k[p].opcode !in {SSY, SYNC, BRANCH}
    {
      assert k[0 + p] == Prologue()[p];
    }
    PlainPasses(k, 0, 4);
  }

  lemma EndsClosed(k: Code, at: nat, to: nat)
    requires Passes(k, at, to)
    ensures to <= |k| && Open(k, to) == []
  {
  }

  lemma PassesAll(k: Code)
    requires Passes(k, 0, |k|)
    ensures WellStructured(k)
  {
  }
}
